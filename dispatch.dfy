/**
 * What `handle` answers, request by request: the method check comes first,
 * an escape from the root is indistinguishable from a missing path, a
 * directory is redirected to its slash form and then served by its
 * `index.html`, a file is served with a content type chosen from its name,
 * and nothing outside the root is ever looked at or served.
 */
module Dispatch {
  import opened Wrappers
  import opened Strings
  import opened Paths
  import opened Server

  /** A token of a start line: nonempty, no whitespace. */
  predicate IsWord(w: string) {
    IsToken(w, IsSpace)
  }

  /** A start line as a client sends it: method, request target and version, separated by spaces. */
  function RequestLine(verb: string, target: string, version: string): string {
    verb + " " + target + " " + version
  }

  lemma RequestLineWords(verb: string, target: string, version: string)
    requires IsWord(verb) && IsWord(target) && IsWord(version)
    ensures Words(RequestLine(verb, target, version)) == [verb, target, version]
  {
    var ws := [verb, target, version];
    assert JoinWith(ws[1..], ' ') == target + [' '] + version;
    assert JoinWith(ws, ' ') == RequestLine(verb, target, version);
    TokensOfJoin(ws, ' ', IsSpace);
  }

  /** A well-formed GET is answered by the target alone, whatever the version. */
  lemma GetDispatched(root: Path, target: string, version: string, fs: FileSystem)
    requires IsWord(target) && IsWord(version)
    ensures Respond(root, RequestLine("GET", target, version), fs) == GetResponse(root, target, fs)
  {
    RequestLineWords("GET", target, version);
  }

  /**
   * A start line with a single token raises before the method is even
   * looked at: nothing is written, whatever the method.
   */
  lemma OneTokenDropped(root: Path, verb: string, fs: FileSystem)
    requires IsWord(verb)
    ensures Respond(root, verb, fs) == Dropped
  {
    TokensOfJoin([verb], ' ', IsSpace);
  }

  /** Any method but GET gets 405, whatever the path and the filesystem. */
  lemma NonGetNotAllowed(root: Path, verb: string, target: string, version: string, fs: FileSystem)
    requires IsWord(verb) && IsWord(target) && IsWord(version)
    requires verb != "GET"
    ensures Respond(root, RequestLine(verb, target, version), fs) == Empty(StatusNotAllowed)
  {
    RequestLineWords(verb, target, version);
  }

  /**
   * A GET whose path climbs out of the root and does not come back into it
   * gets 404, exactly like a missing path, whatever the filesystem holds.
   */
  lemma EscapeNotFound(root: Path, target: string, version: string, fs: FileSystem)
    requires Normal(root)
    requires IsWord(target) && IsWord(version)
    requires !Reenters(root, Normalize(Segments(target)))
    ensures Respond(root, RequestLine("GET", target, version), fs) == Empty(StatusNotFound)
  {
    GetDispatched(root, target, version, fs);
    SecurePathReference(root, target);
  }

  /** A climbing request target is one word when its names hold no whitespace. */
  lemma ClimbingRequestWord(n: nat, names: seq<string>)
    requires forall i :: 0 <= i < |names| ==> NoSep(names[i], IsSpace)
    ensures IsWord(ClimbingRequest(n, names))
  {
    var ws := Repeat("..", n) + names;
    forall i | 0 <= i < |ws| ensures NoSep(ws[i], IsSpace) {
      if i >= n {
        assert ws[i] == names[i - n];
      }
    }
    JoinNoSep(ws, '/', IsSpace);
    var t := ClimbingRequest(n, names);
    forall i | 0 <= i < |t| ensures !IsSpace(t[i]) {
      if i > 0 {
        assert t[i] == JoinWith(ws, '/')[i - 1];
      }
    }
  }

  /**
   * A GET that climbs at least as many levels as the root is deep, and then
   * names anything other than a path into the root, gets 404.
   */
  lemma TraversalNotFound(root: Path, n: nat, names: seq<string>, version: string, fs: FileSystem)
    requires Normal(root) && Normal(names) && n >= |root| && !(root <= names)
    requires forall i :: 0 <= i < |names| ==> NoSep(names[i], IsSpace)
    requires IsWord(version)
    ensures Respond(root, RequestLine("GET", ClimbingRequest(n, names), version), fs) == Empty(StatusNotFound)
  {
    ClimbingRequestWord(n, names);
    TraversalRejected(root, n, names);
    GetDispatched(root, ClimbingRequest(n, names), version, fs);
  }

  /** A GET for a directory whose path lacks the trailing slash is redirected to the path plus `/`. */
  lemma DirectoryRedirected(root: Path, target: string, version: string, fs: FileSystem)
    requires IsWord(target) && IsWord(version)
    requires SecurePath(root, target).Some? && IsDir(fs, SecurePath(root, target).value)
    requires !EndsWith(target, "/")
    ensures Respond(root, RequestLine("GET", target, version), fs) == Redirect(target + "/")
  {
    GetDispatched(root, target, version, fs);
  }

  /**
   * A GET for a directory with the trailing slash serves the directory's
   * `index.html` as text/html, or 404 when there is none.
   */
  lemma DirectoryIndex(root: Path, target: string, version: string, fs: FileSystem)
    requires IsWord(target) && IsWord(version)
    requires SecurePath(root, target).Some? && IsDir(fs, SecurePath(root, target).value)
    requires EndsWith(target, "/")
    ensures var index := SecurePath(root, target).value + [IndexFile];
      var r := Respond(root, RequestLine("GET", target, version), fs);
      && (IsFile(fs, index) ==> r == Served("text/html", fs[index].content))
      && (index !in fs ==> r == Empty(StatusNotFound))
  {
    GetDispatched(root, target, version, fs);
  }

  /** A GET for a regular file serves its bytes with the content type its name selects. */
  lemma FileServed(root: Path, target: string, version: string, fs: FileSystem)
    requires IsWord(target) && IsWord(version)
    requires SecurePath(root, target).Some? && IsFile(fs, SecurePath(root, target).value)
    ensures var p := SecurePath(root, target).value;
      Respond(root, RequestLine("GET", target, version), fs) == Served(ContentType(PathString(p)), fs[p].content)
  {
    GetDispatched(root, target, version, fs);
  }

  /** A GET for a path inside the root that does not exist gets 404. */
  lemma MissingNotFound(root: Path, target: string, version: string, fs: FileSystem)
    requires IsWord(target) && IsWord(version)
    requires SecurePath(root, target).Some? && SecurePath(root, target).value !in fs
    ensures Respond(root, RequestLine("GET", target, version), fs) == Empty(StatusNotFound)
  {
    GetDispatched(root, target, version, fs);
  }

  /** The content type of a served file depends only on the file's own name. */
  lemma ContentTypeByName(p: Path)
    requires Normal(p) && p != []
    ensures var t, name := ContentType(PathString(p)), p[|p| - 1];
      && (t == "text/html" <==> EndsWith(name, ".html"))
      && (t == "text/css" <==> !EndsWith(name, ".html") && EndsWith(name, ".css"))
      && (t == "" <==> !EndsWith(name, ".html") && !EndsWith(name, ".css"))
  {
    EndsWithLastSegment(p, ".html");
    EndsWithLastSegment(p, ".css");
  }

  /** A path made only of slashes. */
  function Slashes(k: nat): (s: string)
    ensures |s| == k && forall i :: 0 <= i < k ==> s[i] == '/'
  {
    if k == 0 then [] else ['/'] + Slashes(k - 1)
  }

  lemma {:induction false} SlashesNoSegments(k: nat)
    ensures Segments(Slashes(k)) == []
  {
    if k > 0 {
      SlashesNoSegments(k - 1);
      TokensLeadingSep('/', Slashes(k - 1), IsSlash);
    }
  }

  /** A path of slashes only is the root itself, in its slash form. */
  lemma SlashesAccepted(root: Path, k: nat)
    requires Normal(root) && k > 0
    ensures SecurePath(root, Slashes(k)) == Some(root)
    ensures EndsWith(Slashes(k), "/")
  {
    SlashesNoSegments(k);
    NoClimbAccepted(root, Slashes(k));
    assert root + [] == root;
    assert Slashes(k)[k - 1..] == "/";
  }

  /** GET `/` (or `//`, ...) is the root itself, and serves the root's `index.html`. */
  lemma RootServesIndex(root: Path, k: nat, version: string, fs: FileSystem)
    requires Normal(root) && k > 0 && IsWord(version)
    requires IsDir(fs, root)
    ensures SecurePath(root, Slashes(k)) == Some(root)
    ensures var index := root + [IndexFile];
      var r := Respond(root, RequestLine("GET", Slashes(k), version), fs);
      && (IsFile(fs, index) ==> r == Served("text/html", fs[index].content))
      && (index !in fs ==> r == Empty(StatusNotFound))
  {
    SlashesAccepted(root, k);
    DirectoryIndex(root, Slashes(k), version, fs);
  }

  /** The part of a filesystem at and below `root`. */
  function Under(fs: FileSystem, root: Path): FileSystem {
    map q | q in fs && root <= q :: fs[q]
  }

  /**
   * The response never depends on anything outside the root: the answer
   * against the whole filesystem is the answer against the root's subtree.
   */
  lemma RootSubtreeOnly(root: Path, startLine: string, fs: FileSystem)
    ensures Respond(root, startLine, fs) == Respond(root, startLine, Under(fs, root))
  {
    var tokens := Words(startLine);
    if |tokens| >= 2 && tokens[0] == "GET" {
      var path := tokens[1];
      match SecurePath(root, path)
      case None =>
      case Some(p) =>
        var sub := Under(fs, root);
        assert root <= p + [IndexFile];
        assert p in sub <==> p in fs;
        assert p + [IndexFile] in sub <==> p + [IndexFile] in fs;
    }
  }

  /** Every byte served comes from a file inside the root. */
  lemma ServedFromInsideRoot(root: Path, startLine: string, fs: FileSystem)
    requires Normal(root)
    requires Respond(root, startLine, fs).Served?
    ensures exists q :: q in fs && root <= q && Normal(q)
                        && fs[q] == File(Respond(root, startLine, fs).body)
  {
    var path := Words(startLine)[1];
    var p := SecurePath(root, path).value;
    if IsDir(fs, p) {
      var index := p + [IndexFile];
      assert IsName(IndexFile);
      assert root <= index && Normal(index);
      assert fs[index] == File(Respond(root, startLine, fs).body);
    } else {
      assert fs[p] == File(Respond(root, startLine, fs).body);
    }
  }
}
