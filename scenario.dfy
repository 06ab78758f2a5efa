/**
 * The document root the companion tests serve: an `index.html`, a
 * stylesheet, and a directory `deep` with its own `index.html` and
 * stylesheet, answered request by request.
 */
module Scenario {
  import opened Wrappers
  import opened Strings
  import opened Paths
  import opened Server
  import opened Dispatch

  /** The absolute request target `/a/b/...`, with a trailing slash when `dir` holds. */
  function Target(names: seq<string>, dir: bool): string {
    ['/'] + JoinWith(names, '/') + (if dir then "/" else "")
  }

  lemma {:induction false} TargetSegments(names: seq<string>, dir: bool)
    requires Normal(names)
    ensures Segments(Target(names, dir)) == names
  {
    var joined := JoinWith(names, '/');
    TokensOfJoin(names, '/', IsSlash);
    TokensLeadingSep('/', joined, IsSlash);
    if dir {
      assert Target(names, dir) == (['/'] + joined) + ['/'];
      TokensTrailingSep(['/'] + joined, '/', IsSlash);
    } else {
      assert Target(names, dir) == ['/'] + joined;
    }
  }

  /** A joined, nonempty list of words ends with the last character of its last word. */
  lemma {:induction false} JoinEndsWithLast(ws: seq<string>, sep: char)
    requires ws != [] && ws[|ws| - 1] != []
    ensures var j, w := JoinWith(ws, sep), ws[|ws| - 1];
      j != [] && j[|j| - 1] == w[|w| - 1]
  {
    if |ws| > 1 {
      JoinEndsWithLast(ws[1..], sep);
    }
  }

  /** A target without the trailing slash does not end with one. */
  lemma TargetNoTrailingSlash(names: seq<string>)
    requires Normal(names) && names != []
    ensures !EndsWith(Target(names, false), "/")
  {
    var t, last := Target(names, false), names[|names| - 1];
    JoinEndsWithLast(names, '/');
    assert IsName(last);
    assert t == ['/'] + JoinWith(names, '/');
    assert t[|t| - 1] == last[|last| - 1];
    assert t[|t| - 1..] == [t[|t| - 1]];
  }

  /** A target below the root is accepted and names that location. */
  lemma TargetAccepted(root: Path, names: seq<string>, dir: bool)
    requires Normal(root) && Normal(names)
    ensures SecurePath(root, Target(names, dir)) == Some(root + names)
  {
    TargetSegments(names, dir);
    NoClimbAccepted(root, Target(names, dir));
    NormFromNames(RelPath(0, []), names);
    assert [] + names == names;
  }

  const Root: Path := ["srv", "www"]
  const Deep: Path := Root + ["deep"]

  function Site(index: seq<Byte>, base: seq<Byte>, deepIndex: seq<Byte>, deepCss: seq<Byte>): FileSystem {
    map[Root := Dir,
        Root + [IndexFile] := File(index),
        Root + ["base.css"] := File(base),
        Deep := Dir,
        Deep + [IndexFile] := File(deepIndex),
        Deep + ["deep.css"] := File(deepCss)]
  }

  /** The names used in the site are path names. */
  lemma SiteNames()
    ensures Normal(Root) && Normal(Deep)
    ensures IsName(IndexFile) && IsName("base.css") && IsName("deep.css") && IsName("doesnt_exist.html")
  {
    assert IsName("srv") && IsName("www") && IsName("deep");
  }

  /** GET / serves the root's index.html. */
  lemma SiteRoot(fs: FileSystem, index: seq<Byte>, version: string)
    requires IsWord(version)
    requires Root in fs && fs[Root] == Dir && Root + [IndexFile] in fs && fs[Root + [IndexFile]] == File(index)
    ensures Respond(Root, RequestLine("GET", "/", version), fs) == Served("text/html", index)
  {
    SiteNames();
    assert Slashes(1) == "/";
    RootServesIndex(Root, 1, version, fs);
  }

  /** GET of a file below the root serves it. */
  lemma SiteFile(fs: FileSystem, names: seq<string>, target: string, version: string)
    requires Normal(names) && names != []
    requires target == Target(names, false) && IsWord(target) && IsWord(version)
    requires IsFile(fs, Root + names)
    ensures Respond(Root, RequestLine("GET", target, version), fs)
            == Served(ContentType(PathString(Root + names)), fs[Root + names].content)
  {
    SiteNames();
    TargetAccepted(Root, names, false);
    FileServed(Root, target, version, fs);
  }

  /** The request target naming a single file at the top of the site. */
  lemma TopTarget(name: string, target: string)
    requires IsName(name) && target == "/" + name && IsWord(target)
    ensures Normal([name]) && Target([name], false) == target
  {
  }

  /** The content types of the files at the top of the site. */
  lemma TopTypes()
    ensures ContentType(PathString(Root + [IndexFile])) == "text/html"
    ensures ContentType(PathString(Root + ["base.css"])) == "text/css"
  {
    SiteNames();
    ContentTypeByName(Root + [IndexFile]);
    assert EndsWith(IndexFile, ".html");
    ContentTypeByName(Root + ["base.css"]);
    assert !EndsWith("base.css", ".html") && EndsWith("base.css", ".css");
  }

  /** GET /index.html serves the same file as GET /. */
  lemma SiteIndex(fs: FileSystem, index: seq<Byte>, version: string)
    requires IsWord(version)
    requires Root + [IndexFile] in fs && fs[Root + [IndexFile]] == File(index)
    ensures Respond(Root, RequestLine("GET", "/index.html", version), fs) == Served("text/html", index)
  {
    SiteNames();
    TopTarget(IndexFile, "/index.html");
    SiteFile(fs, [IndexFile], "/index.html", version);
    TopTypes();
  }

  /** GET /base.css serves the stylesheet as text/css. */
  lemma SiteBaseCss(fs: FileSystem, base: seq<Byte>, version: string)
    requires IsWord(version)
    requires Root + ["base.css"] in fs && fs[Root + ["base.css"]] == File(base)
    ensures Respond(Root, RequestLine("GET", "/base.css", version), fs) == Served("text/css", base)
  {
    SiteNames();
    TopTarget("base.css", "/base.css");
    SiteFile(fs, ["base.css"], "/base.css", version);
    TopTypes();
  }

  /** GET of a directory below the root without the trailing slash is redirected. */
  lemma SiteDirRedirect(fs: FileSystem, names: seq<string>, target: string, version: string)
    requires Normal(names) && names != []
    requires target == Target(names, false) && IsWord(target) && IsWord(version)
    requires IsDir(fs, Root + names)
    ensures Respond(Root, RequestLine("GET", target, version), fs) == Redirect(target + "/")
  {
    SiteNames();
    TargetAccepted(Root, names, false);
    TargetNoTrailingSlash(names);
    DirectoryRedirected(Root, target, version, fs);
  }

  /** GET of a directory below the root with the trailing slash serves its index.html. */
  lemma SiteDirIndex(fs: FileSystem, names: seq<string>, target: string, index: seq<Byte>, version: string)
    requires Normal(names)
    requires target == Target(names, true) && IsWord(target) && IsWord(version)
    requires IsDir(fs, Root + names) && Root + names + [IndexFile] in fs
    requires fs[Root + names + [IndexFile]] == File(index)
    ensures Respond(Root, RequestLine("GET", target, version), fs) == Served("text/html", index)
  {
    SiteNames();
    TargetAccepted(Root, names, true);
    DirectoryIndex(Root, target, version, fs);
  }

  /** GET of a path below the root that does not exist gets 404. */
  lemma SiteAbsent(fs: FileSystem, names: seq<string>, target: string, version: string)
    requires Normal(names)
    requires target == Target(names, false) && IsWord(target) && IsWord(version)
    requires Root + names !in fs
    ensures Respond(Root, RequestLine("GET", target, version), fs) == Empty(StatusNotFound)
  {
    SiteNames();
    TargetAccepted(Root, names, false);
    MissingNotFound(Root, target, version, fs);
  }

  /** The two request targets naming the directory `deep`. */
  lemma DeepTargets()
    ensures Normal(["deep"])
    ensures Target(["deep"], false) == "/deep" && IsWord("/deep")
    ensures Target(["deep"], true) == "/deep/" && IsWord("/deep/")
  {
    SiteNames();
  }

  /** GET /deep is redirected to /deep/. */
  lemma SiteDeepRedirect(fs: FileSystem, version: string)
    requires IsWord(version)
    requires Deep in fs && fs[Deep] == Dir
    ensures Respond(Root, RequestLine("GET", "/deep", version), fs) == Redirect("/deep/")
  {
    DeepTargets();
    assert Root + ["deep"] == Deep;
    SiteDirRedirect(fs, ["deep"], "/deep", version);
    assert "/deep" + "/" == "/deep/";
  }

  /** GET /deep/ serves deep/index.html. */
  lemma SiteDeepIndex(fs: FileSystem, deepIndex: seq<Byte>, version: string)
    requires IsWord(version)
    requires Deep in fs && fs[Deep] == Dir && Deep + [IndexFile] in fs && fs[Deep + [IndexFile]] == File(deepIndex)
    ensures Respond(Root, RequestLine("GET", "/deep/", version), fs) == Served("text/html", deepIndex)
  {
    DeepTargets();
    SiteDirIndex(fs, ["deep"], "/deep/", deepIndex, version);
  }

  /** The stylesheet in `deep` is text/css. */
  lemma DeepCssType()
    ensures ContentType(PathString(Deep + ["deep.css"])) == "text/css"
  {
    SiteNames();
    ContentTypeByName(Deep + ["deep.css"]);
    assert !EndsWith("deep.css", ".html") && EndsWith("deep.css", ".css");
  }

  /** GET /deep/deep.css serves that stylesheet as text/css. */
  lemma SiteDeepCss(fs: FileSystem, deepCss: seq<Byte>, version: string)
    requires IsWord(version)
    requires Deep + ["deep.css"] in fs && fs[Deep + ["deep.css"]] == File(deepCss)
    ensures Respond(Root, RequestLine("GET", "/deep/deep.css", version), fs) == Served("text/css", deepCss)
  {
    var names := ["deep", "deep.css"];
    assert Root + names == Deep + ["deep.css"];
    assert Normal(names) by {
      SiteNames();
    }
    assert Target(names, false) == "/deep/deep.css" by {
      assert JoinWith(names[1..], '/') == "deep.css";
      assert JoinWith(names, '/') == "deep" + "/" + "deep.css";
    }
    assert IsWord("/deep/deep.css");
    SiteFile(fs, names, "/deep/deep.css", version);
    DeepCssType();
  }

  /** GET of a page that does not exist gets 404. */
  lemma SiteMissing(fs: FileSystem, version: string)
    requires IsWord(version)
    requires Root + ["doesnt_exist.html"] !in fs
    ensures Respond(Root, RequestLine("GET", "/doesnt_exist.html", version), fs) == Empty(StatusNotFound)
  {
    SiteNames();
    TopTarget("doesnt_exist.html", "/doesnt_exist.html");
    SiteAbsent(fs, ["doesnt_exist.html"], "/doesnt_exist.html", version);
  }

  /** GET /../../../../../../../../../../etc/os-release gets 404. */
  lemma SiteTraversal(fs: FileSystem, version: string)
    requires IsWord(version)
    ensures Respond(Root, RequestLine("GET", ClimbingRequest(10, ["etc", "os-release"]), version), fs)
            == Empty(StatusNotFound)
  {
    var names := ["etc", "os-release"];
    assert IsName("etc") && IsName("os-release");
    assert NoSep("etc", IsSpace) && NoSep("os-release", IsSpace);
    assert Root[0] != names[0];
    TraversalNotFound(Root, 10, names, version, fs);
  }

  /** POST / gets 405. */
  lemma SitePost(fs: FileSystem, version: string)
    requires IsWord(version)
    ensures Respond(Root, RequestLine("POST", "/", version), fs) == Empty(StatusNotAllowed)
  {
    assert IsWord("POST") && IsWord("/");
    NonGetNotAllowed(Root, "POST", "/", version, fs);
  }

  /** A filesystem laid out as the tests' site: what it holds at each path the requests name. */
  predicate LaidOut(fs: FileSystem, index: seq<Byte>, base: seq<Byte>, deepIndex: seq<Byte>, deepCss: seq<Byte>) {
    && Root in fs && fs[Root] == Dir
    && Root + [IndexFile] in fs && fs[Root + [IndexFile]] == File(index)
    && Root + ["base.css"] in fs && fs[Root + ["base.css"]] == File(base)
    && Deep in fs && fs[Deep] == Dir
    && Deep + [IndexFile] in fs && fs[Deep + [IndexFile]] == File(deepIndex)
    && Deep + ["deep.css"] in fs && fs[Deep + ["deep.css"]] == File(deepCss)
    && Root + ["doesnt_exist.html"] !in fs
  }

  /** The site holds what the requests expect at each path. */
  lemma SiteLayout(index: seq<Byte>, base: seq<Byte>, deepIndex: seq<Byte>, deepCss: seq<Byte>)
    ensures LaidOut(Site(index, base, deepIndex, deepCss), index, base, deepIndex, deepCss)
  {
    assert |IndexFile| == 10 && |"base.css"| == 8 && |"deep"| == 4 && |"deep.css"| == 8;
    assert Deep[2] == "deep";
    assert Deep != Root + ["base.css"] && Deep != Root + [IndexFile];
    assert Root + [IndexFile] != Root + ["base.css"] by {
      assert (Root + [IndexFile])[2] == IndexFile;
    }
    assert Deep + [IndexFile] != Deep + ["deep.css"] by {
      assert (Deep + [IndexFile])[3] == IndexFile;
    }
  }

  /** The requests for the top of the site are answered as the tests expect. */
  lemma SiteAnswersTop(fs: FileSystem, index: seq<Byte>, base: seq<Byte>, deepIndex: seq<Byte>, deepCss: seq<Byte>, version: string)
    requires IsWord(version) && LaidOut(fs, index, base, deepIndex, deepCss)
    ensures Respond(Root, RequestLine("GET", "/", version), fs) == Served("text/html", index)
    ensures Respond(Root, RequestLine("GET", "/index.html", version), fs) == Served("text/html", index)
    ensures Respond(Root, RequestLine("GET", "/base.css", version), fs) == Served("text/css", base)
    ensures Respond(Root, RequestLine("GET", "/doesnt_exist.html", version), fs) == Empty(StatusNotFound)
    ensures Respond(Root, RequestLine("GET", ClimbingRequest(10, ["etc", "os-release"]), version), fs)
            == Empty(StatusNotFound)
    ensures Respond(Root, RequestLine("POST", "/", version), fs) == Empty(StatusNotAllowed)
  {
    SiteRoot(fs, index, version);
    SiteIndex(fs, index, version);
    SiteBaseCss(fs, base, version);
    SiteMissing(fs, version);
    SiteTraversal(fs, version);
    SitePost(fs, version);
  }

  /** The requests for the `deep` directory are answered as the tests expect. */
  lemma SiteAnswersDeep(fs: FileSystem, index: seq<Byte>, base: seq<Byte>, deepIndex: seq<Byte>, deepCss: seq<Byte>, version: string)
    requires IsWord(version) && LaidOut(fs, index, base, deepIndex, deepCss)
    ensures Respond(Root, RequestLine("GET", "/deep", version), fs) == Redirect("/deep/")
    ensures Respond(Root, RequestLine("GET", "/deep/", version), fs) == Served("text/html", deepIndex)
    ensures Respond(Root, RequestLine("GET", "/deep/deep.css", version), fs) == Served("text/css", deepCss)
  {
    SiteDeepRedirect(fs, version);
    SiteDeepIndex(fs, deepIndex, version);
    SiteDeepCss(fs, deepCss, version);
  }
}
