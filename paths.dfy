/**
 * Path containment: how `secure_path` turns a request path into a location
 * under the serve root, or rejects it.
 *
 * An absolute path is the sequence of its segments below the filesystem
 * root `/`. Resolution is lexical: `.` segments vanish and `..` removes the
 * last segment (at `/` it stays at `/`), as `pathlib.Path.resolve()` does
 * for a path that crosses no symbolic link.
 */
module Paths {
  import opened Wrappers
  import opened Strings

  type Path = seq<string>

  /** A segment a resolved path can hold: not empty, not `.` or `..`, no `/`. */
  predicate IsName(seg: string) {
    seg != [] && seg != "." && seg != ".." && NoSep(seg, IsSlash)
  }

  /** A resolved path: every segment is a name. */
  predicate Normal(p: Path) {
    forall i :: 0 <= i < |p| ==> IsName(p[i])
  }

  /**
   * The runs between slashes of a path string. `.` parts, which pathlib
   * drops when parsing, are kept here and dropped by `WalkStep`.
   */
  function Segments(s: string): seq<string> {
    Tokens(s, IsSlash)
  }

  // ---------------------------------------------------------------------
  // str.strip('/')
  // ---------------------------------------------------------------------

  /** `s` without its leading run of `c`. */
  function TrimLeading(s: string, c: char): (r: string)
    ensures |r| <= |s| && r == s[|s| - |r|..]
    ensures forall i :: 0 <= i < |s| - |r| ==> s[i] == c
    ensures r == [] || r[0] != c
    decreases |s|
  {
    if s != [] && s[0] == c then TrimLeading(s[1..], c) else s
  }

  /** `s` without its trailing run of `c`. */
  function TrimTrailing(s: string, c: char): (r: string)
    ensures |r| <= |s| && r == s[..|r|]
    ensures forall i :: |r| <= i < |s| ==> s[i] == c
    ensures r == [] || r[|r| - 1] != c
    decreases |s|
  {
    if s != [] && s[|s| - 1] == c then TrimTrailing(s[..|s| - 1], c) else s
  }

  /** Python's `s.strip(c)`: every leading and every trailing `c` removed, not just one. */
  function Strip(s: string, c: char): (r: string)
    ensures r == [] || (r[0] != c && r[|r| - 1] != c)
  {
    TrimTrailing(TrimLeading(s, c), c)
  }

  lemma {:induction false} TrimLeadingSegments(s: string)
    ensures Segments(TrimLeading(s, '/')) == Segments(s)
    decreases |s|
  {
    if s != [] && s[0] == '/' {
      calc {
        Segments(TrimLeading(s, '/'));
        Segments(TrimLeading(s[1..], '/'));
        { TrimLeadingSegments(s[1..]); }
        Segments(s[1..]);
        { assert IsSlash(s[0]); }
        Segments(s);
      }
    }
  }

  lemma {:induction false} TrimTrailingSegments(s: string)
    ensures Segments(TrimTrailing(s, '/')) == Segments(s)
    decreases |s|
  {
    if s != [] && s[|s| - 1] == '/' {
      TrimTrailingSegments(s[..|s| - 1]);
      assert s == s[..|s| - 1] + ['/'];
      TokensTrailingSep(s[..|s| - 1], '/', IsSlash);
    }
  }

  /** Stripping slashes drops only empty parts, so the segments are unchanged. */
  lemma StripSegments(s: string)
    ensures Segments(Strip(s, '/')) == Segments(s)
  {
    TrimLeadingSegments(s);
    TrimTrailingSegments(TrimLeading(s, '/'));
  }

  // ---------------------------------------------------------------------
  // pathlib join and resolve
  // ---------------------------------------------------------------------

  /**
   * pathlib's `base / rel`, before resolution: a `rel` that starts with `/`
   * is absolute and replaces `base`.
   */
  function JoinPath(base: Path, rel: string): seq<string> {
    if rel != [] && rel[0] == '/' then Segments(rel) else base + Segments(rel)
  }

  /** One step of resolution on the path built so far. */
  function WalkStep(p: Path, seg: string): Path {
    if seg == "." then p
    else if seg == ".." then (if p == [] then [] else p[..|p| - 1])
    else p + [seg]
  }

  function Walk(p: Path, segs: seq<string>): Path
    decreases |segs|
  {
    if segs == [] then p else Walk(WalkStep(p, segs[0]), segs[1..])
  }

  /** Lexical `Path.resolve()` of an absolute path given by its segments. */
  function Resolve(segs: seq<string>): Path {
    Walk([], segs)
  }

  /** Walking only over tokens keeps a resolved path resolved. */
  lemma {:induction false} WalkNormal(p: Path, segs: seq<string>)
    requires Normal(p)
    requires forall i :: 0 <= i < |segs| ==> IsToken(segs[i], IsSlash)
    ensures Normal(Walk(p, segs))
    decreases |segs|
  {
    if segs != [] {
      WalkNormal(WalkStep(p, segs[0]), segs[1..]);
    }
  }

  /** Walking over names only appends them. */
  lemma {:induction false} WalkNames(p: Path, names: seq<string>, segs: seq<string>)
    requires Normal(names)
    ensures Walk(p, names + segs) == Walk(p + names, segs)
    decreases |names|
  {
    if names != [] {
      assert (names + segs)[0] == names[0] && (names + segs)[1..] == names[1..] + segs;
      assert WalkStep(p, names[0]) == p + [names[0]];
      WalkNames(p + [names[0]], names[1..], segs);
      assert p + [names[0]] + names[1..] == p + names;
    } else {
      assert names + segs == segs && p + names == p;
    }
  }

  /** `a` is a proper ancestor of `p`: Python's `a in p.parents`. */
  predicate IsAncestor(a: Path, p: Path) {
    |a| < |p| && p[..|a|] == a
  }

  /**
   * `secure_path`: strip the slashes, join onto the root, resolve, and keep
   * the result only if it is the root or lies below it.
   */
  function SecurePath(root: Path, path: string): (r: Option<Path>)
    ensures r.Some? ==> root <= r.value
    ensures r.Some? && Normal(root) ==> Normal(r.value)
  {
    var joined := JoinPath(root, Strip(path, '/'));
    var resolved := Resolve(joined);
    if IsAncestor(root, resolved) || resolved == root then
      ResolvedNormal(root, path);
      Some(resolved)
    else None
  }

  /** Once stripped, a request path is relative, so pathlib joins it below the base. */
  lemma JoinStripped(base: Path, path: string)
    ensures JoinPath(base, Strip(path, '/')) == base + Segments(path)
  {
    StripSegments(path);
  }

  /** A request path joined onto a resolved root resolves to a resolved path. */
  lemma ResolvedNormal(root: Path, path: string)
    ensures Normal(root) ==> Normal(Resolve(JoinPath(root, Strip(path, '/'))))
  {
    if Normal(root) {
      var segs := Segments(path);
      JoinStripped(root, path);
      WalkNames([], root, segs);
      assert [] + root == root;
      WalkNormal(root, segs);
    }
  }

  // ---------------------------------------------------------------------
  // A reference definition of containment
  // ---------------------------------------------------------------------

  /** A relative path in normal form: `ups` times `..`, then names. */
  datatype RelPath = RelPath(ups: nat, names: seq<string>)

  function NormStep(r: RelPath, seg: string): RelPath {
    if seg == "." then r
    else if seg == ".." then
      (if r.names == [] then RelPath(r.ups + 1, []) else RelPath(r.ups, r.names[..|r.names| - 1]))
    else RelPath(r.ups, r.names + [seg])
  }

  function NormFrom(r: RelPath, segs: seq<string>): RelPath
    decreases |segs|
  {
    if segs == [] then r else NormFrom(NormStep(r, segs[0]), segs[1..])
  }

  /** The normal form of a relative path, independent of any base. */
  function Normalize(segs: seq<string>): RelPath {
    NormFrom(RelPath(0, []), segs)
  }

  /** `p` with its last `n` segments removed; `/` if it has fewer. */
  function Climb(p: Path, n: nat): Path {
    if n >= |p| then [] else p[..|p| - n]
  }

  /** The absolute path a relative normal form denotes from `base`. */
  function Apply(base: Path, r: RelPath): Path {
    Climb(base, r.ups) + r.names
  }

  /**
   * The request's normal form leads back into `root`: the names it climbs
   * out of, as far as `root` has any, are the names it descends into again.
   */
  predicate Reenters(root: Path, r: RelPath) {
    var k := if r.ups < |root| then r.ups else |root|;
    root[|root| - k..] <= r.names
  }

  lemma StepCommutes(base: Path, acc: RelPath, seg: string)
    ensures WalkStep(Apply(base, acc), seg) == Apply(base, NormStep(acc, seg))
  {
    var c := Climb(base, acc.ups);
    if seg == ".." {
      if acc.names == [] {
        assert Apply(base, acc) == c;
        if acc.ups + 1 < |base| {
          assert c[..|c| - 1] == base[..|base| - (acc.ups + 1)];
        }
      } else {
        var n := acc.names;
        assert (c + n)[..|c + n| - 1] == c + n[..|n| - 1];
      }
    } else if seg != "." {
      assert c + acc.names + [seg] == c + (acc.names + [seg]);
    }
  }

  /** Resolution from a base factors through the base-independent normal form. */
  lemma {:induction false} WalkApply(base: Path, acc: RelPath, segs: seq<string>)
    ensures Walk(Apply(base, acc), segs) == Apply(base, NormFrom(acc, segs))
    decreases |segs|
  {
    if segs != [] {
      StepCommutes(base, acc, segs[0]);
      WalkApply(base, NormStep(acc, segs[0]), segs[1..]);
    }
  }

  /** What `secure_path` resolves a request path to, from a resolved root. */
  lemma ResolveJoined(root: Path, path: string)
    requires Normal(root)
    ensures Resolve(JoinPath(root, Strip(path, '/'))) == Apply(root, Normalize(Segments(path)))
  {
    var segs := Segments(path);
    var start := RelPath(0, []);
    calc {
      Resolve(JoinPath(root, Strip(path, '/')));
      { JoinStripped(root, path); }
      Walk([], root + segs);
      { WalkNames([], root, segs); assert [] + root == root; }
      Walk(root, segs);
      { assert Apply(root, start) == root; }
      Walk(Apply(root, start), segs);
      { WalkApply(root, start, segs); }
      Apply(root, NormFrom(start, segs));
    }
  }

  lemma ApplyWithin(root: Path, r: RelPath)
    ensures root <= Apply(root, r) <==> Reenters(root, r)
  {
    var k := if r.ups < |root| then r.ups else |root|;
    var tail := root[|root| - k..];
    var c := Climb(root, r.ups);
    assert c == root[..|root| - k];
    assert root == c + tail;
    var a := c + r.names;
    if tail <= r.names {
      assert a == c + tail + r.names[|tail|..];
    }
    if root <= a {
      assert tail == a[|c|..|root|];
    }
  }

  /**
   * `secure_path` accepts a request path exactly when its normal form
   * re-enters the root, and then returns the root with that normal form
   * applied.
   */
  lemma SecurePathReference(root: Path, path: string)
    requires Normal(root)
    ensures var rel := Normalize(Segments(path));
            SecurePath(root, path) == if Reenters(root, rel) then Some(Apply(root, rel)) else None
  {
    var rel := Normalize(Segments(path));
    var p := Apply(root, rel);
    ResolveJoined(root, path);
    ApplyWithin(root, rel);
    AncestorOrSelf(root, p);
  }

  /** Python's `root in p.parents or p == root` is the prefix relation. */
  lemma AncestorOrSelf(root: Path, p: Path)
    ensures IsAncestor(root, p) || p == root <==> root <= p
  {
  }

  // ---------------------------------------------------------------------
  // Consequences
  // ---------------------------------------------------------------------

  lemma {:induction false} NormFromNoClimb(acc: RelPath, segs: seq<string>)
    requires forall i :: 0 <= i < |segs| ==> segs[i] != ".."
    ensures NormFrom(acc, segs).ups == acc.ups
    ensures acc.names <= NormFrom(acc, segs).names
    decreases |segs|
  {
    if segs != [] {
      NormFromNoClimb(NormStep(acc, segs[0]), segs[1..]);
    }
  }

  /** A request path with no `..` segment is accepted and names a location below the root. */
  lemma NoClimbAccepted(root: Path, path: string)
    requires Normal(root)
    requires forall i :: 0 <= i < |Segments(path)| ==> Segments(path)[i] != ".."
    ensures SecurePath(root, path) == Some(root + Normalize(Segments(path)).names)
  {
    SecurePathReference(root, path);
    NormFromNoClimb(RelPath(0, []), Segments(path));
    assert root[..|root| - 0] == root;
  }

  lemma {:induction false} NormFromAppend(acc: RelPath, a: seq<string>, b: seq<string>)
    ensures NormFrom(acc, a + b) == NormFrom(NormFrom(acc, a), b)
    decreases |a|
  {
    if a != [] {
      assert (a + b)[0] == a[0] && (a + b)[1..] == a[1..] + b;
      NormFromAppend(NormStep(acc, a[0]), a[1..], b);
    } else {
      assert a + b == b;
    }
  }

  function Repeat(s: string, n: nat): (r: seq<string>)
    ensures |r| == n && forall i :: 0 <= i < n ==> r[i] == s
  {
    if n == 0 then [] else [s] + Repeat(s, n - 1)
  }

  lemma {:induction false} NormFromNames(acc: RelPath, names: seq<string>)
    requires Normal(names)
    ensures NormFrom(acc, names) == RelPath(acc.ups, acc.names + names)
    decreases |names|
  {
    if names != [] {
      NormFromNames(NormStep(acc, names[0]), names[1..]);
      assert acc.names + [names[0]] + names[1..] == acc.names + names;
    }
  }

  lemma {:induction false} NormFromClimbs(acc: RelPath, n: nat)
    requires acc.names == []
    ensures NormFrom(acc, Repeat("..", n)) == RelPath(acc.ups + n, [])
    decreases n
  {
    if n > 0 {
      assert Repeat("..", n)[1..] == Repeat("..", n - 1);
      NormFromClimbs(RelPath(acc.ups + 1, []), n - 1);
    }
  }

  /** `n` times `..` followed by names normalises to exactly that. */
  lemma NormalizeClimbThenNames(n: nat, names: seq<string>)
    requires Normal(names)
    ensures Normalize(Repeat("..", n) + names) == RelPath(n, names)
  {
    NormFromAppend(RelPath(0, []), Repeat("..", n), names);
    NormFromClimbs(RelPath(0, []), n);
    NormFromNames(RelPath(n, []), names);
  }

  /** The request path `/../..(n times)/name/...`. */
  function ClimbingRequest(n: nat, names: seq<string>): string {
    ['/'] + JoinWith(Repeat("..", n) + names, '/')
  }

  lemma ClimbingRequestSegments(n: nat, names: seq<string>)
    requires Normal(names)
    ensures Segments(ClimbingRequest(n, names)) == Repeat("..", n) + names
  {
    var ws := Repeat("..", n) + names;
    forall i | 0 <= i < |ws| ensures IsToken(ws[i], IsSlash) {
      if i < n {
        assert ws[i] == "..";
      } else {
        assert ws[i] == names[i - n];
      }
    }
    TokensOfJoin(ws, '/', IsSlash);
    TokensLeadingSep('/', JoinWith(ws, '/'), IsSlash);
  }

  /**
   * A traversal that climbs at least as far as the root is deep and then
   * names a location that is not under the root is rejected (the
   * `../../../../etc/os-release` probe).
   */
  lemma TraversalRejected(root: Path, n: nat, names: seq<string>)
    requires Normal(root) && Normal(names)
    requires n >= |root|
    requires !(root <= names)
    ensures SecurePath(root, ClimbingRequest(n, names)) == None
  {
    ClimbingRequestSegments(n, names);
    NormalizeClimbThenNames(n, names);
    SecurePathReference(root, ClimbingRequest(n, names));
    assert root[|root| - |root|..] == root;
  }

  /** `str(path)` of an absolute path. */
  function PathString(p: Path): string {
    if p == [] then "/" else Rooted(p)
  }

  function Rooted(p: Path): string {
    if p == [] then [] else Rooted(p[..|p| - 1]) + ['/'] + p[|p| - 1]
  }

  /**
   * Containment compares whole segments: a sibling of the root whose name
   * extends the root's name is rejected, although the root's string is a
   * prefix of the sibling's string.
   */
  lemma SiblingRejected(parent: Path, name: string, extra: string, rest: seq<string>)
    requires Normal(parent + [name]) && extra != [] && Normal([name + extra] + rest)
    ensures SecurePath(parent + [name], ClimbingRequest(1, [name + extra] + rest)) == None
    ensures StartsWith(PathString(parent + [name + extra]), PathString(parent + [name]))
  {
    var root, sib := parent + [name], name + extra;
    var names := [sib] + rest;
    ClimbingRequestSegments(1, names);
    NormalizeClimbThenNames(1, names);
    SecurePathReference(root, ClimbingRequest(1, names));
    assert root[|root| - 1..] == [name];
    assert |sib| != |name|;
    SiblingString(parent, name, extra);
  }

  lemma SiblingString(parent: Path, name: string, extra: string)
    ensures StartsWith(PathString(parent + [name + extra]), PathString(parent + [name]))
  {
    var sib := name + extra;
    assert (parent + [sib])[..|parent|] == parent;
    assert (parent + [name])[..|parent|] == parent;
    var pre := Rooted(parent) + ['/'];
    assert PathString(parent + [sib]) == pre + name + extra;
    assert PathString(parent + [name]) == pre + name;
    assert (pre + name + extra)[..|pre + name|] == pre + name;
  }

  /**
   * The suffix of a path's string is the suffix of its last segment, for
   * any suffix without a slash: what the content-type rule tests is the
   * file's own name.
   */
  lemma EndsWithLastSegment(p: Path, suffix: string)
    requires Normal(p) && p != []
    requires NoSep(suffix, IsSlash)
    ensures EndsWith(PathString(p), suffix) <==> EndsWith(p[|p| - 1], suffix)
  {
    var pre, last := Rooted(p[..|p| - 1]) + ['/'], p[|p| - 1];
    var s := pre + last;
    assert PathString(p) == s;
    if |suffix| <= |last| {
      assert s[|s| - |suffix|..] == last[|last| - |suffix|..];
    } else {
      SlashBeforeName(pre, last, suffix);
    }
  }

  /** A suffix without a slash that is longer than the name after a slash is not a suffix. */
  lemma SlashBeforeName(pre: string, last: string, suffix: string)
    requires pre != [] && pre[|pre| - 1] == '/'
    requires NoSep(suffix, IsSlash) && |suffix| > |last|
    ensures !EndsWith(pre + last, suffix)
  {
    var s := pre + last;
    if |suffix| <= |s| {
      var j := |suffix| - |last| - 1;
      assert s[|pre| - 1] == '/';
      assert s[|s| - |suffix|..][j] == s[|pre| - 1];
      assert !IsSlash(suffix[j]);
    }
  }
}
