/** POSIX path handling as Python's `posixpath` does it: `join`, `normpath` and `abspath`. */
module Paths {
  import opened Text

  predicate IsRooted(p: string) {
    |p| > 0 && p[0] == '/'
  }

  /** `os.path.join(a, b)`: an absolute `b` replaces `a`; otherwise a `/` is inserted
      unless `a` is empty or already ends with one. */
  function PathJoin(a: string, b: string): string {
    if IsRooted(b) then b
    else if a == "" || a[|a| - 1] == '/' then a + b
    else a + "/" + b
  }

  /** `os.path.join(a, *parts)`. */
  function PathJoinAll(a: string, parts: seq<string>): string
    decreases |parts|
  {
    if parts == [] then a else PathJoinAll(PathJoin(a, parts[0]), parts[1..])
  }

  /** Joining onto the same directory loses nothing: two relative (or two absolute)
      names that join to the same path are the same name. */
  lemma PathJoinInjective(a: string, x: string, y: string)
    requires IsRooted(x) == IsRooted(y)
    requires PathJoin(a, x) == PathJoin(a, y)
    ensures x == y
  {
    if !IsRooted(x) {
      var k := if a == "" || a[|a| - 1] == '/' then |a| else |a| + 1;
      assert PathJoin(a, x)[k..] == x;
      assert PathJoin(a, y)[k..] == y;
    }
  }

  /** A path under a rooted directory is rooted. */
  lemma PathJoinRooted(a: string, b: string)
    requires IsRooted(a)
    ensures IsRooted(PathJoin(a, b))
  {
  }

  /** The `normpath` walk over the pieces of a path: drop empty pieces and `.`,
      let `..` remove the piece before it, and keep a leading `..` only in a relative path. */
  function NormComps(comps: seq<string>, rooted: bool): (r: seq<string>)
    ensures forall i :: 0 <= i < |r| ==> r[i] != "" && r[i] != "." && r[i] in comps
    ensures rooted ==> forall i :: 0 <= i < |r| ==> r[i] != ".."
    decreases |comps|
  {
    if comps == [] then []
    else
      var prev := NormComps(comps[..|comps| - 1], rooted);
      var c := comps[|comps| - 1];
      if c == "" || c == "." then prev
      else if c != ".." || (!rooted && prev == []) || (prev != [] && prev[|prev| - 1] == "..") then prev + [c]
      else if prev != [] then prev[..|prev| - 1]
      else prev
  }

  /** How many slashes `normpath` keeps at the front: POSIX reserves exactly two. */
  function LeadingSlashes(p: string): nat {
    if !IsRooted(p) then 0
    else if |p| >= 2 && p[1] == '/' && !(|p| >= 3 && p[2] == '/') then 2
    else 1
  }

  function Slashes(k: nat): (r: string)
    ensures |r| == k && forall i :: 0 <= i < k ==> r[i] == '/'
  {
    if k == 0 then "" else "/" + Slashes(k - 1)
  }

  /** `os.path.normpath(p)`. */
  function NormPath(p: string): string {
    if p == "" then "."
    else
      var k := LeadingSlashes(p);
      var comps := NormComps(SplitOn(p, '/'), k > 0);
      var body := if comps == [] then "" else JoinWith(comps, '/');
      var s := Slashes(k) + body;
      if s == "" then "." else s
  }

  /** `os.path.abspath(p)` with `cwd` the working directory. */
  function AbsPath(cwd: string, p: string): string {
    NormPath(if IsRooted(p) then p else PathJoin(cwd, p))
  }

  /** The source's test `os.path.abspath(p) == p`. */
  predicate IsAbsolute(p: string) {
    IsRooted(p) && NormPath(p) == p
  }

  lemma NormPathRooted(p: string)
    requires IsRooted(p)
    ensures IsRooted(NormPath(p))
  {
    var k := LeadingSlashes(p);
    var comps := NormComps(SplitOn(p, '/'), k > 0);
    var body := if comps == [] then "" else JoinWith(comps, '/');
    assert (Slashes(k) + body)[0] == '/';
  }

  /** `abspath(p) == p` does not depend on the working directory: it holds exactly for
      rooted paths that `normpath` leaves alone. */
  lemma AbsPathFixpoint(cwd: string, p: string)
    requires IsRooted(cwd)
    ensures AbsPath(cwd, p) == p <==> IsAbsolute(p)
  {
    if !IsRooted(p) {
      PathJoinRooted(cwd, p);
      NormPathRooted(PathJoin(cwd, p));
    }
  }

  /** The pieces of `k` slashes followed by `body`: `k` empty pieces, then the pieces of `body`. */
  lemma {:induction false} SplitAfterSlashes(k: nat, body: string)
    ensures SplitOn(Slashes(k) + body, '/') == seq(k, _ => "") + SplitOn(body, '/')
  {
    if k > 0 {
      assert Slashes(k) + body == "" + ['/'] + (Slashes(k - 1) + body);
      SplitAroundSep("", '/', Slashes(k - 1) + body);
      SplitAfterSlashes(k - 1, body);
      assert seq(k, _ => "") == [""] + seq(k - 1, _ => "");
      assert SplitOn("", '/') == [""];
    } else {
      assert Slashes(k) + body == body;
      assert seq(k, _ => "") == [];
    }
  }

  /** A path that passes the absolute-path test has no `.` or `..` piece anywhere. */
  lemma AbsoluteHasNoDots(p: string)
    requires IsAbsolute(p)
    ensures forall i :: 0 <= i < |SplitOn(p, '/')| ==> SplitOn(p, '/')[i] != "." && SplitOn(p, '/')[i] != ".."
  {
    var pieces := SplitOn(p, '/');
    var k := LeadingSlashes(p);
    var comps := NormComps(pieces, k > 0);
    var body := if comps == [] then "" else JoinWith(comps, '/');
    assert p == Slashes(k) + body;
    var tail := if comps == [] then [""] else comps;
    assert SplitOn(body, '/') == tail by {
      if comps != [] {
        forall i | 0 <= i < |comps| ensures '/' !in comps[i] {
          var j :| 0 <= j < |pieces| && pieces[j] == comps[i];
        }
        SplitJoin(comps, '/');
      }
    }
    SplitAfterSlashes(k, body);
  }
}
