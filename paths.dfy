/** The parts of Node's POSIX `path` module the system relies on: `dirname`,
    `basename` and `extname`, and the string-prefix test the routes use as a
    path guard. `path.join` is modelled as joining with '/' (its normalisation
    of '.', '..' and repeated slashes is not modelled), and `path.resolve` is a
    parameter of the guards that use it. */
module Paths {

  predicate StartsWith(s: string, prefix: string) {
    prefix <= s
  }

  /** `path.join(a, b)` for already normal parts. */
  function JoinPath(a: string, b: string): string {
    a + "/" + b
  }

  // ---- dirname ----

  /** The scan of `path.dirname` from index `i` down to 1: the index of the last
      slash that follows a non-slash character, if any. `seen` records whether a
      non-slash character has been met yet. */
  function DirEnd(p: string, i: nat, seen: bool): (r: int)
    requires i < |p|
    ensures -1 <= r <= i
  {
    if i == 0 then -1
    else if p[i] == '/' then (if seen then i else DirEnd(p, i - 1, seen))
    else DirEnd(p, i - 1, true)
  }

  /** `path.dirname`: the path up to its last separator, ignoring trailing
      separators; "." when there is none and "/" for a rooted name. */
  function Dirname(p: string): string {
    if |p| == 0 then "."
    else
      var end := DirEnd(p, |p| - 1, false);
      if end == -1 then (if p[0] == '/' then "/" else ".")
      else if p[0] == '/' && end == 1 then "//"
      else p[..end]
  }

  /** The scan meets only the name's characters before the separator. */
  lemma {:induction false} DirEndOfChild(dir: string, name: string, i: nat, seen: bool)
    requires 1 <= |dir| <= i < |dir| + 1 + |name| && '/' !in name
    requires seen || i > |dir|
    ensures DirEnd(dir + "/" + name, i, seen) == |dir|
    decreases i
  {
    var p := dir + "/" + name;
    assert p[|dir|] == '/';
    if i > |dir| {
      assert p[i] == name[i - |dir| - 1];
      DirEndOfChild(dir, name, i - 1, true);
    }
  }

  /** The directory of `dir/name` is `dir`, for a separator-free name and a
      directory that does not end in a separator. */
  lemma DirnameOfChild(dir: string, name: string)
    requires dir != "" && dir[|dir| - 1] != '/'
    requires name != "" && '/' !in name
    ensures Dirname(dir + "/" + name) == dir
  {
    var p := dir + "/" + name;
    DirEndOfChild(dir, name, |p| - 1, false);
    assert p[..|dir|] == dir;
  }

  // ---- basename and extname ----

  /** The index just after the last '/', or 0. */
  function SegmentStart(p: string): (k: nat)
    ensures k <= |p|
    ensures k > 0 ==> p[k - 1] == '/'
    ensures forall j :: k <= j < |p| ==> p[j] != '/'
  {
    if p == [] then 0
    else if p[|p| - 1] == '/' then |p|
    else SegmentStart(p[..|p| - 1])
  }

  /** The last path segment (trailing separators are not stripped). */
  function LastSegment(p: string): (r: string)
    ensures '/' !in r
  {
    p[SegmentStart(p)..]
  }

  /** `path.basename(p, suffix)`: the last segment, with `suffix` removed when it
      ends the segment and is not the whole segment. */
  function Basename(p: string, suffix: string): string {
    var b := LastSegment(p);
    if |suffix| < |b| && b[|b| - |suffix|..] == suffix then b[..|b| - |suffix|] else b
  }

  /** The index of the last '.' in `s`, if any. */
  function LastDot(s: string): (r: int)
    ensures -1 <= r < |s|
    ensures r >= 0 ==> s[r] == '.'
    ensures forall j :: r < j < |s| ==> s[j] != '.'
  {
    if s == [] then -1
    else if s[|s| - 1] == '.' then |s| - 1
    else LastDot(s[..|s| - 1])
  }

  /** `path.extname` of the last segment: from its last '.' to its end, except
      that a segment whose only dots lead it (".bashrc", "..") has none. */
  function Extname(p: string): (r: string)
    ensures r == "" || (r[0] == '.' && '.' !in r[1..])
  {
    var b := LastSegment(p);
    var k := LastDot(b);
    if k <= 0 then ""
    else if forall j :: 0 <= j < k ==> b[j] == '.' then
      (if k == 1 && |b| == 2 then "" else b[k..])
    else b[k..]
  }

  /** A name with a non-empty stem has the extension after its last dot, and
      removing it with `basename` gives back the stem. */
  lemma ExtnameOfName(stem: string, ext: string)
    requires stem != "" && stem[0] != '.' && '/' !in stem && '/' !in ext && '.' !in ext
    ensures Extname(stem + "." + ext) == "." + ext
    ensures Basename(stem + "." + ext, "." + ext) == stem
  {
    var b := stem + "." + ext;
    assert SegmentStart(b) == 0 by {
      assert forall j :: 0 <= j < |b| ==> b[j] != '/' by {
        forall j | 0 <= j < |b| ensures b[j] != '/' {
          if j < |stem| { assert b[j] == stem[j]; }
          else if j > |stem| { assert b[j] == ext[j - |stem| - 1]; }
        }
      }
    }
    assert LastSegment(b) == b;
    var k := LastDot(b);
    assert b[|stem|] == '.';
    assert forall j :: |stem| < j < |b| ==> b[j] == ext[j - |stem| - 1];
    assert k == |stem|;
    assert b[0] == stem[0];
    assert b[k..] == "." + ext;
  }

  // ---- segment normalisation ----

  /** A segment that names an entry: not empty, not "." and not "..". */
  predicate Plain(seg: string) {
    seg != "" && seg != "." && seg != ".."
  }

  /** How `path.join` and `path.resolve` treat the segments of an absolute
      path: empty and "." segments vanish, and ".." removes the segment before
      it (and nothing at the root). */
  function Normalize(segs: seq<string>): (r: seq<string>)
    ensures forall k :: 0 <= k < |r| ==> Plain(r[k])
  {
    if segs == [] then []
    else
      var init := Normalize(segs[..|segs| - 1]);
      var seg := segs[|segs| - 1];
      if seg == "" || seg == "." then init
      else if seg == ".." then (if init == [] then [] else init[..|init| - 1])
      else init + [seg]
  }

  /** Plain segments are already normal, and a plain segment added at the end
      stays there. */
  lemma {:induction false} NormalizePlain(segs: seq<string>)
    requires forall k :: 0 <= k < |segs| ==> Plain(segs[k])
    ensures Normalize(segs) == segs
  {
    if segs != [] {
      NormalizePlain(segs[..|segs| - 1]);
      assert segs == segs[..|segs| - 1] + [segs[|segs| - 1]];
    }
  }

  /** `p` lies in the folder `dir`, both as segments. */
  predicate Within(p: seq<string>, dir: seq<string>) {
    |dir| <= |p| && p[..|dir|] == dir
  }
}
