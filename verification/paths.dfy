/**
 Filesystem paths as sequences of segments, and the little of `pathlib` the
 scanner relies on: joining a `/`-separated string onto a directory, taking a
 parent, gluing an extension onto the last segment and collapsing `..`.
 */
module Paths {
  import opened Seqs
  import opened Text

  /** An absolute path, one segment per directory level (the root is `[]`). */
  type Path = seq<string>

  /** The parent directory; the root is its own parent. */
  function Parent(p: Path): (r: Path)
    ensures |p| > 0 ==> p == r + [p[|p| - 1]]
    ensures |p| == 0 ==> r == []
  {
    if |p| == 0 then [] else p[..|p| - 1]
  }

  predicate Meaningful(seg: string) {
    seg != "" && seg != "."
  }

  /** The segments `pathlib` keeps from a `/`-separated string: empty and `.` pieces vanish. */
  function Segments(rel: string): (r: seq<string>)
    ensures forall k :: 0 <= k < |r| ==> Meaningful(r[k]) && '/' !in r[k]
    ensures forall k :: 0 <= k < |Split(rel, '/')| && Meaningful(Split(rel, '/')[k]) ==> Split(rel, '/')[k] in r
    ensures Subseq(r, Split(rel, '/'))
    ensures forall s :: multiset(r)[s] == if Meaningful(s) then multiset(Split(rel, '/'))[s] else 0
  {
    var pieces := Split(rel, '/');
    var r := Filter(pieces, Meaningful);
    assert forall k :: 0 <= k < |r| ==> r[k] in pieces;
    FilterCounts(pieces, Meaningful);
    r
  }

  /** `base / rel`: an absolute `rel` replaces the base. */
  function JoinRel(base: Path, rel: string): (r: Path)
    ensures |rel| > 0 && rel[0] == '/' ==> r == Segments(rel)
    ensures (|rel| == 0 || rel[0] != '/') ==> r == base + Segments(rel)
  {
    if |rel| > 0 && rel[0] == '/' then Segments(rel) else base + Segments(rel)
  }

  /** One step of `..` resolution: `..` climbs (never above the root), anything else descends. */
  function Step(acc: Path, seg: string): Path
  {
    if seg == ".." then Parent(acc) else acc + [seg]
  }

  predicate Normal(p: Path) {
    forall k :: 0 <= k < |p| ==> p[k] != ".."
  }

  /** `..` collapsed left to right, as `Path.resolve()` does in the absence of symlinks. */
  function Normalize(p: Path): (r: Path)
    ensures Normal(r)
    ensures |r| <= |p|
    decreases |p|
  {
    if |p| == 0 then []
    else Step(Normalize(p[..|p| - 1]), p[|p| - 1])
  }

  /** `Path(str(p) + ext)`: the extension is glued onto the last segment. */
  function AppendExt(p: Path, ext: string): (r: Path)
    ensures |r| == if |p| == 0 then 1 else |p|
    ensures |p| > 0 ==> r[..|p| - 1] == Parent(p) && r[|p| - 1] == p[|p| - 1] + ext
  {
    if |p| == 0 then [ext] else Parent(p) + [p[|p| - 1] + ext]
  }

  /** A path without `..` is already resolved. */
  lemma {:induction false} NormalizeNormal(p: Path)
    requires Normal(p)
    ensures Normalize(p) == p
    decreases |p|
  {
    if |p| > 0 {
      NormalizeNormal(p[..|p| - 1]);
      assert p == p[..|p| - 1] + [p[|p| - 1]];
    }
  }

  /** Resolving twice is resolving once. */
  lemma NormalizeIdempotent(p: Path)
    ensures Normalize(Normalize(p)) == Normalize(p)
  {
    NormalizeNormal(Normalize(p));
  }

  /** A trailing `..` undoes the segment before it. */
  lemma NormalizeClimb(p: Path, seg: string)
    requires seg != ".."
    ensures Normalize(p + [seg, ".."]) == Normalize(p)
  {
    var q := p + [seg, ".."];
    assert q[..|q| - 1] == p + [seg];
    assert (p + [seg])[..|p|] == p;
  }

  /** Resolution distributes over appending plain segments. */
  lemma {:induction false} NormalizeAppend(p: Path, q: Path)
    requires Normal(q)
    ensures Normalize(p + q) == Normalize(p) + q
    decreases |q|
  {
    if |q| == 0 {
      assert p + q == p;
    } else {
      var q' := q[..|q| - 1];
      NormalizeAppend(p, q');
      assert (p + q)[..|p + q| - 1] == p + q';
      assert (Normalize(p) + q') + [q[|q| - 1]] == Normalize(p) + q;
    }
  }
}
