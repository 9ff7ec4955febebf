/** Generic sequence facts: element sets, duplicates, first-occurrence dedup, filtering. */
module Seqs {

  function Elems<T>(xs: seq<T>): set<T> {
    set x | x in xs
  }

  predicate NoDups<T(==)>(xs: seq<T>) {
    forall i, j :: 0 <= i < j < |xs| ==> xs[i] != xs[j]
  }

  /** `a` is `b` with some elements deleted (relative order kept). */
  predicate Subseq<T(==)>(a: seq<T>, b: seq<T>)
    decreases |b|
  {
    if |a| == 0 then true
    else if |b| == 0 then false
    else if a[0] == b[0] then Subseq(a[1..], b[1..])
    else Subseq(a, b[1..])
  }

  lemma {:induction false} SubseqSkip<T>(a: seq<T>, y: T, b: seq<T>)
    requires Subseq(a, b)
    ensures Subseq(a, [y] + b)
    decreases |b|
  {
    var yb := [y] + b;
    assert yb[1..] == b;
    if |a| > 0 && a[0] == y {
      assert |b| > 0;
      if a[0] == b[0] {
        SubseqSkip(a[1..], b[0], b[1..]);
        assert [b[0]] + b[1..] == b;
      } else {
        SubseqTail(a, b[1..]);
        SubseqSkip(a[1..], b[0], b[1..]);
        assert [b[0]] + b[1..] == b;
      }
    }
  }

  lemma {:induction false} SubseqTail<T>(a: seq<T>, b: seq<T>)
    requires |a| > 0 && Subseq(a, b)
    ensures Subseq(a[1..], b)
    decreases |b|
  {
    assert |b| > 0;
    if a[0] == b[0] {
      if |a| > 1 {
        SubseqSkip(a[1..], b[0], b[1..]);
        assert [b[0]] + b[1..] == b;
      }
    } else {
      SubseqTail(a, b[1..]);
      SubseqSkip(a[1..], b[0], b[1..]);
      assert [b[0]] + b[1..] == b;
    }
  }

  /** The position of the first occurrence of `x` in `xs`. */
  function FirstIndex<T(==)>(xs: seq<T>, x: T): (k: nat)
    requires x in xs
    ensures k < |xs| && xs[k] == x
    ensures forall j :: 0 <= j < k ==> xs[j] != x
  {
    if xs[0] == x then 0
    else
      var k := FirstIndex(xs[1..], x);
      assert forall j :: 1 <= j <= k ==> xs[j] == xs[1..][j - 1];
      k + 1
  }

  /** Every element of `r` occurs in `xs`, and `r` lists them in the order they first appear there. */
  predicate InFirstOrder<T(==)>(r: seq<T>, xs: seq<T>) {
    (forall i :: 0 <= i < |r| ==> r[i] in xs) &&
    forall i, j :: 0 <= i < j < |r| ==> FirstIndex(xs, r[i]) < FirstIndex(xs, r[j])
  }

  /** Putting `x` in front of `xs` moves every other element's first occurrence one place along. */
  lemma FirstIndexCons<T>(x: T, xs: seq<T>, y: T)
    requires y in xs && y != x
    ensures FirstIndex([x] + xs, y) == FirstIndex(xs, y) + 1
  {
    assert ([x] + xs)[1..] == xs;
  }

  /** An order by first appearance in `xs` survives putting a new element in front of `xs`. */
  lemma InFirstOrderShift<T>(x: T, r: seq<T>, xs: seq<T>)
    requires InFirstOrder(r, xs)
    requires forall i :: 0 <= i < |r| ==> r[i] != x
    ensures forall i :: 0 <= i < |r| ==> r[i] in [x] + xs && FirstIndex([x] + xs, r[i]) == FirstIndex(xs, r[i]) + 1
  {
    forall i | 0 <= i < |r| ensures r[i] in [x] + xs && FirstIndex([x] + xs, r[i]) == FirstIndex(xs, r[i]) + 1 {
      FirstIndexCons(x, xs, r[i]);
    }
  }

  /** ... and the new element, appearing first, may head the list. */
  lemma InFirstOrderCons<T>(x: T, r: seq<T>, xs: seq<T>)
    requires InFirstOrder(r, xs)
    requires forall i :: 0 <= i < |r| ==> r[i] != x
    ensures InFirstOrder(r, [x] + xs)
    ensures InFirstOrder([x] + r, [x] + xs)
  {
    var xxs, xr := [x] + xs, [x] + r;
    InFirstOrderShift(x, r, xs);
    assert FirstIndex(xxs, x) == 0;
    assert forall i :: 1 <= i < |xr| ==> xr[i] == r[i - 1];
  }

  /**
   What a Python `dict` keyed by the element keeps: the first occurrence of each
   element not already in `seen`, in order of first appearance.
   */
  function DedupFrom<T(==)>(xs: seq<T>, seen: set<T>): (r: seq<T>)
    ensures NoDups(r)
    ensures Elems(r) == Elems(xs) - seen
    ensures Subseq(r, xs)
    decreases |xs|
  {
    if |xs| == 0 then []
    else if xs[0] in seen then
      var r := DedupFrom(xs[1..], seen);
      SubseqSkip(r, xs[0], xs[1..]);
      assert [xs[0]] + xs[1..] == xs;
      r
    else
      var rest := DedupFrom(xs[1..], seen + {xs[0]});
      var r := [xs[0]] + rest;
      assert r[1..] == rest && xs[1..] == xs[1..];
      assert Elems(xs) == {xs[0]} + Elems(xs[1..]);
      assert Elems(r) == {xs[0]} + Elems(rest);
      r
  }

  /** Deduplication lists what it keeps in the order of first appearance. */
  lemma {:induction false} DedupFromOrder<T>(xs: seq<T>, seen: set<T>)
    ensures InFirstOrder(DedupFrom(xs, seen), xs)
    decreases |xs|
  {
    if |xs| > 0 {
      var x := xs[0];
      var seen' := if x in seen then seen else seen + {x};
      var rest := DedupFrom(xs[1..], seen');
      DedupFromOrder(xs[1..], seen');
      assert [x] + xs[1..] == xs;
      assert forall i :: 0 <= i < |rest| ==> rest[i] in Elems(rest);
      InFirstOrderCons(x, rest, xs[1..]);
    }
  }

  /** `list(dict.fromkeys(xs))`: each element once, in order of first appearance. */
  function Dedup<T(==)>(xs: seq<T>): (r: seq<T>)
    ensures NoDups(r)
    ensures Elems(r) == Elems(xs)
    ensures Subseq(r, xs)
    ensures InFirstOrder(r, xs)
  {
    DedupFromOrder(xs, {});
    DedupFrom(xs, {})
  }

  /** A duplicate-free sequence comes out of deduplication unchanged. */
  lemma {:induction false} DedupFromNoDups<T>(xs: seq<T>, seen: set<T>)
    requires NoDups(xs)
    requires Elems(xs) !! seen
    ensures DedupFrom(xs, seen) == xs
    decreases |xs|
  {
    if |xs| > 0 {
      assert xs[0] in Elems(xs);
      assert Elems(xs[1..]) !! (seen + {xs[0]}) by {
        forall k | 0 <= k < |xs[1..]| ensures xs[1..][k] != xs[0] {
          assert xs[1..][k] == xs[k + 1];
        }
      }
      DedupFromNoDups(xs[1..], seen + {xs[0]});
    }
  }

  /** `[x for x in xs if keep(x)]` */
  function Filter<T(==)>(xs: seq<T>, keep: T -> bool): (r: seq<T>)
    ensures forall i :: 0 <= i < |r| ==> r[i] in xs && keep(r[i])
    ensures forall i :: 0 <= i < |xs| && keep(xs[i]) ==> xs[i] in r
    ensures |r| <= |xs|
    ensures Subseq(r, xs)
    decreases |xs|
  {
    if |xs| == 0 then []
    else
      var rest := Filter(xs[1..], keep);
      assert [xs[0]] + xs[1..] == xs;
      if keep(xs[0]) then
        var r := [xs[0]] + rest;
        assert r[1..] == rest;
        r
      else
        SubseqSkip(rest, xs[0], xs[1..]);
        rest
  }

  /**
   Filtering keeps every element that passes as often as it occurs, and no
   other; with `Subseq`, this pins the filtered sequence down completely.
   */
  lemma {:induction false} FilterCounts<T(!new)>(xs: seq<T>, keep: T -> bool)
    ensures forall x :: multiset(Filter(xs, keep))[x] == if keep(x) then multiset(xs)[x] else 0
    decreases |xs|
  {
    if |xs| > 0 {
      var rest := Filter(xs[1..], keep);
      FilterCounts(xs[1..], keep);
      assert [xs[0]] + xs[1..] == xs;
      FilterCount(xs[0], xs[1..], rest, keep);
    }
  }

  /** One step of the count: a kept head adds one occurrence of itself, a dropped one none. */
  lemma FilterCount<T(!new)>(x: T, xs: seq<T>, rest: seq<T>, keep: T -> bool)
    requires forall y :: multiset(rest)[y] == if keep(y) then multiset(xs)[y] else 0
    ensures forall y :: multiset(if keep(x) then [x] + rest else rest)[y] == if keep(y) then multiset([x] + xs)[y] else 0
  {
    assert multiset([x] + xs) == multiset{x} + multiset(xs);
    if keep(x) {
      assert multiset([x] + rest) == multiset{x} + multiset(rest);
    }
  }

  /** Filtering with a test every element passes changes nothing. */
  lemma {:induction false} FilterKeepsAll<T>(xs: seq<T>, keep: T -> bool)
    requires forall i :: 0 <= i < |xs| ==> keep(xs[i])
    ensures Filter(xs, keep) == xs
    decreases |xs|
  {
    if |xs| > 0 {
      FilterKeepsAll(xs[1..], keep);
      assert [xs[0]] + xs[1..] == xs;
    }
  }

  /** Peeling the first element off a non-empty prefix of a concatenation. */
  lemma Peel<T>(a: seq<T>, t: seq<T>)
    requires |a| > 0
    ensures a + t == [a[0]] + (a[1..] + t)
    ensures (a + t)[1..] == a[1..] + t
  {
  }

  /** The ends and the tail of a three-part concatenation. */
  lemma Concat3<T>(a: seq<T>, b: seq<T>, c: seq<T>)
    ensures a <= a + b + c
    ensures (a + b + c)[|a|..] == b + c
    ensures |a| > 0 ==> (a + b + c)[0] == a[0]
    ensures |c| > 0 ==> (a + b + c)[|a + b + c| - 1] == c[|c| - 1]
  {
    assert a + b + c == a + (b + c);
  }

  /** A one-element head comes off again. */
  lemma ConsTail<T>(x: T, s: seq<T>)
    ensures ([x] + s)[0] == x && ([x] + s)[1..] == s
  {
  }

  /** Slicing after a drop is slicing further along. */
  lemma SliceOfDrop<T>(s: seq<T>, d: nat, a: nat, b: nat)
    requires a <= b && d + b <= |s|
    ensures s[d..][a..b] == s[d + a..d + b]
    ensures s[d..][a..] == s[d + a..]
  {
  }

  /** `[f(x) for x in xs]` */
  function Map<A, B>(xs: seq<A>, f: A -> B): (r: seq<B>)
    ensures |r| == |xs|
    ensures forall i :: 0 <= i < |xs| ==> r[i] == f(xs[i])
  {
    seq(|xs|, i requires 0 <= i < |xs| => f(xs[i]))
  }

  /** What a mapped sequence holds is exactly the images of what the original holds. */
  lemma MapMembers<A, B>(xs: seq<A>, f: A -> B, y: B)
    ensures y in Map(xs, f) <==> exists x :: x in xs && y == f(x)
  {
    var r := Map(xs, f);
    if y in r {
      var i :| 0 <= i < |r| && r[i] == y;
      assert xs[i] in xs;
    }
    if x :| x in xs && y == f(x) {
      var i :| 0 <= i < |xs| && xs[i] == x;
      assert r[i] == y;
    }
  }

  /** Two sequences with the same members are empty together. */
  lemma SameMembersEmpty<T>(a: seq<T>, b: seq<T>)
    requires forall m :: m in a <==> m in b
    ensures a == [] <==> b == []
  {
    if a != [] {
      assert a[0] in b;
    }
    if b != [] {
      assert b[0] in a;
    }
  }

  /** A test and its negation split a sequence: every element lands on exactly one side. */
  lemma {:induction false} FilterSplit<T>(xs: seq<T>, keep: T -> bool, drop: T -> bool)
    requires forall x :: drop(x) == !keep(x)
    ensures |Filter(xs, keep)| + |Filter(xs, drop)| == |xs|
    decreases |xs|
  {
    if |xs| > 0 {
      FilterSplit(xs[1..], keep, drop);
    }
  }
}
