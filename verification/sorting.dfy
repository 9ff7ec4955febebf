/**
 Python's ordering of `str` values (lexicographic by code point) and the
 `sorted(set(xs))` idiom the report scripts use for every listing.
 */
module Sorting {
  import opened Seqs

  /** `a < b` on Python strings. */
  predicate Less(a: string, b: string)
    decreases |a|
  {
    if |a| == 0 then |b| > 0
    else if |b| == 0 then false
    else if a[0] != b[0] then a[0] < b[0]
    else Less(a[1..], b[1..])
  }

  lemma {:induction false} LessIrreflexive(a: string)
    ensures !Less(a, a)
    decreases |a|
  {
    if |a| > 0 {
      LessIrreflexive(a[1..]);
    }
  }

  lemma {:induction false} LessAsymmetric(a: string, b: string)
    ensures Less(a, b) ==> !Less(b, a)
    decreases |a|
  {
    if |a| > 0 && |b| > 0 && a[0] == b[0] {
      LessAsymmetric(a[1..], b[1..]);
    }
  }

  lemma {:induction false} LessTransitive(a: string, b: string, c: string)
    ensures Less(a, b) && Less(b, c) ==> Less(a, c)
    decreases |a|
  {
    if |a| > 0 && |b| > 0 && |c| > 0 && a[0] == b[0] && b[0] == c[0] {
      LessTransitive(a[1..], b[1..], c[1..]);
    }
  }

  lemma {:induction false} LessTotal(a: string, b: string)
    ensures a == b || Less(a, b) || Less(b, a)
    decreases |a|
  {
    if |a| > 0 && |b| > 0 && a[0] == b[0] {
      LessTotal(a[1..], b[1..]);
      assert a == [a[0]] + a[1..] && b == [b[0]] + b[1..];
    }
  }

  /** Strictly increasing, hence also free of duplicates. */
  predicate Sorted(xs: seq<string>) {
    forall i, j :: 0 <= i < j < |xs| ==> Less(xs[i], xs[j])
  }

  lemma SortedNoDups(xs: seq<string>)
    requires Sorted(xs)
    ensures NoDups(xs)
  {
    forall i, j | 0 <= i < j < |xs| ensures xs[i] != xs[j] {
      LessIrreflexive(xs[i]);
    }
  }

  lemma SortedCons(x: string, xs: seq<string>)
    requires Sorted(xs)
    requires forall k :: 0 <= k < |xs| ==> Less(x, xs[k])
    ensures Sorted([x] + xs)
  {
    var r := [x] + xs;
    forall i, j | 0 <= i < j < |r| ensures Less(r[i], r[j]) {
      if i > 0 {
        assert r[i] == xs[i - 1] && r[j] == xs[j - 1];
      } else {
        assert r[j] == xs[j - 1];
      }
    }
  }

  /** Insert `x` into a strictly increasing list unless it is already there. */
  function Insert(x: string, xs: seq<string>): (r: seq<string>)
    requires Sorted(xs)
    ensures Sorted(r)
    ensures Elems(r) == Elems(xs) + {x}
    decreases |xs|
  {
    if |xs| == 0 then [x]
    else if x == xs[0] then xs
    else if Less(x, xs[0]) then
      assert forall k :: 0 <= k < |xs| ==> Less(x, xs[k]) by {
        forall k | 0 <= k < |xs| ensures Less(x, xs[k]) {
          if k > 0 {
            LessTransitive(x, xs[0], xs[k]);
          }
        }
      }
      SortedCons(x, xs);
      [x] + xs
    else
      var rest := Insert(x, xs[1..]);
      LessTotal(x, xs[0]);
      assert forall k :: 0 <= k < |rest| ==> Less(xs[0], rest[k]) by {
        forall k | 0 <= k < |rest| ensures Less(xs[0], rest[k]) {
          assert rest[k] in Elems(rest);
          if rest[k] != x {
            var m :| 0 <= m < |xs[1..]| && xs[1..][m] == rest[k];
            assert xs[m + 1] == rest[k];
          }
        }
      }
      SortedCons(xs[0], rest);
      assert Elems(xs) == {xs[0]} + Elems(xs[1..]);
      assert Elems([xs[0]] + rest) == {xs[0]} + Elems(rest);
      [xs[0]] + rest
  }

  /** `sorted(set(xs))` */
  function SortedUnique(xs: seq<string>): (r: seq<string>)
    ensures Sorted(r)
    ensures Elems(r) == Elems(xs)
    decreases |xs|
  {
    if |xs| == 0 then []
    else
      var r := Insert(xs[|xs| - 1], SortedUnique(xs[..|xs| - 1]));
      assert Elems(xs) == Elems(xs[..|xs| - 1]) + {xs[|xs| - 1]} by {
        assert xs == xs[..|xs| - 1] + [xs[|xs| - 1]];
      }
      r
  }

  /** What `sorted(set(xs))` holds: exactly the members of `xs`, in order, once each. */
  lemma SortedUniqueMembers(xs: seq<string>)
    ensures Sorted(SortedUnique(xs)) && NoDups(SortedUnique(xs))
    ensures forall m :: m in SortedUnique(xs) <==> m in xs
  {
    var r := SortedUnique(xs);
    SortedNoDups(r);
    forall m ensures m in r <==> m in xs {
      assert m in r <==> m in Elems(r);
      assert m in xs <==> m in Elems(xs);
    }
  }

  /** A strictly increasing listing of a set is unique. */
  lemma {:induction false} SortedUniqueness(a: seq<string>, b: seq<string>)
    requires Sorted(a) && Sorted(b)
    requires Elems(a) == Elems(b)
    ensures a == b
    decreases |a|
  {
    if |a| > 0 {
      assert a[0] in Elems(b);
      assert b[0] in Elems(a);
      var i :| 0 <= i < |b| && b[i] == a[0];
      var j :| 0 <= j < |a| && a[j] == b[0];
      assert i > 0 ==> Less(b[0], a[0]);
      assert j > 0 ==> Less(a[0], b[0]);
      LessAsymmetric(a[0], b[0]);
      LessIrreflexive(a[0]);
      assert a[0] == b[0];
      SortedNoDups(a);
      SortedNoDups(b);
      assert Elems(a[1..]) == Elems(a) - {a[0]} by {
        assert a == [a[0]] + a[1..];
      }
      assert Elems(b[1..]) == Elems(b) - {b[0]} by {
        assert b == [b[0]] + b[1..];
      }
      SortedUniqueness(a[1..], b[1..]);
      assert a == [a[0]] + a[1..] && b == [b[0]] + b[1..];
    } else {
      ElemsEmpty(b);
    }
  }

  lemma ElemsEmpty(b: seq<string>)
    ensures Elems(b) == {} ==> b == []
  {
    if |b| > 0 {
      assert b[0] in Elems(b);
    }
  }

  /** `sorted(set(xs))` leaves an already strictly increasing list alone. */
  lemma SortedUniqueOfSorted(xs: seq<string>)
    requires Sorted(xs)
    ensures SortedUnique(xs) == xs
  {
    SortedUniqueness(SortedUnique(xs), xs);
  }

  /** Filtering a strictly increasing list keeps it strictly increasing. */
  lemma FilterSorted(xs: seq<string>, keep: string -> bool)
    requires Sorted(xs)
    ensures Sorted(Filter(xs, keep))
  {
    SubseqSorted(Filter(xs, keep), xs);
  }

  lemma {:induction false} SubseqSorted(a: seq<string>, b: seq<string>)
    requires Subseq(a, b) && Sorted(b)
    ensures Sorted(a)
    ensures forall k :: 0 <= k < |a| ==> a[k] in b
    decreases |b|
  {
    if |a| > 0 {
      assert |b| > 0;
      if a[0] == b[0] {
        SubseqSorted(a[1..], b[1..]);
        forall k | 0 <= k < |a| - 1 ensures Less(a[0], a[1..][k]) {
          var m :| 0 <= m < |b[1..]| && b[1..][m] == a[1..][k];
          assert b[m + 1] == a[1..][k];
        }
        SortedCons(a[0], a[1..]);
        assert a == [a[0]] + a[1..];
      } else {
        SubseqSorted(a, b[1..]);
      }
    }
  }

  /** `sorted(s)` for a set of strings. */
  method SortSet(s: set<string>) returns (r: seq<string>)
    ensures Sorted(r)
    ensures Elems(r) == s
  {
    r := [];
    var rest := s;
    while rest != {}
      invariant rest <= s
      invariant Sorted(r)
      invariant Elems(r) == s - rest
      decreases |rest|
    {
      var x :| x in rest;
      r := Insert(x, r);
      rest := rest - {x};
    }
  }
}
