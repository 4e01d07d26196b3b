/**
 * Order-preserving selection over sequences, the shape of every pandas
 * boolean-mask selection `df[mask]`, and first-appearance de-duplication,
 * the shape of `Series.unique()`.
 */
module Seqs {

  /** The elements of `s` satisfying `p`, in their original order. */
  function Filter<T(!new)>(s: seq<T>, p: T -> bool): (r: seq<T>)
    ensures |r| <= |s|
    ensures forall x :: x in r <==> x in s && p(x)
    ensures forall i :: 0 <= i < |r| ==> p(r[i])
  {
    if |s| == 0 then []
    else if p(s[0]) then [s[0]] + Filter(s[1..], p)
    else Filter(s[1..], p)
  }

  /** Each element occurs in the selection as often as in `s` when it satisfies `p`, and not at all otherwise. */
  lemma {:induction false} FilterCount<T(!new)>(s: seq<T>, p: T -> bool)
    ensures forall x :: multiset(Filter(s, p))[x] == if p(x) then multiset(s)[x] else 0
  {
    if |s| > 0 {
      FilterCount(s[1..], p);
      assert s == [s[0]] + s[1..];
      assert multiset(s) == multiset{s[0]} + multiset(s[1..]);
      if p(s[0]) {
        assert multiset(Filter(s, p)) == multiset{s[0]} + multiset(Filter(s[1..], p));
      }
    }
  }

  /** The positions `j` at or after `i` with `p(s[j])`, ascending. */
  function PositionsFrom<T>(s: seq<T>, p: T -> bool, i: nat): (r: seq<nat>)
    requires i <= |s|
    ensures forall k :: 0 <= k < |r| ==> i <= r[k] < |s| && p(s[r[k]])
    ensures forall k, l :: 0 <= k < l < |r| ==> r[k] < r[l]
    ensures forall j :: i <= j < |s| && p(s[j]) ==> j in r
    decreases |s| - i
  {
    if i == |s| then []
    else if p(s[i]) then [i] + PositionsFrom(s, p, i + 1)
    else PositionsFrom(s, p, i + 1)
  }

  lemma {:induction false} FilterAtPositionsFrom<T(!new)>(s: seq<T>, p: T -> bool, i: nat)
    requires i <= |s|
    ensures |Filter(s[i..], p)| == |PositionsFrom(s, p, i)|
    ensures forall k :: 0 <= k < |Filter(s[i..], p)| ==> Filter(s[i..], p)[k] == s[PositionsFrom(s, p, i)[k]]
    decreases |s| - i
  {
    if i < |s| {
      FilterAtPositionsFrom(s, p, i + 1);
      var f, ps := Filter(s[i + 1..], p), PositionsFrom(s, p, i + 1);
      assert s[i..][0] == s[i];
      assert s[i..][1..] == s[i + 1..];
      if p(s[i]) {
        assert Filter(s[i..], p) == [s[i]] + f;
        assert PositionsFrom(s, p, i) == [i] + ps;
      } else {
        assert Filter(s[i..], p) == f;
        assert PositionsFrom(s, p, i) == ps;
      }
    }
  }

  /**
   * The selection is `s` read at exactly the positions whose element
   * satisfies `p`, in increasing order: it keeps the input order and every
   * occurrence.
   */
  lemma FilterAtPositions<T(!new)>(s: seq<T>, p: T -> bool)
    ensures |Filter(s, p)| == |PositionsFrom(s, p, 0)|
    ensures forall k :: 0 <= k < |Filter(s, p)| ==> Filter(s, p)[k] == s[PositionsFrom(s, p, 0)[k]]
  {
    FilterAtPositionsFrom(s, p, 0);
    assert s[0..] == s;
  }

  /** The conjunction of two predicates. */
  function Both<T>(q: T -> bool, p: T -> bool): T -> bool {
    x => q(x) && p(x)
  }

  /** Two successive selections are one selection by the conjunction. */
  lemma {:induction false} FilterThen<T(!new)>(s: seq<T>, q: T -> bool, p: T -> bool)
    ensures Filter(Filter(s, q), p) == Filter(s, Both(q, p))
  {
    if |s| > 0 {
      FilterThen(s[1..], q, p);
    }
  }

  /** Selection depends only on which elements the predicate accepts. */
  lemma {:induction false} FilterExt<T(!new)>(s: seq<T>, p: T -> bool, q: T -> bool)
    requires forall x :: p(x) == q(x)
    ensures Filter(s, p) == Filter(s, q)
  {
    if |s| > 0 {
      FilterExt(s[1..], p, q);
    }
  }

  /** Two selections by mutually exclusive predicates together take at most every element once. */
  lemma {:induction false} FilterExclusive<T(!new)>(s: seq<T>, p: T -> bool, q: T -> bool)
    requires forall x :: !(p(x) && q(x))
    ensures |Filter(s, p)| + |Filter(s, q)| <= |s|
  {
    if |s| > 0 {
      FilterExclusive(s[1..], p, q);
    }
  }

  /** When every element satisfies `p` or `q`, the two selections together cover `s`, at most twice. */
  lemma {:induction false} FilterCover<T(!new)>(s: seq<T>, p: T -> bool, q: T -> bool)
    requires forall i :: 0 <= i < |s| ==> p(s[i]) || q(s[i])
    ensures |s| <= |Filter(s, p)| + |Filter(s, q)| <= 2 * |s|
  {
    if |s| > 0 {
      FilterCover(s[1..], p, q);
    }
  }

  /** Applies `f` to every element. */
  function Map<T, U>(s: seq<T>, f: T -> U): (r: seq<U>)
    ensures |r| == |s|
    ensures forall i :: 0 <= i < |s| ==> r[i] == f(s[i])
  {
    seq(|s|, i requires 0 <= i < |s| => f(s[i]))
  }

  predicate NoDuplicates<T(==)>(s: seq<T>) {
    forall i, j :: 0 <= i < j < |s| ==> s[i] != s[j]
  }

  /** `s` with every occurrence of `x` removed. */
  function Without<T(==,!new)>(s: seq<T>, x: T): (r: seq<T>)
    ensures |r| <= |s|
    ensures forall y :: y in r <==> y in s && y != x
  {
    if |s| == 0 then []
    else if s[0] == x then Without(s[1..], x)
    else [s[0]] + Without(s[1..], x)
  }

  /** The distinct elements of `s` in order of first appearance (pandas `unique()`). */
  function Distinct<T(==,!new)>(s: seq<T>): (r: seq<T>)
    ensures NoDuplicates(r)
    ensures forall x :: x in r <==> x in s
    ensures |r| <= |s|
    decreases |s|
  {
    if |s| == 0 then []
    else
      var t := Distinct(Without(s[1..], s[0]));
      assert forall j :: 0 <= j < |t| ==> t[j] != s[0] by {
        forall j | 0 <= j < |t|
          ensures t[j] != s[0]
        {
          assert t[j] in t;
        }
      }
      [s[0]] + t
  }

  /** The position of the first occurrence of `x` in `s`. */
  function FirstIndex<T(==)>(s: seq<T>, x: T): (i: nat)
    requires x in s
    ensures i < |s| && s[i] == x
    ensures forall k :: 0 <= k < i ==> s[k] != x
  {
    if s[0] == x then 0 else 1 + FirstIndex(s[1..], x)
  }

  /** Removing a third value keeps the relative order of two values' first occurrences. */
  lemma {:induction false} WithoutOrder<T(!new)>(u: seq<T>, x: T, y: T, z: T)
    requires y in u && z in u && y != x && z != x
    ensures y in Without(u, x) && z in Without(u, x)
    ensures FirstIndex(u, y) < FirstIndex(u, z) <==> FirstIndex(Without(u, x), y) < FirstIndex(Without(u, x), z)
  {
    var w := Without(u, x);
    var t := u[1..];
    if u[0] == x {
      assert w == Without(t, x);
      WithoutOrder(t, x, y, z);
    } else if y == u[0] || z == u[0] {
      assert w == [u[0]] + Without(t, x);
    } else {
      assert w == [u[0]] + Without(t, x);
      WithoutOrder(t, x, y, z);
    }
  }

  /** `unique()` lists values in order of their first appearance. */
  lemma {:induction false} DistinctOrder<T(!new)>(s: seq<T>)
    ensures forall i :: 0 <= i < |Distinct(s)| ==> Distinct(s)[i] in s
    ensures forall i, j :: 0 <= i < j < |Distinct(s)| ==>
      FirstIndex(s, Distinct(s)[i]) < FirstIndex(s, Distinct(s)[j])
    decreases |s|
  {
    var r := Distinct(s);
    forall i | 0 <= i < |r|
      ensures r[i] in s
    {
      assert r[i] in r;
    }
    if |s| > 0 {
      var u := s[1..];
      var w := Without(u, s[0]);
      var t := Distinct(w);
      assert r == [s[0]] + t;
      DistinctOrder(w);
      forall i, j | 0 <= i < j < |r|
        ensures FirstIndex(s, r[i]) < FirstIndex(s, r[j])
      {
        var y, z := r[i], r[j];
        assert z in w by {
          assert z == t[j - 1] && t[j - 1] in t;
        }
        assert y == s[0] || (y in w && FirstIndex(w, y) < FirstIndex(w, z)) by {
          if i > 0 {
            assert y == t[i - 1] && z == t[j - 1] && t[i - 1] in t;
          }
        }
        DistinctOrderStep(s, y, z);
      }
    }
  }

  /** One pair of the induction step: the head comes first, and the tail's order carries over past the removed head. */
  lemma DistinctOrderStep<T(!new)>(s: seq<T>, y: T, z: T)
    requires 0 < |s| && y in s && z in Without(s[1..], s[0])
    requires y == s[0] || (y in Without(s[1..], s[0]) &&
      FirstIndex(Without(s[1..], s[0]), y) < FirstIndex(Without(s[1..], s[0]), z))
    ensures z in s && FirstIndex(s, y) < FirstIndex(s, z)
  {
    var u := s[1..];
    assert z != s[0] && FirstIndex(s, z) == 1 + FirstIndex(u, z);
    if y != s[0] {
      assert FirstIndex(s, y) == 1 + FirstIndex(u, y);
      WithoutOrder(u, s[0], y, z);
    }
  }

  /** A duplicate-free sequence has as many elements as its set. */
  lemma {:induction false} NoDuplicatesCard<T>(s: seq<T>)
    requires NoDuplicates(s)
    ensures |set x | x in s| == |s|
  {
    if |s| > 0 {
      var t := s[1..];
      assert NoDuplicates(t) by {
        forall i, j | 0 <= i < j < |t|
          ensures t[i] != t[j]
        {
          assert t[i] == s[i + 1] && t[j] == s[j + 1];
        }
      }
      NoDuplicatesCard(t);
      assert s[0] !in t by {
        forall i | 0 <= i < |t|
          ensures t[i] != s[0]
        {
          assert t[i] == s[i + 1];
        }
      }
      assert (set x | x in s) == {s[0]} + (set x | x in t);
    }
  }

  /** A sequence whose elements all occur in `b` has no more distinct elements than `b`. */
  lemma DistinctSubsetBound<T(!new)>(a: seq<T>, b: seq<T>)
    requires forall x :: x in a ==> x in b
    ensures |Distinct(a)| <= |Distinct(b)|
  {
    var da, db := Distinct(a), Distinct(b);
    NoDuplicatesCard(da);
    NoDuplicatesCard(db);
    var sa, sb := set x | x in da, set x | x in db;
    assert sa <= sb by {
      forall x | x in sa
        ensures x in sb
      {
      }
    }
    SubsetCard(sa, sb);
  }

  /** Mapping a selection yields values the mapping of the whole also yields. */
  lemma MapFilterMembers<T(!new), U>(s: seq<T>, p: T -> bool, f: T -> U)
    ensures forall y :: y in Map(Filter(s, p), f) ==> y in Map(s, f)
  {
    var m, t := Map(s, f), Filter(s, p);
    forall y | y in Map(t, f)
      ensures y in m
    {
      var i :| 0 <= i < |t| && Map(t, f)[i] == y;
      var x := t[i];
      assert x in s;
      var j :| 0 <= j < |s| && s[j] == x;
      assert m[j] == y;
    }
  }

  lemma SubsetCard<T>(a: set<T>, b: set<T>)
    requires a <= b
    ensures |a| <= |b|
  {
    assert b == a + (b - a);
  }
}
