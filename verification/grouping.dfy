/**
 * Group-by-and-count (`groupby(key).size()` and `value_counts()` in pandas):
 * one group per distinct key, in order of first appearance, holding how many
 * elements carry that key. The order pandas gives the groups is not modelled.
 */
module Grouping {
  import opened Seqs

  datatype Group<K> = Group(key: K, count: nat)

  /** How many elements of `s` equal `x`. */
  function Occurrences<T(==)>(s: seq<T>, x: T): nat
  {
    if |s| == 0 then 0
    else (if s[0] == x then 1 else 0) + Occurrences(s[1..], x)
  }

  lemma {:induction false} OccurrencesPositive<T>(s: seq<T>, x: T)
    ensures Occurrences(s, x) > 0 <==> x in s
  {
    if |s| > 0 {
      OccurrencesPositive(s[1..], x);
    }
  }

  /** Removing every `x` leaves the other keys' counts untouched and drops exactly the `x`s. */
  lemma {:induction false} WithoutOccurrences<T(!new)>(s: seq<T>, x: T, y: T)
    ensures Occurrences(Without(s, x), y) == if y == x then 0 else Occurrences(s, y)
    ensures |Without(s, x)| + Occurrences(s, x) == |s|
  {
    if |s| > 0 {
      WithoutOccurrences(s[1..], x, y);
    }
  }

  function CountEach<T(==)>(keys: seq<T>, s: seq<T>): (r: seq<Group<T>>)
    ensures |r| == |keys|
    ensures forall i :: 0 <= i < |r| ==> r[i] == Group(keys[i], Occurrences(s, keys[i]))
  {
    if |keys| == 0 then []
    else [Group(keys[0], Occurrences(s, keys[0]))] + CountEach(keys[1..], s)
  }

  /** One group per distinct key of `s`, in order of first appearance. */
  function GroupCount<T(==,!new)>(s: seq<T>): (r: seq<Group<T>>)
    ensures |r| == |Distinct(s)|
    ensures forall i :: 0 <= i < |r| ==> r[i].key == Distinct(s)[i]
  {
    CountEach(Distinct(s), s)
  }

  /** Sum of the groups' counts. */
  function Total<T>(gs: seq<Group<T>>): nat
  {
    if |gs| == 0 then 0 else gs[0].count + Total(gs[1..])
  }

  /** The count of key `x`, or 0 when no group has that key. */
  function Lookup<T(==)>(gs: seq<Group<T>>, x: T): nat
  {
    if |gs| == 0 then 0
    else if gs[0].key == x then gs[0].count
    else Lookup(gs[1..], x)
  }

  /** Each key appears in one group, that group counts its occurrences, and no group is empty. */
  lemma GroupCountContents<T(!new)>(s: seq<T>)
    ensures forall i, j :: 0 <= i < j < |GroupCount(s)| ==> GroupCount(s)[i].key != GroupCount(s)[j].key
    ensures forall i :: 0 <= i < |GroupCount(s)| ==>
      GroupCount(s)[i].count == Occurrences(s, GroupCount(s)[i].key) && GroupCount(s)[i].count > 0
    ensures forall x :: x in s <==> exists i :: 0 <= i < |GroupCount(s)| && GroupCount(s)[i].key == x
  {
    var d, r := Distinct(s), GroupCount(s);
    forall i | 0 <= i < |r|
      ensures r[i].count > 0
    {
      assert d[i] in d;
      OccurrencesPositive(s, d[i]);
    }
    forall x | x in s
      ensures exists i :: 0 <= i < |r| && r[i].key == x
    {
      var i :| 0 <= i < |d| && d[i] == x;
      assert r[i].key == x;
    }
  }

  /** Looking a key up in the grouping gives its number of occurrences, present or not. */
  lemma GroupCountLookup<T(!new)>(s: seq<T>, x: T)
    ensures Lookup(GroupCount(s), x) == Occurrences(s, x)
  {
    var d := Distinct(s);
    if x in s {
      var i :| 0 <= i < |d| && d[i] == x;
      LookupAt(GroupCount(s), i);
    } else {
      OccurrencesPositive(s, x);
      LookupAbsent(GroupCount(s), x);
    }
  }

  lemma {:induction false} LookupAt<T>(gs: seq<Group<T>>, i: nat)
    requires i < |gs|
    requires forall a, b :: 0 <= a < b < |gs| ==> gs[a].key != gs[b].key
    ensures Lookup(gs, gs[i].key) == gs[i].count
  {
    if i > 0 {
      LookupAt(gs[1..], i - 1);
    }
  }

  lemma {:induction false} LookupAbsent<T>(gs: seq<Group<T>>, x: T)
    requires forall i :: 0 <= i < |gs| ==> gs[i].key != x
    ensures Lookup(gs, x) == 0
  {
    if |gs| > 0 {
      LookupAbsent(gs[1..], x);
    }
  }

  /** Every element falls in exactly one group, so the counts add up to the length. */
  lemma GroupCountTotal<T(!new)>(s: seq<T>)
    ensures Total(GroupCount(s)) == |s|
  {
    DistinctTotal(s);
  }

  lemma {:induction false} DistinctTotal<T(!new)>(s: seq<T>)
    ensures Total(CountEach(Distinct(s), s)) == |s|
    decreases |s|
  {
    if |s| > 0 {
      var x := s[0];
      var w := Without(s[1..], x);
      var rest := Distinct(w);
      assert Distinct(s) == [x] + rest;
      assert CountEach(Distinct(s), s)[1..] == CountEach(rest, s);
      DistinctTotal(w);
      forall y | y in rest
        ensures Occurrences(s, y) == Occurrences(w, y)
      {
        WithoutOccurrences(s[1..], x, y);
      }
      SameCounts(rest, s, w);
      WithoutOccurrences(s[1..], x, x);
    }
  }

  /** Two sequences that agree on the count of every key in `keys` give the same total. */
  lemma {:induction false} SameCounts<T>(keys: seq<T>, s: seq<T>, t: seq<T>)
    requires forall y :: y in keys ==> Occurrences(s, y) == Occurrences(t, y)
    ensures Total(CountEach(keys, s)) == Total(CountEach(keys, t))
  {
    if |keys| > 0 {
      assert CountEach(keys, s)[1..] == CountEach(keys[1..], s);
      assert CountEach(keys, t)[1..] == CountEach(keys[1..], t);
      SameCounts(keys[1..], s, t);
    }
  }
}
