/**
 * The order of the position bar chart: entries of `posicaoCallipers` sorted
 * ascending by `parseInt(entry.Posicao.replace('Calliper ', ''))`, on a copy,
 * with JavaScript's stable `Array.prototype.sort`.
 *
 * Where `parseInt` yields `NaN` (a label without digits, such as
 * "Não Informado") the comparator `numA - numB` is inconsistent and the
 * JavaScript order is unspecified; this model sorts such entries last,
 * keeping their input order. An entry whose `Posicao` is not a string makes
 * the source throw; it is treated the same way.
 */
module PositionSort {
  import opened Optional
  import opened Text
  import opened Numerals
  import opened JsValues

  const Prefix: string := "Calliper "

  /** The characters `parseInt` skips before the number (JavaScript white space and line terminators; of the Unicode space separators only U+00A0 is listed, U+1680, U+2000 to U+200A, U+202F, U+205F and U+3000 are not). */
  predicate IsJsSpace(c: char) {
    c == '\t' || c == '\n' || c == '\U{000B}' || c == '\U{000C}' || c == '\r' || c == ' '
    || c == '\U{00A0}' || c == '\U{FEFF}' || c == '\U{2028}' || c == '\U{2029}'
  }

  function SkipSpace(s: string): (k: nat)
    ensures k <= |s|
    ensures k < |s| ==> !IsJsSpace(s[k])
  {
    if |s| > 0 && IsJsSpace(s[0]) then 1 + SkipSpace(s[1..]) else 0
  }

  /** Length of the longest prefix of `s` made of digits of `radix`. */
  function DigitRun(s: string, radix: nat): (k: nat)
    ensures k <= |s|
    ensures forall i :: 0 <= i < k ==> IsDigit(s[i], radix)
    ensures k < |s| ==> !IsDigit(s[k], radix)
  {
    if |s| > 0 && IsDigit(s[0], radix) then 1 + DigitRun(s[1..], radix) else 0
  }

  /**
   * `parseInt(s)` without a radix argument: leading white space, an optional
   * sign, a `0x`/`0X` prefix selecting hexadecimal, then the longest run of
   * digits; `None` stands for `NaN` (no digit at all).
   */
  function ParseInt(s: string): (r: Option<int>)
    ensures (forall i :: 0 <= i < |s| ==> !('0' <= s[i] <= '9')) ==> r.None?
  {
    var t := s[SkipSpace(s)..];
    assert forall i :: 0 <= i < |t| ==> t[i] == s[SkipSpace(s) + i];
    ParseSigned(t)
  }

  /** What `parseInt` reads once the leading white space is skipped. */
  function ParseSigned(t: string): (r: Option<int>)
    ensures (forall i :: 0 <= i < |t| ==> !('0' <= t[i] <= '9')) ==> r.None?
  {
    var sign := if |t| > 0 && t[0] == '-' then -1 else 1;
    var u := if |t| > 0 && (t[0] == '-' || t[0] == '+') then t[1..] else t;
    var hex := |u| >= 2 && u[0] == '0' && (u[1] == 'x' || u[1] == 'X');
    var radix := if hex then 16 else 10;
    var w := if hex then u[2..] else u;
    var k := DigitRun(w, radix);
    assert (forall i :: 0 <= i < |t| ==> !('0' <= t[i] <= '9')) ==> k == 0 by {
      if k > 0 && forall i :: 0 <= i < |t| ==> !('0' <= t[i] <= '9') {
        assert !hex;
        assert w[0] in t;
        DecimalDigit(w[0]);
      }
    }
    if k == 0 then None else Some(sign * Value(w[..k], radix))
  }

  /** `parseInt` skips leading white space. */
  lemma ParseSkipsSpace(c: char, s: string)
    requires IsJsSpace(c)
    ensures ParseInt([c] + s) == ParseInt(s)
  {
    var t := [c] + s;
    assert t[1..] == s;
    assert SkipSpace(t) == 1 + SkipSpace(s);
    assert t[SkipSpace(t)..] == s[SkipSpace(s)..];
  }

  /** `parseInt` reads back the decimal rendering of every natural number. */
  lemma ParseDecimal(n: nat)
    ensures ParseInt(ToRadix(n, 10)) == Some(n)
  {
    var s := ToRadix(n, 10);
    ToRadixRoundTrip(n, 10);
    if n >= 1 {
      ToRadixNoLeadingZero(n, 10);
    } else {
      assert |s| == 1;
    }
    ParsePlainDigits(s);
  }

  lemma DecimalDigit(c: char)
    requires IsDigit(c, 10)
    ensures '0' <= c <= '9'
  {
  }

  /** A digit string without a redundant leading zero parses to its value. */
  lemma ParsePlainDigits(s: string)
    requires |s| > 0
    requires forall i :: 0 <= i < |s| ==> IsDigit(s[i], 10)
    requires s[0] != '0' || |s| == 1
    ensures ParseInt(s) == Some(Value(s, 10))
  {
    DecimalDigit(s[0]);
    assert SkipSpace(s) == 0;
    assert s[0..] == s;
    SignedPlainDigits(s);
  }

  lemma SignedPlainDigits(s: string)
    requires |s| > 0 && '0' <= s[0] <= '9'
    requires forall i :: 0 <= i < |s| ==> IsDigit(s[i], 10)
    requires s[0] != '0' || |s| == 1
    ensures ParseSigned(s) == Some(Value(s, 10))
  {
    AllDigits(s, 10);
    assert s[..|s|] == s;
  }

  lemma {:induction false} AllDigits(s: string, radix: nat)
    requires forall i :: 0 <= i < |s| ==> IsDigit(s[i], radix)
    ensures DigitRun(s, radix) == |s|
  {
    if |s| > 0 {
      AllDigits(s[1..], radix);
    }
  }

  /** The numeric key of one entry; `None` when the label does not parse. */
  function PositionKey(e: JsValue): (k: Option<int>)
    ensures Nullish(e) || !Get(e, "Posicao").Str? ==> k.None?
  {
    if !Nullish(e) && Get(e, "Posicao").Str? then ParseInt(ReplaceFirst(Get(e, "Posicao").s, Prefix, ""))
    else None
  }

  /** A well-formed label "Calliper n" has key n. */
  lemma LabelKey(e: JsValue, n: nat)
    requires e.Obj? && "Posicao" in e.fields && e.fields["Posicao"] == Str(Prefix + ToRadix(n, 10))
    ensures PositionKey(e) == Some(n)
  {
    var digits := ToRadix(n, 10);
    assert Get(e, "Posicao") == Str(Prefix + digits);
    assert ReplaceFirst(Prefix + digits, Prefix, "") == digits by {
      ReplaceLeading(Prefix, digits);
    }
    ParseDecimal(n);
  }

  /** The comparator `numA - numB <= 0`, with unparsable keys placed after every number. */
  predicate KeyLe(a: Option<int>, b: Option<int>) {
    match (a, b)
    case (Some(x), Some(y)) => x <= y
    case (Some(_), None) => true
    case (None, Some(_)) => false
    case (None, None) => true
  }

  lemma KeyLeTotalOrder(a: Option<int>, b: Option<int>, c: Option<int>)
    ensures KeyLe(a, a)
    ensures KeyLe(a, b) || KeyLe(b, a)
    ensures KeyLe(a, b) && KeyLe(b, a) ==> a == b
    ensures KeyLe(a, b) && KeyLe(b, c) ==> KeyLe(a, c)
  {
  }

  /**
   * The sort below is stated for any key function `key`; the chart uses
   * `PositionKey`, and `Sort(s, PositionKey)` is its order.
   */
  predicate Sorted(s: seq<JsValue>, key: JsValue -> Option<int>) {
    forall i, j :: 0 <= i < j < |s| ==> KeyLe(key(s[i]), key(s[j]))
  }

  /** The entries of `s` whose key is `k`, in order. */
  function WithKey(s: seq<JsValue>, key: JsValue -> Option<int>, k: Option<int>): (r: seq<JsValue>)
    ensures forall x :: x in r ==> x in s && key(x) == k
  {
    if |s| == 0 then []
    else if key(s[0]) == k then [s[0]] + WithKey(s[1..], key, k)
    else WithKey(s[1..], key, k)
  }

  /** Places `x` before the first entry whose key is not below its own. */
  function Insert(x: JsValue, s: seq<JsValue>, key: JsValue -> Option<int>): (r: seq<JsValue>)
    ensures |r| == |s| + 1
  {
    if |s| == 0 then [x]
    else if KeyLe(key(x), key(s[0])) then [x] + s
    else [s[0]] + Insert(x, s[1..], key)
  }

  /** Insertion adds exactly `x`. */
  lemma {:induction false} InsertPermutes(x: JsValue, s: seq<JsValue>, key: JsValue -> Option<int>)
    ensures multiset(Insert(x, s, key)) == multiset(s) + multiset{x}
  {
    if |s| == 0 {
      assert Insert(x, s, key) == [x];
    } else if KeyLe(key(x), key(s[0])) {
      assert Insert(x, s, key) == [x] + s;
    } else {
      var t := s[1..];
      assert s == [s[0]] + t;
      var it := Insert(x, t, key);
      assert Insert(x, s, key) == [s[0]] + it;
      InsertPermutes(x, t, key);
      assert multiset([s[0]] + it) == multiset{s[0]} + multiset(it);
      assert multiset(s) == multiset{s[0]} + multiset(t);
    }
  }

  /** The sorted copy of the entries; the argument itself is a value and is not changed. */
  function Sort(s: seq<JsValue>, key: JsValue -> Option<int>): (r: seq<JsValue>)
    ensures |r| == |s|
  {
    if |s| == 0 then [] else Insert(s[0], Sort(s[1..], key), key)
  }

  /** The sorted copy holds the same entries, as many times each. */
  lemma {:induction false} SortPermutes(s: seq<JsValue>, key: JsValue -> Option<int>)
    ensures multiset(Sort(s, key)) == multiset(s)
  {
    if |s| > 0 {
      var t := s[1..];
      assert s == [s[0]] + t;
      assert Sort(s, key) == Insert(s[0], Sort(t, key), key);
      SortPermutes(t, key);
      InsertPermutes(s[0], Sort(t, key), key);
      assert multiset(s) == multiset(t) + multiset{s[0]};
    }
  }

  lemma {:induction false} InsertSorted(x: JsValue, s: seq<JsValue>, key: JsValue -> Option<int>)
    requires Sorted(s, key)
    ensures Sorted(Insert(x, s, key), key)
  {
    var kx := key(x);
    if |s| > 0 {
      if KeyLe(kx, key(s[0])) {
        var r := Insert(x, s, key);
        assert r == [x] + s;
        forall i, j | 0 <= i < j < |r|
          ensures KeyLe(key(r[i]), key(r[j]))
        {
          if i == 0 {
            KeyLeTotalOrder(kx, key(s[0]), key(s[j - 1]));
          }
        }
      } else {
        var t := s[1..];
        assert Sorted(t, key);
        InsertSorted(x, t, key);
        InsertPermutes(x, t, key);
        var it := Insert(x, t, key);
        var r := [s[0]] + it;
        assert Insert(x, s, key) == r;
        forall i, j | 0 <= i < j < |r|
          ensures KeyLe(key(r[i]), key(r[j]))
        {
          if i == 0 {
            var y := r[j];
            assert y in multiset(it);
            if y == x {
              KeyLeTotalOrder(kx, key(s[0]), kx);
            } else {
              assert y in t;
            }
          }
        }
      }
    }
  }

  /** The result is in ascending key order. */
  lemma {:induction false} SortSorted(s: seq<JsValue>, key: JsValue -> Option<int>)
    ensures Sorted(Sort(s, key), key)
  {
    if |s| > 0 {
      SortSorted(s[1..], key);
      InsertSorted(s[0], Sort(s[1..], key), key);
    }
  }

  lemma {:induction false} InsertWithKey(x: JsValue, s: seq<JsValue>, key: JsValue -> Option<int>, k: Option<int>)
    ensures WithKey(Insert(x, s, key), key, k) == if key(x) == k then [x] + WithKey(s, key, k) else WithKey(s, key, k)
  {
    if |s| > 0 {
      var kx := key(x);
      if KeyLe(kx, key(s[0])) {
        assert ([x] + s)[1..] == s;
      } else {
        KeyLeTotalOrder(kx, kx, kx);
        assert key(s[0]) != kx;
        InsertWithKey(x, s[1..], key, k);
        assert ([s[0]] + Insert(x, s[1..], key))[1..] == Insert(x, s[1..], key);
      }
    }
  }

  /** Stability: the entries sharing any one key keep their input order. */
  lemma {:induction false} SortStable(s: seq<JsValue>, key: JsValue -> Option<int>, k: Option<int>)
    ensures WithKey(Sort(s, key), key, k) == WithKey(s, key, k)
  {
    if |s| > 0 {
      SortStable(s[1..], key, k);
      InsertWithKey(s[0], Sort(s[1..], key), key, k);
    }
  }

  lemma SortedHead(a: seq<JsValue>, key: JsValue -> Option<int>, x: JsValue)
    requires Sorted(a, key) && x in a
    ensures KeyLe(key(a[0]), key(x))
  {
    var i :| 0 <= i < |a| && a[i] == x;
    if i == 0 {
      KeyLeTotalOrder(key(x), key(x), key(x));
    }
  }

  lemma HeadHasKey(a: seq<JsValue>, key: JsValue -> Option<int>)
    ensures |a| > 0 ==> WithKey(a, key, key(a[0])) != []
  {
  }

  lemma WithKeyTail(a: seq<JsValue>, key: JsValue -> Option<int>, k: Option<int>)
    requires |a| > 0
    ensures WithKey(a[1..], key, k) == if key(a[0]) == k then WithKey(a, key, k)[1..] else WithKey(a, key, k)
  {
  }

  /**
   * A stable ascending order is unique: two sequences that are both sorted
   * and agree on the order of every key's entries are equal. Hence any
   * correct stable sort, and in particular both sorted copies the chart
   * makes, yields exactly `Sort`'s order.
   */
  lemma {:induction false} SortedUnique(a: seq<JsValue>, b: seq<JsValue>, key: JsValue -> Option<int>)
    requires Sorted(a, key) && Sorted(b, key)
    requires forall k :: WithKey(a, key, k) == WithKey(b, key, k)
    ensures a == b
    decreases |a|
  {
    if |a| == 0 && |b| > 0 {
      HeadHasKey(b, key);
      assert false;
    } else if |a| > 0 && |b| == 0 {
      HeadHasKey(a, key);
      assert false;
    } else if |a| > 0 {
      SameHead(a, b, key);
      SameTails(a, b, key);
      assert Sorted(a[1..], key) && Sorted(b[1..], key);
      SortedUnique(a[1..], b[1..], key);
      assert a == [a[0]] + a[1..];
      assert b == [b[0]] + b[1..];
    }
  }

  /** Two sorted sequences with the same entries per key start with the same entry. */
  lemma SameHead(a: seq<JsValue>, b: seq<JsValue>, key: JsValue -> Option<int>)
    requires Sorted(a, key) && Sorted(b, key) && |a| > 0 && |b| > 0
    requires forall k :: WithKey(a, key, k) == WithKey(b, key, k)
    ensures a[0] == b[0]
  {
    var ka, kb := key(a[0]), key(b[0]);
    assert b[0] in WithKey(b, key, kb);
    assert b[0] in WithKey(a, key, kb);
    SortedHead(a, key, b[0]);
    assert a[0] in WithKey(a, key, ka);
    assert a[0] in WithKey(b, key, ka);
    SortedHead(b, key, a[0]);
    KeyLeTotalOrder(ka, kb, ka);
    assert WithKey(a, key, ka)[0] == a[0];
    assert WithKey(b, key, ka)[0] == b[0];
  }

  /** Removing a shared head keeps the per-key entries equal. */
  lemma SameTails(a: seq<JsValue>, b: seq<JsValue>, key: JsValue -> Option<int>)
    requires |a| > 0 && |b| > 0 && a[0] == b[0]
    requires forall k :: WithKey(a, key, k) == WithKey(b, key, k)
    ensures forall k :: WithKey(a[1..], key, k) == WithKey(b[1..], key, k)
  {
    forall k
      ensures WithKey(a[1..], key, k) == WithKey(b[1..], key, k)
    {
      WithKeyTail(a, key, k);
      WithKeyTail(b, key, k);
    }
  }

  /** Any stable ascending permutation of the entries is `Sort`'s result. */
  lemma SortCharacterised(s: seq<JsValue>, r: seq<JsValue>, key: JsValue -> Option<int>)
    requires Sorted(r, key)
    requires forall k :: WithKey(r, key, k) == WithKey(s, key, k)
    ensures r == Sort(s, key)
  {
    SortSorted(s, key);
    forall k
      ensures WithKey(r, key, k) == WithKey(Sort(s, key), key, k)
    {
      SortStable(s, key, k);
    }
    SortedUnique(r, Sort(s, key), key);
  }

  function Entry(name: string): JsValue {
    Obj(map["Posicao" := Str(name)])
  }

  lemma Key10()
    ensures PositionKey(Entry("Calliper 10")) == Some(10)
  {
    assert ToRadix(10, 10) == ToRadix(1, 10) + [DigitChar(0)];
    assert Prefix + ToRadix(10, 10) == "Calliper 10";
    LabelKey(Entry("Calliper 10"), 10);
  }

  lemma Key2()
    ensures PositionKey(Entry("Calliper 2")) == Some(2)
  {
    assert Prefix + ToRadix(2, 10) == "Calliper 2";
    LabelKey(Entry("Calliper 2"), 2);
  }

  lemma Key1()
    ensures PositionKey(Entry("Calliper 1")) == Some(1)
  {
    assert Prefix + ToRadix(1, 10) == "Calliper 1";
    LabelKey(Entry("Calliper 1"), 1);
  }

  /** Sorting `[x] + s` inserts `x` into the sorted rest. */
  lemma SortCons(x: JsValue, s: seq<JsValue>, key: JsValue -> Option<int>)
    ensures Sort([x] + s, key) == Insert(x, Sort(s, key), key)
  {
    assert ([x] + s)[1..] == s;
  }

  /** Inserting past an entry with a smaller key keeps that entry in front. */
  lemma InsertPast(x: JsValue, y: JsValue, s: seq<JsValue>, key: JsValue -> Option<int>)
    requires !KeyLe(key(x), key(y))
    ensures Insert(x, [y] + s, key) == [y] + Insert(x, s, key)
  {
    assert ([y] + s)[1..] == s;
  }

  /** Three entries whose keys strictly decrease come out reversed. */
  lemma SortDescendingThree(a: JsValue, b: JsValue, c: JsValue, key: JsValue -> Option<int>, ka: int, kb: int, kc: int)
    requires key(a) == Some(ka) && key(b) == Some(kb) && key(c) == Some(kc)
    requires kc < kb < ka
    ensures Sort([a, b, c], key) == [c, b, a]
  {
    assert Sort([c], key) == [c] by {
      SortCons(c, [], key);
      assert [c] + [] == [c];
    }
    assert Sort([b, c], key) == [c, b] by {
      SortCons(b, [c], key);
      InsertPast(b, c, [], key);
      assert [b] + [c] == [b, c] && [c] + [b] == [c, b];
    }
    assert Insert(a, [c, b], key) == [c, b, a] by {
      InsertPast(a, c, [b], key);
      InsertPast(a, b, [], key);
      assert [c] + [b] == [c, b] && [b] + [a] == [b, a] && [c] + [b, a] == [c, b, a];
    }
    SortCons(a, [b, c], key);
    assert [a] + [b, c] == [a, b, c];
  }

  /** Numeric, not lexicographic: "Calliper 10", "Calliper 2", "Calliper 1" sort to 1, 2, 10. */
  lemma NumericNotLexicographic()
    ensures Sort([Entry("Calliper 10"), Entry("Calliper 2"), Entry("Calliper 1")], PositionKey)
         == [Entry("Calliper 1"), Entry("Calliper 2"), Entry("Calliper 10")]
  {
    Key10();
    Key2();
    Key1();
    SortDescendingThree(Entry("Calliper 10"), Entry("Calliper 2"), Entry("Calliper 1"), PositionKey, 10, 2, 1);
  }
}
