/**
 * Positional numerals in radix 2..16: the digit alphabet, rendering a natural
 * number (JavaScript `Number.prototype.toString(radix)`, Python `str` for
 * radix 10), reading a digit string back, and `padStart`-style padding.
 */
module Numerals {

  const Alphabet: string := "0123456789abcdef"

  predicate ValidRadix(radix: nat) {
    2 <= radix <= 16
  }

  /** Lower-case digit character for `d`. */
  function DigitChar(d: nat): (c: char)
    requires d < 16
    ensures c in Alphabet
  {
    Alphabet[d]
  }

  /** Value of a digit character in any radix up to 16; both letter cases are read. */
  function DigitValue(c: char): nat {
    if '0' <= c <= '9' then c as nat - '0' as nat
    else if 'a' <= c <= 'f' then c as nat - 'a' as nat + 10
    else if 'A' <= c <= 'F' then c as nat - 'A' as nat + 10
    else 16
  }

  /** `c` is a digit of the given radix. */
  predicate IsDigit(c: char, radix: nat) {
    DigitValue(c) < radix
  }

  predicate IsLowerDigit(c: char, radix: nat) {
    c in Alphabet && IsDigit(c, radix)
  }

  lemma DigitCharValue(d: nat)
    requires d < 16
    ensures DigitValue(DigitChar(d)) == d
  {
  }

  /** The shortest rendering of `n` in `radix`, most significant digit first. */
  function ToRadix(n: nat, radix: nat): (s: string)
    requires ValidRadix(radix)
    ensures |s| >= 1
    decreases n
  {
    if n < radix then [DigitChar(n)]
    else ToRadix(n / radix, radix) + [DigitChar(n % radix)]
  }

  /** The number a digit string denotes, most significant digit first. */
  function Value(s: string, radix: nat): nat
  {
    if |s| == 0 then 0
    else Value(s[..|s| - 1], radix) * radix + DigitValue(s[|s| - 1])
  }

  /** Rendering then reading gives the number back, with lower-case digits only. */
  lemma ToRadixRoundTrip(n: nat, radix: nat)
    requires ValidRadix(radix)
    ensures Value(ToRadix(n, radix), radix) == n
    ensures forall i :: 0 <= i < |ToRadix(n, radix)| ==> IsLowerDigit(ToRadix(n, radix)[i], radix)
  {
    ToRadixValue(n, radix);
    ToRadixDigits(n, radix);
  }

  lemma {:induction false} ToRadixValue(n: nat, radix: nat)
    requires ValidRadix(radix)
    ensures Value(ToRadix(n, radix), radix) == n
    decreases n
  {
    if n < radix {
      DigitCharValue(n);
      assert ToRadix(n, radix)[..0] == [];
    } else {
      var q, d := n / radix, n % radix;
      DivMod(n, radix);
      ToRadixValue(q, radix);
      AppendDigitValue(ToRadix(q, radix), q, d, radix);
    }
  }

  /** Euclidean division by the radix, and that it shrinks every multi-digit number. */
  lemma DivMod(n: nat, radix: nat)
    requires ValidRadix(radix)
    ensures n == (n / radix) * radix + n % radix
    ensures n >= radix ==> n / radix < n
  {
  }

  /** Appending digit `d` multiplies by the radix and adds `d`. */
  lemma AppendDigitValue(hi: string, q: nat, d: nat, radix: nat)
    requires ValidRadix(radix) && d < radix && Value(hi, radix) == q
    ensures Value(hi + [DigitChar(d)], radix) == q * radix + d
  {
    var s := hi + [DigitChar(d)];
    DigitCharValue(d);
    assert s[..|s| - 1] == hi;
  }

  lemma {:induction false} ToRadixDigits(n: nat, radix: nat)
    requires ValidRadix(radix)
    ensures forall i :: 0 <= i < |ToRadix(n, radix)| ==> IsLowerDigit(ToRadix(n, radix)[i], radix)
    decreases n
  {
    if n < radix {
      DigitCharValue(n);
    } else {
      var q, d := n / radix, n % radix;
      DivMod(n, radix);
      var s := ToRadix(n, radix);
      var hi := ToRadix(q, radix);
      assert s == hi + [DigitChar(d)];
      ToRadixDigits(q, radix);
      DigitCharValue(d);
      forall i | 0 <= i < |s|
        ensures IsLowerDigit(s[i], radix)
      {
        if i < |hi| {
          assert s[i] == hi[i];
        }
      }
    }
  }

  /** No rendering of a positive number starts with a zero digit. */
  lemma {:induction false} ToRadixNoLeadingZero(n: nat, radix: nat)
    requires ValidRadix(radix) && n >= 1
    ensures ToRadix(n, radix)[0] != '0'
    decreases n
  {
    if n >= radix {
      DivMod(n, radix);
      ToRadixNoLeadingZero(n / radix, radix);
    }
  }

  /** JavaScript `padStart(width, fill)` with a one-character fill. */
  function PadStart(s: string, width: nat, fill: char): (r: string)
    ensures |r| == if |s| >= width then |s| else width
    ensures r[|r| - |s|..] == s
    ensures forall i :: 0 <= i < |r| - |s| ==> r[i] == fill
  {
    if |s| >= width then s else seq(width - |s|, _ => fill) + s
  }

  /** Leading zero digits do not change the value. */
  lemma {:induction false} LeadingZerosValue(z: nat, s: string, radix: nat)
    ensures Value(seq(z, _ => '0') + s, radix) == Value(s, radix)
    decreases |s|
  {
    var zs: string := seq(z, _ => '0');
    if |s| == 0 {
      ZerosValue(z, radix);
      assert zs + s == zs;
    } else {
      var t := zs + s;
      assert t[..|t| - 1] == zs + s[..|s| - 1];
      LeadingZerosValue(z, s[..|s| - 1], radix);
    }
  }

  lemma {:induction false} ZerosValue(z: nat, radix: nat)
    ensures Value(seq(z, _ => '0'), radix) == 0
  {
    if z > 0 {
      var zs: string := seq(z, _ => '0');
      assert zs[..z - 1] == seq(z - 1, _ => '0');
      ZerosValue(z - 1, radix);
    }
  }

  /** `padStart(width, '0')` of a rendering keeps its value and its digits lower-case. */
  lemma ZeroPaddedRoundTrip(n: nat, radix: nat, width: nat)
    requires ValidRadix(radix)
    ensures Value(PadStart(ToRadix(n, radix), width, '0'), radix) == n
    ensures forall i :: 0 <= i < |PadStart(ToRadix(n, radix), width, '0')| ==>
      IsLowerDigit(PadStart(ToRadix(n, radix), width, '0')[i], radix)
  {
    var s := ToRadix(n, radix);
    ToRadixRoundTrip(n, radix);
    if |s| < width {
      LeadingZerosValue(width - |s|, s, radix);
      var r := PadStart(s, width, '0');
      forall i | 0 <= i < |r|
        ensures IsLowerDigit(r[i], radix)
      {
        if i >= width - |s| {
          assert r[i] == s[i - (width - |s|)];
        }
      }
    }
  }
}
