/**
 * `calcularCorHex`: a quantity in [0, max] (max 47 by default, the number of
 * turbines in the fleet) becomes `#RRGGBB`, red falling and green rising with
 * the quantity, blue fixed at 50. Channels are computed exactly:
 * floor(255 * (1 - q/max)) is (255 * (max - q)) / max over naturals.
 */
module Color {
  import opened Numerals

  const DefaultMax: nat := 47
  const Blue: nat := 50

  function Red(q: nat, max: nat): nat
    requires 0 < max && q <= max
  {
    (255 * (max - q)) / max
  }

  function Green(q: nat, max: nat): nat
    requires 0 < max && q <= max
  {
    (255 * q) / max
  }

  /** A byte as exactly two lower-case hex digits. */
  function Hex2(n: nat): (s: string)
    requires n < 256
    ensures |s| == 2
    ensures Value(s, 16) == n
    ensures forall i :: 0 <= i < 2 ==> IsLowerDigit(s[i], 16)
  {
    var s := [DigitChar(n / 16), DigitChar(n % 16)];
    DigitCharValue(n / 16);
    DigitCharValue(n % 16);
    assert s[..1] == [s[0]] && [s[0]][..0] == [];
    assert Value(s[..1], 16) == n / 16;
    assert n == (n / 16) * 16 + n % 16;
    s
  }

  /** `Hex2` is what `n.toString(16).padStart(2, '0')` produces for a byte. */
  lemma Hex2IsPaddedToString(n: nat)
    requires n < 256
    ensures Hex2(n) == PadStart(ToRadix(n, 16), 2, '0')
  {
    if n < 16 {
      OneHexDigit(n);
    } else {
      TwoHexDigits(n);
    }
  }

  /** Below 16 `toString(16)` gives one digit, which `padStart` extends with a zero. */
  lemma OneHexDigit(n: nat)
    requires n < 16
    ensures Hex2(n) == ['0', DigitChar(n)]
    ensures PadStart(ToRadix(n, 16), 2, '0') == ['0', DigitChar(n)]
  {
    assert n / 16 == 0 && n % 16 == n;
    assert ToRadix(n, 16) == [DigitChar(n)];
  }

  /** From 16 on `toString(16)` already gives both digits. */
  lemma TwoHexDigits(n: nat)
    requires 16 <= n < 256
    ensures PadStart(ToRadix(n, 16), 2, '0') == Hex2(n)
  {
    var q := n / 16;
    assert q < 16;
    assert ToRadix(q, 16) == [DigitChar(q)];
  }

  /** Both channels stay within one byte. */
  lemma ChannelBounds(q: nat, max: nat)
    requires 0 < max && q <= max
    ensures Red(q, max) <= 255 && Green(q, max) <= 255
  {
    DivBound(255 * (max - q), max, 255);
    DivBound(255 * q, max, 255);
  }

  lemma DivBound(a: nat, m: nat, k: nat)
    requires 0 < m && a <= k * m
    ensures a / m <= k
  {
  }

  /** The colour for `q` out of `max`: `#`, then red, green and blue as two lower-case hex digits each. */
  function ColorHex(q: nat, max: nat := DefaultMax): (r: string)
    requires 0 < max && q <= max
    ensures |r| == 7 && r[0] == '#'
    ensures forall i :: 1 <= i < 7 ==> IsLowerDigit(r[i], 16)
    ensures Value(r[1..3], 16) == Red(q, max)
    ensures Value(r[3..5], 16) == Green(q, max)
    ensures r[5..] == "32"
  {
    ChannelBounds(q, max);
    var red, green := Hex2(Red(q, max)), Hex2(Green(q, max));
    BlueDigits();
    Layout(red, green, "32");
    "#" + red + green + "32"
  }

  /** Where the three channels sit in `#RRGGBB`. */
  lemma Layout(red: string, green: string, blue: string)
    requires |red| == 2 && |green| == 2 && |blue| == 2
    requires forall i :: 0 <= i < 2 ==> IsLowerDigit(red[i], 16) && IsLowerDigit(green[i], 16) && IsLowerDigit(blue[i], 16)
    ensures var r := "#" + red + green + blue;
      |r| == 7 && r[0] == '#' && r[1..3] == red && r[3..5] == green && r[5..] == blue &&
      forall i :: 1 <= i < 7 ==> IsLowerDigit(r[i], 16)
  {
    var r := "#" + red + green + blue;
    forall i | 1 <= i < 7
      ensures IsLowerDigit(r[i], 16)
    {
      if i < 3 { assert r[i] == red[i - 1]; }
      else if i < 5 { assert r[i] == green[i - 3]; }
      else { assert r[i] == blue[i - 5]; }
    }
  }

  lemma BlueDigits()
    ensures Hex2(Blue) == "32"
  {
  }

  /** Zero renders pure red and the maximum pure green. */
  lemma Endpoints()
    ensures ColorHex(0) == "#ff0032"
    ensures ColorHex(47) == "#00ff32"
  {
    Hex2Ends();
    assert Red(0, 47) == 255 && Green(0, 47) == 0;
    assert Red(47, 47) == 0 && Green(47, 47) == 255;
  }

  lemma Hex2Ends()
    ensures Hex2(255) == "ff" && Hex2(0) == "00"
  {
    assert DigitChar(15) == 'f' && DigitChar(0) == '0';
    assert 255 / 16 == 15 && 255 % 16 == 15;
  }

  lemma DivMonotone(a: nat, b: nat, m: nat)
    requires 0 < m && a <= b
    ensures a / m <= b / m
  {
    if a / m > b / m {
      QuotientBounds(a, m);
      QuotientBounds(b, m);
      MulMonotone(b / m + 1, a / m, m);
      assert false;
    }
  }

  lemma QuotientBounds(a: nat, m: nat)
    requires 0 < m
    ensures (a / m) * m <= a < (a / m + 1) * m
  {
  }

  /** As the quantity rises the red channel never increases and the green one never decreases. */
  lemma Monotone(q1: nat, q2: nat, max: nat)
    requires 0 < max && q1 <= q2 <= max
    ensures Value(ColorHex(q2, max)[1..3], 16) <= Value(ColorHex(q1, max)[1..3], 16)
    ensures Value(ColorHex(q1, max)[3..5], 16) <= Value(ColorHex(q2, max)[3..5], 16)
  {
    DivMonotone(255 * (max - q2), 255 * (max - q1), max);
    DivMonotone(255 * q1, 255 * q2, max);
  }

  /**
   * Red and green are complementary: they add up to 255 when `max` divides
   * `255 * q` (the ratio lands on an integer) and to 254 otherwise.
   */
  lemma Complementary(q: nat, max: nat)
    requires 0 < max && q <= max
    ensures Red(q, max) + Green(q, max) == if (255 * q) % max == 0 then 255 else 254
  {
    var g, e := (255 * q) / max, (255 * q) % max;
    assert 255 * q == g * max + e;
    ChannelBounds(q, max);
    MulSub(255, g, max);
    assert 255 * (max - q) == (255 - g) * max - e;
    if e == 0 {
      DivExact(255 - g, max);
    } else {
      if g == 255 {
        assert false;
      }
      MulSub(255 - g, 1, max);
      assert 255 * (max - q) == (254 - g) * max + (max - e);
      DivWithRemainder(254 - g, max, max - e);
    }
  }

  lemma MulSub(a: int, b: int, m: int)
    ensures (a - b) * m == a * m - b * m
  {
  }

  lemma DivExact(k: int, m: nat)
    requires 0 < m && k >= 0
    ensures (k * m) / m == k
  {
    DivUnique(k * m, m, k, 0);
  }

  lemma DivWithRemainder(k: int, m: nat, e: nat)
    requires 0 < m && k >= 0 && e < m
    ensures (k * m + e) / m == k
  {
    DivUnique(k * m + e, m, k, e);
  }

  /** Euclidean division has one quotient and one remainder. */
  lemma DivUnique(a: int, m: int, q: int, r: int)
    requires 0 < m && a == q * m + r && 0 <= r < m
    ensures a / m == q && a % m == r
  {
    var q0, r0 := a / m, a % m;
    assert a == q0 * m + r0;
    if q > q0 {
      MulAtLeast(q - q0, m);
      assert false;
    } else if q < q0 {
      MulAtLeast(q0 - q, m);
      assert false;
    }
  }

  lemma MulAtLeast(k: int, m: int)
    requires k >= 1 && m > 0
    ensures k * m >= m
  {
  }

  lemma MulMonotone(a: int, b: int, m: nat)
    requires a <= b
    ensures a * m <= b * m
  {
  }
}
