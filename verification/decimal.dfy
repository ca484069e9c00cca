/**
 * Decimal text of integers as the .NET runtime writes and reads it with the
 * invariant culture: `int.ToString()`, the `D5` format and `int.Parse`.
 */
module Decimal {
  import opened Wrappers
  import opened Exceptions
  import opened Text

  const Int32Min: int := -0x8000_0000
  const Int32Max: int := 0x7FFF_FFFF

  /** C# `unchecked` 32-bit two's complement wrap-around. */
  function Wrap32(n: int): (r: int)
    ensures Int32Min <= r <= Int32Max
    ensures (r - n) % 0x1_0000_0000 == 0
    ensures Int32Min <= n <= Int32Max ==> r == n
  {
    (n - Int32Min) % 0x1_0000_0000 + Int32Min
  }

  predicate IsDigit(c: char) {
    '0' <= c <= '9'
  }

  predicate AllDigits(s: string) {
    forall i :: 0 <= i < |s| ==> IsDigit(s[i])
  }

  function DigitValue(c: char): (d: nat)
    requires IsDigit(c)
    ensures d < 10
  {
    c as int - '0' as int
  }

  function DigitChar(d: nat): (c: char)
    requires d < 10
    ensures IsDigit(c) && DigitValue(c) == d
  {
    ('0' as int + d) as char
  }

  function Pow10(k: nat): (r: nat)
    ensures r >= 1
  {
    if k == 0 then 1 else 10 * Pow10(k - 1)
  }

  /** The number a digit string denotes (Horner's rule, most significant digit first). */
  function Value(s: string): nat
    requires AllDigits(s)
  {
    if |s| == 0 then 0 else Value(s[..|s| - 1]) * 10 + DigitValue(s[|s| - 1])
  }

  lemma {:induction false} ValueBound(s: string)
    requires AllDigits(s)
    ensures Value(s) < Pow10(|s|)
    decreases |s|
  {
    if |s| > 0 {
      ValueBound(s[..|s| - 1]);
    }
  }

  lemma {:induction false} ValueAppend(s: string, c: char)
    requires AllDigits(s) && IsDigit(c)
    ensures AllDigits(s + [c]) && Value(s + [c]) == Value(s) * 10 + DigitValue(c)
  {
    assert (s + [c])[..|s|] == s;
  }

  /** Reading the same number from the front: the leading digit weighs `10^(|s|-1)`. */
  lemma {:induction false} ValueFront(s: string)
    requires AllDigits(s) && |s| > 0
    ensures Value(s) == DigitValue(s[0]) * Pow10(|s| - 1) + Value(s[1..])
    decreases |s|
  {
    if |s| > 1 {
      var init, tail := s[..|s| - 1], s[1..];
      assert AllDigits(init) && AllDigits(tail);
      ValueFront(init);
      assert init[0] == s[0] && init[1..] == tail[..|tail| - 1] && tail[|tail| - 1] == s[|s| - 1];
      FrontStep(Value(s), Value(init), Value(tail), Value(init[1..]),
                DigitValue(s[0]), Pow10(|s| - 2), DigitValue(s[|s| - 1]));
    } else {
      assert s[..0] == [];
    }
  }

  /** The arithmetic of one step of `ValueFront`. */
  lemma FrontStep(whole: int, init: int, tail: int, middle: int, d: int, p: int, e: int)
    requires whole == init * 10 + e && init == d * p + middle && tail == middle * 10 + e
    ensures whole == d * (10 * p) + tail
  {
  }

  /**
   * On digit strings of one length the ordinal order is the numeric order.
   */
  lemma {:induction false} OrdinalLessIsNumericLess(a: string, b: string)
    requires AllDigits(a) && AllDigits(b) && |a| == |b|
    ensures OrdinalLess(a, b) <==> Value(a) < Value(b)
    decreases |a|
  {
    if |a| > 0 {
      if a[0] == b[0] {
        ValueFront(a);
        ValueFront(b);
        OrdinalLessIsNumericLess(a[1..], b[1..]);
      } else if a[0] < b[0] {
        LeadingDigitDecides(a, b);
      } else {
        LeadingDigitDecides(b, a);
      }
    }
  }

  /** A smaller leading digit makes the whole number smaller, whatever follows. */
  lemma LeadingDigitDecides(a: string, b: string)
    requires AllDigits(a) && AllDigits(b) && |a| == |b| > 0 && a[0] < b[0]
    ensures Value(a) < Value(b)
  {
    ValueFront(a);
    ValueFront(b);
    ValueBound(a[1..]);
    WeightedLess(DigitValue(a[0]), DigitValue(b[0]), Pow10(|a| - 1), Value(a[1..]), Value(b[1..]));
  }

  lemma WeightedLess(da: nat, db: nat, p: nat, ra: nat, rb: nat)
    requires da < db && ra < p
    ensures da * p + ra < db * p + rb
  {
    MulMonotone(da + 1, db, p);
  }

  lemma MulMonotone(x: nat, y: nat, p: nat)
    requires x <= y
    ensures x * p <= y * p
  {
  }

  /** `n.ToString()` for a non-negative `n`: no leading zeros, "0" for zero. */
  function NatToString(n: nat): (s: string)
    ensures |s| >= 1 && AllDigits(s) && Value(s) == n
    ensures |s| > 1 ==> s[0] != '0'
  {
    if n < 10 then
      assert [DigitChar(n)][..0] == [];
      [DigitChar(n)]
    else
      var init := NatToString(n / 10);
      ValueAppend(init, DigitChar(n % 10));
      init + [DigitChar(n % 10)]
  }

  /** `n.ToString()` with the invariant culture. */
  function IntToString(n: int): (s: string)
    ensures |s| >= 1
    ensures n < 0 <==> s[0] == '-'
  {
    if n < 0 then "-" + NatToString(-n) else NatToString(n)
  }

  /** Distinct integers have distinct decimal texts. */
  lemma IntToStringInjective(a: int, b: int)
    requires IntToString(a) == IntToString(b)
    ensures a == b
  {
    if a < 0 {
      assert NatToString(-a) == IntToString(a)[1..] == IntToString(b)[1..] == NatToString(-b);
    }
  }

  function Zeros(k: nat): (z: string)
    ensures |z| == k && AllDigits(z) && Value(z) == 0
  {
    if k == 0 then "" else ValueAppend(Zeros(k - 1), '0'); Zeros(k - 1) + "0"
  }

  lemma {:induction false} ZerosPrefix(k: nat, s: string)
    requires AllDigits(s)
    ensures AllDigits(Zeros(k) + s) && Value(Zeros(k) + s) == Value(s)
    decreases |s|
  {
    if |s| == 0 {
      assert Zeros(k) + s == Zeros(k);
    } else {
      var init := s[..|s| - 1];
      ZerosPrefix(k, init);
      assert Zeros(k) + s == (Zeros(k) + init) + [s[|s| - 1]];
      ValueAppend(Zeros(k) + init, s[|s| - 1]);
      ValueAppend(init, s[|s| - 1]);
      assert init + [s[|s| - 1]] == s;
    }
  }

  /** At least `width` digits, padded with leading zeros. */
  function PadDigits(n: nat, width: nat): (s: string)
    ensures AllDigits(s) && Value(s) == n
    ensures |s| == if |NatToString(n)| < width then width else |NatToString(n)|
  {
    var d := NatToString(n);
    if |d| < width then ZerosPrefix(width - |d|, d); Zeros(width - |d|) + d else d
  }

  /** The `D5` standard format of an Int32: a minus sign for negatives, then the magnitude padded to five digits. */
  function FormatD5(n: int): string {
    if n < 0 then "-" + PadDigits(-n, 5) else PadDigits(n, 5)
  }

  /** What the `D5` text says: at least five digits denoting the number, after a minus sign when it is negative. */
  lemma FormatD5Digits(n: int)
    ensures var s := FormatD5(n);
            && (n >= 0 ==> |s| >= 5 && AllDigits(s) && Value(s) == n)
            && (n < 0 ==> |s| >= 6 && s[0] == '-' && AllDigits(s[1..]) && Value(s[1..]) == -n)
  {
    if n < 0 {
      var d := PadDigits(-n, 5);
      assert FormatD5(n)[1..] == d;
    }
  }

  /** `int.Parse` reads back what the `D5` format writes. */
  lemma ParseFormatD5(n: int)
    requires Int32Min <= n <= Int32Max
    ensures ParseInt32(FormatD5(n)) == Ok(n)
  {
    var s := FormatD5(n);
    FormatD5Digits(n);
    if n < 0 {
      SignedDigitsParse(s, n);
    } else {
      assert IsDigit(s[0]) && IsDigit(s[|s| - 1]);
      UnsignedText(s);
      MagnitudeOfDigits(s);
    }
  }

  lemma SignedDigitsParse(s: string, n: int)
    requires Int32Min <= n < 0
    requires |s| >= 2 && s[0] == '-' && AllDigits(s[1..]) && Value(s[1..]) == -n
    ensures ParseInt32(s) == Ok(n)
  {
    var d := s[1..];
    assert IsDigit(d[|d| - 1]) && s[|s| - 1] == d[|d| - 1];
    TrimUnpadded(s);
    assert ParseInt32(s) == ParseMagnitude(true, d);
  }

  /** Below 100000 the `D5` text of a non-negative number is exactly five digits. */
  lemma FormatD5FiveDigits(n: int)
    requires 0 <= n < 100000
    ensures AllDigits(FormatD5(n)) && |FormatD5(n)| == 5 && Value(FormatD5(n)) == n
  {
    var d := NatToString(n);
    ValueBound(d);
    if |d| > 5 {
      assert d[0] != '0';
      ValueFront(d);
      assert DigitValue(d[0]) >= 1;
      assert Pow10(|d| - 1) >= Pow10(5) by {
        Pow10Monotone(5, |d| - 1);
      }
      MulMonotone(1, DigitValue(d[0]), Pow10(|d| - 1));
      assert false;
    }
  }

  lemma {:induction false} Pow10Monotone(i: nat, j: nat)
    requires i <= j
    ensures Pow10(i) <= Pow10(j)
    decreases j - i
  {
    if i < j {
      Pow10Monotone(i, j - 1);
    }
  }

  /** The white-space characters that `NumberStyles.AllowLeadingWhite` and `AllowTrailingWhite` skip. */
  predicate IsNumberWhite(c: char) {
    c == ' ' || '\U{0009}' <= c <= '\U{000D}'
  }

  function TrimStart(s: string): (r: string)
    ensures |r| <= |s| && r == s[|s| - |r|..]
    ensures |r| > 0 ==> !IsNumberWhite(r[0])
  {
    if |s| > 0 && IsNumberWhite(s[0]) then TrimStart(s[1..]) else s
  }

  function TrimEnd(s: string): (r: string)
    ensures |r| <= |s| && r == s[..|r|]
    ensures |r| > 0 ==> !IsNumberWhite(r[|r| - 1])
  {
    if |s| > 0 && IsNumberWhite(s[|s| - 1]) then TrimEnd(s[..|s| - 1]) else s
  }

  const FormatMessage: string := "The input string was not in a correct format."
  const OverflowMessage: string := "Value was either too large or too small for an Int32."

  /**
   * `int.Parse(s, CultureInfo.InvariantCulture)` with `NumberStyles.Integer`:
   * optional white space around an optional sign and at least one ASCII digit.
   */
  function ParseInt32(s: string): (r: Result<int, Exception>)
    ensures r.Ok? ==> Int32Min <= r.value <= Int32Max
    ensures r.Err? ==> r.error.Format? || r.error.Overflow?
  {
    var t := TrimEnd(TrimStart(s));
    if |t| > 0 && (t[0] == '-' || t[0] == '+') then ParseMagnitude(t[0] == '-', t[1..])
    else ParseMagnitude(false, t)
  }

  /** The digits after the optional sign: at least one, all ASCII, and the signed value within Int32. */
  function ParseMagnitude(negative: bool, digits: string): (r: Result<int, Exception>)
    ensures r.Ok? ==> Int32Min <= r.value <= Int32Max
    ensures r.Err? ==> r.error.Format? || r.error.Overflow?
  {
    if |digits| == 0 || !AllDigits(digits) then Err(Format(FormatMessage))
    else
      var v: int := if negative then -(Value(digits) as int) else Value(digits);
      if v < Int32Min || v > Int32Max then Err(Overflow(OverflowMessage)) else Ok(v)
  }

  /** A bare string of at most nine digits parses to the number it denotes. */
  lemma ParseDigits(s: string)
    requires 0 < |s| <= 9 && AllDigits(s)
    ensures ParseInt32(s) == Ok(Value(s))
  {
    assert IsDigit(s[0]) && IsDigit(s[|s| - 1]);
    UnsignedText(s);
    assert Value(s) <= Int32Max by {
      ValueBound(s);
      Pow10Monotone(|s|, 9);
    }
    MagnitudeOfDigits(s);
  }

  /** Unpadded text without a sign is read as a magnitude alone. */
  lemma UnsignedText(s: string)
    requires |s| > 0 && !IsNumberWhite(s[0]) && !IsNumberWhite(s[|s| - 1]) && s[0] != '-' && s[0] != '+'
    ensures ParseInt32(s) == ParseMagnitude(false, s)
  {
    TrimUnpadded(s);
  }

  lemma MagnitudeOfDigits(s: string)
    requires |s| > 0 && AllDigits(s) && Value(s) <= Int32Max
    ensures ParseMagnitude(false, s) == Ok(Value(s))
  {
  }

  /** Text that starts with a letter is not a number. */
  lemma ParseRejectsLetter(s: string)
    requires |s| > 0 && 'A' <= s[0] <= 'Z' && !IsNumberWhite(s[|s| - 1])
    ensures ParseInt32(s) == Err(Format(FormatMessage))
  {
    UnsignedText(s);
    assert !IsDigit(s[0]);
  }

  /** Text that neither starts nor ends with number white space is left as it is. */
  lemma TrimUnpadded(s: string)
    requires |s| > 0 && !IsNumberWhite(s[0]) && !IsNumberWhite(s[|s| - 1])
    ensures TrimEnd(TrimStart(s)) == s
  {
    assert TrimStart(s) == s;
    assert TrimEnd(s) == s;
  }

  /** Parsing reads back what `ToString` writes. */
  lemma ParseIntToString(n: int)
    requires Int32Min <= n <= Int32Max
    ensures ParseInt32(IntToString(n)) == Ok(n)
  {
    var s := IntToString(n);
    var d := NatToString(if n < 0 then -n else n);
    assert s[|s| - 1] == d[|d| - 1];
    TrimUnpadded(s);
    if n < 0 {
      assert s[1..] == d;
      assert ParseInt32(s) == ParseMagnitude(true, d);
    } else {
      assert s == d;
      assert ParseInt32(s) == ParseMagnitude(false, d);
    }
  }
}
