/** `String::toString`: digits pushed least significant first, then reversed. */
module Strings {
  import opened Bytes
  import opened Numerals

  function Reversed(t: Text): (r: Text)
    ensures |r| == |t|
    ensures forall i | 0 <= i < |t| :: r[i] == t[|t| - 1 - i]
  {
    seq(|t|, i requires 0 <= i < |t| => t[|t| - 1 - i])
  }

  lemma ReversedPush(t: Text, c: Byte)
    ensures Reversed(t + [c]) == [c] + Reversed(t)
  {
  }

  /** The digits of `n`, none for zero: what is still to be written while a printer divides `n` down. */
  function Pending(n: nat, base: nat, a: Byte): Text
    requires base >= 2
  {
    if n == 0 then [] else Render(Digits(n, base), a)
  }

  lemma DivModFacts(n: nat, base: nat)
    requires base >= 2
    ensures n - base * (n / base) == n % base < base
    ensures n < base ==> n / base == 0 && n % base == n
    ensures n >= base ==> n / base > 0
    ensures n > 0 ==> n / base < n
  {
    if n >= base {
      DivSmaller(n, base);
    } else {
      DivModUnique(0, n, base);
    }
  }

  /** Peeling the last digit off a numeral: what both printers do in one iteration. */
  lemma PeelDigit(n: nat, base: nat, a: Byte)
    requires base >= 2
    ensures Render(Digits(n, base), a) == Pending(n / base, base, a) + [DigitChar(n % base, a)]
  {
    DivModFacts(n, base);
    if n >= base {
      assert Digits(n, base) == Digits(n / base, base) + [n % base];
    }
  }

  /** One division of the loop: the last digit, and the number without it. */
  method PopDigit(num: nat, base: nat) returns (rem: nat, rest: nat)
    requires base >= 2 && num > 0
    ensures Pending(num, base, LOWER) == Pending(rest, base, LOWER) + [DigitChar(rem, LOWER)]
    ensures rest < num
  {
    PeelDigit(num, base, LOWER);
    DivModFacts(num, base);
    rem := num % base;
    rest := num / base;
  }

  /** `String::toString(unsigned long, unsigned char)`; bases 0 and 1 divide by zero or never end, except on zero. */
  method FromUnsigned(num: nat, base: Byte) returns (str: Text)
    requires num == 0 || base >= 2
    ensures num == 0 ==> str == ['0' as int]
    ensures base >= 2 ==> str == Render(Digits(num, base), LOWER)
  {
    if num == 0 {
      return ['0' as int];
    }
    str := [];
    ghost var all := Render(Digits(num, base), LOWER);
    var n: nat := num;
    while n != 0
      invariant all == Pending(n, base, LOWER) + Reversed(str)
    {
      var rem;
      rem, n := PopDigit(n, base);
      ReversedPush(str, DigitChar(rem, LOWER));
      str := str + [if rem > 9 then (rem - 10 + 'a' as int) % 256 else rem + '0' as int];
    }
    str := Reversed(str);
  }

  /** `String::toString(long, unsigned char)`: a sign in base 10 only; negating the smallest `long` overflows. */
  method FromLong(w: nat, num: int, base: Byte) returns (r: Outcome<Text>)
    requires w >= 1 && LongMin(w) <= num <= LongMax(w) && (num == 0 || base >= 2)
    ensures num == 0 ==> r == Defined(['0' as int])
    ensures base == 10 ==> r == if num == LongMin(w) then Undefined else Defined(DecimalText(num))
    ensures base != 10 && base >= 2 ==> r == Defined(Render(Digits(AsUnsigned(w, num), base), LOWER))
  {
    LongRange(w);
    var isneg, m := false, num;
    if num < 0 && base == 10 {
      if num == LongMin(w) {
        return Undefined;
      }
      isneg, m := true, -num;
    }
    var str := FromUnsigned(AsUnsigned(w, m), base);
    if base == 10 {
      DecimalCase(m);
    }
    if isneg {
      str := ['-' as int] + str;
    } else {
      assert [] + str == str;
    }
    return Defined(str);
  }
}

/** The number printers of the Arduino `Print` class. */
module Print {
  import opened Bytes
  import opened Numerals
  import Strings

  // ---------------------------------------------------------------------------
  // Integers
  // ---------------------------------------------------------------------------

  function EffectiveBase(base: Byte): nat {
    if base < 2 then 10 else base
  }

  /** One division of the printer's loop: the quotient, and the digit left over as `m - base * n`. */
  method DivideStep(m: nat, base: nat) returns (n: nat, c: nat)
    requires base >= 2
    ensures Render(Digits(m, base), UPPER) == Strings.Pending(n, base, UPPER) + [DigitChar(c, UPPER)]
    ensures m > 0 ==> n < m
  {
    Strings.PeelDigit(m, base, UPPER);
    Strings.DivModFacts(m, base);
    n := m / base;
    c := m - base * n;
  }

  /** The store of one digit before those already written. */
  method StoreDigit(buf: array<Byte>, end: nat, c: nat) returns (str: nat)
    requires 0 < end <= buf.Length
    modifies buf
    ensures str == end - 1 && buf[str..] == [DigitChar(c, UPPER)] + old(buf[end..])
  {
    str := end - 1;
    buf[str] := (if c < 10 then c + '0' as int else c + 'A' as int - 10) % 256;
  }

  /** What is still to be written and what is written make up the whole: one digit moves over. */
  lemma DigitMoves(pending: Text, c: Byte, tail: Text, all: Text)
    requires (pending + [c]) + tail == all
    ensures pending + ([c] + tail) == all
  {
  }

  /** The printer's loop: writes the digits of `num` backwards from the end of `buf` and returns where they start. */
  method FillBackwards(buf: array<Byte>, num: nat, base: nat) returns (str: nat)
    requires base >= 2 && |Digits(num, base)| < buf.Length
    modifies buf
    ensures str < buf.Length && buf[str..] == Render(Digits(num, base), UPPER) + [0]
  {
    ghost var all := Render(Digits(num, base), UPPER);
    str := buf.Length - 1;
    buf[str] := 0;
    var n := num;
    while true
      invariant str < buf.Length
      invariant Render(Digits(n, base), UPPER) + buf[str..] == all + [0]
      decreases n
    {
      ghost var tail, m := buf[str..], n;
      assert |Render(Digits(m, base), UPPER)| >= 1 && |tail| == buf.Length - str;
      var c;
      n, c := DivideStep(n, base);
      str := StoreDigit(buf, str, c);
      DigitMoves(Strings.Pending(n, base, UPPER), DigitChar(c, UPPER), tail, all + [0]);
      if n == 0 {
        assert [] + buf[str..] == buf[str..];
        return;
      }
    }
  }

  /** `Print::toString(unsigned long, uint8_t)`: fills a buffer of `w + 1` bytes backwards, `w` being the word size. */
  method FromUnsigned(w: nat, num: nat, base: Byte) returns (t: Text)
    requires w >= 1 && num < Pow(2, w)
    ensures t == CString(Render(Digits(num, EffectiveBase(base)), UPPER))
    ensures |t| <= |Digits(num, EffectiveBase(base))| <= w
  {
    var buf := new Byte[w + 1];
    var b := EffectiveBase(base);
    DigitsFit(num, b, w);
    var str := FillBackwards(buf, num, b);
    CStringOfTerminated(Render(Digits(num, b), UPPER));
    t := CString(buf[str..]);
  }

  /** In the bases that digits and letters cover, the printed text denotes the number and has no needless zero. */
  lemma PrintedDenotes(num: nat, base: Byte)
    requires base <= 36
    ensures var t := CString(Render(Digits(num, EffectiveBase(base)), UPPER));
      Denotes(t, if base < 2 then 10 else base, num) && (t[0] == '0' as int ==> num == 0)
  {
    RenderDenotes(num, EffectiveBase(base), UPPER);
    CStringOfTerminated(Render(Digits(num, EffectiveBase(base)), UPPER));
  }

  lemma {:induction false} CStringOfTerminated(s: Text)
    ensures CString(s + [0]) == CString(s)
    ensures 0 !in s ==> CString(s) == s
  {
    if s != [] {
      assert (s + [0])[1..] == s[1..] + [0];
      CStringOfTerminated(s[1..]);
    }
  }

  function ToUpper(c: Byte): Byte {
    if 'a' as int <= c <= 'z' as int then c - 32 else c
  }

  predicate EqualIgnoringCase(s: Text, t: Text) {
    |s| == |t| && forall i | 0 <= i < |s| :: ToUpper(s[i]) == ToUpper(t[i])
  }

  lemma DigitCharCase(d: nat)
    requires d < 256
    ensures ToUpper(DigitChar(d, UPPER)) == ToUpper(DigitChar(d, LOWER)) <==> d < 36
  {
  }

  /** The two printers agree up to letter case exactly on numerals whose digits stay below 36. */
  lemma PrintersAgree(n: nat, base: Byte)
    requires base >= 2
    ensures EqualIgnoringCase(CString(Render(Digits(n, base), UPPER)), Render(Digits(n, base), LOWER))
       <==> forall d | d in Digits(n, base) :: d < 36
  {
    var ds := Digits(n, base);
    if i :| 0 <= i < |ds| && ds[i] >= 36 {
      assert ds[i] in ds;
      DigitCharCase(ds[i]);
      CStringPrefix(Render(ds, UPPER), i);
    } else {
      assert forall d | d in ds :: d < 36;
      SmallDigitsAgree(ds);
    }
  }

  lemma CStringPrefix(s: Text, i: nat)
    requires i < |s|
    ensures |CString(s)| == |s| ==> CString(s)[i] == s[i]
  {
  }

  lemma SmallDigitsAgree(ds: seq<nat>)
    requires forall d | d in ds :: d < 36
    ensures EqualIgnoringCase(CString(Render(ds, UPPER)), Render(ds, LOWER))
  {
    forall i | 0 <= i < |ds|
      ensures Render(ds, UPPER)[i] != 0 && ToUpper(Render(ds, UPPER)[i]) == ToUpper(Render(ds, LOWER)[i])
    {
      assert ds[i] in ds;
      DigitCharRead(ds[i], UPPER);
      DigitCharCase(ds[i]);
    }
    CStringOfTerminated(Render(ds, UPPER));
  }

  /** `Print` writes digits and capital letters, `String` digits and small ones. */
  lemma LetterCases(ds: seq<nat>, i: nat)
    requires i < |ds| && ds[i] < 36
    ensures Render(ds, UPPER)[i] == if ds[i] < 10 then 48 + ds[i] else 65 + (ds[i] - 10)
    ensures Render(ds, LOWER)[i] == if ds[i] < 10 then 48 + ds[i] else 97 + (ds[i] - 10)
  {
  }

  lemma DecimalIsCString(n: nat)
    ensures CString(Render(Digits(n, 10), UPPER)) == Render(Digits(n, 10), UPPER)
  {
    RenderDenotes(n, 10, UPPER);
    CStringOfTerminated(Render(Digits(n, 10), UPPER));
  }

  function LowByte(n: int): (b: Byte)
    ensures 0 <= n < 256 ==> b == n
  {
    n % 256
  }

  /** `Print::print(long, int)`: a sign in base 10 only; negating the smallest `long` overflows. */
  method PrintLong(w: nat, n: int, base: int) returns (r: Outcome<Text>)
    requires w >= 1 && LongMin(w) <= n <= LongMax(w)
    ensures base == 10 ==> r == if n == LongMin(w) then Undefined else Defined(DecimalText(n))
    ensures base != 10 ==>
      r == Defined(CString(Render(Digits(AsUnsigned(w, n), EffectiveBase(LowByte(base))), UPPER)))
  {
    LongRange(w);
    var str: Text, m := [], n;
    if base == 10 && n < 0 {
      if n == LongMin(w) {
        return Undefined;
      }
      str := str + ['-' as int];
      m := -n;
    }
    var t := FromUnsigned(w, AsUnsigned(w, m), LowByte(base));
    if base == 10 {
      DecimalIsCString(m);
      assert str + t == DecimalText(n);
    }
    assert [] + t == t;
    return Defined(str + t);
  }

  // ---------------------------------------------------------------------------
  // Decimals
  // ---------------------------------------------------------------------------

  /** A `double` in exact arithmetic. */
  datatype Double = Finite(x: real) | NaN | Infinite

  function RealAbs(x: real): real {
    if x < 0.0 then -x else x
  }

  function Pow10(d: nat): (p: real)
    ensures p > 0.0
  {
    Pow(10, d) as real
  }

  lemma Pow10Step(d: nat)
    ensures Pow10(d + 1) == 10.0 * Pow10(d)
  {
  }

  /** `x` in units of the last printed digit, rounded half up. */
  function Rounded(x: real, d: nat): nat
    requires x >= 0.0
  {
    FloorNonNegative(x * Pow10(d) + 0.5);
    (x * Pow10(d) + 0.5).Floor
  }

  lemma FloorNonNegative(x: real)
    requires x >= 0.0
    ensures x.Floor >= 0
  {
  }

  /** Sign, integer part and, when `d > 0`, a point and exactly `d` digits. */
  function FixedText(negative: bool, units: nat, d: nat): Text {
    (if negative then ['-' as int] else [])
    + Render(Digits(units / Pow(10, d), 10), UPPER)
    + (if d > 0 then ['.' as int] + Render(Padded(units % Pow(10, d), d), UPPER) else [])
  }

  lemma MulLess(a: real, b: real, p: real)
    requires a < b && p > 0.0
    ensures a * p < b * p
  {
  }

  /** A number whose multiple by `p` stays within `b` stays within `b / p`. */
  lemma ScaleDown(u: real, b: real, p: real)
    requires p > 0.0 && -b <= u * p <= b
    ensures -(b / p) <= u <= b / p
  {
    var h := b / p;
    assert h * p == b;
    if u > h {
      MulLess(h, u, p);
    } else if u < -h {
      MulLess(u, -h, p);
    }
  }

  /** Rounding moves the number by at most half a unit of the last digit. */
  lemma RoundingError(x: real, d: nat)
    requires x >= 0.0
    ensures RealAbs(Rounded(x, d) as real / Pow10(d) - x) <= 0.5 / Pow10(d)
  {
    var p, n := Pow10(d), Rounded(x, d) as real;
    var q := n / p;
    assert q * p == n;
    assert (q - x) * p == n - x * p;
    ScaleDown(q - x, 0.5, p);
  }

  /** A number half-way between two printed ones is rounded up, and a printed one is left alone. */
  lemma HalfGoesUp(x: real, d: nat, k: nat)
    requires x >= 0.0
    ensures x * Pow10(d) == k as real + 0.5 ==> Rounded(x, d) == k + 1
    ensures x * Pow10(d) == k as real ==> Rounded(x, d) == k
  {
  }

  /** The rounding loop: half a unit of the last digit. */
  method HalfUnit(digits: nat) returns (rounding: real)
    ensures rounding == 0.5 / Pow10(digits) && rounding > 0.0
  {
    rounding := 0.5;
    for i := 0 to digits
      invariant rounding * Pow10(i) == 0.5
    {
      Pow10Step(i);
      ShiftDown(rounding, Pow10(i));
      rounding := rounding / 10.0;
    }
    assert rounding == rounding * Pow10(digits) / Pow10(digits);
  }

  lemma ShiftDown(r: real, p: real)
    ensures (r / 10.0) * (10.0 * p) == r * p
  {
  }

  /** `f` moved up `d` decimal places, one at a time. */
  function Shifted(f: real, d: nat): real {
    if d == 0 then f else 10.0 * Shifted(f, d - 1)
  }

  lemma {:induction false} ShiftedScales(f: real, d: nat)
    ensures Shifted(f, d) == f * Pow10(d)
  {
    if d > 0 {
      ShiftedScales(f, d - 1);
      Pow10Step(d - 1);
      assert 10.0 * (f * Pow10(d - 1)) == f * (10.0 * Pow10(d - 1));
    }
  }

  lemma PaddedPush(q: nat, c: nat, width: nat)
    requires c < 10
    ensures Padded(10 * q + c, width + 1) == Padded(q, width) + [c]
  {
  }

  /** One decimal: shift the fraction up a place and cut its digit off. */
  method NextDecimal(f: real) returns (c: nat, str: Text, remainder: real)
    requires 0.0 <= f < 1.0
    ensures c < 10 && str == [DigitChar(c, UPPER)]
    ensures remainder == 10.0 * f - c as real && 0.0 <= remainder < 1.0
  {
    remainder := f * 10.0;
    c := remainder.Floor;
    str := Strings.FromUnsigned(c, 10);
    remainder := remainder - c as real;
  }

  /** The digit loop: `width` decimals of a fraction, cut off after the last. */
  method FractionDigits(f: real, width: nat) returns (str: Text, ghost q: nat)
    requires 0.0 <= f < 1.0
    ensures q as real <= f * Pow10(width) < q as real + 1.0
    ensures str == Render(Padded(q, width), UPPER)
  {
    str, q := [], 0;
    var remainder := f;
    for i := 0 to width
      invariant remainder == Shifted(f, i) - q as real
      invariant 0.0 <= remainder < 1.0
      invariant str == Render(Padded(q, i), UPPER)
    {
      var c, d;
      c, d, remainder := NextDecimal(remainder);
      PaddedPush(q, c, i);
      str := str + d;
      q := 10 * q + c;
    }
    ShiftedScales(f, width);
  }

  /** Scaling `a` plus half a unit by `p` gives the integer part in units, then the fraction. */
  lemma ScaledParts(a: real, p: real, h: real, whole: real, f: real)
    requires p > 0.0 && h == 0.5 / p && whole + f == a + h
    ensures a * p + 0.5 == whole * p + f * p
  {
    assert h * p == 0.5;
    assert (whole + f) * p == (a + h) * p;
  }

  /** Splitting the rounded number at the point. */
  lemma SplitAtPoint(a: real, d: nat, whole: nat, f: real, q: nat)
    requires a >= 0.0 && 0.0 <= f < 1.0
    requires whole as real + f == a + 0.5 / Pow10(d)
    requires q as real <= f * Pow10(d) < q as real + 1.0
    ensures Rounded(a, d) / Pow(10, d) == whole && Rounded(a, d) % Pow(10, d) == q
  {
    var p, u := Pow10(d), whole * Pow(10, d);
    ScaledParts(a, p, 0.5 / p, whole as real, f);
    assert u as real == whole as real * p;
    MulLess(f, 1.0, p);
    assert Rounded(a, d) == u + q;
    DivModUnique(whole, q, Pow(10, d));
  }

  const NAN_TEXT: Text := ['n' as int, 'a' as int, 'n' as int]
  const INF_TEXT: Text := ['i' as int, 'n' as int, 'f' as int]

  /** The integer part and the decimals of the rounded number `y`. */
  method DecimalParts(a: real, digits: nat, y: real) returns (whole: Text, decimals: Text)
    requires a >= 0.0 && y == a + 0.5 / Pow10(digits) >= 0.0
    ensures whole == Render(Digits(Rounded(a, digits) / Pow(10, digits), 10), UPPER)
    ensures decimals == Render(Padded(Rounded(a, digits) % Pow(10, digits), digits), UPPER)
  {
    FloorNonNegative(y);
    var intPart: nat := y.Floor;
    var remainder := y - intPart as real;
    whole := Strings.FromUnsigned(intPart, 10);
    ghost var q;
    decimals, q := FractionDigits(remainder, digits);
    SplitAtPoint(a, digits, intPart, remainder, q);
    DecimalCase(intPart);
  }

  /** The finite case: sign, rounding, integer part, then the decimals one at a time. */
  method FromFinite(w: nat, x: real, digits: nat) returns (r: Outcome<Text>)
    requires w >= 1
    ensures var a := RealAbs(x);
      r == if a + 0.5 / Pow10(digits) < Pow(2, w) as real
           then Defined(FixedText(x < 0.0, Rounded(a, digits), digits))
           else Undefined
  {
    var str: Text := if x < 0.0 then ['-' as int] else [];
    var rounding := HalfUnit(digits);
    var a := RealAbs(x);
    if a + rounding >= Pow(2, w) as real {
      return Undefined;
    }
    var whole, decimals := DecimalParts(a, digits, a + rounding);
    str := str + whole;
    if digits > 0 {
      str := str + (['.' as int] + decimals);
    } else {
      assert str + [] == str;
    }
    return Defined(str);
  }

  /** `Print::toString(double, uint8_t)`; converting a number past the word size to `unsigned long` is undefined. */
  method FromDouble(w: nat, number: Double, digits: Byte) returns (r: Outcome<Text>)
    requires w >= 1
    ensures number.NaN? ==> r == Defined(['n' as int, 'a' as int, 'n' as int])
    ensures number.Infinite? ==> r == Defined(['i' as int, 'n' as int, 'f' as int])
    ensures number.Finite? ==>
      var a := RealAbs(number.x);
      r == if a + 0.5 / Pow10(digits) < Pow(2, w) as real
           then Defined(FixedText(number.x < 0.0, Rounded(a, digits), digits))
           else Undefined
  {
    if number.NaN? {
      return Defined(NAN_TEXT);
    }
    if number.Infinite? {
      return Defined(INF_TEXT);
    }
    r := FromFinite(w, number.x, digits);
  }
}
