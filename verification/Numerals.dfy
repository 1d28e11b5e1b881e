/** Positional numerals: the digits of a number, the number of a digit sequence, and their text. */
module Numerals {
  import opened Bytes

  function Pow(b: nat, e: nat): (p: nat)
    ensures b > 0 ==> p > 0
  {
    if e == 0 then 1 else b * Pow(b, e - 1)
  }

  /** The number a digit sequence denotes, most significant digit first. */
  function Value(ds: seq<nat>, base: nat): nat {
    if ds == [] then 0 else Value(ds[..|ds| - 1], base) * base + ds[|ds| - 1]
  }

  lemma MulGap(x: int, y: int, z: nat)
    requires x < y
    ensures x * z + z <= y * z
  {
    var d := y - x - 1;
    assert y * z == x * z + z + d * z;
  }

  lemma DivSmaller(n: nat, base: nat)
    requires 2 <= base <= n
    ensures 1 <= n / base < n
  {
    var q := n / base;
    assert n == q * base + n % base;
    MulGap(1, base, q);
  }

  /** The digits of `n`, most significant first; a single 0 for zero. */
  function Digits(n: nat, base: nat): (ds: seq<nat>)
    requires base >= 2
    ensures ds != []
    ensures forall d | d in ds :: d < base
    decreases n
  {
    if n < base then [n] else
      DivSmaller(n, base);
      Digits(n / base, base) + [n % base]
  }

  /** Exactly `width` digits of `n`, padded with leading zeros. */
  function Padded(n: nat, width: nat): (ds: seq<nat>)
    ensures |ds| == width
    ensures forall d | d in ds :: d < 10
  {
    if width == 0 then [] else Padded(n / 10, width - 1) + [n % 10]
  }

  lemma ValueSnoc(ds: seq<nat>, d: nat, base: nat)
    ensures Value(ds + [d], base) == Value(ds, base) * base + d
  {
    assert (ds + [d])[..|ds|] == ds;
  }

  lemma DivModIdentity(n: nat, base: nat)
    requires base > 0
    ensures (n / base) * base + n % base == n
  {
  }

  lemma {:induction false} DigitsDenote(n: nat, base: nat)
    requires base >= 2
    ensures Value(Digits(n, base), base) == n
    decreases n
  {
    if n >= base {
      DivSmaller(n, base);
      DigitsDenote(n / base, base);
      ValueSnoc(Digits(n / base, base), n % base, base);
      DivModIdentity(n, base);
    } else {
      assert [n][..0] == [];
    }
  }

  lemma {:induction false} NoLeadingZero(n: nat, base: nat)
    requires base >= 2
    ensures Digits(n, base)[0] == 0 ==> n == 0
    decreases n
  {
    if n >= base {
      DivSmaller(n, base);
      NoLeadingZero(n / base, base);
    }
  }

  lemma DivModUnique(q: nat, r: nat, base: nat)
    requires r < base
    ensures (q * base + r) / base == q && (q * base + r) % base == r
  {
    var n := q * base + r;
    var k, m := n / base, n % base;
    assert n == k * base + m;
    if k < q {
      MulGap(k, q, base);
    } else if q < k {
      MulGap(q, k, base);
    }
  }

  lemma {:induction false} ValuePositive(ds: seq<nat>, base: nat)
    requires base >= 2 && ds != [] && ds[0] != 0
    ensures Value(ds, base) > 0
  {
    if |ds| > 1 {
      ValuePositive(ds[..|ds| - 1], base);
    }
  }

  lemma DigitsStep(v: nat, d: nat, base: nat)
    requires base >= 2 && v > 0 && d < base
    ensures Digits(v * base + d, base) == Digits(v, base) + [d]
  {
    DivModUnique(v, d, base);
    MulGap(0, v, base);
  }

  /** A numeral without a needless leading zero is the one `Digits` gives: numerals are unique. */
  lemma {:induction false} DigitsUnique(ds: seq<nat>, base: nat)
    requires base >= 2 && ds != []
    requires forall d | d in ds :: d < base
    requires ds[0] == 0 ==> |ds| == 1
    ensures Digits(Value(ds, base), base) == ds
  {
    var last, init := ds[|ds| - 1], ds[..|ds| - 1];
    assert last in ds && forall d | d in init :: d in ds;
    assert ds == init + [last];
    ValueSnoc(init, last, base);
    if init != [] {
      DigitsUnique(init, base);
      ValuePositive(init, base);
      DigitsStep(Value(init, base), last, base);
    }
  }

  lemma HalvingBound(n: nat, base: nat, w: nat)
    requires 2 <= base <= n && w >= 1 && n < Pow(2, w)
    ensures w >= 2 && 1 <= n / base < Pow(2, w - 1)
  {
    var q := n / base;
    assert n == q * base + n % base;
    if base > 2 {
      MulGap(2, base, q);
    }
    assert 2 * q <= n < 2 * Pow(2, w - 1);
  }

  /** A `w`-bit number has at most `w` digits in any base. */
  lemma {:induction false} DigitsFit(n: nat, base: nat, w: nat)
    requires base >= 2 && w >= 1 && n < Pow(2, w)
    ensures |Digits(n, base)| <= w
    decreases w
  {
    if n >= base {
      HalvingBound(n, base, w);
      DigitsFit(n / base, base, w - 1);
    }
  }

  lemma {:induction false} ValueAppend(a: seq<nat>, b: seq<nat>, base: nat)
    ensures Value(a + b, base) == Value(a, base) * Pow(base, |b|) + Value(b, base)
  {
    if b == [] {
      assert a + b == a;
    } else {
      var last, init := b[|b| - 1], b[..|b| - 1];
      assert a + b == (a + init) + [last] && b == init + [last];
      ValueAppend(a, init, base);
      ValueSnoc(a + init, last, base);
      ValueSnoc(init, last, base);
      Distribute(Value(a, base), Pow(base, |init|), Value(init, base), base);
    }
  }

  lemma Distribute(x: int, y: int, z: int, base: int)
    ensures (x * y + z) * base == x * (base * y) + z * base
  {
    assert x * y * base == x * (base * y);
  }

  lemma ModSplit(n: nat, p: nat)
    requires p > 0
    ensures n % (10 * p) == 10 * ((n / 10) % p) + n % 10
  {
    var m := n / 10;
    var q, r := m / p, m % p;
    assert m == q * p + r;
    assert 10 * (q * p) == q * (10 * p);
    DivModUnique(q, 10 * r + n % 10, 10 * p);
  }

  lemma {:induction false} PaddedDenotes(n: nat, width: nat)
    ensures Value(Padded(n, width), 10) == n % Pow(10, width)
  {
    if width > 0 {
      PaddedDenotes(n / 10, width - 1);
      assert Padded(n, width)[..width - 1] == Padded(n / 10, width - 1);
      ModSplit(n, Pow(10, width - 1));
    }
  }

  // ---------------------------------------------------------------------------
  // Text
  // ---------------------------------------------------------------------------

  /** A digit as an unsigned `char`, with letters from `a` on; like the store into a `char`, it keeps eight bits. */
  function DigitChar(d: nat, a: Byte): Byte {
    (if d < 10 then d + '0' as int else d - 10 + a) % 256
  }

  function Render(ds: seq<nat>, a: Byte): (t: Text)
    ensures |t| == |ds|
    ensures forall i | 0 <= i < |ds| :: t[i] == DigitChar(ds[i], a)
  {
    seq(|ds|, i requires 0 <= i < |ds| => DigitChar(ds[i], a))
  }

  const UPPER: Byte := 'A' as int
  const LOWER: Byte := 'a' as int

  /** The digit a character stands for, read independently of the printers; -1 for any other character. */
  function DigitOf(c: Byte): int {
    if IsDigit(c) then c - '0' as int
    else if 'A' as int <= c <= 'Z' as int then c - 'A' as int + 10
    else if 'a' as int <= c <= 'z' as int then c - 'a' as int + 10
    else -1
  }

  /** `t` is a numeral of `n`: every character is a digit of the base and together they denote `n`. */
  ghost predicate Denotes(t: Text, base: nat, n: nat) {
    exists ds: seq<nat> ::
      |ds| == |t| && (forall i | 0 <= i < |t| :: DigitOf(t[i]) == ds[i] < base) && Value(ds, base) == n
  }

  lemma DigitCharRead(d: nat, a: Byte)
    requires d < 36 && a in {UPPER, LOWER}
    ensures DigitOf(DigitChar(d, a)) == d && DigitChar(d, a) != 0
    ensures DigitChar(d, a) == '0' as int <==> d == 0
  {
  }

  /** In bases up to 36 the rendered digits of `n` are a numeral of `n`, with no needless zero and no NUL. */
  lemma RenderDenotes(n: nat, base: nat, a: Byte)
    requires 2 <= base <= 36 && a in {UPPER, LOWER}
    ensures Denotes(Render(Digits(n, base), a), base, n)
    ensures Render(Digits(n, base), a)[0] == '0' as int ==> n == 0
    ensures 0 !in Render(Digits(n, base), a)
  {
    var ds, t := Digits(n, base), Render(Digits(n, base), a);
    DigitsDenote(n, base);
    NoLeadingZero(n, base);
    forall i | 0 <= i < |t|
      ensures DigitOf(t[i]) == ds[i] < base && t[i] != 0 && (t[i] == '0' as int <==> ds[i] == 0)
    {
      assert ds[i] in ds;
      DigitCharRead(ds[i], a);
    }
  }

  // ---------------------------------------------------------------------------
  // Signed words
  // ---------------------------------------------------------------------------

  function Abs(n: int): nat {
    if n < 0 then -n else n
  }

  /** The decimal text of an integer. */
  function DecimalText(n: int): Text {
    (if n < 0 then ['-' as int] else []) + Render(Digits(Abs(n), 10), UPPER)
  }

  function LongMin(w: nat): int
    requires w >= 1
  {
    0 - Pow(2, w - 1)
  }

  function LongMax(w: nat): nat
    requires w >= 1
  {
    Pow(2, w - 1) - 1
  }

  lemma LongRange(w: nat)
    requires w >= 1
    ensures Pow(2, w) == 2 * (LongMax(w) + 1) && LongMin(w) == -(LongMax(w) + 1)
  {
  }

  /** The unsigned word a `long` is cast to. */
  function AsUnsigned(w: nat, n: int): (m: nat)
    requires w >= 1 && LongMin(w) <= n <= LongMax(w)
    ensures m < Pow(2, w)
  {
    LongRange(w);
    if n < 0 then Pow(2, w) + n else n
  }

  /** Casting keeps the word modulo 2 to the power of its width: from 0 on the number, below 0 that much more. */
  lemma CastKeepsWord(w: nat, n: int)
    requires w >= 1 && 0 - Pow(2, w - 1) <= n < Pow(2, w - 1)
    ensures 0 <= AsUnsigned(w, n) < Pow(2, w)
    ensures AsUnsigned(w, n) == n || AsUnsigned(w, n) == n + Pow(2, w)
    ensures AsUnsigned(w, n) == n <==> n >= 0
  {
  }

  /** Decimal digits look the same in either letter case. */
  lemma DecimalCase(n: nat)
    ensures Render(Digits(n, 10), LOWER) == Render(Digits(n, 10), UPPER)
  {
    forall i | 0 <= i < |Digits(n, 10)|
      ensures Render(Digits(n, 10), LOWER)[i] == Render(Digits(n, 10), UPPER)[i]
    {
      assert Digits(n, 10)[i] in Digits(n, 10);
    }
  }
}
