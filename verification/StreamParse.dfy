/** The number parsers of `Stream`, and the round trips with the printers of `Print`. */
module StreamParse {
  import opened Bytes
  import opened ByteStreams
  import opened Numerals
  import opened Print

  datatype Lookahead = SkipAll | SkipNone | SkipWhitespace

  const MINUS: Byte := '-' as int
  const POINT: Byte := '.' as int
  const NO_IGNORE_CHAR: Byte := 1

  // ---------------------------------------------------------------------------
  // What the parsers read
  // ---------------------------------------------------------------------------

  predicate Starts(c: int, decimal: bool) {
    c == MINUS || IsDigit(c) || (decimal && c == POINT)
  }

  predicate Skippable(c: int, mode: Lookahead) {
    mode.SkipAll? || (mode.SkipWhitespace? && c in {' ' as int, '\t' as int, '\r' as int, '\n' as int})
  }

  /** The stream once look-ahead has discarded what its mode lets it discard before a number. */
  function AtNumber(s: Text, mode: Lookahead, decimal: bool): Text {
    if s == [] || Starts(s[0], decimal) || !Skippable(s[0], mode) then s else AtNumber(s[1..], mode, decimal)
  }

  /** Look-ahead discards a prefix of skippable bytes that start no number, and stops only where it must. */
  lemma {:induction false} AtNumberSkips(s: Text, mode: Lookahead, decimal: bool, k: nat)
    requires k <= |s|
    ensures AtNumber(s, mode, decimal) == s[k..]
       <==> (forall i | 0 <= i < k :: Skippable(s[i], mode) && !Starts(s[i], decimal))
            && (k == |s| || Starts(s[k], decimal) || !Skippable(s[k], mode))
  {
    if s == [] || Starts(s[0], decimal) || !Skippable(s[0], mode) {
      assert k > 0 ==> |s[k..]| < |s|;
    } else if k == 0 {
      assert |AtNumber(s[1..], mode, decimal)| < |s| by { AtNumberShrinks(s[1..], mode, decimal); }
    } else {
      assert s[1..][k - 1..] == s[k..];
      AtNumberSkips(s[1..], mode, decimal, k - 1);
      assert forall i | 1 <= i < k :: s[i] == s[1..][i - 1];
    }
  }

  lemma AtNumberShrinks(s: Text, mode: Lookahead, decimal: bool)
    ensures |AtNumber(s, mode, decimal)| <= |s|
  {
  }

  predicate HasNumber(u: Text, decimal: bool) {
    u != [] && Starts(u[0], decimal)
  }

  /** How far a number goes on: digits, the ignored character and, unless `dotted`, one point. */
  function Span(v: Text, ignore: Byte, dotted: bool): (n: nat)
    ensures n <= |v|
  {
    if v == [] then 0
    else if v[0] == ignore || IsDigit(v[0]) then 1 + Span(v[1..], ignore, dotted)
    else if v[0] == POINT && !dotted then 1 + Span(v[1..], ignore, true)
    else 0
  }

  /** The characters of the number at the front of `u`: the first whatever it is, then as far as it goes on. */
  function Token(u: Text, ignore: Byte, decimal: bool): Text
    requires u != []
  {
    u[..1 + Span(u[1..], ignore, !decimal || (u[0] == POINT && ignore != POINT))]
  }

  function Kept(t: Text, ignore: Byte): Text {
    if t == [] then [] else (if t[0] == ignore then [] else [t[0]]) + Kept(t[1..], ignore)
  }

  function DigitsIn(t: Text): seq<nat> {
    if t == [] then [] else (if IsDigit(t[0]) then [t[0] - ZERO] else []) + DigitsIn(t[1..])
  }

  /** The number of digits after the first point. */
  function Decimals(t: Text): nat {
    if t == [] then 0 else if t[0] == POINT then |DigitsIn(t[1..])| else Decimals(t[1..])
  }

  /** The accumulator: `value * 10 + c` is formed before `'0'` is taken off, so 48 more than the value must fit. */
  predicate Fits(w: nat, k: Text)
    requires w >= 1
  {
    DigitsIn(k) == [] || Value(DigitsIn(k), 10) + ZERO <= LongMax(w)
  }

  function Signed(k: Text): int {
    if MINUS in k then -(Value(DigitsIn(k), 10) as int) else Value(DigitsIn(k), 10)
  }

  /** `parseInt` as a function of the bytes waiting in the stream. */
  function ParseIntOf(w: nat, s: Text, mode: Lookahead, ignore: Byte): Outcome<int>
    requires w >= 1
  {
    var u := AtNumber(s, mode, false);
    if !HasNumber(u, false) then Defined(0) else
      var k := Kept(Token(u, ignore, false), ignore);
      if Fits(w, k) then Defined(Signed(k)) else Undefined
  }

  /** `parseFloat` as a function of the bytes waiting in the stream, in exact arithmetic. */
  function ParseFloatOf(w: nat, s: Text, mode: Lookahead, ignore: Byte): Outcome<real>
    requires w >= 1
  {
    var u := AtNumber(s, mode, true);
    if !HasNumber(u, true) then Defined(0.0) else
      var k := Kept(Token(u, ignore, true), ignore);
      if Fits(w, k) then Defined(Signed(k) as real / Pow10(Decimals(k))) else Undefined
  }

  // ---------------------------------------------------------------------------
  // Appending to a number
  // ---------------------------------------------------------------------------

  lemma {:induction false} KeptAppend(a: Text, b: Text, ignore: Byte)
    ensures Kept(a + b, ignore) == Kept(a, ignore) + Kept(b, ignore)
  {
    if a == [] {
      assert a + b == b;
    } else {
      assert (a + b)[1..] == a[1..] + b;
      KeptAppend(a[1..], b, ignore);
    }
  }

  lemma {:induction false} DigitsInAppend(a: Text, b: Text)
    ensures DigitsIn(a + b) == DigitsIn(a) + DigitsIn(b)
  {
    if a == [] {
      assert a + b == b;
    } else {
      assert (a + b)[1..] == a[1..] + b;
      DigitsInAppend(a[1..], b);
      var head: seq<nat> := if IsDigit(a[0]) then [a[0] - ZERO] else [];
      assert head + (DigitsIn(a[1..]) + DigitsIn(b)) == head + DigitsIn(a[1..]) + DigitsIn(b);
    }
  }

  lemma {:induction false} DecimalsAppend(a: Text, b: Text)
    ensures Decimals(a + b) == if POINT in a then Decimals(a) + |DigitsIn(b)| else Decimals(b)
  {
    if a == [] {
      assert a + b == b;
    } else {
      assert (a + b)[1..] == a[1..] + b;
      assert a == [a[0]] + a[1..];
      DigitsInAppend(a[1..], b);
      DecimalsAppend(a[1..], b);
    }
  }

  /** One more character of a number. */
  lemma KeptPush(t: Text, c: Byte, ignore: Byte)
    ensures Kept(t + [c], ignore) == Kept(t, ignore) + (if c == ignore then [] else [c])
  {
    KeptAppend(t, [c], ignore);
    assert [c][1..] == [];
  }

  lemma DigitPush(k: Text, c: Byte)
    ensures IsDigit(c) ==> Value(DigitsIn(k + [c]), 10) == Value(DigitsIn(k), 10) * 10 + (c - ZERO)
    ensures IsDigit(c) ==> DigitsIn(k + [c]) != []
    ensures !IsDigit(c) ==> DigitsIn(k + [c]) == DigitsIn(k)
  {
    DigitsInAppend(k, [c]);
    assert [c][1..] == [];
    if IsDigit(c) {
      var ds := DigitsIn(k) + [c - ZERO];
      assert ds[..|ds| - 1] == DigitsIn(k);
    }
  }

  lemma {:induction false} ValueGrows(a: seq<nat>, b: seq<nat>)
    ensures Value(a + b, 10) >= Value(a, 10)
  {
    if b == [] {
      assert a + b == a;
    } else {
      assert (a + b)[..|a + b| - 1] == a + b[..|b| - 1];
      ValueGrows(a, b[..|b| - 1]);
    }
  }

  /** Once a digit overflows, the number does not fit, whatever follows. */
  lemma OverflowIsFinal(w: nat, t: Text, more: Text, ignore: Byte)
    requires w >= 1
    requires DigitsIn(Kept(t, ignore)) != [] && Value(DigitsIn(Kept(t, ignore)), 10) + ZERO > LongMax(w)
    ensures !Fits(w, Kept(t + more, ignore))
  {
    KeptAppend(t, more, ignore);
    DigitsInAppend(Kept(t, ignore), Kept(more, ignore));
    ValueGrows(DigitsIn(Kept(t, ignore)), DigitsIn(Kept(more, ignore)));
  }

  // ---------------------------------------------------------------------------
  // The parsers
  // ---------------------------------------------------------------------------

  method PeekNextDigit(stream: ByteStream, mode: Lookahead, decimal: bool) returns (c: int)
    modifies stream
    ensures stream.rest == AtNumber(old(stream.rest), mode, decimal)
    ensures HasNumber(stream.rest, decimal) ==> c == stream.rest[0]
    ensures !HasNumber(stream.rest, decimal) ==> c == -1
  {
    while true
      invariant AtNumber(stream.rest, mode, decimal) == AtNumber(old(stream.rest), mode, decimal)
      decreases |stream.rest|
    {
      c := stream.Peek();
      if c < 0 || c == MINUS || (ZERO <= c <= '9' as int) || (decimal && c == POINT) {
        return;
      }
      match mode {
        case SkipNone =>
          return -1;
        case SkipWhitespace =>
          if c !in {' ' as int, '\t' as int, '\r' as int, '\n' as int} {
            return -1;
          }
        case SkipAll =>
      }
      var _ := stream.Read();
    }
  }

  /** `while (available()) read();` at the end of both parsers. */
  method Drain(stream: ByteStream)
    modifies stream
    ensures stream.rest == []
  {
    while stream.Available()
      decreases |stream.rest|
    {
      var _ := stream.Read();
    }
  }

  /** What the parser has accumulated after the characters `t` of the number. */
  ghost predicate Accumulated(w: nat, t: Text, ignore: Byte, value: int, isNegative: bool)
    requires w >= 1
  {
    var k := Kept(t, ignore);
    Fits(w, k) && value == Value(DigitsIn(k), 10) && (isNegative <==> MINUS in k)
  }

  /** The body shared by the parsers' loops: one character `c` after `t`; undefined once the accumulator overflows. */
  method Accumulate(w: nat, c: Byte, ignore: Byte, value: int, isNegative: bool, ghost t: Text)
    returns (ok: bool, value': int, isNegative': bool)
    requires w >= 1 && Accumulated(w, t, ignore, value, isNegative)
    ensures ok ==> Accumulated(w, t + [c], ignore, value', isNegative')
    ensures !ok ==> !Fits(w, Kept(t + [c], ignore))
  {
    KeptPush(t, c, ignore);
    DigitPush(Kept(t, ignore), c);
    ok, value', isNegative' := true, value, isNegative;
    if c == ignore {
      assert Kept(t + [c], ignore) == Kept(t, ignore);
    } else if c == MINUS {
      isNegative' := true;
    } else if IsDigit(c) {
      if value * 10 + c > LongMax(w) {
        return false, value, isNegative;
      }
      value' := value * 10 + c - ZERO;
    }
  }

  lemma UnfitIsFinal(w: nat, t: Text, token: Text, ignore: Byte)
    requires w >= 1 && t <= token && !Fits(w, Kept(t, ignore))
    ensures !Fits(w, Kept(token, ignore))
  {
    assert token == t + token[|t|..];
    OverflowIsFinal(w, t, token[|t|..], ignore);
  }

  /** The number goes on from `r` after the characters `t`. */
  ghost predicate GoesOn(token: Text, t: Text, r: Text, ignore: Byte, dotted: bool) {
    r != [] && token == t + r[..1 + Span(r[1..], ignore, dotted)]
  }

  /** Consuming one character of a number: whether it goes on is what the loop condition asks of the next one. */
  lemma TokenStep(token: Text, t: Text, r: Text, ignore: Byte, dotted: bool)
    requires GoesOn(token, t, r, ignore, dotted)
    ensures t + [r[0]] <= token
    ensures var r' := r[1..];
      if r' == [] then token == t + [r[0]]
      else if r'[0] == ignore || IsDigit(r'[0]) then GoesOn(token, t + [r[0]], r', ignore, dotted)
      else if r'[0] == POINT && !dotted then GoesOn(token, t + [r[0]], r', ignore, true)
      else token == t + [r[0]]
  {
    var r', n := r[1..], Span(r[1..], ignore, dotted);
    assert r[..1 + n] == [r[0]] + r'[..n];
    assert token == t + [r[0]] + r'[..n];
  }

  /** The loop of `parseInt`, over the number at the front of the stream. */
  method ReadInt(w: nat, stream: ByteStream, ignore: Byte) returns (ok: bool, value: int, isNegative: bool)
    requires w >= 1 && stream.rest != []
    modifies stream
    ensures ok ==> Accumulated(w, Token(old(stream.rest), ignore, false), ignore, value, isNegative)
    ensures !ok ==> !Fits(w, Kept(Token(old(stream.rest), ignore, false), ignore))
  {
    isNegative, value := false, 0;
    var c := stream.Peek();
    ghost var token, t: Text := Token(stream.rest, ignore, false), [];
    while true
      invariant GoesOn(token, t, stream.rest, ignore, true) && c == stream.rest[0]
      invariant Accumulated(w, t, ignore, value, isNegative)
      decreases |stream.rest|
    {
      TokenStep(token, t, stream.rest, ignore, true);
      ok, value, isNegative := Accumulate(w, c, ignore, value, isNegative, t);
      t := t + [c];
      if !ok {
        UnfitIsFinal(w, t, token, ignore);
        return;
      }
      var _ := stream.Read();
      c := stream.Peek();
      if !(IsDigit(c) || c == ignore) {
        return;
      }
    }
  }

  /** `parseInt`; on success whatever follows the number is discarded too. */
  method ParseInt(w: nat, stream: ByteStream, mode: Lookahead, ignore: Byte) returns (r: Outcome<int>)
    requires w >= 1
    modifies stream
    ensures r == ParseIntOf(w, old(stream.rest), mode, ignore)
    ensures r.Defined? ==>
      stream.rest == if HasNumber(AtNumber(old(stream.rest), mode, false), false) then []
                     else AtNumber(old(stream.rest), mode, false)
  {
    var c := PeekNextDigit(stream, mode, false);
    if c < 0 {
      return Defined(0);
    }
    var ok, value, isNegative := ReadInt(w, stream, ignore);
    if !ok {
      return Undefined;
    }
    Drain(stream);
    return Defined(if isNegative then -value else value);
  }

  function Tenths(n: nat): real {
    if n == 0 then 1.0 else Tenths(n - 1) * 0.1
  }

  /** The fraction half of `parseFloat`'s state: one tenth for each digit after the point. */
  ghost predicate FractionOf(t: Text, ignore: Byte, isFraction: bool, fraction: real) {
    var k := Kept(t, ignore);
    (isFraction <==> POINT in k) && fraction == Tenths(Decimals(k))
  }

  lemma DecimalsPush(k: Text, c: Byte)
    ensures POINT !in k ==> Decimals(k) == 0 == Decimals(k + [c])
    ensures POINT in k ==> Decimals(k + [c]) == Decimals(k) + (if IsDigit(c) then 1 else 0)
  {
    DecimalsAppend(k, [c]);
    assert [c][1..] == [];
    if POINT !in k {
      NoPointNoDecimals(k);
    }
  }

  method AccumulateFraction(c: Byte, ignore: Byte, isFraction: bool, fraction: real, ghost t: Text)
    returns (isFraction': bool, fraction': real)
    requires FractionOf(t, ignore, isFraction, fraction)
    ensures FractionOf(t + [c], ignore, isFraction', fraction')
    ensures isFraction' == (isFraction || (c == POINT && ignore != POINT))
  {
    ghost var k := Kept(t, ignore);
    KeptPush(t, c, ignore);
    DecimalsPush(k, c);
    isFraction', fraction' := isFraction, fraction;
    if c == ignore {
      assert Kept(t + [c], ignore) == k;
    } else if c == POINT {
      isFraction' := true;
    } else if IsDigit(c) && isFraction {
      fraction' := fraction * 0.1;
    }
  }

  lemma {:induction false} NoPointNoDecimals(t: Text)
    requires POINT !in t
    ensures Decimals(t) == 0
  {
    if t != [] {
      NoPointNoDecimals(t[1..]);
    }
  }

  lemma {:induction false} TenthsInverse(n: nat)
    ensures Tenths(n) * Pow10(n) == 1.0
  {
    if n > 0 {
      TenthsInverse(n - 1);
      Pow10Step(n - 1);
      ShiftDown(Tenths(n - 1), Pow10(n - 1));
    }
  }

  /** The loop of `parseFloat`. */
  method ReadFloat(w: nat, stream: ByteStream, ignore: Byte)
    returns (ok: bool, value: int, isNegative: bool, isFraction: bool, fraction: real)
    requires w >= 1 && stream.rest != []
    modifies stream
    ensures ok ==> Accumulated(w, Token(old(stream.rest), ignore, true), ignore, value, isNegative)
    ensures ok ==> FractionOf(Token(old(stream.rest), ignore, true), ignore, isFraction, fraction)
    ensures !ok ==> !Fits(w, Kept(Token(old(stream.rest), ignore, true), ignore))
  {
    isNegative, isFraction, value, fraction := false, false, 0, 1.0;
    var c := stream.Peek();
    ghost var token, t: Text := Token(stream.rest, ignore, true), [];
    while true
      invariant stream.rest != [] && c == stream.rest[0]
      invariant GoesOn(token, t, stream.rest, ignore, isFraction || (c == POINT && ignore != POINT))
      invariant Accumulated(w, t, ignore, value, isNegative)
      invariant FractionOf(t, ignore, isFraction, fraction)
      decreases |stream.rest|
    {
      TokenStep(token, t, stream.rest, ignore, isFraction || (c == POINT && ignore != POINT));
      ok, value, isNegative := Accumulate(w, c, ignore, value, isNegative, t);
      if !ok {
        UnfitIsFinal(w, t + [c], token, ignore);
        return;
      }
      isFraction, fraction := AccumulateFraction(c, ignore, isFraction, fraction, t);
      t := t + [c];
      var _ := stream.Read();
      c := stream.Peek();
      if !(IsDigit(c) || (c == POINT && !isFraction) || c == ignore) {
        return;
      }
    }
  }

  /** `parseFloat`, in exact arithmetic. */
  method ParseFloat(w: nat, stream: ByteStream, mode: Lookahead, ignore: Byte) returns (r: Outcome<real>)
    requires w >= 1
    modifies stream
    ensures r == ParseFloatOf(w, old(stream.rest), mode, ignore)
    ensures r.Defined? ==>
      stream.rest == if HasNumber(AtNumber(old(stream.rest), mode, true), true) then []
                     else AtNumber(old(stream.rest), mode, true)
  {
    var c := PeekNextDigit(stream, mode, true);
    if c < 0 {
      return Defined(0.0);
    }
    ghost var token := Token(stream.rest, ignore, true);
    var ok, value, isNegative, isFraction, fraction := ReadFloat(w, stream, ignore);
    if !ok {
      return Undefined;
    }
    Drain(stream);
    var x := Scaled(value, isNegative, isFraction, fraction, token, ignore);
    return Defined(x);
  }

  /** The end of `parseFloat`: the sign, then the fraction. */
  method Scaled(value: int, isNegative: bool, isFraction: bool, fraction: real, ghost t: Text, ignore: Byte)
    returns (x: real)
    requires FractionOf(t, ignore, isFraction, fraction)
    ensures x == (if isNegative then -value else value) as real / Pow10(Decimals(Kept(t, ignore)))
  {
    var v := if isNegative then -value else value;
    ScaleByFraction(t, ignore, v, isFraction, fraction);
    x := if isFraction then v as real * fraction else v as real;
  }

  lemma ScaleByFraction(t: Text, ignore: Byte, value: int, isFraction: bool, fraction: real)
    requires FractionOf(t, ignore, isFraction, fraction)
    ensures value as real / Pow10(Decimals(Kept(t, ignore)))
         == if isFraction then value as real * fraction else value as real
  {
    var d := Decimals(Kept(t, ignore));
    if isFraction {
      TimesTenths(value as real, d);
    } else {
      NoPointNoDecimals(Kept(t, ignore));
      OverOne(value as real);
    }
  }

  lemma TimesTenths(v: real, d: nat)
    ensures v / Pow10(d) == v * Tenths(d)
  {
    TenthsInverse(d);
    Inverse(v, Tenths(d), Pow10(d));
  }

  lemma OverOne(v: real)
    ensures v / Pow10(0) == v
  {
    assert Pow10(0) == 1.0;
  }

  lemma Inverse(v: real, f: real, p: real)
    requires f * p == 1.0 && p > 0.0
    ensures v * f == v / p
  {
    assert v / p == v / p * (f * p) == (v / p * p) * f;
  }

  // ---------------------------------------------------------------------------
  // What the parsers read, in characters
  // ---------------------------------------------------------------------------

  /** `t` spells the digits `ds`. */
  ghost predicate Spells(t: Text, ds: seq<nat>) {
    |t| == |ds| && forall i | 0 <= i < |t| :: ds[i] < 10 && t[i] == 48 + ds[i]
  }

  /** `t` spells the digits `ds`, with the ignored character anywhere between them. */
  ghost predicate SpellsWith(t: Text, ds: seq<nat>, ignore: Byte) {
    if t == [] then ds == []
    else if t[0] == ignore then SpellsWith(t[1..], ds, ignore)
    else ds != [] && ds[0] < 10 && t[0] == 48 + ds[0] && SpellsWith(t[1..], ds[1..], ignore)
  }

  /** `t` goes on with digits and the ignored character only. */
  ghost predicate Separated(t: Text, ignore: Byte) {
    forall i | 0 <= i < |t| :: IsDigit(t[i]) || t[i] == ignore
  }

  /** Look-ahead passes over `p`: nothing, blanks, or anything without a digit, '-' and, for `parseFloat`, '.'. */
  ghost predicate PassedOver(p: Text, mode: Lookahead, decimal: bool) {
    match mode
    case SkipNone => p == []
    case SkipWhitespace => forall i | 0 <= i < |p| :: p[i] == 32 || p[i] == 9 || p[i] == 13 || p[i] == 10
    case SkipAll => forall i | 0 <= i < |p| :: (p[i] < 48 || p[i] > 57) && p[i] != 45 && (decimal ==> p[i] != 46)
  }

  /** A byte that is no part of any number is not the ignored character here. */
  predicate Plain(ignore: Byte) {
    (ignore < 48 || ignore > 57) && ignore != 45 && ignore != 46
  }

  /** What follows does not go on with a digit or the ignored character. */
  predicate Stops(rest: Text, ignore: Byte) {
    rest == [] || ((rest[0] < 48 || rest[0] > 57) && rest[0] != ignore)
  }

  function SignText(negative: bool): Text {
    if negative then [45] else []
  }

  lemma PassOver(p: Text, t: Text, mode: Lookahead, decimal: bool)
    requires PassedOver(p, mode, decimal)
    requires t == [] || 48 <= t[0] <= 57 || t[0] == 45 || (decimal && t[0] == 46) || !Skippable(t[0], mode)
    ensures AtNumber(p + t, mode, decimal) == t
  {
    assert (p + t)[|p|..] == t;
    assert forall i | 0 <= i < |p| :: (p + t)[i] == p[i];
    AtNumberSkips(p + t, mode, decimal, |p|);
  }

  lemma {:induction false} SpelledDigits(t: Text, ds: seq<nat>)
    requires Spells(t, ds)
    ensures AllDigits(t) && DigitsIn(t) == ds
  {
    if t != [] {
      SpelledDigits(t[1..], ds[1..]);
      assert ds == [ds[0]] + ds[1..];
    }
  }

  lemma {:induction false} SpelledWith(t: Text, ds: seq<nat>, ignore: Byte)
    requires SpellsWith(t, ds, ignore)
    ensures Spells(Kept(t, ignore), ds) && Separated(t, ignore)
  {
    if t == [] {
    } else if t[0] == ignore {
      SpelledWith(t[1..], ds, ignore);
    } else {
      SpelledWith(t[1..], ds[1..], ignore);
    }
  }

  lemma {:induction false} SpelledPlainly(t: Text, ds: seq<nat>, ignore: Byte)
    requires Spells(t, ds) && Plain(ignore)
    ensures SpellsWith(t, ds, ignore)
  {
    if t != [] {
      SpelledPlainly(t[1..], ds[1..], ignore);
    }
  }

  lemma {:induction false} SpanPasses(a: Text, b: Text, ignore: Byte, dotted: bool)
    requires Separated(a, ignore)
    ensures Span(a + b, ignore, dotted) == |a| + Span(b, ignore, dotted)
  {
    if a == [] {
      assert a + b == b;
    } else {
      assert (a + b)[1..] == a[1..] + b;
      SpanPasses(a[1..], b, ignore, dotted);
    }
  }

  lemma {:induction false} KeptPlain(t: Text, ignore: Byte)
    requires ignore !in t
    ensures Kept(t, ignore) == t
  {
    if t != [] {
      KeptPlain(t[1..], ignore);
    }
  }

  lemma SignedDigits(negative: bool, a: Text, ds: seq<nat>)
    requires Spells(a, ds)
    ensures DigitsIn(SignText(negative) + a) == ds
    ensures MINUS in SignText(negative) + a <==> negative
  {
    SpelledDigits(a, ds);
    assert [MINUS][1..] == [];
    DigitsInAppend(SignText(negative), a);
  }

  /** The number taken from `u` is everything before `rest`. */
  lemma WholeToken(negative: bool, a: Text, rest: Text, ignore: Byte, decimal: bool)
    requires Separated(a, ignore) && (negative || a != []) && Stops(rest, ignore)
    requires !negative && a != [] ==> a[0] != 46
    requires decimal && rest != [] ==> rest[0] != 46
    ensures Token(SignText(negative) + a + rest, ignore, decimal) == SignText(negative) + a
  {
    var u := SignText(negative) + a + rest;
    var more := if negative then a else a[1..];
    assert u[1..] == more + rest;
    SpanPasses(more, rest, ignore, !decimal);
  }

  /** A number may begin with `a`: its first character is not the ignored one, unless a sign comes first. */
  predicate Begins(negative: bool, a: Text, ignore: Byte) {
    negative || (a != [] && a[0] != ignore)
  }

  lemma StartsNumber(negative: bool, a: Text, ds: seq<nat>, rest: Text, ignore: Byte, decimal: bool)
    requires SpellsWith(a, ds, ignore) && Begins(negative, a, ignore)
    ensures var u := SignText(negative) + a + rest;
      u != [] && (48 <= u[0] <= 57 || u[0] == 45) && HasNumber(u, decimal)
  {
    var u := SignText(negative) + a + rest;
    assert u[0] == if negative then 45 else a[0];
  }

  lemma StartsDecimal(negative: bool, a: Text, ds: seq<nat>, tail: Text, ignore: Byte)
    requires SpellsWith(a, ds, ignore) && (a == [] || Begins(negative, a, ignore)) && tail != [] && tail[0] == 46
    ensures var u := SignText(negative) + a + tail;
      u != [] && (48 <= u[0] <= 57 || u[0] == 45 || u[0] == 46) && HasNumber(u, true)
  {
    var u := SignText(negative) + a + tail;
    assert u[0] == if negative then 45 else if a != [] then a[0] else 46;
  }

  lemma KeptSign(negative: bool, a: Text, ignore: Byte)
    requires Plain(ignore)
    ensures Kept(SignText(negative) + a, ignore) == SignText(negative) + Kept(a, ignore)
  {
    KeptPlain(SignText(negative), ignore);
    KeptAppend(SignText(negative), a, ignore);
  }

  lemma KeptDecimal(negative: bool, a: Text, b: Text, ignore: Byte)
    requires Plain(ignore)
    ensures Kept(SignText(negative) + a + ([46] + b), ignore)
         == SignText(negative) + Kept(a, ignore) + ([46] + Kept(b, ignore))
  {
    KeptSign(negative, a, ignore);
    KeptPlain([46], ignore);
    KeptAppend([46], b, ignore);
    KeptAppend(SignText(negative) + a, [46] + b, ignore);
  }

  lemma NoPoint(negative: bool, a: Text, ds: seq<nat>)
    requires Spells(a, ds)
    ensures Decimals(SignText(negative) + a) == 0
  {
    assert POINT !in a && POINT !in SignText(negative);
    NoPointNoDecimals(SignText(negative) + a);
  }

  /** The value of a token whose sign and digits are known. */
  lemma IntegerOf(w: nat, s: Text, u: Text, t: Text, k: Text, mode: Lookahead, ignore: Byte, negative: bool, ds: seq<nat>)
    requires w >= 1 && AtNumber(s, mode, false) == u && HasNumber(u, false)
    requires Token(u, ignore, false) == t && Kept(t, ignore) == k
    requires DigitsIn(k) == ds && (MINUS in k <==> negative)
    ensures ParseIntOf(w, s, mode, ignore)
         == if ds == [] || Value(ds, 10) + 48 <= LongMax(w)
            then Defined(if negative then -(Value(ds, 10) as int) else Value(ds, 10)) else Undefined
  {
  }

  /**
   `parseFloat` finds a number in `s` and answers the digits `ds`, of which `d` are decimals, with that sign; undefined
   exactly when 48 more than the digits, without the point, does not fit.
   */
  ghost predicate FloatIs(w: nat, s: Text, mode: Lookahead, ignore: Byte, negative: bool, ds: seq<nat>, d: nat)
    requires w >= 1
  {
    var n := Value(ds, 10);
    && HasNumber(AtNumber(s, mode, true), true)
    && ParseFloatOf(w, s, mode, ignore)
       == if ds == [] || n + 48 <= LongMax(w)
          then Defined((if negative then -(n as int) else n) as real / Pow10(d)) else Undefined
  }

  lemma DecimalOf(w: nat, s: Text, u: Text, t: Text, k: Text, mode: Lookahead, ignore: Byte, negative: bool,
                  ds: seq<nat>, d: nat)
    requires w >= 1 && AtNumber(s, mode, true) == u && HasNumber(u, true)
    requires Token(u, ignore, true) == t && Kept(t, ignore) == k
    requires DigitsIn(k) == ds && (MINUS in k <==> negative) && Decimals(k) == d
    ensures FloatIs(w, s, mode, ignore, negative, ds, d)
  {
  }

  /** A number without a point, as either parser takes it. */
  lemma WholeShape(negative: bool, a: Text, ds: seq<nat>, rest: Text, ignore: Byte, decimal: bool)
    requires SpellsWith(a, ds, ignore) && Begins(negative, a, ignore) && Plain(ignore) && Stops(rest, ignore)
    requires decimal && rest != [] ==> rest[0] != 46
    ensures var t, k := SignText(negative) + a, SignText(negative) + Kept(a, ignore);
      var u := t + rest;
      && u != [] && (48 <= u[0] <= 57 || u[0] == 45) && HasNumber(u, decimal)
      && Token(u, ignore, decimal) == t && Kept(t, ignore) == k
      && DigitsIn(k) == ds && (MINUS in k <==> negative) && Decimals(k) == 0
  {
    StartsNumber(negative, a, ds, rest, ignore, decimal);
    SpelledWith(a, ds, ignore);
    WholeToken(negative, a, rest, ignore, decimal);
    KeptSign(negative, a, ignore);
    SignedDigits(negative, Kept(a, ignore), ds);
    NoPoint(negative, Kept(a, ignore), ds);
  }

  /**
   `parseInt` on any text: after what look-ahead passes over, an optional sign and the digits up to where they stop,
   the ignored character left out, are the number; it is undefined exactly when 48 more than its magnitude does not fit.
   */
  lemma IntegerParses(w: nat, p: Text, negative: bool, a: Text, ds: seq<nat>, rest: Text, mode: Lookahead, ignore: Byte)
    requires w >= 1 && PassedOver(p, mode, false) && SpellsWith(a, ds, ignore) && Begins(negative, a, ignore)
    requires Plain(ignore) && Stops(rest, ignore)
    ensures var s := p + (SignText(negative) + a + rest);
      && HasNumber(AtNumber(s, mode, false), false)
      && ParseIntOf(w, s, mode, ignore)
         == if ds == [] || Value(ds, 10) + 48 <= LongMax(w)
            then Defined(if negative then -(Value(ds, 10) as int) else Value(ds, 10)) else Undefined
  {
    var t, k := SignText(negative) + a, SignText(negative) + Kept(a, ignore);
    WholeShape(negative, a, ds, rest, ignore, false);
    PassOver(p, t + rest, mode, false);
    IntegerOf(w, p + (t + rest), t + rest, t, k, mode, ignore, negative, ds);
  }

  lemma StopsSpan(rest: Text, ignore: Byte)
    requires Stops(rest, ignore)
    ensures Span(rest, ignore, true) == 0
  {
  }

  lemma TailSpans(b: Text, rest: Text, ignore: Byte)
    requires Separated(b, ignore) && Plain(ignore) && Stops(rest, ignore)
    ensures Span(b + rest, ignore, true) == |b|
    ensures Span([46] + (b + rest), ignore, false) == 1 + |b|
  {
    var tail := [46] + (b + rest);
    assert tail[0] == 46 && tail[1..] == b + rest;
    SpanPasses(b, rest, ignore, true);
    StopsSpan(rest, ignore);
  }

  lemma PointFirst(b: Text, rest: Text, ignore: Byte)
    requires Separated(b, ignore) && Plain(ignore) && Stops(rest, ignore)
    ensures Token([46] + (b + rest), ignore, true) == [46] + b
  {
    TailSpans(b, rest, ignore);
    assert ([46] + (b + rest))[1..] == b + rest;
  }

  lemma PointLater(c: Byte, more: Text, b: Text, rest: Text, ignore: Byte)
    requires c != 46 && Separated(more, ignore) && Separated(b, ignore) && Plain(ignore) && Stops(rest, ignore)
    ensures Token([c] + (more + ([46] + (b + rest))), ignore, true) == [c] + (more + ([46] + b))
  {
    var tail := [46] + (b + rest);
    var u := [c] + (more + tail);
    TailSpans(b, rest, ignore);
    assert u[1..] == more + tail;
    SpanPasses(more, tail, ignore, false);
    assert u[..1 + (|more| + 1 + |b|)] == [c] + (more + ([46] + b));
  }

  lemma WholeDecimal(negative: bool, a: Text, b: Text, rest: Text, ignore: Byte)
    requires Separated(a, ignore) && Separated(b, ignore) && Plain(ignore) && Stops(rest, ignore)
    ensures Token(SignText(negative) + a + ([46] + (b + rest)), ignore, true) == SignText(negative) + a + ([46] + b)
  {
    var sign := SignText(negative);
    var tail := [46] + (b + rest);
    if !negative && a == [] {
      assert sign + a + tail == tail && sign + a + ([46] + b) == [46] + b;
      PointFirst(b, rest, ignore);
    } else {
      var more := if negative then a else a[1..];
      var c := if negative then 45 else a[0];
      assert sign + a + tail == [c] + (more + tail);
      assert sign + a + ([46] + b) == [c] + (more + ([46] + b));
      PointLater(c, more, b, rest, ignore);
    }
  }

  lemma DecimalDigits(negative: bool, a: Text, ds: seq<nat>, b: Text, es: seq<nat>)
    requires Spells(a, ds) && Spells(b, es)
    ensures var t := SignText(negative) + a + ([46] + b);
      DigitsIn(t) == ds + es && Decimals(t) == |es| && (MINUS in t <==> negative)
  {
    var head, tail := SignText(negative) + a, [46] + b;
    SignedDigits(negative, a, ds);
    SpelledDigits(a, ds);
    SpelledDigits(b, es);
    assert tail[1..] == b;
    DigitsInAppend(head, tail);
    DecimalsAppend(head, tail);
    assert POINT !in head && MINUS !in tail;
  }

  lemma DecimalShape(negative: bool, a: Text, ds: seq<nat>, b: Text, es: seq<nat>, rest: Text, ignore: Byte)
    requires SpellsWith(a, ds, ignore) && SpellsWith(b, es, ignore) && (a == [] || Begins(negative, a, ignore))
    requires Plain(ignore) && Stops(rest, ignore)
    ensures var t, u := SignText(negative) + a + ([46] + b), SignText(negative) + a + ([46] + (b + rest));
      var k := SignText(negative) + Kept(a, ignore) + ([46] + Kept(b, ignore));
      && u != [] && (48 <= u[0] <= 57 || u[0] == 45 || u[0] == 46) && HasNumber(u, true)
      && Token(u, ignore, true) == t && Kept(t, ignore) == k
      && DigitsIn(k) == ds + es && (MINUS in k <==> negative) && Decimals(k) == |es|
  {
    StartsDecimal(negative, a, ds, [46] + (b + rest), ignore);
    SpelledWith(a, ds, ignore);
    SpelledWith(b, es, ignore);
    WholeDecimal(negative, a, b, rest, ignore);
    KeptDecimal(negative, a, b, ignore);
    DecimalDigits(negative, Kept(a, ignore), ds, Kept(b, ignore), es);
  }

  lemma DecimalAt(p: Text, negative: bool, a: Text, ds: seq<nat>, b: Text, es: seq<nat>, rest: Text,
                  mode: Lookahead, ignore: Byte) returns (u: Text, t: Text, k: Text)
    requires SpellsWith(a, ds, ignore) && SpellsWith(b, es, ignore) && (a == [] || Begins(negative, a, ignore))
    requires PassedOver(p, mode, true) && Plain(ignore) && Stops(rest, ignore)
    ensures u == SignText(negative) + a + ([46] + (b + rest)) && AtNumber(p + u, mode, true) == u && HasNumber(u, true)
    ensures Token(u, ignore, true) == t && Kept(t, ignore) == k
    ensures DigitsIn(k) == ds + es && (MINUS in k <==> negative) && Decimals(k) == |es|
  {
    u, t := SignText(negative) + a + ([46] + (b + rest)), SignText(negative) + a + ([46] + b);
    k := SignText(negative) + Kept(a, ignore) + ([46] + Kept(b, ignore));
    DecimalShape(negative, a, ds, b, es, rest, ignore);
    PassOver(p, u, mode, true);
  }

  /**
   `parseFloat` on any text with a point: an optional sign, digits, the point and digits up to where they stop are the
   number, the ignored character left out. There may be no digits on either side, and a second point stops it.
   */
  lemma DecimalParses(w: nat, p: Text, negative: bool, a: Text, ds: seq<nat>, b: Text, es: seq<nat>, rest: Text,
                      mode: Lookahead, ignore: Byte)
    requires w >= 1 && PassedOver(p, mode, true) && Plain(ignore) && Stops(rest, ignore)
    requires SpellsWith(a, ds, ignore) && SpellsWith(b, es, ignore) && (a == [] || Begins(negative, a, ignore))
    ensures FloatIs(w, p + (SignText(negative) + a + ([46] + (b + rest))), mode, ignore, negative, ds + es, |es|)
  {
    var u, t, k := DecimalAt(p, negative, a, ds, b, es, rest, mode, ignore);
    DecimalOf(w, p + u, u, t, k, mode, ignore, negative, ds + es, |es|);
  }

  /** `parseFloat` on any text without a point reads what `parseInt` reads. */
  lemma WholeFloatParses(w: nat, p: Text, negative: bool, a: Text, ds: seq<nat>, rest: Text, mode: Lookahead, ignore: Byte)
    requires w >= 1 && PassedOver(p, mode, true) && SpellsWith(a, ds, ignore) && Begins(negative, a, ignore)
    requires Plain(ignore) && Stops(rest, ignore) && (rest == [] || rest[0] != 46)
    ensures FloatIs(w, p + (SignText(negative) + a + rest), mode, ignore, negative, ds, 0) && Pow10(0) == 1.0
  {
    var t, k := SignText(negative) + a, SignText(negative) + Kept(a, ignore);
    WholeShape(negative, a, ds, rest, ignore, true);
    PassOver(p, t + rest, mode, true);
    DecimalOf(w, p + (t + rest), t + rest, t, k, mode, ignore, negative, ds, 0);
  }

  /** Where look-ahead has to stop before anything that starts a number, both parsers answer 0 and leave the rest. */
  lemma NothingParses(w: nat, p: Text, rest: Text, mode: Lookahead, ignore: Byte, decimal: bool)
    requires w >= 1 && PassedOver(p, mode, decimal)
    requires rest == [] || (mode != SkipAll && (rest[0] < 48 || rest[0] > 57) && rest[0] != 45 && rest[0] != 46)
    requires rest != [] && mode == SkipWhitespace ==> rest[0] != 32 && rest[0] != 9 && rest[0] != 13 && rest[0] != 10
    ensures AtNumber(p + rest, mode, decimal) == rest && !HasNumber(rest, decimal)
    ensures !decimal ==> ParseIntOf(w, p + rest, mode, ignore) == Defined(0)
    ensures decimal ==> ParseFloatOf(w, p + rest, mode, ignore) == Defined(0.0)
  {
    PassOver(p, rest, mode, decimal);
  }

  // ---------------------------------------------------------------------------
  // Round trips
  // ---------------------------------------------------------------------------

  lemma RenderedSpells(ds: seq<nat>)
    requires forall d | d in ds :: d < 10
    ensures Spells(Render(ds, UPPER), ds)
  {
    forall i | 0 <= i < |ds| ensures ds[i] < 10 {
      assert ds[i] in ds;
    }
  }

  lemma {:induction false} SeparatedSpans(t: Text, ignore: Byte)
    requires Separated(t, ignore)
    ensures Span(t, ignore, true) == |t|
    ensures ignore != MINUS && !IsDigit(ignore) ==> AllDigits(Kept(t, ignore))
  {
    if t != [] {
      SeparatedSpans(t[1..], ignore);
    }
  }

  lemma WholeIntParses(w: nat, t: Text, ignore: Byte, mode: Lookahead)
    requires w >= 1 && t != [] && Starts(t[0], false) && Separated(t[1..], ignore)
    ensures ParseIntOf(w, t, mode, ignore)
         == if Fits(w, Kept(t, ignore)) then Defined(Signed(Kept(t, ignore))) else Undefined
  {
    SeparatedSpans(t[1..], ignore);
    assert Token(t, ignore, false) == t;
  }

  /** Once a number has begun, the ignored character is read over: the result is that of the text without it. */
  lemma IgnoredVanishes(w: nat, t: Text, ignore: Byte, mode: Lookahead)
    requires w >= 1 && t != [] && Starts(t[0], false) && Separated(t[1..], ignore)
    requires ignore != MINUS && !IsDigit(ignore)
    ensures ParseIntOf(w, t, mode, ignore) == ParseIntOf(w, Kept(t, ignore), mode, NO_IGNORE_CHAR)
  {
    var k := Kept(t, ignore);
    SeparatedSpans(t[1..], ignore);
    assert k == [t[0]] + Kept(t[1..], ignore) && k[1..] == Kept(t[1..], ignore);
    KeptPlain(k, NO_IGNORE_CHAR);
    WholeIntParses(w, t, ignore, mode);
    WholeIntParses(w, k, NO_IGNORE_CHAR, mode);
  }

  /**
   Printing then parsing an integer: after any text without digits or signs, `parseInt` gives back exactly `n`
   when 48 more than its magnitude fits a `long`, and overflows its accumulator otherwise.
   */
  lemma ParseIntInvertsPrint(w: nat, n: int, p: Text)
    requires w >= 1 && PassedOver(p, SkipAll, false)
    ensures ParseIntOf(w, p + DecimalText(n), SkipAll, NO_IGNORE_CHAR)
         == if Abs(n) + 48 <= LongMax(w) then Defined(n) else Undefined
  {
    var ds := Digits(Abs(n), 10);
    RenderedSpells(ds);
    SpelledPlainly(Render(ds, UPPER), ds, NO_IGNORE_CHAR);
    DigitsDenote(Abs(n), 10);
    assert DecimalText(n) + [] == DecimalText(n);
    IntegerParses(w, p, n < 0, Render(ds, UPPER), ds, [], SkipAll, NO_IGNORE_CHAR);
  }

  lemma ValueOfParts(q: nat, r: nat, d: nat)
    requires r < Pow(10, d)
    ensures Value(Digits(q, 10) + Padded(r, d), 10) == q * Pow(10, d) + r
  {
    ValueAppend(Digits(q, 10), Padded(r, d), 10);
    DigitsDenote(q, 10);
    PaddedDenotes(r, d);
    DivModUnique(0, r, Pow(10, d));
  }

  lemma FixedTextParts(negative: bool, units: nat, d: nat) returns (q: nat, r: nat, t: Text)
    ensures r < Pow(10, d) && q * Pow(10, d) + r == units && t == FixedText(negative, units, d)
    ensures t == SignText(negative) + Render(Digits(q, 10), UPPER)
                 + (if d > 0 then [46] + Render(Padded(r, d), UPPER) else [])
  {
    q, r, t := units / Pow(10, d), units % Pow(10, d), FixedText(negative, units, d);
    DivModIdentity(units, Pow(10, d));
  }

  /** What the text of `units` with `d` decimals has to parse to. */
  ghost predicate ReadsBack(w: nat, s: Text, negative: bool, units: nat, d: nat)
    requires w >= 1
  {
    ParseFloatOf(w, s, SkipAll, NO_IGNORE_CHAR)
    == if units + 48 <= LongMax(w)
       then Defined((if negative then -(units as int) else units) as real / Pow10(d)) else Undefined
  }

  lemma RenderedParts(q: nat, r: nat, d: nat) returns (a: Text, b: Text, ds: seq<nat>, es: seq<nat>)
    requires r < Pow(10, d)
    ensures a == Render(Digits(q, 10), UPPER) && b == Render(Padded(r, d), UPPER)
    ensures SpellsWith(a, ds, NO_IGNORE_CHAR) && SpellsWith(b, es, NO_IGNORE_CHAR)
    ensures a != [] && a[0] != NO_IGNORE_CHAR && |es| == d && ds != [] && Value(ds + es, 10) == q * Pow(10, d) + r
  {
    ds, es := Digits(q, 10), Padded(r, d);
    a, b := Render(ds, UPPER), Render(es, UPPER);
    RenderedSpells(ds);
    RenderedSpells(es);
    SpelledPlainly(a, ds, NO_IGNORE_CHAR);
    SpelledPlainly(b, es, NO_IGNORE_CHAR);
    ValueOfParts(q, r, d);
  }

  lemma PartsParse(w: nat, negative: bool, q: nat, r: nat, d: nat, units: nat, p: Text)
    requires w >= 1 && d > 0 && r < Pow(10, d) && q * Pow(10, d) + r == units && PassedOver(p, SkipAll, true)
    ensures var a, b := Render(Digits(q, 10), UPPER), Render(Padded(r, d), UPPER);
      ReadsBack(w, p + (SignText(negative) + a + ([46] + b)), negative, units, d)
  {
    var a, b, ds, es := RenderedParts(q, r, d);
    assert b + [] == b;
    DecimalParses(w, p, negative, a, ds, b, es, [], SkipAll, NO_IGNORE_CHAR);
  }

  lemma WholeParses(w: nat, negative: bool, q: nat, p: Text)
    requires w >= 1 && PassedOver(p, SkipAll, true)
    ensures ReadsBack(w, p + (SignText(negative) + Render(Digits(q, 10), UPPER) + []), negative, q, 0)
  {
    RenderedSpells(Digits(q, 10));
    SpelledPlainly(Render(Digits(q, 10), UPPER), Digits(q, 10), NO_IGNORE_CHAR);
    DigitsDenote(q, 10);
    WholeFloatParses(w, p, negative, Render(Digits(q, 10), UPPER), Digits(q, 10), [], SkipAll, NO_IGNORE_CHAR);
  }

  lemma FixedReadsBack(w: nat, negative: bool, units: nat, d: nat, p: Text)
    requires w >= 1 && PassedOver(p, SkipAll, true)
    ensures ReadsBack(w, p + FixedText(negative, units, d), negative, units, d)
  {
    var q, r, t := FixedTextParts(negative, units, d);
    if d > 0 {
      PartsParse(w, negative, q, r, d, units, p);
    } else {
      assert q == units;
      WholeParses(w, negative, q, p);
    }
    assert ReadsBack(w, p + t, negative, units, d);
  }

  /**
   Printing then parsing a decimal: `parseFloat` gives back the printed decimal exactly when its digits, without
   the point, and 48 more fit the `long` accumulator.
   */
  lemma ParseFloatInvertsPrint(w: nat, negative: bool, units: nat, d: nat, p: Text)
    requires w >= 1 && PassedOver(p, SkipAll, true)
    ensures ParseFloatOf(w, p + FixedText(negative, units, d), SkipAll, NO_IGNORE_CHAR)
         == if units + 48 <= LongMax(w)
            then Defined((if negative then -(units as int) else units) as real / Pow10(d))
            else Undefined
  {
    FixedReadsBack(w, negative, units, d, p);
  }

  lemma NegateQuotient(v: real, p: real)
    requires p > 0.0
    ensures (-v) / p == -(v / p)
  {
  }

  /** So what is read back is within half a unit of the last printed digit of the number that was printed. */
  lemma ReadBackIsClose(w: nat, x: real, d: nat, p: Text)
    requires w >= 1 && PassedOver(p, SkipAll, true)
    requires Rounded(RealAbs(x), d) + 48 <= LongMax(w)
    ensures var r := ParseFloatOf(w, p + FixedText(x < 0.0, Rounded(RealAbs(x), d), d), SkipAll, NO_IGNORE_CHAR);
      r.Defined? && RealAbs(r.value - x) <= 0.5 / Pow10(d)
  {
    var units := Rounded(RealAbs(x), d);
    ParseFloatInvertsPrint(w, x < 0.0, units, d, p);
    RoundingError(RealAbs(x), d);
    NegateQuotient(units as real, Pow10(d));
  }

  lemma QuotientBelow(y: real, p: real, b: real)
    requires p >= 1.0 && b >= 0.0 && y * p < b
    ensures y < b
  {
    assert b * (p - 1.0) >= 0.0;
    if b < y {
      MulLess(b, y, p);
    }
  }

  lemma HalfBelow(a: real, p: real, n: real, b: real)
    requires p >= 1.0 && 0.0 <= n < b && a * p + 0.5 < n
    ensures a + 0.5 / p < b
  {
    var h := 0.5 / p;
    assert h * p == 0.5;
    assert (a + h) * p == a * p + h * p;
    QuotientBelow(a + h, p, n);
  }

  lemma Pow10AtLeastOne(d: nat)
    ensures Pow10(d) >= 1.0
  {
  }

  lemma RoundedAbove(x: real, d: nat)
    requires x >= 0.0
    ensures x * Pow10(d) + 0.5 < (Rounded(x, d) + 1) as real
  {
  }

  lemma WordAboveLong(w: nat, n: nat)
    requires w >= 1 && n + 48 <= LongMax(w)
    ensures (n + 1) as real < Pow(2, w) as real
  {
    LongRange(w);
  }

  /** What fits the parser's accumulator also fits the word the printer converts to. */
  lemma ReadableIsPrintable(w: nat, a: real, d: nat)
    requires w >= 1 && a >= 0.0 && Rounded(a, d) + 48 <= LongMax(w)
    ensures a + 0.5 / Pow10(d) < Pow(2, w) as real
  {
    RoundedAbove(a, d);
    WordAboveLong(w, Rounded(a, d));
    Pow10AtLeastOne(d);
    HalfBelow(a, Pow10(d), (Rounded(a, d) + 1) as real, Pow(2, w) as real);
  }

  /**
   Printing a number with `d` decimals and parsing it from a stream: defined exactly when the printed digits fit the
   accumulator, and then within half a unit of the last digit.
   */
  method ReadBackDecimal(w: nat, x: real, digits: Byte, p: Text) returns (r: Outcome<real>)
    requires w >= 1 && PassedOver(p, SkipAll, true)
    ensures r.Defined? <==> Rounded(RealAbs(x), digits) + 48 <= LongMax(w)
    ensures r.Defined? ==> RealAbs(r.value - x) <= 0.5 / Pow10(digits)
  {
    if Rounded(RealAbs(x), digits) + 48 <= LongMax(w) {
      ReadableIsPrintable(w, RealAbs(x), digits);
      ReadBackIsClose(w, x, digits, p);
    } else {
      ParseFloatInvertsPrint(w, x < 0.0, Rounded(RealAbs(x), digits), digits, p);
    }
    var t := FromDouble(w, Finite(x), digits);
    if t.Undefined? {
      return Undefined;
    }
    var stream := new ByteStream(p + t.value);
    r := ParseFloat(w, stream, SkipAll, NO_IGNORE_CHAR);
  }

  /** Printing a `long` and parsing it from a stream gives it back exactly when 48 more than its magnitude fits. */
  method ReadBackInteger(w: nat, n: int, p: Text) returns (r: Outcome<int>)
    requires w >= 1 && LongMin(w) <= n <= LongMax(w) && PassedOver(p, SkipAll, false)
    ensures r == if Abs(n) + 48 <= LongMax(w) then Defined(n) else Undefined
  {
    LongRange(w);
    ParseIntInvertsPrint(w, n, p);
    var t := PrintLong(w, n, 10);
    if t.Undefined? {
      return Undefined;
    }
    var stream := new ByteStream(p + t.value);
    r := ParseInt(w, stream, SkipAll, NO_IGNORE_CHAR);
  }
}
