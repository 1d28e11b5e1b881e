/** `IPAddress`: reading and printing dotted IPv4 addresses. */
module IPAddresses {
  import opened Bytes
  import opened Numerals
  import opened Tokens
  import Print

  const DOT: Byte := '.' as int

  // ---------------------------------------------------------------------------
  // What counts as an address
  // ---------------------------------------------------------------------------

  /** The decimal value of a field. */
  function FieldValue(f: Text): int {
    if f == [] then 0 else FieldValue(f[..|f| - 1]) * 10 + (f[|f| - 1] - ZERO)
  }

  /** A field may be empty and may have leading zeros; only its value is limited. */
  ghost predicate GoodField(f: Text) {
    AllDigits(f) && FieldValue(f) <= 255
  }

  /** Four good fields. */
  ghost predicate FourGood(fs: seq<Text>) {
    |fs| == 4 && forall i | 0 <= i < 4 :: GoodField(fs[i])
  }

  ghost predicate IsDotted(address: Text) {
    FourGood(SplitAt(address, DOT))
  }

  lemma FieldPush(f: Text, c: Byte)
    ensures FieldValue(f + [c]) == FieldValue(f) * 10 + (c - ZERO)
  {
    assert (f + [c])[..|f|] == f;
  }

  /** A value already past 255 stays there: rejecting early agrees with the final value. */
  lemma {:induction false} ValueOnlyGrows(f: Text, more: Text)
    requires AllDigits(f + more) && FieldValue(f) >= 0
    ensures FieldValue(f + more) >= FieldValue(f)
  {
    if more == [] {
      assert f + more == f;
    } else {
      var init := more[..|more| - 1];
      assert f + more == f + init + [more[|more| - 1]];
      assert IsDigit((f + more)[|f + more| - 1]);
      assert forall i | 0 <= i < |f + init| :: (f + init)[i] == (f + more)[i];
      ValueOnlyGrows(f, init);
      FieldPush(f + init, more[|more| - 1]);
    }
  }

  // ---------------------------------------------------------------------------
  // Scanning
  // ---------------------------------------------------------------------------

  /** How far a scan over the fields `fs` has come: `dots` of them complete, `cur` read of the next, `rest` to come. */
  ghost predicate Scanned(fs: seq<Text>, dots: nat, cur: Text, rest: Text, acc: int) {
    && dots < |fs| && fs[dots..] == SplitAt(cur + rest, DOT)
    && (forall i | 0 <= i < dots :: GoodField(fs[i]))
    && GoodField(cur) && acc == FieldValue(cur) >= 0
  }

  lemma NoDot(f: Text)
    requires AllDigits(f)
    ensures DOT !in f
  {
  }

  /** The first token of a text begins with any dot-free beginning of the text. */
  lemma FirstTokenExtends(cur: Text, rest: Text)
    requires DOT !in cur
    ensures var t := SplitAt(cur + rest, DOT)[0];
      |cur| <= |t| <= |cur + rest| && t == (cur + rest)[..|t|]
  {
    var k := First(cur + rest, DOT);
    assert forall i | 0 <= i < |cur| :: (cur + rest)[i] == cur[i];
  }

  /** A digit extends the field, or makes its value too large whatever follows. */
  lemma ScanDigit(fs: seq<Text>, dots: nat, cur: Text, rest: Text, acc: int)
    requires rest != [] && Scanned(fs, dots, cur, rest, acc) && IsDigit(rest[0])
    ensures var acc' := acc * 10 + (rest[0] - ZERO);
      if acc' > 255 then !FourGood(fs) else Scanned(fs, dots, cur + [rest[0]], rest[1..], acc')
  {
    var cur' := cur + [rest[0]];
    FieldPush(cur, rest[0]);
    assert cur' + rest[1..] == cur + rest;
    if FieldValue(cur') > 255 {
      NoDot(cur');
      FirstTokenExtends(cur', rest[1..]);
      var t := fs[dots..][0];
      assert t == cur' + t[|cur'|..];
      if AllDigits(t) {
        ValueOnlyGrows(cur', t[|cur'|..]);
      }
      assert t == fs[dots] && !GoodField(t);
    }
  }

  /** A dot completes the field; a fourth one is one too many. */
  lemma ScanDot(fs: seq<Text>, dots: nat, cur: Text, rest: Text, acc: int)
    requires rest != [] && Scanned(fs, dots, cur, rest, acc) && rest[0] == DOT
    ensures Scanned(fs, dots + 1, [], rest[1..], 0)
    ensures fs[dots] == cur
    ensures dots >= 3 ==> !FourGood(fs)
  {
    NoDot(cur);
    assert cur + rest == cur + [DOT] + rest[1..];
    SplitMore(cur, DOT, rest[1..]);
    assert [] + rest[1..] == rest[1..];
    assert fs[dots..][0] == fs[dots] && fs[dots + 1..] == fs[dots..][1..];
  }

  /** Any other character spoils the field. */
  lemma ScanOther(fs: seq<Text>, dots: nat, cur: Text, rest: Text, acc: int)
    requires rest != [] && Scanned(fs, dots, cur, rest, acc) && rest[0] != DOT && !IsDigit(rest[0])
    ensures !FourGood(fs)
  {
    var cur' := cur + [rest[0]];
    NoDot(cur);
    assert cur' + rest[1..] == cur + rest;
    FirstTokenExtends(cur', rest[1..]);
    var t := fs[dots..][0];
    assert t == fs[dots] && t[|cur|] == rest[0];
  }

  lemma ScanEnd(fs: seq<Text>, dots: nat, cur: Text, acc: int)
    requires Scanned(fs, dots, cur, [], acc)
    ensures |fs| == dots + 1 && fs[dots] == cur
    ensures FourGood(fs) <==> dots == 3
  {
    NoDot(cur);
    assert cur + [] == cur;
    FirstIs(cur, DOT, []);
    assert fs[dots..][0] == fs[dots];
  }

  class IPAddress {
    const bytes: array<Byte>

    constructor ()
      ensures fresh(bytes) && bytes.Length == 4 && bytes[..] == [0, 0, 0, 0]
    {
      bytes := new Byte[4](_ => 0);
    }

    /**
     `fromString`: true exactly for four dotted fields of value at most 255, and then the bytes are those values.
     A refused text may leave the leading bytes overwritten with the fields it had up to there.
     */
    method FromString(address: Text) returns (ok: bool)
      requires bytes.Length == 4
      modifies bytes
      ensures ok <==> IsDotted(address)
      ensures ok ==> forall i | 0 <= i < 4 :: bytes[i] == FieldValue(SplitAt(address, DOT)[i])
      ensures forall i | 0 <= i < 4 && bytes[i] != old(bytes[i]) ::
        i < |SplitAt(address, DOT)| && bytes[i] == FieldValue(SplitAt(address, DOT)[i])
    {
      var acc, dots, rest := 0, 0, address;
      ghost var fs, cur: Text := SplitAt(address, DOT), [];
      assert cur + rest == address;
      while rest != []
        invariant 0 <= dots <= 3 && Scanned(fs, dots, cur, rest, acc)
        invariant forall i | 0 <= i < dots :: bytes[i] == FieldValue(fs[i])
        invariant forall i | dots <= i < 4 :: bytes[i] == old(bytes[i])
        decreases |rest|
      {
        var c := rest[0];
        if IsDigit(c) {
          ScanDigit(fs, dots, cur, rest, acc);
          acc := acc * 10 + (c - ZERO);
          assert acc < 0x1_0000;
          if acc > 255 {
            return false;
          }
          cur := cur + [c];
        } else if c == DOT {
          ScanDot(fs, dots, cur, rest, acc);
          if dots == 3 {
            return false;
          }
          bytes[dots] := acc;
          dots := dots + 1;
          acc, cur := 0, [];
        } else {
          ScanOther(fs, dots, cur, rest, acc);
          return false;
        }
        rest := rest[1..];
      }
      ScanEnd(fs, dots, cur, acc);
      if dots != 3 {
        return false;
      }
      bytes[3] := acc;
      return true;
    }

    /** `printTo`: each byte through the unsigned printer, with dots between; returns the number of characters. */
    method PrintTo(w: nat) returns (text: Text, n: nat)
      requires bytes.Length == 4 && w >= 8
      ensures text == AddressText(bytes[..]) && n == |text|
    {
      text, n := [], 0;
      ByteIsWord(w);
      for i := 0 to 3
        invariant n == |text|
        invariant text == Leading(bytes[..], i)
      {
        var t := Print.FromUnsigned(w, bytes[i], 10);
        Print.DecimalIsCString(bytes[i]);
        text := text + t + [DOT];
        n := n + |t| + 1;
      }
      var t := Print.FromUnsigned(w, bytes[3], 10);
      Print.DecimalIsCString(bytes[3]);
      text := text + t;
      n := n + |t|;
    }
  }

  lemma {:induction false} ByteIsWord(w: nat)
    requires w >= 8
    ensures Pow(2, w) >= 256
  {
    if w == 8 {
      assert Pow(2, 8) == 2 * Pow(2, 7) == 4 * Pow(2, 6) == 8 * Pow(2, 5) == 16 * Pow(2, 4) == 32 * Pow(2, 3);
    } else {
      ByteIsWord(w - 1);
    }
  }

  // ---------------------------------------------------------------------------
  // Printing and reading back
  // ---------------------------------------------------------------------------

  function ByteText(b: Byte): Text {
    Render(Digits(b, 10), UPPER)
  }

  /** The first `i` bytes, each followed by a dot. */
  function Leading(bs: seq<Byte>, i: nat): Text
    requires |bs| == 4 && i <= 3
  {
    if i == 0 then [] else Leading(bs, i - 1) + ByteText(bs[i - 1]) + [DOT]
  }

  function AddressText(bs: seq<Byte>): Text
    requires |bs| == 4
  {
    Leading(bs, 3) + ByteText(bs[3])
  }

  function Octets(bs: seq<Byte>): seq<Text>
    requires |bs| == 4
  {
    [ByteText(bs[0]), ByteText(bs[1]), ByteText(bs[2]), ByteText(bs[3])]
  }

  lemma JoinFour(a: Text, b: Text, c: Text, d: Text)
    ensures Join([a, b, c, d], DOT) == a + [DOT] + b + [DOT] + c + [DOT] + d
  {
    assert [a, b, c, d] == [a] + ([b] + ([c] + [d]));
    JoinMore(c, [d], DOT);
    JoinMore(b, [c] + [d], DOT);
    JoinMore(a, [b] + ([c] + [d]), DOT);
  }

  lemma AddressTextIsJoin(bs: seq<Byte>)
    requires |bs| == 4
    ensures AddressText(bs) == Join(Octets(bs), DOT)
  {
    JoinFour(ByteText(bs[0]), ByteText(bs[1]), ByteText(bs[2]), ByteText(bs[3]));
    assert Leading(bs, 1) == ByteText(bs[0]) + [DOT];
    assert Leading(bs, 2) == Leading(bs, 1) + ByteText(bs[1]) + [DOT];
    assert Leading(bs, 3) == Leading(bs, 2) + ByteText(bs[2]) + [DOT];
  }

  lemma {:induction false} RenderedField(ds: seq<nat>)
    requires forall d | d in ds :: d < 10
    ensures AllDigits(Render(ds, UPPER)) && FieldValue(Render(ds, UPPER)) == Value(ds, 10)
  {
    forall i | 0 <= i < |ds| ensures Render(ds, UPPER)[i] == ds[i] + ZERO && ds[i] < 10 {
      assert ds[i] in ds;
    }
    if ds != [] {
      var init := ds[..|ds| - 1];
      assert Render(ds, UPPER)[..|ds| - 1] == Render(init, UPPER);
      RenderedField(init);
    }
  }

  lemma ByteTextReads(b: Byte)
    ensures GoodField(ByteText(b)) && FieldValue(ByteText(b)) == b
  {
    RenderedField(Digits(b, 10));
    DigitsDenote(b, 10);
  }

  /** Reading the printed text of an address gives back the address. */
  lemma ReadInvertsPrint(bs: seq<Byte>)
    requires |bs| == 4
    ensures IsDotted(AddressText(bs))
    ensures forall i | 0 <= i < 4 :: FieldValue(SplitAt(AddressText(bs), DOT)[i]) == bs[i]
  {
    AddressTextIsJoin(bs);
    forall i | 0 <= i < 4 ensures GoodField(Octets(bs)[i]) && FieldValue(Octets(bs)[i]) == bs[i] {
      ByteTextReads(bs[i]);
      NoDot(ByteText(bs[i]));
    }
    assert Free(Octets(bs), DOT);
    SplitInvertsJoin(Octets(bs), DOT);
  }

  // ---------------------------------------------------------------------------
  // The standard's addresses
  // ---------------------------------------------------------------------------

  /** dec-octet of section 3.2.2 of RFC 3986. */
  predicate IsDecOctet(f: Text) {
    var zero, nine := ZERO, '9' as int;
    || (|f| == 1 && zero <= f[0] <= nine)
    || (|f| == 2 && '1' as int <= f[0] <= nine && zero <= f[1] <= nine)
    || (|f| == 3 && f[0] == '1' as int && zero <= f[1] <= nine && zero <= f[2] <= nine)
    || (|f| == 3 && f[0] == '2' as int && zero <= f[1] <= '4' as int && zero <= f[2] <= nine)
    || (|f| == 3 && f[0] == '2' as int && f[1] == '5' as int && zero <= f[2] <= '5' as int)
  }

  lemma SmallFields(a: Byte, b: Byte, c: Byte)
    ensures FieldValue([a]) == a - ZERO
    ensures FieldValue([a, b]) == 10 * (a - ZERO) + (b - ZERO)
    ensures FieldValue([a, b, c]) == 100 * (a - ZERO) + 10 * (b - ZERO) + (c - ZERO)
  {
    assert [] + [a] == [a] && [a] + [b] == [a, b] && [a, b] + [c] == [a, b, c];
    FieldPush([], a);
    FieldPush([a], b);
    FieldPush([a, b], c);
  }

  lemma DecOctetIsGood(f: Text)
    requires IsDecOctet(f)
    ensures GoodField(f)
  {
    if |f| == 1 {
      assert f == [f[0]];
      SmallFields(f[0], 0, 0);
    } else if |f| == 2 {
      assert f == [f[0], f[1]];
      SmallFields(f[0], f[1], 0);
    } else {
      assert f == [f[0], f[1], f[2]];
      SmallFields(f[0], f[1], f[2]);
    }
  }

  /** `address` is the four fields `fs` between dots, each of digits and of value at most 255. */
  ghost predicate FourDotted(address: Text, fs: seq<Text>) {
    && |fs| == 4
    && address == fs[0] + [46] + fs[1] + [46] + fs[2] + [46] + fs[3]
    && (forall i | 0 <= i < 4 :: FieldValue(fs[i]) <= 255)
    && (forall i, k | 0 <= i < 4 && 0 <= k < |fs[i]| :: 48 <= fs[i][k] <= 57)
  }

  /** What is accepted is exactly that. */
  lemma AcceptedFields(address: Text)
    ensures IsDotted(address) <==> exists fs :: FourDotted(address, fs)
  {
    if IsDotted(address) {
      var fs := SplitAt(address, DOT);
      JoinInvertsSplit(address, DOT);
      assert fs == [fs[0], fs[1], fs[2], fs[3]];
      JoinFour(fs[0], fs[1], fs[2], fs[3]);
      assert forall i | 0 <= i < 4 :: GoodField(fs[i]);
      assert FourDotted(address, fs);
    }
    if fs :| FourDotted(address, fs) {
      assert forall i | 0 <= i < 4 :: GoodField(fs[i]);
      FourFields(fs[0], fs[1], fs[2], fs[3]);
    }
  }

  /** A printed byte is a dec-octet: no needless zero, no sign. */
  lemma PrintedIsDecOctet(b: Byte)
    ensures IsDecOctet(ByteText(b))
  {
    var ds := Digits(b, 10);
    if b < 10 {
      assert ds == [b];
    } else if b < 100 {
      assert b / 10 < 10 && Digits(b / 10, 10) == [b / 10];
      assert ds == [b / 10, b % 10];
    } else {
      assert b / 10 / 10 < 10 && Digits(b / 10 / 10, 10) == [b / 10 / 10];
      assert Digits(b / 10, 10) == [b / 10 / 10, b / 10 % 10];
      assert ds == [b / 10 / 10, b / 10 % 10, b % 10];
    }
  }

  /** So a printed address is an IPv4address of section 3.2.2 of RFC 3986. */
  lemma PrintedIsStandard(bs: seq<Byte>)
    requires |bs| == 4
    ensures AddressText(bs)
         == ByteText(bs[0]) + [46] + ByteText(bs[1]) + [46] + ByteText(bs[2]) + [46] + ByteText(bs[3])
    ensures forall i | 0 <= i < 4 :: IsDecOctet(ByteText(bs[i])) && FieldValue(ByteText(bs[i])) == bs[i]
  {
    AddressTextIsJoin(bs);
    JoinFour(ByteText(bs[0]), ByteText(bs[1]), ByteText(bs[2]), ByteText(bs[3]));
    forall i | 0 <= i < 4 ensures IsDecOctet(ByteText(bs[i])) && FieldValue(ByteText(bs[i])) == bs[i] {
      PrintedIsDecOctet(bs[i]);
      ByteTextReads(bs[i]);
    }
  }

  /** Every IPv4address of section 3.2.2 of RFC 3986 is accepted. */
  lemma StandardIsAccepted(a: Text, b: Text, c: Text, d: Text)
    requires IsDecOctet(a) && IsDecOctet(b) && IsDecOctet(c) && IsDecOctet(d)
    ensures IsDotted(a + [DOT] + b + [DOT] + c + [DOT] + d)
  {
    DecOctetIsGood(a);
    DecOctetIsGood(b);
    DecOctetIsGood(c);
    DecOctetIsGood(d);
    FourFields(a, b, c, d);
  }

  lemma FourFields(a: Text, b: Text, c: Text, d: Text)
    requires GoodField(a) && GoodField(b) && GoodField(c) && GoodField(d)
    ensures IsDotted(a + [DOT] + b + [DOT] + c + [DOT] + d)
  {
    JoinFour(a, b, c, d);
    NoDot(a);
    NoDot(b);
    NoDot(c);
    NoDot(d);
    SplitInvertsJoin([a, b, c, d], DOT);
  }

  /** The converse fails: empty fields and leading zeros are accepted too. */
  lemma AcceptsMoreThanStandard()
    ensures IsDotted([DOT, DOT, DOT]) && !IsDecOctet([])
  {
    FourFields([], [], [], []);
    assert [] + [DOT] + [] + [DOT] + [] + [DOT] + [] == [DOT, DOT, DOT];
  }
}
