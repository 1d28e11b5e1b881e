/** `String::replace(str1, str2)`: replaces the first occurrence and starts over until there is none. */
module StringReplace {
  import opened Numerals

  predicate OccursAt(s: string, p: string, i: nat) {
    i + |p| <= |s| && s[i..i + |p|] == p
  }

  ghost predicate Occurs(s: string, p: string) {
    exists i: nat :: OccursAt(s, p, i)
  }

  /** Some character occurs more often in `p` than in `q`. */
  ghost predicate Dwindles(p: string, q: string) {
    exists c: char :: Count(p, c) > Count(q, c)
  }

  /** `find(p, start)`: the first occurrence from `start` on, or -1. */
  function Find(s: string, p: string, start: nat): (k: int)
    ensures k == -1 || (start <= k && OccursAt(s, p, k))
    decreases |s| - start
  {
    if OccursAt(s, p, start) then start
    else if start + |p| >= |s| then -1
    else Find(s, p, start + 1)
  }

  /** `find` misses nothing: everything before its answer, or everything if it is -1, is no occurrence. */
  lemma {:induction false} FindIsFirst(s: string, p: string, start: nat, i: nat)
    requires start <= i && OccursAt(s, p, i)
    ensures Find(s, p, start) != -1 && Find(s, p, start) <= i
    decreases |s| - start
  {
    if !OccursAt(s, p, start) {
      FindIsFirst(s, p, start + 1, i);
    }
  }

  lemma FindDecides(s: string, p: string)
    ensures Find(s, p, 0) == -1 <==> !Occurs(s, p)
  {
    if i: nat :| OccursAt(s, p, i) {
      FindIsFirst(s, p, 0, i);
    }
  }

  function ReplaceAt(s: string, p: string, q: string, i: nat): string
    requires OccursAt(s, p, i)
  {
    s[..i] + q + s[i + |p|..]
  }

  function Round(s: string, p: string, q: string): string {
    var k := Find(s, p, 0);
    if k == -1 then s else ReplaceAt(s, p, q, k)
  }

  function Rounds(s: string, p: string, q: string, n: nat): string {
    if n == 0 then s else Round(Rounds(s, p, q, n - 1), p, q)
  }

  /** One round trades the characters of `p` for those of `q`. */
  lemma RoundTrades(s: string, p: string, q: string, i: nat)
    requires OccursAt(s, p, i)
    ensures multiset(ReplaceAt(s, p, q, i)) + multiset(p) == multiset(s) + multiset(q)
  {
    assert s == s[..i] + (p + s[i + |p|..]);
    assert s[i..] == p + s[i + |p|..];
    assert ReplaceAt(s, p, q, i) == s[..i] + (q + s[i + |p|..]);
  }

  function Count(s: string, c: char): nat {
    multiset(s)[c]
  }

  /** So a round lowers the count of a character that dwindles. */
  lemma RoundDwindles(s: string, p: string, q: string, i: nat, c: char)
    requires Find(s, p, 0) == i && Count(p, c) > Count(q, c)
    ensures s[..i] + q + s[i + |p|..] == Round(s, p, q)
    ensures Count(Round(s, p, q), c) < Count(s, c)
  {
    RoundTrades(s, p, q, i);
    assert (multiset(ReplaceAt(s, p, q, i)) + multiset(p))[c] == (multiset(s) + multiset(q))[c];
  }

  // ---------------------------------------------------------------------------
  // Replacements of the same length
  // ---------------------------------------------------------------------------

  /** One more than the largest character. */
  const RADIX: nat := 0x11_0000

  function Codes(s: string): (ds: seq<nat>)
    ensures |ds| == |s|
    ensures forall i | 0 <= i < |s| :: ds[i] == s[i] as int < RADIX
  {
    seq(|s|, i requires 0 <= i < |s| => s[i] as int)
  }

  /** The string read as a numeral, each character a digit: its place in the dictionary of strings of its length. */
  function Place(s: string): nat {
    Value(Codes(s), RADIX)
  }

  lemma CodesAppend(a: string, b: string)
    ensures Codes(a + b) == Codes(a) + Codes(b)
  {
  }

  lemma PlaceAppend(a: string, b: string)
    ensures Place(a + b) == Place(a) * Pow(RADIX, |b|) + Place(b)
  {
    CodesAppend(a, b);
    ValueAppend(Codes(a), Codes(b), RADIX);
  }

  lemma PlaceLast(s: string)
    requires s != ""
    ensures Place(s) == Place(s[..|s| - 1]) * RADIX + s[|s| - 1] as int
  {
    assert Codes(s)[..|s| - 1] == Codes(s[..|s| - 1]);
  }

  lemma {:induction false} PlaceBound(s: string)
    ensures Place(s) < Pow(RADIX, |s|)
  {
    if s != "" {
      PlaceBound(s[..|s| - 1]);
      PlaceLast(s);
    }
  }

  lemma {:induction false} PlaceInjective(a: string, b: string)
    requires |a| == |b| && Place(a) == Place(b)
    ensures a == b
  {
    if a != "" {
      var m, n := a[..|a| - 1], b[..|b| - 1];
      PlaceLast(a);
      PlaceLast(b);
      DivModUnique(Place(m), a[|a| - 1] as int, RADIX);
      DivModUnique(Place(n), b[|b| - 1] as int, RADIX);
      PlaceInjective(m, n);
      assert a == m + [a[|a| - 1]] && b == n + [b[|b| - 1]];
    }
  }

  lemma SameTail(x: nat, y: nat, z: nat, w: nat)
    requires x < y && w > 0
    ensures x * w + z < y * w + z
  {
    MulGap(x, y, w);
  }

  /** Exchanging a stretch for one of the same length moves the string the way the stretch moves. */
  lemma ExchangeMoves(a: string, p: string, q: string, b: string)
    requires |p| == |q| && Place(p) < Place(q)
    ensures Place(a + p + b) < Place(a + q + b)
  {
    PlaceAppend(a, p);
    PlaceAppend(a, q);
    PlaceAppend(a + p, b);
    PlaceAppend(a + q, b);
    SameTail(Place(a + p), Place(a + q), Place(b), Pow(RADIX, |b|));
  }

  /** How many strings of its length are still ahead in the direction the rounds move. */
  function Ahead(s: string, p: string, q: string): nat {
    PlaceBound(s);
    if Place(q) < Place(p) then Place(s) else Pow(RADIX, |s|) - Place(s)
  }

  lemma AheadDrops(s: string, t: string, p: string, q: string)
    requires |s| == |t| && if Place(q) < Place(p) then Place(t) < Place(s) else Place(s) < Place(t)
    ensures Ahead(t, p, q) < Ahead(s, p, q)
  {
    PlaceBound(t);
  }

  lemma RoundMoves(s: string, p: string, q: string, i: nat)
    requires Find(s, p, 0) == i && |p| == |q| && p != q
    ensures Ahead(Round(s, p, q), p, q) < Ahead(s, p, q)
  {
    var a, b := s[..i], s[i + |p|..];
    assert s == a + p + b && Round(s, p, q) == a + q + b;
    if Place(p) == Place(q) {
      PlaceInjective(p, q);
    } else if Place(p) < Place(q) {
      ExchangeMoves(a, p, q, b);
      AheadDrops(s, a + q + b, p, q);
    } else {
      ExchangeMoves(a, q, p, b);
      AheadDrops(s, a + q + b, p, q);
    }
  }

  // ---------------------------------------------------------------------------
  // Replacements that do not hook to the left
  // ---------------------------------------------------------------------------

  /** The replacement is not shorter, and nothing it begins with is something `p` ends with. */
  predicate FreeLeft(p: string, q: string) {
    |p| <= |q| && forall k | 0 < k < |p| :: q[..k] != p[|p| - k..]
  }

  /** The part of the string from the first occurrence on. */
  function Behind(s: string, p: string): nat {
    if Find(s, p, 0) == -1 then 0 else |s| - Find(s, p, 0)
  }

  /** An occurrence that reaches into the replacement from the left hooks to it. */
  lemma ReachingHooks(a: string, q: string, b: string, p: string, j: nat)
    requires |p| <= |q| && OccursAt(a + q + b, p, j) && j < |a| < j + |p|
    ensures !FreeLeft(p, q)
  {
    var t, k := a + q + b, j + |p| - |a|;
    assert p[|p| - k..] == t[j..j + |p|][|p| - k..] == t[|a|..|a| + k] == q[..k];
  }

  lemma OccursBefore(a: string, x: string, y: string, p: string, j: nat)
    requires OccursAt(a + x, p, j) && j + |p| <= |a|
    ensures OccursAt(a + y, p, j)
  {
    assert (a + x)[j..j + |p|] == a[j..j + |p|] == (a + y)[j..j + |p|];
  }

  lemma OccursWithin(a: string, q: string, b: string, p: string, j: nat)
    requires OccursAt(a + q + b, p, j) && |a| <= j && j + |p| <= |a| + |q|
    ensures Occurs(q, p)
  {
    var t, k := a + q + b, j - |a|;
    assert q[k..k + |p|] == t[j..j + |p|];
    assert OccursAt(q, p, k);
  }

  /** So an occurrence after a round reaches past the replacement. */
  lemma ReachesPast(a: string, p: string, q: string, b: string, j: nat)
    requires FreeLeft(p, q) && !Occurs(q, p) && OccursAt(a + q + b, p, j)
    requires forall k: nat | OccursAt(a + (p + b), p, k) :: k >= |a|
    ensures j + |p| > |a| + |q|
  {
    if j + |p| <= |a| && j < |a| {
      assert a + q + b == a + (q + b);
      OccursBefore(a, q + b, p + b, p, j);
    } else if j < |a| {
      ReachingHooks(a, q, b, p, j);
    } else if j + |p| <= |a| + |q| {
      OccursWithin(a, q, b, p, j);
    }
  }

  lemma SelfOccurs(p: string)
    ensures Occurs(p, p)
  {
    assert OccursAt(p, p, 0);
  }

  lemma NothingOccurs(q: string)
    ensures Occurs(q, "")
  {
    assert OccursAt(q, "", 0);
  }

  /** And less of the string is behind it than before. */
  lemma RoundAdvances(s: string, p: string, q: string, i: nat)
    requires Find(s, p, 0) == i && FreeLeft(p, q) && !Occurs(q, p)
    ensures Behind(Round(s, p, q), p) < Behind(s, p)
  {
    var a, b := s[..i], s[i + |p|..];
    var j := Find(a + q + b, p, 0);
    assert s == a + (p + b) && Round(s, p, q) == a + q + b;
    NothingOccurs(q);
    if j != -1 {
      forall k: nat | OccursAt(a + (p + b), p, k) ensures k >= i {
        FindIsFirst(s, p, 0, k);
      }
      ReachesPast(a, p, q, b, j);
    }
  }

  // ---------------------------------------------------------------------------
  // Replacements that do not hook to the right
  // ---------------------------------------------------------------------------

  /** The replacement is not shorter, and nothing it ends with is something `p` begins with. */
  predicate FreeRight(p: string, q: string) {
    |p| <= |q| && forall k | 0 < k < |p| :: q[|q| - k..] != p[..k]
  }

  /** An occurrence that starts inside the replacement and reaches out of it to the right hooks to it. */
  lemma LeavingHooks(a: string, q: string, b: string, p: string, j: nat)
    requires |p| <= |q| && OccursAt(a + q + b, p, j) && |a| <= j < |a| + |q| < j + |p|
    ensures !FreeRight(p, q)
  {
    var t, k := a + q + b, |a| + |q| - j;
    assert p[..k] == t[j..j + |p|][..k] == t[j..|a| + |q|] == q[|q| - k..];
  }

  /** So no occurrence starts inside the replacement. */
  lemma NoneStartsInside(a: string, q: string, b: string, p: string, j: nat)
    requires FreeRight(p, q) && !Occurs(q, p) && |a| <= j < |a| + |q|
    ensures !OccursAt(a + q + b, p, j)
  {
    if OccursAt(a + q + b, p, j) {
      if j + |p| <= |a| + |q| {
        OccursWithin(a, q, b, p, j);
      } else {
        LeavingHooks(a, q, b, p, j);
      }
    }
  }

  /**
   `u` characters at the end have not been looked at yet; before them no occurrence starts from `edge` on, and none
   lies wholly before `edge`.
   */
  ghost predicate Swept(s: string, p: string, q: string, u: nat, edge: nat) {
    && u <= |s| && edge <= |s|
    && (edge > 0 ==> edge + |q| <= |s| - u)
    && (forall j: nat | edge <= j < |s| - u :: !OccursAt(s, p, j))
    && (forall j: nat | OccursAt(s, p, j) :: j + |p| > edge)
  }

  /** An occurrence behind the replacement was there before. */
  lemma OccursBehind(a: string, x: string, y: string, b: string, p: string, j: nat)
    requires OccursAt(a + x + b, p, j) && j >= |a| + |x|
    ensures OccursAt(a + y + b, p, j - |x| + |y|)
  {
    var s, t, k := a + x + b, a + y + b, j - |a| - |x|;
    assert s[j..j + |p|] == b[k..k + |p|] == t[|a| + |y| + k..|a| + |y| + k + |p|];
  }

  /** After a round at `i` nothing lies before `i`, and nothing starts in the replacement. */
  lemma SweptBefore(a: string, p: string, q: string, b: string, j: nat)
    requires FreeRight(p, q) && !Occurs(q, p) && p != "" && OccursAt(a + q + b, p, j)
    requires forall k: nat | OccursAt(a + (p + b), p, k) :: k >= |a|
    ensures j + |p| > |a| && (j < |a| || j >= |a| + |q|)
  {
    if |a| <= j < |a| + |q| {
      NoneStartsInside(a, q, b, p, j);
    } else if j + |p| <= |a| {
      assert a + q + b == a + (q + b);
      OccursBefore(a, q + b, p + b, p, j);
    }
  }

  /** A round among the characters not looked at yet leaves fewer of them. */
  lemma SweepForward(a: string, p: string, q: string, b: string)
    requires FreeRight(p, q) && !Occurs(q, p) && p != ""
    requires forall k: nat | OccursAt(a + (p + b), p, k) :: k >= |a|
    ensures Swept(a + q + b, p, q, |b|, |a|)
  {
    forall j: nat | OccursAt(a + q + b, p, j) ensures j + |p| > |a| && (j < |a| || j >= |a| + |q|) {
      SweptBefore(a, p, q, b, j);
    }
  }

  /** A round before them moves the edge back. */
  lemma SweepBack(a: string, p: string, q: string, b: string, u: nat, edge: nat)
    requires FreeRight(p, q) && !Occurs(q, p) && p != ""
    requires forall k: nat | OccursAt(a + (p + b), p, k) :: k >= |a|
    requires Swept(a + p + b, p, q, u, edge) && |a| < edge && OccursAt(a + p + b, p, |a|)
    ensures Swept(a + q + b, p, q, u, |a|)
  {
    assert |a| + |p| > edge;
    forall j: nat | OccursAt(a + q + b, p, j) && j < |a + q + b| - u
      ensures j < |a|
    {
      SweptBefore(a, p, q, b, j);
      if j >= |a| + |q| {
        OccursBehind(a, q, p, b, p, j);
      }
    }
    forall j: nat | OccursAt(a + q + b, p, j) ensures j + |p| > |a| {
      SweptBefore(a, p, q, b, j);
    }
  }

  lemma RoundSweeps(s: string, p: string, q: string, i: nat, u: nat, edge: nat) returns (u': nat, edge': nat)
    requires Find(s, p, 0) == i && FreeRight(p, q) && !Occurs(q, p) && Swept(s, p, q, u, edge)
    ensures Swept(Round(s, p, q), p, q, u', edge')
    ensures u' < u || (u' == u && edge' < edge)
  {
    var a, b := s[..i], s[i + |p|..];
    assert s == a + p + b == a + (p + b) && Round(s, p, q) == a + q + b;
    NothingOccurs(q);
    forall k: nat | OccursAt(a + (p + b), p, k) ensures k >= i {
      FindIsFirst(s, p, 0, k);
    }
    if i >= |s| - u {
      u', edge' := |b|, i;
      SweepForward(a, p, q, b);
    } else {
      u', edge' := u, i;
      SweepBack(a, p, q, b, u, edge);
    }
  }

  // ---------------------------------------------------------------------------
  // When the loop ends
  // ---------------------------------------------------------------------------

  /** The replacement hooks to what it replaces on one side at most. */
  predicate FreeOnASide(p: string, q: string) {
    FreeLeft(p, q) || FreeRight(p, q)
  }

  /**
   What a caller can check of the two strings: some character dwindles, or they differ at the same length, or the
   replacement does not contain what it replaces and is free of it on a side.
   */
  ghost predicate Settles(p: string, q: string) {
    Dwindles(p, q) || (|p| == |q| && p != q) || (FreeOnASide(p, q) && !Occurs(q, p))
  }

  ghost predicate Ends(s: string, p: string, q: string) {
    exists n: nat :: !Occurs(Rounds(s, p, q, n), p)
  }

  lemma {:induction false} RoundsShift(s: string, p: string, q: string, n: nat)
    ensures Rounds(Round(s, p, q), p, q, n) == Rounds(s, p, q, n + 1)
  {
    if n > 0 {
      RoundsShift(s, p, q, n - 1);
    }
  }

  lemma DoneEnds(s: string, p: string, q: string)
    requires Find(s, p, 0) == -1
    ensures Ends(s, p, q)
  {
    FindDecides(s, p);
    assert Rounds(s, p, q, 0) == s;
  }

  lemma RoundEnds(s: string, p: string, q: string)
    requires Ends(Round(s, p, q), p, q)
    ensures Ends(s, p, q)
  {
    var n: nat :| !Occurs(Rounds(Round(s, p, q), p, q, n), p);
    RoundsShift(s, p, q, n);
  }

  lemma {:induction false} DwindlingEnds(s: string, p: string, q: string, c: char)
    requires Count(p, c) > Count(q, c)
    ensures Ends(s, p, q)
    decreases Count(s, c)
  {
    if Find(s, p, 0) == -1 {
      DoneEnds(s, p, q);
    } else {
      RoundDwindles(s, p, q, Find(s, p, 0), c);
      DwindlingEnds(Round(s, p, q), p, q, c);
      RoundEnds(s, p, q);
    }
  }

  lemma {:induction false} MovingEnds(s: string, p: string, q: string)
    requires |p| == |q| && p != q
    ensures Ends(s, p, q)
    decreases Ahead(s, p, q)
  {
    if Find(s, p, 0) == -1 {
      DoneEnds(s, p, q);
    } else {
      RoundMoves(s, p, q, Find(s, p, 0));
      MovingEnds(Round(s, p, q), p, q);
      RoundEnds(s, p, q);
    }
  }

  lemma {:induction false} AdvancingEnds(s: string, p: string, q: string)
    requires FreeLeft(p, q) && !Occurs(q, p)
    ensures Ends(s, p, q)
    decreases Behind(s, p)
  {
    if Find(s, p, 0) == -1 {
      DoneEnds(s, p, q);
    } else {
      RoundAdvances(s, p, q, Find(s, p, 0));
      AdvancingEnds(Round(s, p, q), p, q);
      RoundEnds(s, p, q);
    }
  }

  lemma {:induction false} SweepingEnds(s: string, p: string, q: string, u: nat, edge: nat)
    requires FreeRight(p, q) && !Occurs(q, p) && Swept(s, p, q, u, edge)
    ensures Ends(s, p, q)
    decreases u, edge
  {
    if Find(s, p, 0) == -1 {
      DoneEnds(s, p, q);
    } else {
      var u', edge' := RoundSweeps(s, p, q, Find(s, p, 0), u, edge);
      SweepingEnds(Round(s, p, q), p, q, u', edge');
      RoundEnds(s, p, q);
    }
  }

  /** Strings that settle always end the loop. */
  lemma SettlesEnds(s: string, p: string, q: string)
    requires Settles(p, q)
    ensures Ends(s, p, q)
  {
    if c :| Count(p, c) > Count(q, c) {
      DwindlingEnds(s, p, q, c);
    } else if |p| == |q| && p != q {
      MovingEnds(s, p, q);
    } else if FreeLeft(p, q) {
      AdvancingEnds(s, p, q);
    } else {
      NothingOccurs(q);
      SweepingEnds(s, p, q, |s|, 0);
    }
  }

  lemma LastRound(s: string, p: string, q: string) returns (last: nat)
    requires Occurs(s, p) ==> Settles(p, q)
    ensures !Occurs(Rounds(s, p, q, last), p)
  {
    if Occurs(s, p) {
      SettlesEnds(s, p, q);
      last :| !Occurs(Rounds(s, p, q, last), p);
    } else {
      last := 0;
    }
  }

  class MutableString {
    var chars: string

    constructor (s: string)
      ensures chars == s
    {
      chars := s;
    }

    /** One round of the loop, at the first occurrence. */
    method ReplaceFirst(str1: string, str2: string, found: nat)
      requires Find(chars, str1, 0) == found
      modifies this
      ensures chars == Round(old(chars), str1, str2)
    {
      chars := chars[..found] + str2 + chars[found + |str1|..];
    }

    /** The loop, once it is known to end. */
    method ReplaceAll(str1: string, str2: string, ghost last: nat) returns (ghost rounds: nat)
      requires !Occurs(Rounds(chars, str1, str2, last), str1)
      modifies this
      ensures !Occurs(chars, str1)
      ensures chars == Rounds(old(chars), str1, str2, rounds)
    {
      rounds := 0;
      var found := Find(chars, str1, 0);
      FindDecides(chars, str1);
      while found != -1
        invariant chars == Rounds(old(chars), str1, str2, rounds)
        invariant found == Find(chars, str1, 0) && (found == -1 <==> !Occurs(chars, str1)) && rounds <= last
        decreases last - rounds
      {
        ReplaceFirst(str1, str2, found);
        rounds := rounds + 1;
        found := Find(chars, str1, 0);
        FindDecides(chars, str1);
      }
    }

    /**
     The loop ends whenever `str1` does not occur at all or the strings settle; then no occurrence is left, and the
     result is what that many single rounds give.
     */
    method Replace(str1: string, str2: string) returns (ghost rounds: nat)
      requires Occurs(chars, str1) ==> Settles(str1, str2)
      modifies this
      ensures !Occurs(chars, str1)
      ensures chars == Rounds(old(chars), str1, str2, rounds)
    {
      ghost var last := LastRound(chars, str1, str2);
      rounds := ReplaceAll(str1, str2, last);
    }
  }

  lemma SubMultisetSize(a: multiset<char>, b: multiset<char>)
    requires a <= b
    ensures |a| <= |b|
  {
    assert b == a + (b - a);
  }

  /** Only a replacement at least as long can fail to dwindle. */
  lemma ShorterDwindles(p: string, q: string)
    ensures |q| < |p| ==> Dwindles(p, q)
  {
    if !Dwindles(p, q) {
      assert forall c: char :: multiset(p)[c] == Count(p, c) <= Count(q, c) == multiset(q)[c];
      SubMultisetSize(multiset(p), multiset(q));
    }
  }

  lemma RoundKeeps(s: string, p: string, q: string)
    requires Occurs(q, p) && Occurs(s, p)
    ensures Occurs(Round(s, p, q), p)
  {
    FindDecides(s, p);
    var i, t := Find(s, p, 0), Round(s, p, q);
    var k: nat :| OccursAt(q, p, k);
    OccursInside(s[..i], q, s[i + |p|..], p, k);
  }

  lemma OccursInside(a: string, q: string, b: string, p: string, k: nat)
    requires OccursAt(q, p, k)
    ensures OccursAt(a + q + b, p, |a| + k)
  {
    var t := a + q + b;
    assert t[|a|..|a| + |q|] == q;
    assert t[|a| + k..|a| + k + |p|] == t[|a|..|a| + |q|][k..k + |p|];
  }

  /** If `str1` occurs in `str2`, then once it occurs in the string it does so after every round: the loop never ends. */
  lemma {:induction false} NeverEnds(s: string, p: string, q: string, n: nat)
    requires Occurs(q, p) && Occurs(s, p)
    ensures Occurs(Rounds(s, p, q, n), p)
  {
    if n > 0 {
      NeverEnds(s, p, q, n - 1);
      RoundKeeps(Rounds(s, p, q, n - 1), p, q);
    }
  }

  lemma OccurrenceCounts(p: string, q: string)
    ensures Occurs(q, p) ==> !Dwindles(p, q)
  {
    if i: nat :| OccursAt(q, p, i) {
      assert q == q[..i] + p + q[i + |p|..];
      forall c: char ensures Count(p, c) <= Count(q, c) {
        assert multiset(q) == multiset(q[..i]) + multiset(p) + multiset(q[i + |p|..]);
      }
    }
  }

  /** Such strings settle, or the replacement contains what it replaces. */
  lemma SettlesOrOccurs(p: string, q: string)
    requires |q| <= |p| || FreeOnASide(p, q)
    ensures Settles(p, q) <==> !Occurs(q, p)
  {
    OccurrenceCounts(p, q);
    SelfOccurs(p);
    if |q| < |p| {
      ShorterDwindles(p, q);
    }
  }

  /**
   For a replacement that is no longer than `str1`, or hooks to it on one side at most, the loop ends exactly when
   `str1` does not occur in the string or does not occur in its replacement.
   */
  lemma EndsExactly(s: string, p: string, q: string)
    requires |q| <= |p| || FreeOnASide(p, q)
    ensures Ends(s, p, q) <==> !Occurs(s, p) || !Occurs(q, p)
  {
    SettlesOrOccurs(p, q);
    if !Occurs(s, p) {
      assert Rounds(s, p, q, 0) == s;
    } else if Occurs(q, p) {
      forall n: nat ensures Occurs(Rounds(s, p, q, n), p) {
        NeverEnds(s, p, q, n);
      }
    } else {
      SettlesEnds(s, p, q);
    }
  }
}
