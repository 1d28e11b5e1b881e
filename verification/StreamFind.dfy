/**
 The online multi-pattern matcher of `Stream`. Each target carries only its match position; on a
 mismatch the position walks back by comparing the target with itself.
 */
module StreamFind {
  import opened Bytes
  import opened ByteStreams

  /** Target characters are kept as the integers C++ promotes them to, so either `char` signedness is covered. */
  datatype MultiTarget = MultiTarget(str: seq<int>, index: nat)

  // ---------------------------------------------------------------------------
  // What a search means
  // ---------------------------------------------------------------------------

  /** The first `k` characters of `t` are the last `k` of `s`. */
  predicate IsBorder(t: seq<int>, s: seq<int>, k: nat) {
    k <= |t| && k <= |s| && t[..k] == s[|s| - k..]
  }

  /** `k` is the length of the longest proper prefix of `t` that `s` ends with. */
  ghost predicate IsLongest(t: seq<int>, s: seq<int>, k: nat) {
    k < |t| && IsBorder(t, s, k) && forall j | k < j < |t| :: !IsBorder(t, s, j)
  }

  /** An occurrence of `t` ends right after the first `n` bytes of `s`. */
  predicate EndsAt(t: seq<int>, s: seq<int>, n: nat) {
    |t| <= n <= |s| && s[n - |t|..n] == t
  }

  /** No target ends within the first `n` bytes. */
  ghost predicate NoneBefore(strs: seq<seq<int>>, s: seq<int>, n: nat) {
    forall j, m | 0 <= j < |strs| && 0 <= m < n :: !EndsAt(strs[j], s, m)
  }

  /** Target `k` ends after `n` bytes, no target ends earlier and no lower-numbered one ends there too. */
  ghost predicate FirstFound(strs: seq<seq<int>>, s: seq<int>, k: nat, n: nat) {
    && k < |strs|
    && EndsAt(strs[k], s, n)
    && NoneBefore(strs, s, n)
    && forall j | 0 <= j < k :: !EndsAt(strs[j], s, n)
  }

  /** A search has at most one answer. */
  lemma FirstFoundUnique(strs: seq<seq<int>>, s: seq<int>, k: nat, n: nat, k': nat, n': nat)
    requires FirstFound(strs, s, k, n) && FirstFound(strs, s, k', n')
    ensures k == k' && n == n'
  {
    assert !EndsAt(strs[k], s, n) || !(n < n');
  }

  // ---------------------------------------------------------------------------
  // One byte, one target
  // ---------------------------------------------------------------------------

  /** Two borders of the same input overlap: the shorter is a border of the longer one's prefix. */
  lemma BorderOfBorder(t: seq<int>, s: seq<int>, q: nat, i: nat)
    requires IsBorder(t, s, q) && i <= q
    ensures IsBorder(t, s, i) <==> t[..i] == t[q - i..q]
  {
    var u := s[|s| - q..];
    assert u == t[..q];
    assert s[|s| - i..] == u[q - i..];
    assert t[q - i..q] == u[q - i..];
  }

  /** A non-empty border of the extended input is a border of the input, one shorter, then the new byte. */
  lemma BorderExtends(t: seq<int>, s: seq<int>, c: int, i: nat)
    requires i < |t|
    ensures IsBorder(t, s + [c], i + 1) <==> IsBorder(t, s, i) && t[i] == c
  {
    if i <= |s| {
      var s' := s + [c];
      assert s'[|s'| - (i + 1)..] == s[|s| - i..] + [c];
      assert t[..i + 1] == t[..i] + [t[i]];
      if IsBorder(t, s', i + 1) {
        assert t[..i] == (t[..i + 1])[..i] == (s[|s| - i..] + [c])[..i] == s[|s| - i..];
        assert t[i] == t[..i + 1][i] == (s[|s| - i..] + [c])[i] == c;
      }
    }
  }

  /** A byte that matches moves the position up by one, which stays the longest. */
  lemma MatchKeepsLongest(t: seq<int>, s: seq<int>, q: nat, c: int)
    requires IsLongest(t, s, q) && t[q] == c
    ensures IsBorder(t, s + [c], q + 1)
    ensures forall j | q + 1 < j <= |t| :: !IsBorder(t, s + [c], j)
  {
    BorderExtends(t, s, c, q);
    forall j | q + 1 < j <= |t| ensures !IsBorder(t, s + [c], j) {
      BorderExtends(t, s, c, j - 1);
    }
  }

  /** On a mismatch position `i` can be extended exactly when the target agrees with itself shifted by `q - i`. */
  predicate Candidate(t: seq<int>, q: nat, c: int, i: nat)
    requires i <= q < |t|
  {
    t[i] == c && t[..i] == t[q - i..q]
  }

  /** The longest candidate below a mismatch gives the longest border of the extended input. */
  lemma MismatchKeepsLongest(t: seq<int>, s: seq<int>, q: nat, c: int, r: nat)
    requires IsLongest(t, s, q) && t[q] != c
    requires r <= q
    requires r > 0 ==> Candidate(t, q, c, r - 1)
    requires forall i | r <= i < q :: !Candidate(t, q, c, i)
    ensures IsLongest(t, s + [c], r)
    ensures !IsBorder(t, s + [c], |t|)
  {
    if r > 0 {
      BorderOfBorder(t, s, q, r - 1);
      BorderExtends(t, s, c, r - 1);
    }
    forall j | r < j <= |t| ensures !IsBorder(t, s + [c], j) {
      BorderExtends(t, s, c, j - 1);
      if j - 1 < q {
        assert !Candidate(t, q, c, j - 1);
        BorderOfBorder(t, s, q, j - 1);
      }
    }
  }

  /** The inner loop of the walk back: do the first `index` characters agree with those `diff` further on? */
  method Agrees(str: seq<int>, index: nat, diff: nat) returns (same: bool)
    requires index + diff <= |str|
    ensures same <==> str[..index] == str[diff..diff + index]
  {
    var i := 0;
    while i < index && str[i] == str[i + diff]
      invariant i <= index
      invariant forall k | 0 <= k < i :: str[k] == str[k + diff]
    {
      i := i + 1;
    }
    assert i < index ==> str[..index][i] != str[diff..diff + index][i];
    return i == index;
  }

  /** The walk back after a mismatch at `orig`: one past the longest candidate, or 0. */
  method WalkBack(str: seq<int>, orig: nat, c: int) returns (index: nat)
    requires orig < |str|
    ensures index <= orig
    ensures index > 0 ==> Candidate(str, orig, c, index - 1)
    ensures forall i | index <= i < orig :: !Candidate(str, orig, c, i)
  {
    index := orig;
    while index > 0
      invariant index <= orig
      invariant forall i | index <= i < orig :: !Candidate(str, orig, c, i)
    {
      index := index - 1;
      if c != str[index] {
        continue;
      }
      var same := Agrees(str, index, orig - index);
      if same {
        return index + 1;
      }
    }
  }

  /**
   Feeds byte `c` to one target. `seen` is the input before `c`; the caller stops as soon as a target is
   complete, so until then the position is the longest proper prefix the input ends with.
   */
  method Advance(t: MultiTarget, c: int, ghost seen: seq<int>) returns (t': MultiTarget)
    requires IsLongest(t.str, seen, t.index)
    ensures t'.str == t.str && t'.index <= |t.str|
    ensures t'.index == |t.str| <==> IsBorder(t.str, seen + [c], |t.str|)
    ensures t'.index < |t.str| ==> IsLongest(t.str, seen + [c], t'.index)
  {
    if c == t.str[t.index] {
      MatchKeepsLongest(t.str, seen, t.index, c);
      return t.(index := t.index + 1);
    }
    var index := WalkBack(t.str, t.index, c);
    MismatchKeepsLongest(t.str, seen, t.index, c, index);
    return t.(index := index);
  }

  // ---------------------------------------------------------------------------
  // The search
  // ---------------------------------------------------------------------------

  /** The array holds the targets `strs`, whatever their positions. */
  predicate Holds(ts: seq<MultiTarget>, strs: seq<seq<int>>) {
    |ts| == |strs| && forall j | 0 <= j < |ts| :: ts[j].str == strs[j]
  }

  /** Every position in `ts` is the longest proper prefix of its target that `seen` ends with. */
  ghost predicate Tracks(ts: seq<MultiTarget>, seen: seq<int>) {
    forall j | 0 <= j < |ts| :: IsLongest(ts[j].str, seen, ts[j].index)
  }

  /** None of the targets is complete at the end of `seen`. */
  ghost predicate NoneComplete(strs: seq<seq<int>>, seen: seq<int>) {
    forall j | 0 <= j < |strs| :: !IsBorder(strs[j], seen, |strs[j]|)
  }

  /** Feeds one byte to the targets in order, stopping at the first that is complete; -1 if none is. */
  method Feed(targets: array<MultiTarget>, c: int, ghost strs: seq<seq<int>>, ghost seen: seq<int>) returns (k: int)
    requires Holds(targets[..], strs) && Tracks(targets[..], seen)
    modifies targets
    ensures Holds(targets[..], strs)
    ensures -1 <= k < targets.Length
    ensures k == -1 ==> Tracks(targets[..], seen + [c]) && NoneComplete(strs, seen + [c])
    ensures k >= 0 ==>
      && targets[k].index == |strs[k]|
      && IsBorder(strs[k], seen + [c], |strs[k]|)
      && NoneComplete(strs[..k], seen + [c])
      && Tracks(targets[..k], seen + [c])
      && Tracks(targets[k + 1..], seen)
  {
    for j := 0 to targets.Length
      invariant Holds(targets[..], strs)
      invariant forall i | 0 <= i < j :: IsLongest(targets[i].str, seen + [c], targets[i].index)
      invariant NoneComplete(strs[..j], seen + [c])
      invariant forall i | j <= i < targets.Length :: targets[i] == old(targets[i])
    {
      assert targets[j] == old(targets[..])[j];
      targets[j] := Advance(targets[j], c, seen);
      if targets[j].index == |targets[j].str| {
        return j;
      }
    }
    assert strs[..targets.Length] == strs;
    return -1;
  }

  lemma EndsAtIsBorder(t: seq<int>, s: seq<int>, n: nat)
    requires n <= |s|
    ensures EndsAt(t, s, n) <==> IsBorder(t, s[..n], |t|)
  {
    if |t| <= n {
      assert s[..n][n - |t|..] == s[n - |t|..n];
    }
  }

  lemma NoneCompleteExtends(strs: seq<seq<int>>, s: seq<int>, n: nat)
    requires n <= |s| && NoneBefore(strs, s, n) && NoneComplete(strs, s[..n])
    ensures NoneBefore(strs, s, n + 1)
  {
    forall j | 0 <= j < |strs| ensures !EndsAt(strs[j], s, n) {
      EndsAtIsBorder(strs[j], s, n);
    }
  }

  lemma CompleteIsFirst(strs: seq<seq<int>>, s: seq<int>, k: nat, n: nat)
    requires k < |strs| && n <= |s| && NoneBefore(strs, s, n)
    requires NoneComplete(strs[..k], s[..n]) && IsBorder(strs[k], s[..n], |strs[k]|)
    ensures FirstFound(strs, s, k, n)
  {
    EndsAtIsBorder(strs[k], s, n);
    forall j | 0 <= j < k ensures !EndsAt(strs[j], s, n) {
      assert strs[..k][j] == strs[j];
      EndsAtIsBorder(strs[j], s, n);
    }
  }

  /**
   What a search over `s` leaves behind: the answer `k`, the bytes not consumed, and every target's position,
   which is the longest proper prefix the consumed bytes end with (before their last byte for targets after `k`).
   */
  ghost predicate Searched(ts: seq<MultiTarget>, strs: seq<seq<int>>, s: seq<int>, k: int, n: nat) {
    && Holds(ts, strs) && -1 <= k < |ts| && n <= |s|
    && (k == -1 ==> n == |s| && NoneBefore(strs, s, n + 1) && Tracks(ts, s))
    && (k >= 0 ==>
          && n > 0
          && FirstFound(strs, s, k, n)
          && Tracks(ts[..k], s[..n])
          && ts[k].index == |strs[k]|
          && Tracks(ts[k + 1..], s[..n - 1]))
  }

  /** The byte loop of `findMulti`, entered with non-empty targets. */
  method Search(stream: ByteStream, targets: array<MultiTarget>, ghost strs: seq<seq<int>>)
    returns (k: int, ghost n: nat)
    requires Holds(targets[..], strs)
    requires forall j | 0 <= j < targets.Length :: targets[j].str != [] && targets[j].index == 0
    modifies stream, targets
    ensures Searched(targets[..], strs, old(stream.rest), k, n)
    ensures stream.rest == old(stream.rest)[n..]
  {
    ghost var s := stream.rest;
    n := 0;
    while true
      invariant n <= |s| && stream.rest == s[n..]
      invariant Holds(targets[..], strs)
      invariant Tracks(targets[..], s[..n])
      invariant NoneBefore(strs, s, n + 1)
      decreases |s| - n
    {
      var c := stream.Read();
      if c < 0 {
        assert s[..n] == s;
        return -1, n;
      }
      assert s[..n + 1] == s[..n] + [c];
      k := Feed(targets, c, strs, s[..n]);
      n := n + 1;
      if k >= 0 {
        CompleteIsFirst(strs, s, k, n);
        return;
      }
      NoneCompleteExtends(strs, s, n);
    }
  }

  /**
   `findMulti`: consumes bytes until the first target is complete and returns its number, or -1 at the timeout.
   An empty target is complete before any byte is read. `n` is the number of bytes consumed.
   */
  method FindMulti(stream: ByteStream, targets: array<MultiTarget>, ghost strs: seq<seq<int>>)
    returns (k: int, ghost n: nat)
    requires Holds(targets[..], strs)
    requires forall j | 0 <= j < targets.Length :: targets[j].index == 0
    modifies stream, targets
    ensures Holds(targets[..], strs) && -1 <= k < |strs|
    ensures n <= |old(stream.rest)| && stream.rest == old(stream.rest)[n..]
    ensures k >= 0 ==> FirstFound(strs, old(stream.rest), k, n)
    ensures k == -1 ==> n == |old(stream.rest)| && NoneBefore(strs, old(stream.rest), n + 1)
    ensures [] !in strs ==> Searched(targets[..], strs, old(stream.rest), k, n)
  {
    for j := 0 to targets.Length
      invariant forall i | 0 <= i < j :: targets[i].str != []
    {
      if |targets[j].str| == 0 {
        assert strs[j] == [];
        assert EndsAt(strs[j], stream.rest, 0);
        return j, 0;
      }
    }
    k, n := Search(stream, targets, strs);
  }

  /** `findUntil`: true exactly when the target is complete no later than the terminator. */
  method FindUntil(stream: ByteStream, target: seq<int>, terminator: Option<seq<int>>)
    returns (found: bool, ghost n: nat)
    modifies stream
    ensures n <= |old(stream.rest)| && stream.rest == old(stream.rest)[n..]
    ensures forall m | 0 <= m < n :: !EndsAt(target, old(stream.rest), m)
    ensures terminator.Some? ==> forall m | 0 <= m < n :: !EndsAt(terminator.value, old(stream.rest), m)
    ensures found <==> EndsAt(target, old(stream.rest), n)
    ensures !found && stream.rest != [] ==> terminator.Some? && EndsAt(terminator.value, old(stream.rest), n)
  {
    ghost var strs := if terminator.None? then [target] else [target, terminator.value];
    var targets: array<MultiTarget>;
    if terminator.None? {
      targets := new MultiTarget[] [MultiTarget(target, 0)];
    } else {
      targets := new MultiTarget[] [MultiTarget(target, 0), MultiTarget(terminator.value, 0)];
    }
    assert strs[0] == target && (terminator.Some? ==> strs[1] == terminator.value);
    var k;
    k, n := FindMulti(stream, targets, strs);
    return k == 0, n;
  }
}
