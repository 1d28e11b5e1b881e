/** Splitting at a delimiter and joining back. */
module Tokens {

  /** The first position of `d`, or the length of `s` if it does not occur. */
  function First<T(==)>(s: seq<T>, d: T): (k: nat)
    ensures k <= |s|
    ensures k < |s| ==> s[k] == d
    ensures forall i | 0 <= i < k :: s[i] != d
  {
    if s == [] || s[0] == d then 0 else 1 + First(s[1..], d)
  }

  function Join<T>(tokens: seq<seq<T>>, d: T): seq<T>
    requires tokens != []
  {
    if |tokens| == 1 then tokens[0] else tokens[0] + [d] + Join(tokens[1..], d)
  }

  /** The maximal pieces of `s` between delimiters. */
  function SplitAt<T(==)>(s: seq<T>, d: T): (tokens: seq<seq<T>>)
    ensures tokens != []
    decreases |s|
  {
    var k := First(s, d);
    if k == |s| then [s] else [s[..k]] + SplitAt(s[k + 1..], d)
  }

  ghost predicate Free<T>(tokens: seq<seq<T>>, d: T) {
    forall i | 0 <= i < |tokens| :: d !in tokens[i]
  }

  lemma JoinMore<T>(t: seq<T>, rest: seq<seq<T>>, d: T)
    requires rest != []
    ensures Join([t] + rest, d) == t + [d] + Join(rest, d)
  {
    assert ([t] + rest)[1..] == rest;
  }

  lemma SplitUnfolds<T>(s: seq<T>, d: T) returns (t: seq<T>, u: seq<T>)
    requires First(s, d) < |s|
    ensures s == t + [d] + u && d !in t && |u| < |s|
    ensures SplitAt(s, d) == [t] + SplitAt(u, d)
  {
    var k := First(s, d);
    t, u := s[..k], s[k + 1..];
  }

  lemma FreeMore<T>(t: seq<T>, rest: seq<seq<T>>, d: T)
    requires d !in t && Free(rest, d)
    ensures Free([t] + rest, d)
  {
  }

  /** Joining what was split gives back the text, and no token contains the delimiter. */
  lemma {:induction false} JoinInvertsSplit<T>(s: seq<T>, d: T)
    ensures Join(SplitAt(s, d), d) == s && Free(SplitAt(s, d), d)
    decreases |s|
  {
    if First(s, d) < |s| {
      var t, u := SplitUnfolds(s, d);
      JoinInvertsSplit(u, d);
      JoinMore(t, SplitAt(u, d), d);
      FreeMore(t, SplitAt(u, d), d);
    }
  }

  lemma FirstIs<T>(t: seq<T>, d: T, rest: seq<T>)
    requires d !in t
    ensures First(t, d) == |t|
    ensures First(t + [d] + rest, d) == |t|
  {
    var s := t + [d] + rest;
    assert s[|t|] == d;
    assert forall i | 0 <= i < |t| :: s[i] == t[i];
  }

  /** Splitting what was joined gives back the tokens. */
  lemma {:induction false} SplitInvertsJoin<T>(tokens: seq<seq<T>>, d: T)
    requires tokens != [] && Free(tokens, d)
    ensures SplitAt(Join(tokens, d), d) == tokens
    decreases |tokens|
  {
    if |tokens| == 1 {
      FirstIs(tokens[0], d, []);
    } else {
      SplitInvertsJoin(tokens[1..], d);
      SplitMore(tokens[0], d, Join(tokens[1..], d));
      assert tokens == [tokens[0]] + tokens[1..];
    }
  }

  lemma SplitMore<T>(t: seq<T>, d: T, rest: seq<T>)
    requires d !in t
    ensures SplitAt(t + [d] + rest, d) == [t] + SplitAt(rest, d)
  {
    var s := t + [d] + rest;
    FirstIs(t, d, rest);
    assert s[..|t|] == t && s[|t| + 1..] == rest;
  }

  /** The tokens kept: all of them, or only the non-empty ones. */
  function Kept<T>(tokens: seq<seq<T>>, skipEmpty: bool): seq<seq<T>> {
    if tokens == [] then []
    else (if skipEmpty && |tokens[0]| == 0 then [] else [tokens[0]]) + Kept(tokens[1..], skipEmpty)
  }

  lemma KeptMore<T>(t: seq<T>, rest: seq<seq<T>>, skipEmpty: bool)
    ensures Kept([t] + rest, skipEmpty) == (if skipEmpty && |t| == 0 then [] else [t]) + Kept(rest, skipEmpty)
  {
    assert ([t] + rest)[1..] == rest;
  }

  lemma {:induction false} KeptAll<T>(a: seq<seq<T>>)
    ensures Kept(a, false) == a
  {
    if a != [] {
      KeptAll(a[1..]);
    }
  }

  /** Skipping leaves out the empty tokens and nothing else. */
  lemma {:induction false} KeptNonEmpty<T>(a: seq<seq<T>>, t: seq<T>)
    ensures multiset(Kept(a, true))[t] == if t == [] then 0 else multiset(a)[t]
  {
    if a != [] {
      KeptNonEmpty(a[1..], t);
      assert a == [a[0]] + a[1..];
    }
  }

  /** In order: keeping goes piece by piece. */
  lemma {:induction false} KeptAppend<T>(a: seq<seq<T>>, b: seq<seq<T>>, skipEmpty: bool)
    ensures Kept(a + b, skipEmpty) == Kept(a, skipEmpty) + Kept(b, skipEmpty)
  {
    if a == [] {
      assert a + b == b;
    } else {
      assert (a + b)[1..] == a[1..] + b;
      KeptAppend(a[1..], b, skipEmpty);
    }
  }

  /** `end` is where the token that begins at `start` ends, or -1 if it is the last one. */
  ghost predicate Pending<T>(s: seq<T>, d: T, start: nat, end: int)
    requires start <= |s| && -1 <= end < |s| && (end != -1 ==> start <= end)
  {
    SplitAt(s[start..], d) == if end == -1 then [s[start..]] else [s[start..end]] + SplitAt(s[end + 1..], d)
  }

  lemma PendingFound<T>(s: seq<T>, d: T, start: nat, end: nat)
    requires start <= end < |s| && s[end] == d && d !in s[start..end]
    ensures Pending(s, d, start, end)
  {
    assert s[start..] == s[start..end] + [d] + s[end + 1..];
    SplitMore(s[start..end], d, s[end + 1..]);
  }

  lemma PendingLast<T>(s: seq<T>, d: T, start: nat)
    requires start <= |s| && d !in s[start..]
    ensures Pending(s, d, start, -1)
  {
    FirstIs(s[start..], d, []);
  }

  /** `find(d, start)`, with -1 for `npos`. */
  method Find<T(==)>(s: seq<T>, d: T, start: nat) returns (end: int)
    requires start <= |s|
    ensures -1 <= end < |s| && (end != -1 ==> start <= end)
    ensures end != -1 ==> s[end] == d && d !in s[start..end]
    ensures end == -1 ==> d !in s[start..]
  {
    end := start;
    while end < |s|
      invariant start <= end <= |s|
      invariant forall i | start <= i < end :: s[i] != d
    {
      if s[end] == d {
        return;
      }
      end := end + 1;
    }
    return -1;
  }

  /** `find` again, and what it says about the tokens still to come. */
  method FindNext<T(==)>(s: seq<T>, d: T, start: nat) returns (end: int)
    requires start <= |s|
    ensures -1 <= end < |s| && (end != -1 ==> start <= end)
    ensures Pending(s, d, start, end)
  {
    end := Find(s, d, start);
    if end == -1 {
      PendingLast(s, d, start);
    } else {
      PendingFound(s, d, start, end);
    }
  }

  /** The push of one token, unless it is empty and unwanted. */
  method Keep<T>(tokens: seq<seq<T>>, token: seq<T>, skipEmpty: bool, ghost rest: seq<seq<T>>)
    returns (tokens': seq<seq<T>>)
    ensures tokens' + Kept(rest, skipEmpty) == tokens + Kept([token] + rest, skipEmpty)
  {
    KeptMore(token, rest, skipEmpty);
    tokens' := if !skipEmpty || |token| != 0 then tokens + [token] else tokens;
  }

  /** `Converter::Private::split`. */
  method Split<T(==)>(str: seq<T>, delimiter: T, skipEmpty: bool) returns (tokens: seq<seq<T>>)
    ensures tokens == Kept(SplitAt(str, delimiter), skipEmpty)
  {
    tokens := [];
    var start := 0;
    assert str[0..] == str;
    var end := FindNext(str, delimiter, start);
    while end != -1
      invariant -1 <= end < |str| && 0 <= start <= |str| && (end != -1 ==> start <= end)
      invariant Pending(str, delimiter, start, end)
      invariant tokens + Kept(SplitAt(str[start..], delimiter), skipEmpty) == Kept(SplitAt(str, delimiter), skipEmpty)
      decreases |str| - start
    {
      tokens := Keep(tokens, str[start..end], skipEmpty, SplitAt(str[end + 1..], delimiter));
      start := end + 1;
      end := FindNext(str, delimiter, start);
    }
    assert [str[start..]] + [] == [str[start..]];
    tokens := Keep(tokens, str[start..], skipEmpty, []);
    assert tokens + [] == tokens;
  }

  /** With empty tokens kept, which is the default, the result joins back to the text. */
  lemma SplitKeepsAll<T>(s: seq<T>, d: T)
    ensures Kept(SplitAt(s, d), false) == SplitAt(s, d)
    ensures Join(Kept(SplitAt(s, d), false), d) == s
    ensures Free(Kept(SplitAt(s, d), false), d)
  {
    KeptAll(SplitAt(s, d));
    JoinInvertsSplit(s, d);
  }
}

/** How a converter is named and configured: `name:param:key=value:...`. */
module ConverterParameters {
  import opened Tokens

  predicate IsSetting(t: string) {
    '=' in t
  }

  function KeyOf(t: string): string
    requires IsSetting(t)
  {
    t[..First(t, '=')]
  }

  function ValueOf(t: string): string
    requires IsSetting(t)
  {
    t[First(t, '=') + 1..]
  }

  /** The tokens without '=', in order. */
  function Positional(ts: seq<string>): seq<string> {
    if ts == [] then []
    else Positional(ts[..|ts| - 1]) + if IsSetting(ts[|ts| - 1]) then [] else [ts[|ts| - 1]]
  }

  /** Each key with its last value, cut at the first '='. */
  function Settings(ts: seq<string>): map<string, string> {
    if ts == [] then map[]
    else
      var m, t := Settings(ts[..|ts| - 1]), ts[|ts| - 1];
      if IsSetting(t) then m[KeyOf(t) := ValueOf(t)] else m
  }

  predicate HasKey(t: string, k: string) {
    IsSetting(t) && KeyOf(t) == k
  }

  /** A key holds the value of the last token that has it. */
  lemma {:induction false} SettingIsLast(ts: seq<string>, k: string, i: nat)
    requires i < |ts| && HasKey(ts[i], k) && forall j | i < j < |ts| :: !HasKey(ts[j], k)
    ensures k in Settings(ts) && Settings(ts)[k] == ValueOf(ts[i])
  {
    var n := |ts| - 1;
    if i < n {
      assert forall j | 0 <= j < n :: ts[..n][j] == ts[j];
      SettingIsLast(ts[..n], k, i);
    }
  }

  /** A key that no token has is not in the map. */
  lemma {:induction false} NoSetting(ts: seq<string>, k: string)
    requires forall j | 0 <= j < |ts| :: !HasKey(ts[j], k)
    ensures k !in Settings(ts)
  {
    if ts != [] {
      var n := |ts| - 1;
      assert forall j | 0 <= j < n :: ts[..n][j] == ts[j];
      NoSetting(ts[..n], k);
    }
  }

  class Parameters {
    var parameters: seq<string>

    constructor (parameters: seq<string>)
      ensures this.parameters == parameters
    {
      this.parameters := parameters;
    }

    /** `parseParameters`: moves the settings out of the list into a map. */
    method Parse() returns (result: map<string, string>)
      modifies this
      ensures parameters == Positional(old(parameters))
      ensures result == Settings(old(parameters))
    {
      ghost var done: seq<string>, kept: seq<string>, rest := [], [], parameters;
      result := map[];
      var it := 0;
      while it < |parameters|
        invariant done + rest == old(parameters)
        invariant kept == Positional(done) && parameters == kept + rest && it == |kept|
        invariant result == Settings(done)
        decreases |rest|
      {
        var t := parameters[it];
        assert rest == [t] + rest[1..];
        assert done + rest == done + [t] + rest[1..];
        ParseMore(done, t);
        done, rest := done + [t], rest[1..];
        if IsSetting(t) {
          result := result[KeyOf(t) := ValueOf(t)];
          assert parameters[..it] == kept && parameters[it + 1..] == rest;
          parameters := parameters[..it] + parameters[it + 1..];
        } else {
          kept := kept + [t];
          it := it + 1;
        }
      }
      assert done == old(parameters);
    }
  }

  // ---------------------------------------------------------------------------
  // Round trips
  // ---------------------------------------------------------------------------

  function Rendered(k: string, v: string): string {
    k + "=" + v
  }

  function RenderAll(keys: seq<string>, m: map<string, string>): (ts: seq<string>)
    requires forall k | k in keys :: k in m
    ensures |ts| == |keys|
    ensures forall i | 0 <= i < |keys| :: ts[i] == Rendered(keys[i], m[keys[i]])
  {
    if keys == [] then []
    else RenderAll(keys[..|keys| - 1], m) + [Rendered(keys[|keys| - 1], m[keys[|keys| - 1]])]
  }

  lemma RenderedReads(k: string, v: string)
    requires '=' !in k
    ensures IsSetting(Rendered(k, v)) && KeyOf(Rendered(k, v)) == k && ValueOf(Rendered(k, v)) == v
  {
    var t := Rendered(k, v);
    FirstIs(k, '=', v);
    assert t[|k|] == '=' && t[..|k|] == k && t[|k| + 1..] == v;
  }

  lemma ParseMore(ts: seq<string>, t: string)
    ensures Positional(ts + [t]) == Positional(ts) + (if IsSetting(t) then [] else [t])
    ensures Settings(ts + [t]) == if IsSetting(t) then Settings(ts)[KeyOf(t) := ValueOf(t)] else Settings(ts)
  {
    assert (ts + [t])[..|ts|] == ts;
  }

  lemma {:induction false} PlainTokens(ps: seq<string>)
    requires forall p | p in ps :: '=' !in p
    ensures Positional(ps) == ps && Settings(ps) == map[]
  {
    if ps != [] {
      var init, p := ps[..|ps| - 1], ps[|ps| - 1];
      assert p in ps && ps == init + [p];
      PlainTokens(init);
    }
  }

  lemma {:induction false} AppendSettings(ps: seq<string>, keys: seq<string>, m: map<string, string>)
    requires forall p | p in ps :: '=' !in p
    requires forall k | k in keys :: k in m && '=' !in k
    ensures Positional(ps + RenderAll(keys, m)) == ps
    ensures Settings(ps + RenderAll(keys, m)) == map k | k in keys :: m[k]
    decreases |keys|
  {
    if keys == [] {
      assert ps + RenderAll(keys, m) == ps;
      PlainTokens(ps);
    } else {
      var init, k := keys[..|keys| - 1], keys[|keys| - 1];
      assert k in keys && keys == init + [k];
      AppendSettings(ps, init, m);
      RenderedReads(k, m[k]);
      assert ps + RenderAll(keys, m) == ps + RenderAll(init, m) + [Rendered(k, m[k])];
      ParseMore(ps + RenderAll(init, m), Rendered(k, m[k]));
      MapMore(init, k, m);
    }
  }

  lemma MapMore(init: seq<string>, k: string, m: map<string, string>)
    requires k in m && forall x | x in init :: x in m
    ensures (map x | x in init :: m[x])[k := m[k]] == map x | x in init + [k] :: m[x]
  {
  }

  /** Rendering a map as key=value tokens, after any other tokens, and parsing returns the map and those tokens. */
  lemma ParseInvertsRender(ps: seq<string>, keys: seq<string>, m: map<string, string>)
    requires forall p | p in ps :: '=' !in p
    requires (set k | k in keys) == m.Keys && forall k | k in keys :: '=' !in k
    ensures forall k | k in keys :: k in m
    ensures Positional(ps + RenderAll(keys, m)) == ps
    ensures Settings(ps + RenderAll(keys, m)) == m
  {
    assert forall k | k in keys :: k in (set x | x in keys);
    AppendSettings(ps, keys, m);
  }

  /** The cut `Converter::factory` makes: parameters in the device name win over those passed beside it. */
  function Cut(deviceName: string, parameters: string): (string, string) {
    var k := First(deviceName, ':');
    if k < |deviceName| then (deviceName[..k], deviceName[k + 1..]) else (deviceName, parameters)
  }

  /** From a device string back to its name, its plain parameters and its settings. */
  lemma DeviceStringRoundTrip(name: string, ps: seq<string>, keys: seq<string>, m: map<string, string>, other: string)
    requires ':' !in name
    requires forall p | p in ps :: '=' !in p && ':' !in p
    requires (set k | k in keys) == m.Keys && forall k | k in keys :: '=' !in k
    requires forall k | k in keys :: k in m && ':' !in k && ':' !in m[k]
    requires ps != [] || keys != []
    ensures var cut := Cut(name + ":" + Join(ps + RenderAll(keys, m), ':'), other);
      && cut.0 == name
      && Positional(SplitAt(cut.1, ':')) == ps
      && Settings(SplitAt(cut.1, ':')) == m
    ensures Cut(name, other) == (name, other)
  {
    var ts := ps + RenderAll(keys, m);
    var s := name + ":" + Join(ts, ':');
    FirstIs(name, ':', Join(ts, ':'));
    assert s[..|name|] == name && s[|name| + 1..] == Join(ts, ':');
    forall i | 0 <= i < |ts| ensures ':' !in ts[i] {
      if i < |ps| {
        assert ts[i] in ps;
      } else {
        assert keys[i - |ps|] in keys;
      }
    }
    SplitInvertsJoin(ts, ':');
    ParseInvertsRender(ps, keys, m);
  }
}
