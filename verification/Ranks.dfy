/** Sums over the threads of a step system, for bounding how long its schedules can go on. */
module Ranks {

  /** The sum of the ranks of all threads. */
  ghost function Total(m: map<nat, nat>): nat
    decreases |m|
  {
    if m == map[] then 0 else
      var t :| t in m;
      m[t] + Total(m - {t})
  }

  lemma {:induction false} TotalSplit(m: map<nat, nat>, t: nat)
    requires t in m
    ensures Total(m) == m[t] + Total(m - {t})
    decreases |m|
  {
    var x :| x in m && Total(m) == m[x] + Total(m - {x});
    if x != t {
      TotalSplit(m - {x}, t);
      TotalSplit(m - {t}, x);
      assert m - {x} - {t} == m - {t} - {x};
    }
  }

  /** Moving one thread changes the sum by what its own rank changes. */
  lemma TotalMoves(m: map<nat, nat>, t: nat, r: nat)
    requires t in m
    ensures Total(m[t := r]) + m[t] == Total(m) + r
  {
    TotalSplit(m, t);
    TotalSplit(m[t := r], t);
    assert m[t := r] - {t} == m - {t};
  }

  lemma OneFewer(m: map<nat, nat>, t: nat)
    requires t in m
    ensures |m - {t}| == |m| - 1
  {
    assert (m - {t}).Keys == m.Keys - {t};
  }

  /** Raising every rank by at most two raises the sum by at most two for each thread. */
  lemma {:induction false} TotalRises(m: map<nat, nat>, m': map<nat, nat>)
    requires m.Keys == m'.Keys && forall t | t in m :: m'[t] <= m[t] + 2
    ensures Total(m') <= Total(m) + 2 * |m|
    decreases |m|
  {
    if m == map[] {
      assert m' == map[];
    } else {
      var t :| t in m;
      TotalSplit(m, t);
      TotalSplit(m', t);
      OneFewer(m, t);
      TotalRises(m - {t}, m' - {t});
    }
  }
}
