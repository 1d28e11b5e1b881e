/**
 `TSQueue` as a step system: any number of threads calling push, pop and clear, one mutex, and one condition
 variable with spurious wake-ups. A woken consumer has to win the mutex again and may find the queue taken
 by another consumer that never slept.
 */
module TSQueue {
  import opened Bytes
  import opened Ranks

  type Tid = nat

  /** Where a thread stands. `notified` is true from a `notify_one` until the consumer has acted on it. */
  datatype PC<T> =
    | Idle
    | PushEnter(item: T)
    | PushHeld(item: T)
    | PushQueued(item: T)
    | PushDone(item: T)
    | PopEnter
    | PopTest(notified: bool)
    | Asleep
    | Awake(notified: bool)
    | PopReady(notified: bool)
    | PopDone(item: T)
    | ClearEnter
    | ClearHeld
    | ClearDone

  datatype Removal<T> = Popped(consumer: Tid, item: T) | Cleared(item: T)

  /** What a call has done by the time it returns. */
  datatype Event<T> = DidPush(t: Tid, item: T) | DidPop(t: Tid, item: T) | DidClear(t: Tid)

  /** `pushed`, `removed` and `returned` only record history: what went in, what came out, which calls returned. */
  datatype State<T> = State(
    queue: seq<T>, holder: Option<Tid>, pcs: map<Tid, PC<T>>,
    pushed: seq<T>, removed: seq<Removal<T>>, returned: seq<Event<T>>)

  datatype Step<T> =
    | CallPush(t: Tid, item: T)
    | CallPop(t: Tid)
    | CallClear(t: Tid)
    | Lock(t: Tid)
    | Enqueue(t: Tid)
    | NotifyOne(t: Tid, who: Option<Tid>)
    | Test(t: Tid)
    | Wake(t: Tid)
    | Take(t: Tid)
    | Drop(t: Tid)
    | Unlock(t: Tid)

  // ---------------------------------------------------------------------------
  // Steps
  // ---------------------------------------------------------------------------

  predicate Enabled<T(==)>(s: State<T>, step: Step<T>) {
    step.t in s.pcs &&
    var pc := s.pcs[step.t];
    match step
    case CallPush(_, _) => pc.Idle?
    case CallPop(_) => pc.Idle?
    case CallClear(_) => pc.Idle?
    case Lock(_) => s.holder.None? && (pc.PushEnter? || pc.PopEnter? || pc.Awake? || pc.ClearEnter?)
    case Enqueue(_) => pc.PushHeld?
    case NotifyOne(_, who) =>
      pc.PushQueued? && if who.Some? then who.value in Sleepers(s) else Sleepers(s) == {}
    case Test(_) => pc.PopTest?
    case Wake(_) => pc.Asleep?
    case Take(_) => pc.PopReady?
    case Drop(_) => pc.ClearHeld?
    case Unlock(_) => pc.PushDone? || pc.PopDone? || pc.ClearDone?
  }

  function Move<T>(s: State<T>, t: Tid, pc: PC<T>): State<T> {
    s.(pcs := s.pcs[t := pc])
  }

  /** `front()` on an empty queue is undefined; that no run gets there is part of the invariant. */
  function Apply<T(==)>(s: State<T>, step: Step<T>): State<T>
    requires Enabled(s, step) && (step.Take? ==> s.queue != [])
  {
    var t := step.t;
    match step
    case CallPush(_, item) => Move(s, t, PushEnter(item))
    case CallPop(_) => Move(s, t, PopEnter)
    case CallClear(_) => Move(s, t, ClearEnter)
    case Lock(_) =>
      Move(s.(holder := Some(t)), t,
        match s.pcs[t]
        case PushEnter(item) => PushHeld(item)
        case Awake(notified) => PopTest(notified)
        case ClearEnter => ClearHeld
        case _ => PopTest(false))
    case Enqueue(_) =>
      var item := s.pcs[t].item;
      Move(s.(queue := s.queue + [item], pushed := s.pushed + [item]), t, PushQueued(item))
    case NotifyOne(_, who) =>
      var s' := Move(s, t, PushDone(s.pcs[t].item));
      if who.Some? then Move(s', who.value, Awake(true)) else s'
    case Test(_) =>
      if s.queue == [] then Move(s.(holder := None), t, Asleep) else Move(s, t, PopReady(s.pcs[t].notified))
    case Wake(_) => Move(s, t, Awake(false))
    case Take(_) =>
      Move(s.(queue := s.queue[1..], removed := s.removed + [Popped(t, s.queue[0])]), t, PopDone(s.queue[0]))
    case Drop(_) =>
      Move(s.(queue := [], removed := s.removed + AllCleared(s.queue)), t, ClearDone)
    case Unlock(_) => Move(s.(holder := None, returned := s.returned + [EventOf(t, s.pcs[t])]), t, Idle)
  }

  function EventOf<T>(t: Tid, pc: PC<T>): Event<T>
    requires pc.PushDone? || pc.PopDone? || pc.ClearDone?
  {
    match pc
    case PushDone(item) => DidPush(t, item)
    case PopDone(item) => DidPop(t, item)
    case ClearDone => DidClear(t)
  }

  function AllCleared<T>(q: seq<T>): (r: seq<Removal<T>>)
    ensures |r| == |q|
    ensures forall i | 0 <= i < |q| :: r[i] == Cleared(q[i])
  {
    seq(|q|, i requires 0 <= i < |q| => Cleared(q[i]))
  }

  function Items<T>(rs: seq<Removal<T>>): (items: seq<T>)
    ensures |items| == |rs|
    ensures forall i | 0 <= i < |rs| :: items[i] == rs[i].item
  {
    seq(|rs|, i requires 0 <= i < |rs| => rs[i].item)
  }

  function Sleepers<T>(s: State<T>): set<Tid> {
    set t | t in s.pcs && s.pcs[t].Asleep?
  }

  predicate IsNotified<T>(pc: PC<T>) {
    (pc.PopTest? || pc.Awake? || pc.PopReady?) && pc.notified
  }

  /** Consumers that were notified and have not yet taken an item or gone back to sleep. */
  function Notified<T>(s: State<T>): set<Tid> {
    set t | t in s.pcs && IsNotified(s.pcs[t])
  }

  predicate HoldsLock<T>(pc: PC<T>) {
    !(pc.Idle? || pc.PushEnter? || pc.PopEnter? || pc.ClearEnter? || pc.Asleep? || pc.Awake?)
  }

  /** A push has queued its item and not yet notified. */
  predicate Unannounced<T>(s: State<T>) {
    s.holder.Some? && s.holder.value in s.pcs && s.pcs[s.holder.value].PushQueued?
  }

  // ---------------------------------------------------------------------------
  // Invariant
  // ---------------------------------------------------------------------------

  predicate MutexHeld<T>(s: State<T>) {
    && (s.holder.Some? ==> s.holder.value in s.pcs)
    && forall t | t in s.pcs :: HoldsLock(s.pcs[t]) <==> s.holder == Some(t)
  }

  /** A thread past its test sees a non-empty queue; one about to return pushed or popped its item last, or cleared. */
  predicate ActsRightlyAt<T(==)>(s: State<T>, t: Tid)
    requires t in s.pcs
  {
    var pc := s.pcs[t];
    && (pc.PushQueued? || pc.PushDone? ==> s.pushed != [] && s.pushed[|s.pushed| - 1] == pc.item)
    && (pc.PopReady? ==> s.queue != [])
    && (pc.ClearDone? ==> s.queue == [])
    && (pc.PopDone? ==> s.removed != [] && s.removed[|s.removed| - 1] == Popped(t, pc.item))
  }

  predicate ActsRightly<T(==)>(s: State<T>) {
    forall t | t in s.pcs :: ActsRightlyAt(s, t)
  }

  /** Nothing is lost, duplicated or reordered: what was pushed is what came out, in order, then the queue. */
  predicate Conserved<T(==)>(s: State<T>) {
    s.pushed == Items(s.removed) + s.queue
  }

  /** While someone sleeps un-notified, every queued item has a notified consumer, or is about to get one. */
  predicate WakeupsCover<T>(s: State<T>) {
    Sleepers(s) != {} ==> |s.queue| <= |Notified(s)| + if Unannounced(s) then 1 else 0
  }

  predicate Inv<T(==)>(s: State<T>) {
    MutexHeld(s) && ActsRightly(s) && Conserved(s) && WakeupsCover(s)
  }

  lemma NotifiedMoves<T>(s: State<T>, t: Tid, pc: PC<T>)
    requires t in s.pcs
    ensures Notified(Move(s, t, pc)) == if IsNotified(pc) then Notified(s) + {t} else Notified(s) - {t}
    ensures Sleepers(Move(s, t, pc)) == if pc.Asleep? then Sleepers(s) + {t} else Sleepers(s) - {t}
  {
  }

  lemma OneMore(s: set<Tid>, t: Tid)
    ensures t !in s ==> |s + {t}| == |s| + 1
  {
  }

  lemma NotifyAdds<T>(s: State<T>, t: Tid, who: Tid)
    requires t in s.pcs && who in s.pcs && s.pcs[t].PushQueued? && s.pcs[who].Asleep?
    ensures |Notified(Apply(s, NotifyOne(t, Some(who))))| == |Notified(s)| + 1
  {
    var pc: PC<T> := PushDone(s.pcs[t].item);
    NotifiedMoves(s, t, pc);
    NotifiedMoves(Move(s, t, pc), who, Awake(true));
    assert who !in Notified(s) && Notified(s) - {t} == Notified(s);
    OneMore(Notified(s), who);
  }

  lemma NotifyNobody<T>(s: State<T>, t: Tid)
    requires t in s.pcs && s.pcs[t].PushQueued? && Sleepers(s) == {}
    ensures Sleepers(Apply(s, NotifyOne(t, None))) == {}
  {
    NotifiedMoves(s, t, PushDone(s.pcs[t].item));
  }

  /** A notification turns the pending announcement into a notified consumer. */
  lemma NotifyKeepsWakeups<T>(s: State<T>, t: Tid, who: Option<Tid>)
    requires Inv(s) && Enabled(s, NotifyOne(t, who))
    ensures WakeupsCover(Apply(s, NotifyOne(t, who)))
  {
    if who.Some? {
      assert HoldsLock(s.pcs[t]) && who.value in Sleepers(s);
      assert |s.queue| <= |Notified(s)| + 1;
      NotifyAdds(s, t, who.value);
    } else {
      NotifyNobody(s, t);
    }
  }

  /** Testing leaves notifications as they are, except that sleeping, on an empty queue, may use one up. */
  lemma TestKeepsWakeups<T>(s: State<T>, t: Tid)
    requires Inv(s) && Enabled(s, Test(t))
    ensures WakeupsCover(Apply(s, Test(t)))
  {
    var s' := Apply(s, Test(t));
    if s.queue == [] {
      assert s'.queue == [];
    } else {
      var pc: PC<T> := PopReady(s.pcs[t].notified);
      assert s' == Move(s, t, pc);
      NotifiedMoves(s, t, pc);
      assert (t in Notified(s) <==> IsNotified(pc)) && t !in Sleepers(s);
      assert Notified(s') == Notified(s) && Sleepers(s') == Sleepers(s);
      assert s.holder == Some(t) && !Unannounced(s);
    }
  }

  lemma OneLess(s: set<Tid>, t: Tid)
    ensures |s - {t}| >= |s| - 1
  {
  }

  /** Taking an item uses up at most one notification. */
  lemma TakeKeepsWakeups<T>(s: State<T>, t: Tid)
    requires Inv(s) && Enabled(s, Take(t)) && s.queue != []
    ensures WakeupsCover(Apply(s, Take(t)))
  {
    var s', pc: PC<T> := Apply(s, Take(t)), PopDone(s.queue[0]);
    assert s'.pcs == Move(s, t, pc).pcs && |s'.queue| == |s.queue| - 1;
    NotifiedMoves(s, t, pc);
    assert Notified(s') == Notified(s) - {t} && Sleepers(s') == Sleepers(s);
    OneLess(Notified(s), t);
    assert s.holder == Some(t) && !Unannounced(s);
  }

  lemma OthersKeepNotified<T>(s: State<T>, step: Step<T>)
    requires Inv(s) && Enabled(s, step)
    requires !step.NotifyOne? && !step.Test? && !step.Take?
    ensures Notified(Apply(s, step)) == Notified(s)
    ensures Sleepers(Apply(s, step)) <= Sleepers(s)
  {
    var pc, pc' := s.pcs[step.t], Apply(s, step).pcs[step.t];
    assert !pc'.Asleep? && (IsNotified(pc') <==> IsNotified(pc));
    assert Apply(s, step).pcs == s.pcs[step.t := pc'];
    NotifiedMoves(s, step.t, pc');
  }

  /** No other step adds an item that is neither covered nor about to be announced. */
  lemma OthersKeepWakeups<T>(s: State<T>, step: Step<T>)
    requires Inv(s) && Enabled(s, step)
    requires !step.NotifyOne? && !step.Test? && !step.Take?
    ensures WakeupsCover(Apply(s, step))
  {
    var s' := Apply(s, step);
    OthersKeepNotified(s, step);
    if step.CallPush? || step.CallPop? || step.CallClear? || step.Wake? {
      assert Unannounced(s') == Unannounced(s);
    }
  }

  lemma StepKeepsMutex<T>(s: State<T>, step: Step<T>)
    requires Inv(s) && Enabled(s, step) && (step.Take? ==> s.queue != [])
    ensures MutexHeld(Apply(s, step))
  {
  }

  /** A step of another thread leaves a thread in the mutex, the queue and the logs alone. */
  lemma Bystander<T>(s: State<T>, step: Step<T>, t: Tid)
    requires Inv(s) && Enabled(s, step) && (step.Take? ==> s.queue != [])
    requires t in s.pcs && t != step.t
    ensures Apply(s, step).pcs[t] == s.pcs[t] || Apply(s, step).pcs[t] == Awake(true)
    ensures HoldsLock(s.pcs[t]) ==>
      var s' := Apply(s, step);
      s'.pcs[t] == s.pcs[t] && s'.queue == s.queue && s'.pushed == s.pushed && s'.removed == s.removed
  {
    assert HoldsLock(s.pcs[t]) ==> s.holder == Some(t) && !HoldsLock(s.pcs[step.t]);
  }

  lemma ActorActsRightly<T>(s: State<T>, step: Step<T>)
    requires Inv(s) && Enabled(s, step) && (step.Take? ==> s.queue != [])
    ensures ActsRightlyAt(Apply(s, step), step.t)
  {
    assert ActsRightlyAt(s, step.t);
  }

  lemma StepActsRightly<T>(s: State<T>, step: Step<T>)
    requires Inv(s) && Enabled(s, step) && (step.Take? ==> s.queue != [])
    ensures ActsRightly(Apply(s, step))
  {
    var s' := Apply(s, step);
    forall t | t in s'.pcs ensures ActsRightlyAt(s', t) {
      assert ActsRightlyAt(s, t);
      if t == step.t {
        ActorActsRightly(s, step);
      } else {
        Bystander(s, step, t);
      }
    }
  }

  lemma StepConserves<T>(s: State<T>, step: Step<T>)
    requires Inv(s) && Enabled(s, step) && (step.Take? ==> s.queue != [])
    ensures Conserved(Apply(s, step))
  {
  }

  lemma StepKeepsInv<T>(s: State<T>, step: Step<T>)
    requires Inv(s) && Enabled(s, step)
    ensures step.Take? ==> s.queue != []
    ensures Inv(Apply(s, step))
  {
    assert ActsRightlyAt(s, step.t);
    StepKeepsMutex(s, step);
    StepActsRightly(s, step);
    StepConserves(s, step);
    match step {
      case NotifyOne(t, who) => NotifyKeepsWakeups(s, t, who);
      case Test(t) => TestKeepsWakeups(s, t);
      case Take(t) => TakeKeepsWakeups(s, t);
      case _ => OthersKeepWakeups(s, step);
    }
  }

  // ---------------------------------------------------------------------------
  // Runs
  // ---------------------------------------------------------------------------

  function Init<T>(threads: set<Tid>): State<T> {
    State([], None, map t | t in threads :: Idle, [], [], [])
  }

  /** Running `steps` from `s`; None if some step is not enabled or would read the front of an empty queue. */
  function Run<T(==)>(s: State<T>, steps: seq<Step<T>>): Option<State<T>>
    decreases |steps|
  {
    if steps == [] then Some(s)
    else if Enabled(s, steps[0]) && (steps[0].Take? ==> s.queue != [])
    then Run(Apply(s, steps[0]), steps[1..])
    else None
  }

  lemma {:induction false} RunKeepsInv<T>(s: State<T>, steps: seq<Step<T>>)
    requires Inv(s)
    ensures Run(s, steps).Some? ==> Inv(Run(s, steps).value)
    decreases |steps|
  {
    if steps != [] && Enabled(s, steps[0]) {
      StepKeepsInv(s, steps[0]);
      RunKeepsInv(Apply(s, steps[0]), steps[1..]);
    }
  }

  /**
   In every interleaving: while some consumer sleeps un-notified, and no push is between queueing its item and
   notifying, the queue holds no more items than there are notified consumers yet to run.
   */
  lemma NoLostWakeup<T>(threads: set<Tid>, steps: seq<Step<T>>)
    ensures var r := Run(Init(threads), steps);
      r.Some? && Sleepers(r.value) != {} && !Unannounced(r.value) ==> |r.value.queue| <= |Notified(r.value)|
  {
    RunKeepsInv(Init<T>(threads), steps);
  }

  /** In every interleaving the i-th item to leave is the i-th that was pushed, and only a clear drops items. */
  lemma FirstInFirstOut<T>(threads: set<Tid>, steps: seq<Step<T>>)
    ensures var r := Run(Init(threads), steps);
      r.Some? ==>
        && |r.value.pushed| == |r.value.removed| + |r.value.queue|
        && (forall i | 0 <= i < |r.value.removed| :: r.value.removed[i].item == r.value.pushed[i])
        && r.value.queue == r.value.pushed[|r.value.removed|..]
  {
    RunKeepsInv(Init<T>(threads), steps);
  }

  /** No run ever has two threads inside the mutex, or a pop that reads the front of an empty queue. */
  lemma PopNeverEmpty<T>(threads: set<Tid>, steps: seq<Step<T>>, t: Tid)
    ensures var r := Run(Init(threads), steps);
      r.Some? && Enabled(r.value, Take(t)) ==> r.value.queue != [] && r.value.holder == Some(t)
  {
    RunKeepsInv(Init<T>(threads), steps);
  }

  /** A call about to return did what it was called for: its item is the last one pushed, or the last one to leave. */
  lemma CallsTakeEffect<T>(threads: set<Tid>, steps: seq<Step<T>>, t: Tid)
    ensures var r := Run(Init(threads), steps);
      r.Some? && t in r.value.pcs ==>
        var s := r.value;
        && (s.pcs[t].PushDone? ==> s.pushed != [] && s.pushed[|s.pushed| - 1] == s.pcs[t].item)
        && (s.pcs[t].PopDone? ==> s.removed != [] && s.removed[|s.removed| - 1] == Popped(t, s.pcs[t].item))
  {
    RunKeepsInv(Init<T>(threads), steps);
  }

  /** A clear takes out exactly the items that were queued, in order. */
  lemma ClearTakesAll<T>(s: State<T>, t: Tid)
    requires Enabled(s, Drop(t))
    ensures var s', n := Apply(s, Drop(t)), |s.removed|;
      && s'.queue == [] && s'.pushed == s.pushed
      && |s'.removed| == n + |s.queue| && s'.removed[..n] == s.removed
      && forall i | 0 <= i < |s.queue| :: s'.removed[n + i] == Cleared(s.queue[i])
  {
  }

  /** Nothing else clears any. */
  lemma OnlyClearClears<T>(s: State<T>, step: Step<T>)
    requires Enabled(s, step) && (step.Take? ==> s.queue != []) && !step.Drop?
    ensures var s' := Apply(s, step);
      s'.removed == s.removed || (s.queue != [] && s'.removed == s.removed + [Popped(step.t, s.queue[0])])
  {
  }

  // ---------------------------------------------------------------------------
  // A sequential queue
  // ---------------------------------------------------------------------------

  /** The calls that returned, done one after the other on a sequence; None if a pop did not get the oldest item. */
  function Replay<T(==)>(log: seq<Event<T>>): Option<seq<T>> {
    if log == [] then Some([]) else
      var before := Replay(log[..|log| - 1]);
      if before.None? then None else
        match log[|log| - 1]
        case DidPush(_, x) => Some(before.value + [x])
        case DidPop(_, x) => if before.value != [] && before.value[0] == x then Some(before.value[1..]) else None
        case DidClear(_) => Some([])
  }

  /** The queue, given what the returned calls made of it and how far the thread inside the mutex has got. */
  predicate InSection<T(==)>(q: seq<T>, pc: PC<T>, queue: seq<T>) {
    match pc
    case PushQueued(x) => queue == q + [x]
    case PushDone(x) => queue == q + [x]
    case PopDone(x) => q == [x] + queue
    case ClearDone => queue == []
    case _ => queue == q
  }

  predicate Linear<T(==)>(s: State<T>) {
    var q := Replay(s.returned);
    && q.Some?
    && (s.holder.None? ==> s.queue == q.value)
    && (s.holder.Some? && s.holder.value in s.pcs ==> InSection(q.value, s.pcs[s.holder.value], s.queue))
  }

  lemma ReplayMore<T>(log: seq<Event<T>>, e: Event<T>, q: seq<T>, q': seq<T>)
    requires Replay(log) == Some(q)
    requires match e case DidPush(_, x) => q' == q + [x] case DidPop(_, x) => q == [x] + q' case DidClear(_) => q' == []
    ensures Replay(log + [e]) == Some(q')
  {
    assert (log + [e])[..|log|] == log;
  }

  lemma UnlockKeepsLinear<T>(s: State<T>, t: Tid)
    requires Inv(s) && Linear(s) && Enabled(s, Unlock(t))
    ensures Linear(Apply(s, Unlock(t)))
  {
    assert s.holder == Some(t);
    ReplayMore(s.returned, EventOf(t, s.pcs[t]), Replay(s.returned).value, s.queue);
  }

  lemma StepKeepsLinear<T>(s: State<T>, step: Step<T>)
    requires Inv(s) && Linear(s) && Enabled(s, step) && (step.Take? ==> s.queue != [])
    ensures Linear(Apply(s, step))
  {
    if step.Unlock? {
      UnlockKeepsLinear(s, step.t);
    } else if s.holder.Some? && s.holder.value != step.t {
      Bystander(s, step, s.holder.value);
    }
  }

  lemma {:induction false} RunKeepsLinear<T>(s: State<T>, steps: seq<Step<T>>)
    requires Inv(s) && Linear(s)
    ensures Run(s, steps).Some? ==> Linear(Run(s, steps).value)
    decreases |steps|
  {
    if steps != [] && Enabled(s, steps[0]) {
      StepKeepsInv(s, steps[0]);
      StepKeepsLinear(s, steps[0]);
      RunKeepsLinear(Apply(s, steps[0]), steps[1..]);
    }
  }

  datatype Call<T> = Push(item: T) | Pop | Clear

  /** The calls that a thread makes in a run. */
  function CallsIn<T>(steps: seq<Step<T>>, t: Tid): seq<Call<T>>
    decreases |steps|
  {
    if steps == [] then [] else CallIn(steps[0], t) + CallsIn(steps[1..], t)
  }

  function CallIn<T>(step: Step<T>, t: Tid): seq<Call<T>> {
    if step.t != t then []
    else match step
      case CallPush(_, x) => [Push(x)]
      case CallPop(_) => [Pop]
      case CallClear(_) => [Clear]
      case _ => []
  }

  /** The calls of a thread that returned. */
  function CallsOf<T>(log: seq<Event<T>>, t: Tid): seq<Call<T>> {
    if log == [] then [] else
      var e := log[|log| - 1];
      CallsOf(log[..|log| - 1], t) +
      if e.t != t then [] else match e case DidPush(_, x) => [Push(x)] case DidPop(_, _) => [Pop] case DidClear(_) => [Clear]
  }

  /** The call that a thread is in. */
  function Pending<T>(pc: PC<T>): seq<Call<T>> {
    match pc
    case Idle => []
    case PushEnter(x) => [Push(x)]
    case PushHeld(x) => [Push(x)]
    case PushQueued(x) => [Push(x)]
    case PushDone(x) => [Push(x)]
    case ClearEnter => [Clear]
    case ClearHeld => [Clear]
    case ClearDone => [Clear]
    case _ => [Pop]
  }

  lemma CallsMore<T>(log: seq<Event<T>>, u: Tid, pc: PC<T>, t: Tid)
    requires pc.PushDone? || pc.PopDone? || pc.ClearDone?
    ensures CallsOf(log + [EventOf(u, pc)], t) == CallsOf(log, t) + if u == t then Pending(pc) else []
  {
    assert (log + [EventOf(u, pc)])[..|log|] == log;
  }

  lemma Associate<T>(a: seq<Call<T>>, b: seq<Call<T>>, c: seq<Call<T>>)
    ensures a + (b + c) == a + b + c
  {
  }

  /** Only calling changes what call a thread is in, apart from returning. */
  lemma StepKeepsPending<T>(s: State<T>, step: Step<T>, t: Tid)
    requires Enabled(s, step) && (step.Take? ==> s.queue != []) && t in s.pcs && !step.Unlock?
    ensures var s' := Apply(s, step);
      t in s'.pcs && s'.returned == s.returned && Pending(s'.pcs[t]) == Pending(s.pcs[t]) + CallIn(step, t)
  {
  }

  lemma UnlockReturns<T>(s: State<T>, u: Tid, t: Tid)
    requires Enabled(s, Unlock(u)) && t in s.pcs
    ensures var s' := Apply(s, Unlock(u));
      t in s'.pcs
      && CallsOf(s'.returned, t) == CallsOf(s.returned, t) + (if u == t then Pending(s.pcs[t]) else [])
      && Pending(s'.pcs[t]) == if u == t then [] else Pending(s.pcs[t])
  {
    CallsMore(s.returned, u, s.pcs[u], t);
  }

  lemma StepKeepsCalls<T>(s: State<T>, step: Step<T>, t: Tid)
    requires Enabled(s, step) && (step.Take? ==> s.queue != []) && t in s.pcs
    ensures var s' := Apply(s, step);
      t in s'.pcs
      && CallsOf(s.returned, t) + Pending(s.pcs[t]) + CallIn(step, t) == CallsOf(s'.returned, t) + Pending(s'.pcs[t])
  {
    if step.Unlock? {
      UnlockReturns(s, step.t, t);
    } else {
      StepKeepsPending(s, step, t);
    }
  }

  lemma {:induction false} RunKeepsCalls<T>(s: State<T>, steps: seq<Step<T>>, t: Tid)
    requires t in s.pcs && Run(s, steps).Some?
    ensures var s' := Run(s, steps).value;
      t in s'.pcs
      && CallsOf(s.returned, t) + Pending(s.pcs[t]) + CallsIn(steps, t) == CallsOf(s'.returned, t) + Pending(s'.pcs[t])
    decreases |steps|
  {
    if steps != [] {
      var s1 := Apply(s, steps[0]);
      StepKeepsCalls(s, steps[0], t);
      RunKeepsCalls(s1, steps[1..], t);
      Associate(CallsOf(s.returned, t) + Pending(s.pcs[t]), CallIn(steps[0], t), CallsIn(steps[1..], t));
    }
  }

  /**
   Every run is linear: the calls that returned, in the order they returned, are calls one after the other on a
   sequential queue, and while the mutex is free the queue is what they leave.
   */
  lemma Linearizable<T>(threads: set<Tid>, steps: seq<Step<T>>)
    ensures var r := Run(Init(threads), steps);
      r.Some? ==>
        && Replay(r.value.returned).Some?
        && (r.value.holder.None? ==> Replay(r.value.returned) == Some(r.value.queue))
        && (forall t | t in r.value.pcs && r.value.pcs[t].ClearDone? :: r.value.queue == [])
  {
    RunKeepsInv(Init<T>(threads), steps);
    RunKeepsLinear(Init<T>(threads), steps);
    var r := Run(Init<T>(threads), steps);
    assert r.Some? ==> forall t | t in r.value.pcs :: ActsRightlyAt(r.value, t);
  }

  /** And complete: the calls a thread made are those of its calls that returned, and the one it is in. */
  lemma CallsReturn<T>(threads: set<Tid>, steps: seq<Step<T>>, t: Tid)
    requires t in threads && Run(Init<T>(threads), steps).Some?
    ensures var s := Run(Init<T>(threads), steps).value;
      t in s.pcs && CallsIn(steps, t) == CallsOf(s.returned, t) + Pending(s.pcs[t])
  {
    RunKeepsCalls(Init<T>(threads), steps, t);
    assert CallsOf<T>([], t) + Pending<T>(Idle) + CallsIn(steps, t) == CallsIn(steps, t);
  }

  /** Nothing keeps an idle thread from calling, a free mutex from being locked, or a sleeper from waking up. */
  lemma AlwaysPossible<T>(s: State<T>, t: Tid, item: T)
    requires t in s.pcs
    ensures s.pcs[t] == Idle ==> Enabled(s, CallPush(t, item)) && Enabled(s, CallPop(t)) && Enabled(s, CallClear(t))
    ensures s.pcs[t] == Asleep ==> Enabled(s, Wake(t))
    ensures s.holder == None && !HoldsLock(s.pcs[t]) && s.pcs[t] != Idle && s.pcs[t] != Asleep ==> Enabled(s, Lock(t))
  {
  }

  // ---------------------------------------------------------------------------
  // Progress
  // ---------------------------------------------------------------------------

  /** A step of a call already under way, other than waking up for no reason. */
  predicate Quiet<T>(step: Step<T>) {
    !step.Wake? && !step.CallPush? && !step.CallPop? && !step.CallClear?
  }

  /** How far a thread is from the end of its call; a push that has still to notify also pays for the one it wakes. */
  function Rank<T>(pc: PC<T>): nat {
    match pc
    case PushEnter(_) => 6
    case PushHeld(_) => 5
    case PushQueued(_) => 4
    case PopEnter => 4
    case Awake(_) => 4
    case PopTest(_) => 3
    case ClearEnter => 3
    case PopReady(_) => 2
    case Asleep => 2
    case ClearHeld => 2
    case Idle => 0
    case _ => 1
  }

  function RanksOf<T>(pcs: map<Tid, PC<T>>): map<nat, nat> {
    map t | t in pcs :: Rank(pcs[t])
  }

  ghost function Remaining<T>(s: State<T>): nat {
    Total(RanksOf(s.pcs))
  }

  lemma MoveRemaining<T>(s: State<T>, t: Tid, pc: PC<T>)
    requires t in s.pcs
    ensures Remaining(Move(s, t, pc)) + Rank(s.pcs[t]) == Remaining(s) + Rank(pc)
  {
    TotalMoves(RanksOf(s.pcs), t, Rank(pc));
    assert RanksOf(s.pcs)[t := Rank(pc)] == RanksOf(s.pcs[t := pc]);
  }

  lemma QuietNotifyLowers<T>(s: State<T>, t: Tid, who: Option<Tid>)
    requires Enabled(s, NotifyOne(t, who))
    ensures Remaining(Apply(s, NotifyOne(t, who))) < Remaining(s)
  {
    var pc: PC<T> := PushDone(s.pcs[t].item);
    MoveRemaining(s, t, pc);
    if who.Some? {
      MoveRemaining(Move(s, t, pc), who.value, Awake(true));
    }
  }

  /** Every step of a call under way brings the calls nearer to their end. */
  lemma QuietStepLowers<T>(s: State<T>, step: Step<T>)
    requires Enabled(s, step) && Quiet(step) && (step.Take? ==> s.queue != [])
    ensures Remaining(Apply(s, step)) < Remaining(s)
  {
    if step.NotifyOne? {
      QuietNotifyLowers(s, step.t, step.who);
    } else {
      var pc := Apply(s, step).pcs[step.t];
      assert Apply(s, step).pcs == s.pcs[step.t := pc] && Rank(pc) < Rank(s.pcs[step.t]);
      MoveRemaining(s, step.t, pc);
    }
  }

  lemma {:induction false} QuietRunLowers<T>(s: State<T>, more: seq<Step<T>>)
    requires Run(s, more).Some? && forall step | step in more :: Quiet(step)
    ensures |more| + Remaining(Run(s, more).value) <= Remaining(s)
    decreases |more|
  {
    if more != [] {
      QuietStepLowers(s, more[0]);
      QuietRunLowers(Apply(s, more[0]), more[1..]);
    }
  }

  /** Every call has returned, except pops that sleep on an empty queue. */
  predicate AtRest<T(==)>(s: State<T>) {
    forall t | t in s.pcs :: s.pcs[t].Idle? || (s.pcs[t].Asleep? && s.queue == [])
  }

  /** The step a thread inside the mutex takes next. */
  ghost function NextInside<T>(s: State<T>, t: Tid): Step<T>
    requires t in s.pcs && HoldsLock(s.pcs[t])
  {
    match s.pcs[t]
    case PushHeld(_) => Enqueue(t)
    case PushQueued(_) => NotifyOne(t, if Sleepers(s) == {} then None else var x :| x in Sleepers(s); Some(x))
    case PopTest(_) => Test(t)
    case PopReady(_) => Take(t)
    case ClearHeld => Drop(t)
    case _ => Unlock(t)
  }

  /** Without a thread to let into the mutex nobody is in it, and a sleeper has nothing to take. */
  lemma NobodyToLock<T>(s: State<T>)
    requires Inv(s) && s.holder.None? && forall t | t in s.pcs :: s.pcs[t].Idle? || s.pcs[t].Asleep?
    ensures AtRest(s)
  {
    if t :| t in s.pcs && s.pcs[t].Asleep? {
      assert t in Sleepers(s) && Notified(s) == {};
    }
  }

  /** Unless all is at rest, a call under way can move on. */
  lemma RestOrMove<T>(s: State<T>) returns (next: Option<Step<T>>)
    requires Inv(s)
    ensures next.None? <==> AtRest(s)
    ensures next.Some? ==> Quiet(next.value) && Enabled(s, next.value)
  {
    if s.holder.Some? {
      next := Some(NextInside(s, s.holder.value));
    } else if t :| t in s.pcs && !s.pcs[t].Idle? && !s.pcs[t].Asleep? {
      assert !HoldsLock(s.pcs[t]);
      next := Some(Lock(t));
    } else {
      NobodyToLock(s);
      next := None;
    }
  }

  /**
   From every reachable state, with no new call and no wake-up out of the blue, every schedule is bounded and can
   only stop once each call has returned, except pops that sleep on an empty queue.
   */
  lemma NeverStranded<T>(threads: set<Tid>, steps: seq<Step<T>>, more: seq<Step<T>>) returns (next: Option<Step<T>>)
    requires Run(Init<T>(threads), steps).Some?
    requires Run(Run(Init<T>(threads), steps).value, more).Some? && forall step | step in more :: Quiet(step)
    ensures |more| <= Remaining(Run(Init<T>(threads), steps).value)
    ensures var s := Run(Run(Init<T>(threads), steps).value, more).value;
      && (next.None? <==> AtRest(s))
      && (next.Some? ==> Quiet(next.value) && Enabled(s, next.value))
  {
    var s := Run(Init<T>(threads), steps).value;
    RunKeepsInv(Init<T>(threads), steps);
    QuietRunLowers(s, more);
    RunKeepsInv(s, more);
    next := RestOrMove(Run(s, more).value);
  }
}
