/**
 `ThreadSafeBuffer` as a step system. The list and the separate counter `_numEnqueued` change in two steps, and
 `size()` reads the counter without the mutex, so the model keeps them apart. `notify_all` wakes every sleeper.
 */
module ThreadSafeBuffer {
  import opened Bytes
  import opened Ranks

  type Tid = nat

  /** `read(T&)` takes one element, `read(vector&)` takes everything. */
  datatype Kind = One | All

  /** `timeout` is `msTimeout`: 0 does not wait, a positive number waits that long, a negative one for ever. */
  datatype PC<T> =
    | Idle
    | WriteEnter(buf: seq<T>)
    | Writing(buf: seq<T>, next: nat)
    | WriteCount(buf: seq<T>, next: nat)
    | WriteDone(buf: seq<T>)
    | ReadEnter(kind: Kind, timeout: int)
    | ReadTest(kind: Kind, timeout: int)
    | Asleep(kind: Kind, timeout: int)
    | Awake(kind: Kind, timeout: int)
    | Reading(kind: Kind, timeout: int, got: seq<T>)
    | ReadCount(kind: Kind, timeout: int, got: seq<T>)
    | ReadDone(kind: Kind, timeout: int, got: seq<T>)

  /** What a call has done by the time it returns. */
  datatype Event<T> = Wrote(t: Tid, buf: seq<T>) | DidRead(t: Tid, kind: Kind, timeout: int, got: seq<T>)

  /** `written`, `delivered` and `returned` only record history. */
  datatype State<T> = State(
    queue: seq<T>, numEnqueued: int, holder: Option<Tid>, pcs: map<Tid, PC<T>>,
    written: seq<T>, delivered: seq<T>, returned: seq<Event<T>>)

  /** `expired` is what the clock says after a timed wait: `now() >= timeLimit`. */
  datatype Step<T> =
    | CallWrite(t: Tid, buf: seq<T>)
    | CallRead(t: Tid, kind: Kind, timeout: int)
    | Lock(t: Tid, expired: bool)
    | Push(t: Tid)
    | CountUp(t: Tid)
    | NotifyAll(t: Tid)
    | Test(t: Tid)
    | Wake(t: Tid)
    | Take(t: Tid)
    | CountDown(t: Tid)
    | Unlock(t: Tid)

  // ---------------------------------------------------------------------------
  // Steps
  // ---------------------------------------------------------------------------

  predicate Enabled<T>(s: State<T>, step: Step<T>) {
    step.t in s.pcs &&
    var pc := s.pcs[step.t];
    match step
    case CallWrite(_, _) => pc.Idle?
    case CallRead(_, _, _) => pc.Idle?
    case Lock(_, expired) =>
      && s.holder.None?
      && (pc.WriteEnter? || pc.ReadEnter? || pc.Awake?)
      && (expired ==> pc.Awake? && pc.timeout > 0)
    case Push(_) => pc.Writing? && pc.next < |pc.buf|
    case CountUp(_) => pc.WriteCount?
    case NotifyAll(_) => pc.Writing? && pc.next >= |pc.buf|
    case Test(_) => pc.ReadTest?
    case Wake(_) => pc.Asleep?
    case Take(_) => pc.Reading?
    case CountDown(_) => pc.ReadCount?
    case Unlock(_) => pc.WriteDone? || pc.ReadDone?
  }

  function Move<T>(s: State<T>, t: Tid, pc: PC<T>): State<T> {
    s.(pcs := s.pcs[t := pc])
  }

  function WakeUp<T>(pc: PC<T>): PC<T> {
    if pc.Asleep? then Awake(pc.kind, pc.timeout) else pc
  }

  function Woken<T>(pcs: map<Tid, PC<T>>): map<Tid, PC<T>> {
    map t | t in pcs :: WakeUp(pcs[t])
  }

  function AfterLock<T>(pc: PC<T>, expired: bool): PC<T>
    requires pc.WriteEnter? || pc.ReadEnter? || pc.Awake?
  {
    match pc
    case WriteEnter(buf) => Writing(buf, 0)
    case ReadEnter(kind, timeout) => if timeout == 0 then Reading(kind, timeout, []) else ReadTest(kind, timeout)
    case Awake(kind, timeout) => if expired then Reading(kind, timeout, []) else ReadTest(kind, timeout)
  }

  function Apply<T>(s: State<T>, step: Step<T>): State<T>
    requires Enabled(s, step)
  {
    var t, pc := step.t, s.pcs[step.t];
    match step
    case CallWrite(_, buf) => Move(s, t, WriteEnter(buf))
    case CallRead(_, kind, timeout) => Move(s, t, ReadEnter(kind, timeout))
    case Lock(_, expired) => Move(s.(holder := Some(t)), t, AfterLock(pc, expired))
    case Push(_) =>
      var x := pc.buf[pc.next];
      Move(s.(queue := s.queue + [x], written := s.written + [x]), t, WriteCount(pc.buf, pc.next))
    case CountUp(_) => Move(s.(numEnqueued := s.numEnqueued + 1), t, Writing(pc.buf, pc.next + 1))
    case NotifyAll(_) => s.(pcs := Woken(s.pcs[t := WriteDone(pc.buf)]))
    case Test(_) =>
      if s.queue == [] then Move(s.(holder := None), t, Asleep(pc.kind, pc.timeout))
      else Move(s, t, Reading(pc.kind, pc.timeout, []))
    case Wake(_) => Move(s, t, WakeUp(pc))
    case Take(_) =>
      if s.queue == [] then Move(s, t, ReadDone(pc.kind, pc.timeout, pc.got))
      else Move(s.(queue := s.queue[1..], delivered := s.delivered + [s.queue[0]]), t,
                ReadCount(pc.kind, pc.timeout, pc.got + [s.queue[0]]))
    case CountDown(_) =>
      Move(s.(numEnqueued := s.numEnqueued - 1), t,
           if pc.kind.One? then ReadDone(pc.kind, pc.timeout, pc.got) else Reading(pc.kind, pc.timeout, pc.got))
    case Unlock(_) => Move(s.(holder := None, returned := s.returned + [EventOf(t, pc)]), t, Idle)
  }

  function EventOf<T>(t: Tid, pc: PC<T>): Event<T>
    requires pc.WriteDone? || pc.ReadDone?
  {
    match pc
    case WriteDone(buf) => Wrote(t, buf)
    case ReadDone(kind, timeout, got) => DidRead(t, kind, timeout, got)
  }

  // ---------------------------------------------------------------------------
  // Invariant
  // ---------------------------------------------------------------------------

  predicate HoldsLock<T>(pc: PC<T>) {
    !(pc.Idle? || pc.WriteEnter? || pc.ReadEnter? || pc.Asleep? || pc.Awake?)
  }

  predicate MutexHeld<T>(s: State<T>) {
    && (s.holder.Some? ==> s.holder.value in s.pcs)
    && forall t | t in s.pcs :: HoldsLock(s.pcs[t]) <==> s.holder == Some(t)
  }

  /** What the counter is behind the list by: the thread in the mutex may be between the two updates. */
  function Lag<T>(s: State<T>): int {
    if s.holder.None? || s.holder.value !in s.pcs then 0
    else if s.pcs[s.holder.value].WriteCount? then 1
    else if s.pcs[s.holder.value].ReadCount? then -1
    else 0
  }

  predicate Counted<T>(s: State<T>) {
    s.numEnqueued == |s.queue| - Lag(s) && s.numEnqueued >= 0
  }

  predicate Conserved<T(==)>(s: State<T>) {
    s.written == s.delivered + s.queue
  }

  /** The thread in the mutex is a writer that has not notified yet. */
  predicate Unannounced<T>(s: State<T>) {
    s.holder.Some? && s.holder.value in s.pcs &&
    (s.pcs[s.holder.value].Writing? || s.pcs[s.holder.value].WriteCount?)
  }

  predicate NobodyOverslept<T>(s: State<T>) {
    forall t | t in s.pcs :: s.pcs[t].Asleep? && s.queue != [] ==> Unannounced(s)
  }

  predicate IsSuffix<T(==)>(a: seq<T>, b: seq<T>) {
    |a| <= |b| && b[|b| - |a|..] == a
  }

  /** What a writer in the mutex knows: as much of its buffer as it has pushed was written last, in order. */
  predicate WriterKnows<T(==)>(written: seq<T>, pc: PC<T>) {
    && (pc.Writing? ==> pc.next <= |pc.buf| && IsSuffix(pc.buf[..pc.next], written))
    && (pc.WriteCount? ==> pc.next < |pc.buf| && IsSuffix(pc.buf[..pc.next + 1], written))
    && (pc.WriteDone? ==> IsSuffix(pc.buf, written))
  }

  /** What a reader in the mutex knows: what it got was delivered last, and waiting for ever ends with data. */
  predicate ReaderKnows<T(==)>(queue: seq<T>, delivered: seq<T>, pc: PC<T>) {
    && (pc.ReadTest? || pc.Asleep? || pc.Awake? ==> pc.timeout != 0)
    && (pc.Reading? || pc.ReadCount? || pc.ReadDone? ==> IsSuffix(pc.got, delivered))
    && (pc.Reading? && pc.kind.One? ==> pc.got == [])
    && (pc.ReadCount? ==> pc.got != [] && (pc.kind.One? ==> |pc.got| == 1))
    && (pc.Reading? && pc.timeout < 0 && pc.got == [] ==> queue != [])
    && (pc.ReadDone? ==>
          && (pc.timeout < 0 ==> pc.got != [])
          && (pc.kind.One? ==> |pc.got| <= 1)
          && (pc.kind.All? || pc.got == [] ==> queue == []))
  }

  predicate ThreadKnows<T(==)>(s: State<T>, t: Tid)
    requires t in s.pcs
  {
    ReaderKnows(s.queue, s.delivered, s.pcs[t]) && WriterKnows(s.written, s.pcs[t])
  }

  predicate ThreadsKnow<T(==)>(s: State<T>) {
    forall t | t in s.pcs :: ThreadKnows(s, t)
  }

  predicate Inv<T(==)>(s: State<T>) {
    MutexHeld(s) && Counted(s) && Conserved(s) && NobodyOverslept(s) && ThreadsKnow(s)
  }

  lemma StepKeepsMutex<T>(s: State<T>, step: Step<T>)
    requires Inv(s) && Enabled(s, step)
    ensures MutexHeld(Apply(s, step))
  {
  }

  lemma StepWakes<T>(s: State<T>, step: Step<T>)
    requires Inv(s) && Enabled(s, step)
    ensures NobodyOverslept(Apply(s, step))
  {
  }

  lemma StepCounts<T>(s: State<T>, step: Step<T>)
    requires Inv(s) && Enabled(s, step)
    ensures Counted(Apply(s, step)) && Conserved(Apply(s, step))
  {
  }

  /** A step of another thread leaves a thread in the mutex, and everything it knows about, alone. */
  lemma Bystander<T>(s: State<T>, step: Step<T>, t: Tid)
    requires Inv(s) && Enabled(s, step) && t in s.pcs && t != step.t
    ensures Apply(s, step).pcs[t] == s.pcs[t] || Apply(s, step).pcs[t] == WakeUp(s.pcs[t])
    ensures HoldsLock(s.pcs[t]) ==>
      var s' := Apply(s, step);
      s'.pcs[t] == s.pcs[t] && s'.queue == s.queue && s'.written == s.written && s'.delivered == s.delivered
  {
    assert HoldsLock(s.pcs[t]) ==> s.holder == Some(t) && !HoldsLock(s.pcs[step.t]);
  }

  lemma SuffixPush<T>(a: seq<T>, b: seq<T>, x: T)
    requires IsSuffix(a, b)
    ensures IsSuffix(a + [x], b + [x])
  {
    assert (b + [x])[|b| - |a|..] == b[|b| - |a|..] + [x];
  }

  lemma TakeTeaches<T>(queue: seq<T>, delivered: seq<T>, pc: PC<T>)
    requires pc.Reading? && ReaderKnows(queue, delivered, pc)
    ensures queue == [] ==> ReaderKnows(queue, delivered, ReadDone(pc.kind, pc.timeout, pc.got))
    ensures queue != [] ==>
      ReaderKnows(queue[1..], delivered + [queue[0]], ReadCount(pc.kind, pc.timeout, pc.got + [queue[0]]))
  {
    if queue != [] {
      SuffixPush(pc.got, delivered, queue[0]);
    }
  }

  lemma PushTeaches<T>(written: seq<T>, pc: PC<T>)
    requires pc.Writing? && WriterKnows(written, pc)
    ensures pc.next < |pc.buf| ==> WriterKnows(written + [pc.buf[pc.next]], WriteCount(pc.buf, pc.next))
    ensures pc.next >= |pc.buf| ==> WriterKnows(written, WriteDone(pc.buf))
  {
    if pc.next < |pc.buf| {
      SuffixPush(pc.buf[..pc.next], written, pc.buf[pc.next]);
      assert pc.buf[..pc.next + 1] == pc.buf[..pc.next] + [pc.buf[pc.next]];
    } else {
      assert pc.buf[..pc.next] == pc.buf;
    }
  }

  lemma WriterLearns<T>(s: State<T>, step: Step<T>)
    requires Inv(s) && Enabled(s, step) && (step.Push? || step.CountUp? || step.NotifyAll?)
    ensures ThreadKnows(Apply(s, step), step.t)
  {
    assert ThreadKnows(s, step.t);
    if !step.CountUp? {
      PushTeaches(s.written, s.pcs[step.t]);
    }
  }

  lemma ReaderLearns<T>(s: State<T>, step: Step<T>)
    requires Inv(s) && Enabled(s, step) && (step.Take? || step.CountDown?)
    ensures ThreadKnows(Apply(s, step), step.t)
  {
    assert ThreadKnows(s, step.t);
    if step.Take? {
      TakeTeaches(s.queue, s.delivered, s.pcs[step.t]);
    }
  }

  lemma NothingYet<T>(b: seq<T>, buf: seq<T>)
    ensures IsSuffix([], b) && IsSuffix(buf[..0], b)
  {
    assert b[|b|..] == [] && buf[..0] == [];
  }

  lemma EntrantLearns<T>(s: State<T>, step: Step<T>)
    requires Inv(s) && Enabled(s, step)
    requires step.Lock? || step.Test? || step.Wake? || step.Unlock? || step.CallWrite? || step.CallRead?
    ensures ThreadKnows(Apply(s, step), step.t)
  {
    var pc := s.pcs[step.t];
    assert ThreadKnows(s, step.t);
    NothingYet(s.delivered, []);
    NothingYet(s.written, if pc.WriteEnter? then pc.buf else []);
  }

  lemma ActorLearns<T>(s: State<T>, step: Step<T>)
    requires Inv(s) && Enabled(s, step)
    ensures ThreadKnows(Apply(s, step), step.t)
  {
    if step.Push? || step.CountUp? || step.NotifyAll? {
      WriterLearns(s, step);
    } else if step.Take? || step.CountDown? {
      ReaderLearns(s, step);
    } else {
      EntrantLearns(s, step);
    }
  }

  /** A thread outside the mutex knows nothing that a step could make untrue, asleep or woken up. */
  lemma OutsideKnows<T>(s: State<T>, s': State<T>, t: Tid)
    requires t in s.pcs && t in s'.pcs && ThreadKnows(s, t) && !HoldsLock(s.pcs[t])
    requires s'.pcs[t] == s.pcs[t] || s'.pcs[t] == WakeUp(s.pcs[t])
    ensures ThreadKnows(s', t)
  {
  }

  lemma BystanderKnows<T>(s: State<T>, step: Step<T>, t: Tid)
    requires Inv(s) && Enabled(s, step) && t in s.pcs && t != step.t
    ensures ThreadKnows(Apply(s, step), t)
  {
    assert ThreadKnows(s, t);
    Bystander(s, step, t);
    if !HoldsLock(s.pcs[t]) {
      OutsideKnows(s, Apply(s, step), t);
    }
  }

  lemma StepTeaches<T>(s: State<T>, step: Step<T>)
    requires Inv(s) && Enabled(s, step)
    ensures ThreadsKnow(Apply(s, step))
  {
    forall t | t in s.pcs ensures ThreadKnows(Apply(s, step), t) {
      if t == step.t {
        ActorLearns(s, step);
      } else {
        BystanderKnows(s, step, t);
      }
    }
  }

  lemma StepKeepsInv<T>(s: State<T>, step: Step<T>)
    requires Inv(s) && Enabled(s, step)
    ensures Inv(Apply(s, step))
  {
    StepKeepsMutex(s, step);
    StepWakes(s, step);
    StepCounts(s, step);
    StepTeaches(s, step);
  }

  // ---------------------------------------------------------------------------
  // Runs
  // ---------------------------------------------------------------------------

  function Init<T>(threads: set<Tid>): State<T> {
    State([], 0, None, map t | t in threads :: Idle, [], [], [])
  }

  function Run<T>(s: State<T>, steps: seq<Step<T>>): Option<State<T>>
    decreases |steps|
  {
    if steps == [] then Some(s)
    else if Enabled(s, steps[0]) then Run(Apply(s, steps[0]), steps[1..])
    else None
  }

  lemma {:induction false} RunKeepsInv<T>(s: State<T>, steps: seq<Step<T>>)
    requires Inv(s)
    ensures Run(s, steps).Some? ==> Inv(Run(s, steps).value)
    decreases |steps|
  {
    if steps != [] && Enabled(s, steps[0]) {
      StepKeepsInv(s, steps[0]);
      RunKeepsInv(Apply(s, steps[0]), steps[1..]);
    }
  }

  /** In every interleaving, everything read followed by the queue is everything written, in order. */
  lemma NothingLost<T>(threads: set<Tid>, steps: seq<Step<T>>)
    ensures var r := Run(Init(threads), steps);
      r.Some? ==> r.value.written == r.value.delivered + r.value.queue
  {
    RunKeepsInv(Init<T>(threads), steps);
  }

  /** `size()` is exact whenever the mutex is free and never more than one off. */
  lemma SizeIsCounted<T>(threads: set<Tid>, steps: seq<Step<T>>)
    ensures var r := Run(Init(threads), steps);
      r.Some? ==>
        && (r.value.holder.None? ==> r.value.numEnqueued == |r.value.queue|)
        && 0 <= r.value.numEnqueued
        && |r.value.queue| - 1 <= r.value.numEnqueued <= |r.value.queue| + 1
  {
    RunKeepsInv(Init<T>(threads), steps);
  }

  /** Nobody sleeps on a non-empty queue, except while the writer that filled it is still to notify. */
  lemma NoLostWakeup<T>(threads: set<Tid>, steps: seq<Step<T>>, t: Tid)
    ensures var r := Run(Init(threads), steps);
      r.Some? && t in r.value.pcs && r.value.pcs[t].Asleep? ==> r.value.queue == [] || Unannounced(r.value)
  {
    RunKeepsInv(Init<T>(threads), steps);
  }

  /** A finished write has put its whole buffer in, in one piece; a read that may not wait never sleeps. */
  lemma WriteLands<T>(threads: set<Tid>, steps: seq<Step<T>>, t: Tid)
    ensures var r := Run(Init(threads), steps);
      r.Some? && t in r.value.pcs ==>
        && (r.value.pcs[t].WriteDone? ==> IsSuffix(r.value.pcs[t].buf, r.value.written))
        && (r.value.pcs[t].Asleep? ==> r.value.pcs[t].timeout != 0)
  {
    RunKeepsInv(Init<T>(threads), steps);
    var r := Run(Init<T>(threads), steps);
    assert r.Some? && t in r.value.pcs ==> ThreadKnows(r.value, t);
  }

  /**
   What a finished read returns, in every interleaving: the elements delivered last; without a limit on the wait,
   at least one; and nothing, or less than everything asked for, only when the queue is empty.
   */
  lemma ReadReturns<T>(threads: set<Tid>, steps: seq<Step<T>>, t: Tid)
    ensures var r := Run(Init(threads), steps);
      r.Some? && t in r.value.pcs && r.value.pcs[t].ReadDone? ==>
        var pc := r.value.pcs[t];
        && IsSuffix(pc.got, r.value.delivered)
        && (pc.timeout < 0 ==> pc.got != [])
        && (pc.kind.One? ==> |pc.got| <= 1)
        && (pc.kind.All? || pc.got == [] ==> r.value.queue == [])
  {
    RunKeepsInv(Init<T>(threads), steps);
    var r := Run(Init<T>(threads), steps);
    assert r.Some? && t in r.value.pcs ==> ThreadKnows(r.value, t);
  }

  // ---------------------------------------------------------------------------
  // A sequential buffer
  // ---------------------------------------------------------------------------

  /**
   The calls that returned, done one after the other on a sequence. A write appends its buffer. A read of one element
   takes the oldest, a read of all takes everything; None if a read got anything else, or nothing though it was
   to wait for ever.
   */
  function Replay<T(==)>(log: seq<Event<T>>): Option<seq<T>> {
    if log == [] then Some([]) else
      var before := Replay(log[..|log| - 1]);
      if before.None? then None else
        var q := before.value;
        match log[|log| - 1]
        case Wrote(_, buf) => Some(q + buf)
        case DidRead(_, kind, timeout, got) =>
          if timeout < 0 && got == [] then None
          else if kind.All? || q == [] then if got == q then Some([]) else None
          else if got == [q[0]] then Some(q[1..]) else None
  }

  /** The queue, given what the returned calls made of it and how far the thread inside the mutex has got. */
  predicate InSection<T(==)>(q: seq<T>, pc: PC<T>, queue: seq<T>) {
    match pc
    case Writing(buf, next) => next <= |buf| && queue == q + buf[..next]
    case WriteCount(buf, next) => next < |buf| && queue == q + buf[..next + 1]
    case WriteDone(buf) => queue == q + buf
    case Reading(_, _, got) => q == got + queue
    case ReadCount(_, _, got) => q == got + queue
    case ReadDone(_, _, got) => q == got + queue
    case _ => queue == q
  }

  predicate Linear<T(==)>(s: State<T>) {
    var q := Replay(s.returned);
    && q.Some?
    && (s.holder.None? ==> s.queue == q.value)
    && (s.holder.Some? && s.holder.value in s.pcs ==> InSection(q.value, s.pcs[s.holder.value], s.queue))
  }

  lemma ReplayMore<T>(log: seq<Event<T>>, t: Tid, pc: PC<T>, queue: seq<T>, delivered: seq<T>)
    requires (pc.WriteDone? || pc.ReadDone?) && Replay(log).Some?
    requires InSection(Replay(log).value, pc, queue) && ReaderKnows(queue, delivered, pc)
    ensures Replay(log + [EventOf(t, pc)]) == Some(queue)
  {
    assert (log + [EventOf(t, pc)])[..|log|] == log;
    if pc.ReadDone? && pc.kind.All? {
      assert pc.got + [] == pc.got;
    }
  }

  lemma UnlockKeepsLinear<T>(s: State<T>, t: Tid)
    requires Inv(s) && Linear(s) && Enabled(s, Unlock(t))
    ensures Linear(Apply(s, Unlock(t)))
  {
    assert s.holder == Some(t) && ThreadKnows(s, t);
    ReplayMore(s.returned, t, s.pcs[t], s.queue, s.delivered);
  }

  /** One element more, inside the mutex. */
  lemma PushInSection<T>(q: seq<T>, pc: PC<T>, queue: seq<T>)
    requires pc.Writing? && pc.next < |pc.buf| && InSection(q, pc, queue)
    ensures InSection(q, WriteCount(pc.buf, pc.next), queue + [pc.buf[pc.next]])
  {
    assert pc.buf[..pc.next + 1] == pc.buf[..pc.next] + [pc.buf[pc.next]];
  }

  lemma DoneInSection<T>(q: seq<T>, pc: PC<T>, queue: seq<T>)
    requires pc.Writing? && pc.next >= |pc.buf| && InSection(q, pc, queue)
    ensures InSection(q, WriteDone(pc.buf), queue)
  {
    assert pc.buf[..pc.next] == pc.buf;
  }

  lemma TakeInSection<T>(q: seq<T>, pc: PC<T>, queue: seq<T>)
    requires pc.Reading? && queue != [] && InSection(q, pc, queue)
    ensures InSection(q, ReadCount(pc.kind, pc.timeout, pc.got + [queue[0]]), queue[1..])
  {
    assert pc.got + queue == pc.got + [queue[0]] + queue[1..];
  }

  lemma InsideKeepsLinear<T>(s: State<T>, step: Step<T>)
    requires Inv(s) && Linear(s) && Enabled(s, step) && s.holder == Some(step.t)
    requires step.Push? || step.CountUp? || step.NotifyAll? || step.Take? || step.CountDown? || step.Test?
    ensures Linear(Apply(s, step))
  {
    var q, pc := Replay(s.returned).value, s.pcs[step.t];
    match step {
      case Push(_) => PushInSection(q, pc, s.queue);
      case NotifyAll(_) => DoneInSection(q, pc, s.queue);
      case Take(_) =>
        if s.queue != [] {
          TakeInSection(q, pc, s.queue);
        }
      case _ =>
    }
  }

  lemma LockKeepsLinear<T>(s: State<T>, t: Tid, expired: bool)
    requires Linear(s) && Enabled(s, Lock(t, expired))
    ensures Linear(Apply(s, Lock(t, expired)))
  {
    var pc := s.pcs[t];
    assert pc.WriteEnter? ==> s.queue + pc.buf[..0] == s.queue;
    assert [] + s.queue == s.queue;
  }

  lemma StepKeepsLinear<T>(s: State<T>, step: Step<T>)
    requires Inv(s) && Linear(s) && Enabled(s, step)
    ensures Linear(Apply(s, step))
  {
    if s.holder.Some? && s.holder.value != step.t {
      Bystander(s, step, s.holder.value);
    } else if step.Unlock? {
      UnlockKeepsLinear(s, step.t);
    } else if step.Lock? {
      LockKeepsLinear(s, step.t, step.expired);
    } else if HoldsLock(s.pcs[step.t]) {
      InsideKeepsLinear(s, step);
    }
  }

  lemma {:induction false} RunKeepsLinear<T>(s: State<T>, steps: seq<Step<T>>)
    requires Inv(s) && Linear(s)
    ensures Run(s, steps).Some? ==> Linear(Run(s, steps).value)
    decreases |steps|
  {
    if steps != [] && Enabled(s, steps[0]) {
      StepKeepsInv(s, steps[0]);
      StepKeepsLinear(s, steps[0]);
      RunKeepsLinear(Apply(s, steps[0]), steps[1..]);
    }
  }

  datatype Call<T> = Write(buf: seq<T>) | Read(kind: Kind, timeout: int)

  /** The calls that a thread makes in a run. */
  function CallsIn<T>(steps: seq<Step<T>>, t: Tid): seq<Call<T>>
    decreases |steps|
  {
    if steps == [] then [] else CallIn(steps[0], t) + CallsIn(steps[1..], t)
  }

  function CallIn<T>(step: Step<T>, t: Tid): seq<Call<T>> {
    if step.t != t then []
    else match step
      case CallWrite(_, buf) => [Write(buf)]
      case CallRead(_, kind, timeout) => [Read(kind, timeout)]
      case _ => []
  }

  /** The calls of a thread that returned. */
  function CallsOf<T>(log: seq<Event<T>>, t: Tid): seq<Call<T>> {
    if log == [] then [] else
      var e := log[|log| - 1];
      CallsOf(log[..|log| - 1], t) +
      if e.t != t then [] else match e case Wrote(_, buf) => [Write(buf)] case DidRead(_, k, w, _) => [Read(k, w)]
  }

  /** The call that a thread is in. */
  function Pending<T>(pc: PC<T>): seq<Call<T>> {
    match pc
    case Idle => []
    case WriteEnter(buf) => [Write(buf)]
    case Writing(buf, _) => [Write(buf)]
    case WriteCount(buf, _) => [Write(buf)]
    case WriteDone(buf) => [Write(buf)]
    case _ => [Read(pc.kind, pc.timeout)]
  }

  lemma CallsMore<T>(log: seq<Event<T>>, u: Tid, pc: PC<T>, t: Tid)
    requires pc.WriteDone? || pc.ReadDone?
    ensures CallsOf(log + [EventOf(u, pc)], t) == CallsOf(log, t) + if u == t then Pending(pc) else []
  {
    assert (log + [EventOf(u, pc)])[..|log|] == log;
  }

  lemma Associate<T>(a: seq<Call<T>>, b: seq<Call<T>>, c: seq<Call<T>>)
    ensures a + (b + c) == a + b + c
  {
  }

  /** Only calling changes what call a thread is in, apart from returning. */
  lemma StepKeepsPending<T>(s: State<T>, step: Step<T>, t: Tid)
    requires Enabled(s, step) && t in s.pcs && !step.Unlock?
    ensures var s' := Apply(s, step);
      t in s'.pcs && s'.returned == s.returned && Pending(s'.pcs[t]) == Pending(s.pcs[t]) + CallIn(step, t)
  {
  }

  lemma UnlockReturns<T>(s: State<T>, u: Tid, t: Tid)
    requires Enabled(s, Unlock(u)) && t in s.pcs
    ensures var s' := Apply(s, Unlock(u));
      t in s'.pcs
      && CallsOf(s'.returned, t) == CallsOf(s.returned, t) + (if u == t then Pending(s.pcs[t]) else [])
      && Pending(s'.pcs[t]) == if u == t then [] else Pending(s.pcs[t])
  {
    CallsMore(s.returned, u, s.pcs[u], t);
  }

  lemma StepKeepsCalls<T>(s: State<T>, step: Step<T>, t: Tid)
    requires Enabled(s, step) && t in s.pcs
    ensures var s' := Apply(s, step);
      t in s'.pcs
      && CallsOf(s.returned, t) + Pending(s.pcs[t]) + CallIn(step, t) == CallsOf(s'.returned, t) + Pending(s'.pcs[t])
  {
    if step.Unlock? {
      UnlockReturns(s, step.t, t);
    } else {
      StepKeepsPending(s, step, t);
    }
  }

  lemma {:induction false} RunKeepsCalls<T>(s: State<T>, steps: seq<Step<T>>, t: Tid)
    requires t in s.pcs && Run(s, steps).Some?
    ensures var s' := Run(s, steps).value;
      t in s'.pcs
      && CallsOf(s.returned, t) + Pending(s.pcs[t]) + CallsIn(steps, t) == CallsOf(s'.returned, t) + Pending(s'.pcs[t])
    decreases |steps|
  {
    if steps != [] {
      var s1 := Apply(s, steps[0]);
      StepKeepsCalls(s, steps[0], t);
      RunKeepsCalls(s1, steps[1..], t);
      Associate(CallsOf(s.returned, t) + Pending(s.pcs[t]), CallIn(steps[0], t), CallsIn(steps[1..], t));
    }
  }

  /**
   Every run is linear: the calls that returned, in the order they returned, are calls one after the other on a
   sequential buffer, and while the mutex is free the queue is what they leave.
   */
  lemma Linearizable<T>(threads: set<Tid>, steps: seq<Step<T>>)
    ensures var r := Run(Init(threads), steps);
      r.Some? ==>
        && Replay(r.value.returned).Some?
        && (r.value.holder.None? ==> Replay(r.value.returned) == Some(r.value.queue))
  {
    RunKeepsLinear(Init<T>(threads), steps);
  }

  /** And complete: the calls a thread made are those of its calls that returned, and the one it is in. */
  lemma CallsReturn<T>(threads: set<Tid>, steps: seq<Step<T>>, t: Tid)
    requires t in threads && Run(Init<T>(threads), steps).Some?
    ensures var s := Run(Init<T>(threads), steps).value;
      t in s.pcs && CallsIn(steps, t) == CallsOf(s.returned, t) + Pending(s.pcs[t])
  {
    RunKeepsCalls(Init<T>(threads), steps, t);
    assert CallsOf<T>([], t) + Pending<T>(Idle) + CallsIn(steps, t) == CallsIn(steps, t);
  }

  // ---------------------------------------------------------------------------
  // Time limits
  // ---------------------------------------------------------------------------

  function ExpiredAfter<T>(step: Step<T>, t: Tid, before: bool): bool {
    if step.t != t then before
    else if step.Lock? && step.expired then true
    else if step.CallRead? || step.CallWrite? then false
    else before
  }

  /** Has the time limit run out in the call that thread `t` made last? `before` answers for what preceded the run. */
  function Expired<T>(steps: seq<Step<T>>, t: Tid, before: bool): bool
    decreases |steps|
  {
    if steps == [] then before else Expired(steps[1..], t, ExpiredAfter(steps[0], t, before))
  }

  /** A call whose limit has run out waits no more, and an empty answer within a limit means that it has. */
  predicate KeepsTime<T>(s: State<T>, t: Tid, expired: bool)
    requires t in s.pcs
  {
    var pc := s.pcs[t];
    && (expired ==> pc.Idle? || pc.Reading? || pc.ReadCount? || pc.ReadDone?)
    && (pc.Reading? && pc.timeout > 0 && pc.got == [] && s.queue == [] ==> expired)
    && (pc.ReadDone? && pc.timeout > 0 && pc.got == [] ==> expired)
  }

  lemma ActorKeepsTime<T>(s: State<T>, step: Step<T>, expired: bool)
    requires Inv(s) && Enabled(s, step) && KeepsTime(s, step.t, expired)
    ensures KeepsTime(Apply(s, step), step.t, ExpiredAfter(step, step.t, expired))
  {
    assert ThreadKnows(s, step.t);
  }

  lemma StepKeepsTime<T>(s: State<T>, step: Step<T>, t: Tid, expired: bool)
    requires Inv(s) && Enabled(s, step) && t in s.pcs && KeepsTime(s, t, expired)
    ensures t in Apply(s, step).pcs && KeepsTime(Apply(s, step), t, ExpiredAfter(step, t, expired))
  {
    if step.t == t {
      ActorKeepsTime(s, step, expired);
    } else {
      Bystander(s, step, t);
    }
  }

  lemma {:induction false} RunKeepsTime<T>(s: State<T>, steps: seq<Step<T>>, t: Tid, expired: bool)
    requires Inv(s) && t in s.pcs && KeepsTime(s, t, expired) && Run(s, steps).Some?
    ensures t in Run(s, steps).value.pcs && KeepsTime(Run(s, steps).value, t, Expired(steps, t, expired))
    decreases |steps|
  {
    if steps != [] {
      StepKeepsInv(s, steps[0]);
      StepKeepsTime(s, steps[0], t, expired);
      RunKeepsTime(Apply(s, steps[0]), steps[1..], t, ExpiredAfter(steps[0], t, expired));
    }
  }

  /**
   In every run, once the limit of a read has run out it neither sleeps nor waits for the mutex again before it
   returns; and a read with a limit returns empty only if the limit has run out.
   */
  lemma LimitsHold<T>(threads: set<Tid>, steps: seq<Step<T>>, t: Tid)
    requires t in threads && Run(Init<T>(threads), steps).Some?
    ensures var s := Run(Init<T>(threads), steps).value;
      t in s.pcs &&
      var pc := s.pcs[t];
      && (Expired(steps, t, false) ==> !pc.Asleep? && !pc.Awake? && !pc.ReadEnter? && !pc.ReadTest?)
      && (pc.ReadDone? && pc.timeout > 0 && pc.got == [] ==> Expired(steps, t, false))
  {
    RunKeepsTime(Init<T>(threads), steps, t, false);
  }

  /** A woken read whose limit has run out, on an empty buffer, returns empty as soon as it gets the mutex. */
  lemma LimitEndsRead<T>(s: State<T>, t: Tid, kind: Kind, timeout: int)
    requires t in s.pcs && s.pcs[t] == Awake(kind, timeout) && timeout > 0 && s.holder == None && s.queue == []
    ensures var r := Run(s, [Lock(t, true), Take(t), Unlock(t)]);
      r.Some? && t in r.value.pcs && r.value.pcs[t] == Idle && r.value.queue == []
      && r.value.returned == s.returned + [DidRead(t, kind, timeout, [])]
  {
    var s1 := Apply(s, Lock(t, true));
    var s2 := Apply(s1, Take(t));
    RunThree(s, Lock(t, true), Take(t), Unlock(t));
  }

  lemma RunThree<T>(s: State<T>, a: Step<T>, b: Step<T>, c: Step<T>)
    requires Enabled(s, a) && Enabled(Apply(s, a), b) && Enabled(Apply(Apply(s, a), b), c)
    ensures Run(s, [a, b, c]) == Some(Apply(Apply(Apply(s, a), b), c))
  {
    assert [a, b, c][1..] == [b, c] && [b, c][1..] == [c] && [c][1..] == [];
    assert Run(Apply(Apply(s, a), b), [c]) == Some(Apply(Apply(Apply(s, a), b), c));
  }

  /** Nothing keeps an idle thread from calling, a free mutex from being locked, or a sleeper from waking up. */
  lemma AlwaysPossible<T>(s: State<T>, t: Tid, buf: seq<T>, kind: Kind, timeout: int)
    requires t in s.pcs
    ensures s.pcs[t] == Idle ==> Enabled(s, CallWrite(t, buf)) && Enabled(s, CallRead(t, kind, timeout))
    ensures s.pcs[t].Asleep? ==> Enabled(s, Wake(t))
    ensures s.holder == None && !HoldsLock(s.pcs[t]) && s.pcs[t] != Idle && !s.pcs[t].Asleep? ==>
      Enabled(s, Lock(t, false))
    ensures s.holder == None && s.pcs[t].Awake? && s.pcs[t].timeout > 0 ==> Enabled(s, Lock(t, true))
  {
  }

  // ---------------------------------------------------------------------------
  // Progress
  // ---------------------------------------------------------------------------

  /** A step of a call already under way, other than a sleeper waking up by itself or by the clock. */
  predicate Quiet<T>(step: Step<T>) {
    !step.Wake? && !step.CallWrite? && !step.CallRead?
  }

  /**
   How far a thread is from the end of its call, among `n` threads. A writer pays for the readers it wakes and for
   the steps that the readers will take over its elements.
   */
  function Rank<T>(pc: PC<T>, n: nat): nat {
    match pc
    case Idle => 0
    case WriteEnter(buf) => 2 * n + 3 + 5 * |buf|
    case Writing(buf, next) => if next <= |buf| then 2 * n + 2 + 5 * (|buf| - next) else 0
    case WriteCount(buf, next) => if next < |buf| then 2 * n + 2 + 5 * (|buf| - next) - 4 else 0
    case ReadEnter(_, _) => 5
    case Awake(_, _) => 5
    case ReadTest(_, _) => 4
    case Asleep(_, _) => 3
    case ReadCount(_, _, _) => 3
    case Reading(_, _, _) => 2
    case _ => 1
  }

  function RanksOf<T>(pcs: map<Tid, PC<T>>, n: nat): map<nat, nat> {
    map t | t in pcs :: Rank(pcs[t], n)
  }

  ghost function Remaining<T>(s: State<T>): nat {
    3 * |s.queue| + Total(RanksOf(s.pcs, |s.pcs|))
  }

  lemma MoveRanks<T>(pcs: map<Tid, PC<T>>, t: Tid, pc: PC<T>)
    requires t in pcs
    ensures |pcs[t := pc]| == |pcs|
    ensures Total(RanksOf(pcs[t := pc], |pcs|)) + Rank(pcs[t], |pcs|) == Total(RanksOf(pcs, |pcs|)) + Rank(pc, |pcs|)
  {
    var n := |pcs|;
    assert pcs[t := pc].Keys == pcs.Keys;
    TotalMoves(RanksOf(pcs, n), t, Rank(pc, n));
    assert RanksOf(pcs, n)[t := Rank(pc, n)] == RanksOf(pcs[t := pc], n);
  }

  /** Waking everybody costs two steps for each thread at most. */
  lemma WokenRanks<T>(pcs: map<Tid, PC<T>>, n: nat)
    ensures |Woken(pcs)| == |pcs|
    ensures Total(RanksOf(Woken(pcs), n)) <= Total(RanksOf(pcs, n)) + 2 * |pcs|
  {
    var m, m' := RanksOf(pcs, n), RanksOf(Woken(pcs), n);
    assert Woken(pcs).Keys == pcs.Keys && m.Keys == pcs.Keys && m'.Keys == pcs.Keys;
    assert forall t | t in m :: m'[t] <= m[t] + 2;
    TotalRises(m, m');
  }

  lemma QuietNotifyLowers<T>(s: State<T>, t: Tid)
    requires t in s.pcs && s.pcs[t].Writing? && s.pcs[t].next == |s.pcs[t].buf|
    ensures Remaining(Apply(s, NotifyAll(t))) < Remaining(s)
  {
    var pc: PC<T> := WriteDone(s.pcs[t].buf);
    MoveRanks(s.pcs, t, pc);
    WokenRanks(s.pcs[t := pc], |s.pcs|);
  }

  /** What a step of one thread costs, counting three for each element still to be read. */
  lemma StepCosts<T>(s: State<T>, step: Step<T>, n: nat)
    requires Enabled(s, step) && Quiet(step) && !step.NotifyAll? && WriterKnows(s.written, s.pcs[step.t])
    ensures var s' := Apply(s, step);
      && step.t in s'.pcs && s'.pcs == s.pcs[step.t := s'.pcs[step.t]]
      && 3 * |s'.queue| + Rank(s'.pcs[step.t], n) < 3 * |s.queue| + Rank(s.pcs[step.t], n)
  {
  }

  /** Every step of a call under way brings the calls nearer to their end. */
  lemma QuietStepLowers<T>(s: State<T>, step: Step<T>)
    requires Inv(s) && Enabled(s, step) && Quiet(step)
    ensures Remaining(Apply(s, step)) < Remaining(s)
  {
    assert ThreadKnows(s, step.t);
    if step.NotifyAll? {
      QuietNotifyLowers(s, step.t);
    } else {
      StepCosts(s, step, |s.pcs|);
      MoveRanks(s.pcs, step.t, Apply(s, step).pcs[step.t]);
    }
  }

  lemma {:induction false} QuietRunLowers<T>(s: State<T>, more: seq<Step<T>>)
    requires Inv(s) && Run(s, more).Some? && forall step | step in more :: Quiet(step)
    ensures |more| + Remaining(Run(s, more).value) <= Remaining(s)
    decreases |more|
  {
    if more != [] {
      QuietStepLowers(s, more[0]);
      StepKeepsInv(s, more[0]);
      QuietRunLowers(Apply(s, more[0]), more[1..]);
    }
  }

  /** Every call has returned, except reads that sleep on an empty queue. */
  predicate AtRest<T(==)>(s: State<T>) {
    forall t | t in s.pcs :: s.pcs[t].Idle? || (s.pcs[t].Asleep? && s.queue == [])
  }

  ghost function NextInside<T>(s: State<T>, t: Tid): Step<T>
    requires t in s.pcs && HoldsLock(s.pcs[t])
  {
    match s.pcs[t]
    case Writing(buf, next) => if next < |buf| then Push(t) else NotifyAll(t)
    case WriteCount(_, _) => CountUp(t)
    case ReadTest(_, _) => Test(t)
    case Reading(_, _, _) => Take(t)
    case ReadCount(_, _, _) => CountDown(t)
    case _ => Unlock(t)
  }

  /** Unless all is at rest, a call under way can move on. */
  lemma RestOrMove<T>(s: State<T>) returns (next: Option<Step<T>>)
    requires Inv(s)
    ensures next.None? <==> AtRest(s)
    ensures next.Some? ==> Quiet(next.value) && Enabled(s, next.value)
  {
    if s.holder.Some? {
      next := Some(NextInside(s, s.holder.value));
    } else if t :| t in s.pcs && !s.pcs[t].Idle? && !s.pcs[t].Asleep? {
      assert !HoldsLock(s.pcs[t]);
      next := Some(Lock(t, false));
    } else {
      next := None;
    }
  }

  /**
   From every reachable state, with no new call and no sleeper waking up by itself, every schedule is bounded and can
   only stop once each call has returned, except reads that sleep on an empty queue.
   */
  lemma NeverStranded<T>(threads: set<Tid>, steps: seq<Step<T>>, more: seq<Step<T>>) returns (next: Option<Step<T>>)
    requires Run(Init<T>(threads), steps).Some?
    requires Run(Run(Init<T>(threads), steps).value, more).Some? && forall step | step in more :: Quiet(step)
    ensures |more| <= Remaining(Run(Init<T>(threads), steps).value)
    ensures var s := Run(Run(Init<T>(threads), steps).value, more).value;
      && (next.None? <==> AtRest(s))
      && (next.Some? ==> Quiet(next.value) && Enabled(s, next.value))
  {
    var s := Run(Init<T>(threads), steps).value;
    RunKeepsInv(Init<T>(threads), steps);
    QuietRunLowers(s, more);
    RunKeepsInv(s, more);
    next := RestOrMove(Run(s, more).value);
  }
}
