/**
 The life cycle of the interrupt thread of `GpioDev2`, as a step system: the caller's attach, detach, open, close
 and destruction, interleaved with the thread. Detaching is three steps: satisfy the promise, join, replace both
 the thread object and the promise.
 */
module GpioIsr {

  /**
   The thread object and what runs behind it: about to look at its future, waiting for an event on the line, or in
   the user's handler. A thread that has ended stays joinable until joined.
   */
  datatype Thread = NoThread | Polling | Waiting | InHandler | Ended

  /** The user's function and its argument, given to `attachInterrupt`. */
  type Handler = nat

  /** What the caller does once the thread has been joined. */
  datatype Then = Return | CloseLine | Destroy

  datatype Caller = Ready | Joining(then_: Then) | Gone

  /**
   Promises are numbered; `promise` is the current one. `futures` and `satisfied` log `get_future` and `set_value`,
   `faulted` records that one of them threw because it had been called before on the same promise. `running` is
   false once the thread has called `std::terminate`. `handler` is what the thread was started with,
   and `calls` logs the handlers it entered.
   */
  datatype State = State(
    running: bool, isOpen: bool, thread: Thread, handler: Handler, caller: Caller,
    promise: nat, hasFuture: bool, isSet: bool,
    futures: seq<nat>, satisfied: seq<nat>, faulted: bool, calls: seq<Handler>)

  datatype Step =
    | OpenLine
    | Attach(h: Handler)
    | Detach
    | CloseDevice
    | Destruct
    | Joined
    | Poll
    | NoEvent
    | Event
    | WaitFails
    | HandlerReturns
    | HandlerThrows(systemError: bool)

  const INIT := State(true, false, NoThread, 0, Ready, 0, false, false, [], [], false, [])

  // ---------------------------------------------------------------------------
  // Steps
  // ---------------------------------------------------------------------------

  predicate Joinable(t: Thread) {
    t != NoThread
  }

  predicate Live(t: Thread) {
    t == Polling || t == Waiting || t == InHandler
  }

  /**
   `attachInterrupt` is only reached on an open line that has just been armed. A wait that fails with a device error,
   and a handler that throws a `std::system_error`, end the process; any other exception ends only the thread.
   */
  predicate Enabled(s: State, step: Step) {
    s.running &&
    match step
    case OpenLine => s.caller == Ready && !s.isOpen
    case Attach(_) => s.caller == Ready && s.isOpen
    case Detach => s.caller == Ready
    case CloseDevice => s.caller == Ready && s.isOpen
    case Destruct => s.caller == Ready
    case Joined => s.caller.Joining? && s.thread == Ended
    case Poll => s.thread == Polling
    case NoEvent => s.thread == Waiting
    case Event => s.thread == Waiting
    case WaitFails => s.thread == Waiting
    case HandlerReturns => s.thread == InHandler
    case HandlerThrows(_) => s.thread == InHandler
  }

  function GetFuture(s: State): State {
    s.(hasFuture := true, futures := s.futures + [s.promise], faulted := s.faulted || s.hasFuture)
  }

  function SetValue(s: State): State {
    s.(isSet := true, satisfied := s.satisfied + [s.promise], faulted := s.faulted || s.isSet)
  }

  function Continue(s: State, then_: Then): State {
    match then_
    case Return => s.(caller := Ready)
    case CloseLine => s.(caller := Ready, isOpen := false)
    case Destroy => s.(caller := Gone, isOpen := false)
  }

  /** `detachInterrupt`, up to the join. */
  function BeginDetach(s: State, then_: Then): State {
    if Joinable(s.thread) then SetValue(s).(caller := Joining(then_)) else Continue(s, then_)
  }

  function Apply(s: State, step: Step): State
    requires Enabled(s, step)
  {
    match step
    case OpenLine => s.(isOpen := true)
    case Attach(h) => if Joinable(s.thread) then s else GetFuture(s).(thread := Polling, handler := h)
    case Detach => BeginDetach(s, Return)
    case CloseDevice => BeginDetach(s, CloseLine)
    case Destruct => BeginDetach(s, Destroy)
    case Joined =>
      Continue(s.(thread := NoThread, promise := s.promise + 1, hasFuture := false, isSet := false), s.caller.then_)
    case Poll => s.(thread := if s.isSet then Ended else Waiting)
    case NoEvent => s.(thread := Polling)
    case Event => s.(thread := InHandler, calls := s.calls + [s.handler])
    case WaitFails => s.(running := false)
    case HandlerReturns => s.(thread := Polling)
    case HandlerThrows(systemError) => if systemError then s.(running := false) else s.(thread := Ended)
  }

  /** What `attachInterrupt` returns. */
  predicate AttachReturns(s: State, h: Handler)
    requires Enabled(s, Attach(h))
  {
    Joinable(Apply(s, Attach(h)).thread)
  }

  /** Events on the line reach handler `h`. */
  predicate Serves(s: State, h: Handler) {
    Live(s.thread) && s.handler == h
  }

  function Next(s: State, step: Step): State {
    if Enabled(s, step) then Apply(s, step) else s
  }

  /** A run of any steps; one that is not enabled changes nothing. */
  function Run(s: State, steps: seq<Step>): State
    decreases |steps|
  {
    if steps == [] then s else Run(Next(s, steps[0]), steps[1..])
  }

  // ---------------------------------------------------------------------------
  // Invariant
  // ---------------------------------------------------------------------------

  /** A log of promise numbers in which every number occurs once and none is past `last`. */
  predicate OnceEach(log: seq<nat>, last: int) {
    && (forall i | 0 <= i < |log| :: log[i] <= last)
    && forall i, j | 0 <= i < j < |log| :: log[i] < log[j]
  }

  /** The logs agree with the current promise. */
  predicate LogsKept(s: State) {
    && OnceEach(s.futures, if s.hasFuture then s.promise else s.promise - 1)
    && OnceEach(s.satisfied, if s.isSet then s.promise else s.promise - 1)
    && (forall p | p in s.satisfied :: p in s.futures)
    && (s.hasFuture ==> s.promise in s.futures)
  }

  predicate Inv(s: State) {
    && !s.faulted
    && (Joinable(s.thread) <==> s.hasFuture)
    && (s.isSet <==> s.caller.Joining?)
    && (s.isSet ==> s.hasFuture)
    && (Live(s.thread) ==> s.isOpen)
    && (s.caller == Gone ==> s.thread == NoThread && !s.isOpen)
    && LogsKept(s)
  }

  lemma OncePush(log: seq<nat>, p: nat)
    ensures OnceEach(log, p - 1) ==> OnceEach(log + [p], p)
  {
  }

  lemma StepKeepsLogs(s: State, step: Step)
    requires Inv(s) && Enabled(s, step)
    ensures LogsKept(Apply(s, step))
  {
    if step.Attach? && !Joinable(s.thread) {
      OncePush(s.futures, s.promise);
    } else if step.Detach? || step.CloseDevice? || step.Destruct? {
      OncePush(s.satisfied, s.promise);
    }
  }

  lemma StepKeepsInv(s: State, step: Step)
    requires Inv(s) && Enabled(s, step)
    ensures Inv(Apply(s, step))
  {
    StepKeepsLogs(s, step);
  }

  lemma {:induction false} RunKeepsInv(s: State, steps: seq<Step>)
    requires Inv(s)
    ensures Inv(Run(s, steps))
    decreases |steps|
  {
    if steps != [] {
      if Enabled(s, steps[0]) {
        StepKeepsInv(s, steps[0]);
      }
      RunKeepsInv(Next(s, steps[0]), steps[1..]);
    }
  }

  /** In every run each promise yields its future at most once, and is satisfied at most once and only after that. */
  lemma PromisesUsedOnce(steps: seq<Step>)
    ensures var s := Run(INIT, steps);
      && !s.faulted
      && (forall i, j | 0 <= i < j < |s.futures| :: s.futures[i] != s.futures[j])
      && (forall i, j | 0 <= i < j < |s.satisfied| :: s.satisfied[i] != s.satisfied[j])
      && (forall p | p in s.satisfied :: p in s.futures)
  {
    RunKeepsInv(INIT, steps);
  }

  /** In every run the line stays open as long as an interrupt thread is live, and no thread survives the device. */
  lemma LineOutlivesThread(steps: seq<Step>)
    ensures var s := Run(INIT, steps);
      (Live(s.thread) ==> s.isOpen) && (s.caller == Gone ==> s.thread == NoThread)
  {
    RunKeepsInv(INIT, steps);
  }

  /** How many more steps a thread can take once its promise is satisfied: at worst an event and its handler first. */
  function StepsLeft(t: Thread): nat {
    match t
    case Waiting => 3
    case InHandler => 2
    case Polling => 1
    case _ => 0
  }

  /** Every step of the run is one that can be taken where it stands. */
  predicate AllEnabled(s: State, steps: seq<Step>)
    decreases |steps|
  {
    steps == [] || (Enabled(s, steps[0]) && AllEnabled(Apply(s, steps[0]), steps[1..]))
  }

  predicate Released(s: State, promise: nat) {
    s.thread == NoThread && s.caller in {Ready, Gone} && s.promise == promise + 1 && !s.isSet && !s.hasFuture
  }

  /** A caller in `join` never blocks the thread: some step that does not end the process can be taken. */
  lemma JoinCanMove(s: State) returns (step: Step)
    requires Inv(s) && s.running && s.caller.Joining?
    ensures Enabled(s, step) && Apply(s, step).running
  {
    step := match s.thread
      case InHandler => HandlerReturns
      case Waiting => NoEvent
      case Polling => Poll
      case _ => Joined;
  }

  /** And whichever step is taken, it releases the caller or brings the thread nearer to its end. */
  lemma JoinProgresses(s: State, step: Step)
    requires Inv(s) && s.caller.Joining? && Enabled(s, step)
    ensures step.Joined? ==> Released(Apply(s, step), s.promise)
    ensures !step.Joined? && Apply(s, step).running ==>
      var s' := Apply(s, step);
      s'.caller == s.caller && s'.promise == s.promise && StepsLeft(s'.thread) < StepsLeft(s.thread)
  {
  }

  /** So every continuation with more steps than the thread has left releases the caller on the way. */
  lemma {:induction false} JoinEnds(s: State, more: seq<Step>) returns (n: nat)
    requires Inv(s) && s.caller.Joining? && AllEnabled(s, more) && |more| > StepsLeft(s.thread)
    ensures n <= |more| && Released(Run(s, more[..n]), s.promise)
    decreases |more|
  {
    var s' := Apply(s, more[0]);
    JoinProgresses(s, more[0]);
    if more[0].Joined? {
      n := 1;
      assert more[..1][1..] == [];
    } else if !s'.running {
      assert false;
    } else {
      StepKeepsInv(s, more[0]);
      var m := JoinEnds(s', more[1..]);
      n := m + 1;
      assert more[..n][1..] == more[1..][..m];
    }
  }

  /** In every run, whatever events and handlers do, a caller in `join` is released by the fourth step. */
  lemma JoinIsReached(steps: seq<Step>, more: seq<Step>) returns (n: nat)
    requires Run(INIT, steps).caller.Joining?
    requires AllEnabled(Run(INIT, steps), more) && |more| == 4
    ensures n <= 4 && Released(Run(Run(INIT, steps), more[..n]), Run(INIT, steps).promise)
  {
    RunKeepsInv(INIT, steps);
    n := JoinEnds(Run(INIT, steps), more);
  }

  // ---------------------------------------------------------------------------
  // What attaching again means
  // ---------------------------------------------------------------------------

  /** What a caller knows of the device: nothing attached, a handler attached, or one that ended by an exception. */
  datatype Attached = Nobody | Somebody(h: Handler) | Lost

  /** The first attach after a join counts, later ones do not; an exception in the handler loses it until joined. */
  function AttachedAfter(a: Attached, s: State, step: Step): Attached {
    if !Enabled(s, step) then a
    else if step.Attach? && a == Nobody then Somebody(step.h)
    else if step.HandlerThrows? && !step.systemError then Lost
    else if step.Joined? then Nobody
    else a
  }

  function AttachedRun(s: State, steps: seq<Step>, a: Attached): Attached
    decreases |steps|
  {
    if steps == [] then a else AttachedRun(Next(s, steps[0]), steps[1..], AttachedAfter(a, s, steps[0]))
  }

  predicate Knows(s: State, a: Attached) {
    && (a == Nobody <==> s.thread == NoThread)
    && (a == Lost ==> s.thread == Ended)
    && (s.caller == Ready && s.thread == Ended ==> a == Lost)
    && (a.Somebody? ==> s.handler == a.h)
  }

  /** In every run the thread behind the device is what the effective attaches, exceptions and joins say. */
  lemma {:induction false} HistoryKnows(s: State, steps: seq<Step>, a: Attached)
    requires Inv(s) && Knows(s, a)
    ensures Knows(Run(s, steps), AttachedRun(s, steps, a))
    decreases |steps|
  {
    if steps != [] {
      if Enabled(s, steps[0]) {
        StepKeepsInv(s, steps[0]);
      }
      HistoryKnows(Next(s, steps[0]), steps[1..], AttachedAfter(a, s, steps[0]));
    }
  }

  /**
   `attachInterrupt` always returns true on an open line. That answer means the new handler is served exactly when
   nobody was attached since the last join, or this same handler was; some thread is live behind it exactly unless
   the attached handler was lost to an exception.
   */
  lemma AttachAnswer(steps: seq<Step>, h: Handler)
    requires Enabled(Run(INIT, steps), Attach(h))
    ensures var s, a := Run(INIT, steps), AttachedRun(INIT, steps, Nobody);
      && AttachReturns(s, h)
      && (Serves(Apply(s, Attach(h)), h) <==> a == Nobody || a == Somebody(h))
      && (Live(Apply(s, Attach(h)).thread) <==> a != Lost)
  {
    HistoryKnows(INIT, steps, Nobody);
  }

  /** A handler that throws does get there: the device then claims an interrupt nobody serves. */
  lemma AttachAfterThrow(h: Handler, h': Handler)
    ensures var s := Apply(Apply(Apply(Apply(Apply(INIT, OpenLine), Attach(h)), Poll), Event), HandlerThrows(false));
      AttachReturns(s, h') && !Live(Apply(s, Attach(h')).thread)
  {
  }

  /** And so does attaching twice: the second handler is accepted and never called. */
  lemma SecondHandlerIgnored(h: Handler, h': Handler)
    requires h != h'
    ensures var s := Apply(Apply(INIT, OpenLine), Attach(h));
      AttachReturns(s, h') && Serves(Apply(s, Attach(h')), h) && !Serves(Apply(s, Attach(h')), h')
  {
  }

  // ---------------------------------------------------------------------------
  // When the handler runs
  // ---------------------------------------------------------------------------

  /** The handler that a step enters: whoever is attached when an event arrives. */
  function HandlerIn(s: State, step: Step, a: Attached): seq<Handler> {
    if step.Event? && Enabled(s, step) && a.Somebody? then [a.h] else []
  }

  /** The handlers that the events of a run are for. */
  function HandlersIn(s: State, steps: seq<Step>, a: Attached): seq<Handler>
    decreases |steps|
  {
    if steps == [] then []
    else HandlerIn(s, steps[0], a) + HandlersIn(Next(s, steps[0]), steps[1..], AttachedAfter(a, s, steps[0]))
  }

  lemma StepKeepsCalls(s: State, step: Step, a: Attached)
    requires Inv(s) && Knows(s, a)
    ensures Inv(Next(s, step)) && Knows(Next(s, step), AttachedAfter(a, s, step))
    ensures Next(s, step).calls == s.calls + HandlerIn(s, step, a)
  {
    if Enabled(s, step) {
      StepKeepsInv(s, step);
    }
  }

  lemma Associate(a: seq<Handler>, b: seq<Handler>, c: seq<Handler>)
    ensures a + (b + c) == a + b + c
  {
  }

  lemma {:induction false} CallsKept(s: State, steps: seq<Step>, a: Attached)
    requires Inv(s) && Knows(s, a)
    ensures Run(s, steps).calls == s.calls + HandlersIn(s, steps, a)
    decreases |steps|
  {
    if steps == [] {
      assert s.calls + [] == s.calls;
    } else {
      var s', a' := Next(s, steps[0]), AttachedAfter(a, s, steps[0]);
      StepKeepsCalls(s, steps[0], a);
      CallsKept(s', steps[1..], a');
      Associate(s.calls, HandlerIn(s, steps[0], a), HandlersIn(s', steps[1..], a'));
    }
  }

  /** In every run the handlers entered are those of the events that arrived, one for each, in order. */
  lemma CalledOncePerEvent(steps: seq<Step>)
    ensures Run(INIT, steps).calls == HandlersIn(INIT, steps, Nobody)
  {
    CallsKept(INIT, steps, Nobody);
    assert [] + HandlersIn(INIT, steps, Nobody) == HandlersIn(INIT, steps, Nobody);
  }

  /** Nothing else enters a handler, and a thread that is told nothing goes on waiting for events. */
  lemma ThreadSteps(s: State, step: Step)
    requires Enabled(s, step)
    ensures s.thread != InHandler && Apply(s, step).thread == InHandler <==> step == Event
    ensures step == Event ==> |Apply(s, step).calls| == |s.calls| + 1
    ensures step == Poll && !s.isSet ==> Apply(s, step) == s.(thread := Waiting)
    ensures step == NoEvent || step == HandlerReturns ==> Apply(s, step) == s.(thread := Polling)
  {
  }

  /** What the caller's calls do to the line: with a thread to join, once it has been joined. */
  lemma CallsOnLine(s: State)
    requires s.running
    ensures s.caller == Ready && !s.isOpen ==> Apply(s, OpenLine) == s.(isOpen := true)
    ensures s.caller == Ready && s.thread == NoThread ==>
      && Apply(s, Detach) == s
      && Apply(s, Destruct) == s.(caller := Gone, isOpen := false)
      && (s.isOpen ==> Apply(s, CloseDevice) == s.(isOpen := false))
    ensures s.caller == Ready && s.thread != NoThread ==>
      && Apply(s, Detach).caller == Joining(Return) && Apply(s, Destruct).caller == Joining(Destroy)
      && Apply(s, Detach).isOpen == Apply(s, Destruct).isOpen == s.isOpen
      && (s.isOpen ==> Apply(s, CloseDevice).caller == Joining(CloseLine) && Apply(s, CloseDevice).isOpen)
    ensures s.caller == Joining(Return) && s.thread == Ended ==>
      Apply(s, Joined).caller == Ready && Apply(s, Joined).isOpen == s.isOpen
    ensures s.caller == Joining(CloseLine) && s.thread == Ended ==>
      Apply(s, Joined).caller == Ready && !Apply(s, Joined).isOpen
    ensures s.caller == Joining(Destroy) && s.thread == Ended ==>
      Apply(s, Joined).caller == Gone && !Apply(s, Joined).isOpen
  {
  }
}
