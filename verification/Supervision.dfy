/**
 Supervision of one actor process: the mutual recursion of Invoke, tryRestart and Start through
 panic recovery, with the replay buffer and the restart budget. What user code does is an oracle:
 each call of a handler returns, panics, or panics with an InternalError. A Go panic is a value
 that a call may end with; `defer`/`recover` is where it is looked at.
 */
module Supervision {
  import opened Machine

  /** A message in the mailbox: a user's, or a poison pill with the cancel function it carries. */
  datatype Msg = User(content: int) | Pill(id: nat, graceful: bool)

  /** What a receiver is asked to handle. The Stopped message is assumed to be handled without panic. */
  datatype Call = Initialized | Started | Message(content: int)

  datatype Outcome = Fine | Panics | PanicsInternally

  /** Panic values: from a handler, an InternalError from a handler, or the call of a nil cancel function. */
  datatype Panic = HandlerPanic | InternalError | NilCall

  datatype Event =
    | Produced                 // the Producer made a new receiver
    | Received(call: Call)     // the current receiver was given a message
    | GotStopped               // the current receiver was given Stopped
    | Restarted(count: int)    // ActorRestartedEvent
    | MaxRestartsExceeded      // ActorMaxRestartsExceededEvent
    | InboxStarted
    | InboxStopped
    | Deregistered
    | Cancelled(id: nat)       // a pill's cancel function was called

  /** The fields of a process, and the history of what happened. `calls` numbers the handler calls. */
  datatype Proc = Proc(restarts: int32, mbuffer: seq<Msg>, calls: nat, trace: seq<Event>)

  /**
   The parameters of a run. From call number `calm` on, Initialized and Started no longer raise
   InternalError: a remote that could not be dialled comes back at some point.
   */
  datatype Config = Config(maxRestarts: int32, oracle: (nat, Call) -> Outcome, calm: nat) {
    ghost predicate Calms() {
      forall n: nat | n >= calm ::
        oracle(n, Initialized) != PanicsInternally && oracle(n, Started) != PanicsInternally
    }
  }

  // ---------------------------------------------------------------- reading a history

  /** Where a receiver is in its life. */
  datatype Phase = Unborn | Made | Initializing | Up | Down(stops: nat) | Bad

  /**
   The life of receivers: each is made, gets Initialized, then Started, then user messages, then
   only Stopped; the next one is made when the last has got Stopped exactly once.
   */
  function Advance(phase: Phase, e: Event): Phase {
    match e
    case Produced => if phase.Unborn? || phase == Down(1) then Made else Bad
    case Received(Initialized) => if phase.Made? then Initializing else Bad
    case Received(Started) => if phase.Initializing? then Up else Bad
    case Received(Message(_)) => if phase.Up? then Up else Bad
    case GotStopped =>
      if phase.Unborn? || phase.Bad? then Bad
      else if phase.Down? then Down(phase.stops + 1)
      else Down(1)
    case _ => phase
  }

  function PhaseOf(trace: seq<Event>): Phase {
    if trace == [] then Unborn else Advance(PhaseOf(trace[..|trace| - 1]), trace[|trace| - 1])
  }

  /** The user messages that were given to a receiver, in order, attempts that panicked included. */
  function Attempts(trace: seq<Event>): seq<Msg> {
    if trace == [] then []
    else
      var e := trace[|trace| - 1];
      Attempts(trace[..|trace| - 1])
      + (if e.Received? && e.call.Message? then [User(e.call.content)] else [])
  }

  function RestartCount(trace: seq<Event>): nat {
    if trace == [] then 0
    else RestartCount(trace[..|trace| - 1]) + (if trace[|trace| - 1].Restarted? then 1 else 0)
  }

  /** The pills whose cancel function was called, in order. */
  function Cancels(trace: seq<Event>): seq<nat> {
    if trace == [] then []
    else
      var e := trace[|trace| - 1];
      Cancels(trace[..|trace| - 1]) + (if e.Cancelled? then [e.id] else [])
  }

  /** The inbox was last started, not stopped. */
  predicate InboxOn(trace: seq<Event>) {
    trace != [] &&
    var e := trace[|trace| - 1];
    e.InboxStarted? || (!e.InboxStopped? && InboxOn(trace[..|trace| - 1]))
  }

  /** The inbox was started again after it had been stopped, which only a shutdown does. */
  predicate Revived(trace: seq<Event>) {
    trace != [] &&
    var front := trace[..|trace| - 1];
    Revived(front) || (trace[|trace| - 1].InboxStarted? && InboxStopped in front)
  }

  /** What happened stays happened. */
  predicate Grew(before: seq<Event>, after: seq<Event>) {
    && before <= after
    && (Revived(before) ==> Revived(after))
    && (PhaseOf(before) == Bad ==> PhaseOf(after) == Bad)
  }

  predicate Grows(s: Proc, r: Proc) {
    Grew(s.trace, r.trace)
  }

  lemma {:induction false} GrewNothing(trace: seq<Event>)
    ensures Grew(trace, trace)
  {
  }

  lemma {:induction false} GrewTwice(a: seq<Event>, b: seq<Event>, c: seq<Event>)
    requires Grew(a, b) && Grew(b, c)
    ensures Grew(a, c)
  {
    hide Revived, PhaseOf;
  }

  function Emit(s: Proc, e: Event): (r: Proc)
    ensures PhaseOf(r.trace) == Advance(PhaseOf(s.trace), e)
    ensures Attempts(r.trace)
         == Attempts(s.trace) + (if e.Received? && e.call.Message? then [User(e.call.content)] else [])
    ensures RestartCount(r.trace) == RestartCount(s.trace) + (if e.Restarted? then 1 else 0)
    ensures Cancels(r.trace) == Cancels(s.trace) + (if e.Cancelled? then [e.id] else [])
    ensures InboxOn(r.trace) <==> e.InboxStarted? || (!e.InboxStopped? && InboxOn(s.trace))
    ensures Revived(r.trace) <==> Revived(s.trace) || (e.InboxStarted? && InboxStopped in s.trace)
    ensures InboxStopped in r.trace <==> InboxStopped in s.trace || e == InboxStopped
    ensures Deregistered in r.trace <==> Deregistered in s.trace || e == Deregistered
    ensures s.trace <= r.trace
    ensures r.mbuffer == s.mbuffer && r.restarts == s.restarts && r.calls == s.calls
  {
    var r := s.(trace := s.trace + [e]);
    assert r.trace[..|s.trace|] == s.trace && r.trace[|s.trace|] == e;
    r
  }

  const NEWBORN := Proc(0, [], 0, [])

  // ---------------------------------------------------------------- the process

  /** How many counted restarts are left; restarts is an int32 and wraps. */
  function RestartsLeft(max: int32, restarts: int32): nat {
    if restarts <= max then max - restarts else max - restarts + TWO32
  }

  function Budget(c: Config, s: Proc): nat {
    RestartsLeft(c.maxRestarts, s.restarts)
  }

  /** The next value of the restart counter. */
  function Counted(restarts: int32): int32 {
    ToInt32(restarts + 1)
  }

  lemma {:induction false} CountedSpendsOne(c: Config, s: Proc)
    requires s.restarts != c.maxRestarts
    ensures Budget(c, s.(restarts := Counted(s.restarts))) == Budget(c, s) - 1
  {
    if s.restarts == TWO31 - 1 {
      assert Counted(s.restarts) == -TWO31;
    } else {
      assert Counted(s.restarts) == s.restarts + 1;
    }
  }

  /** How many handler calls may still raise InternalError at startup. */
  function CallsLeft(calm: nat, calls: nat): nat {
    if calls < calm then calm - calls else 0
  }

  function CalmLeft(c: Config, s: Proc): nat {
    CallsLeft(c.calm, s.calls)
  }

  function Receive(c: Config, s: Proc, call: Call): (r: (Proc, Option<Panic>))
    ensures Grows(s, r.0)
    ensures r.0.calls == s.calls + 1 && r.0.mbuffer == s.mbuffer && r.0.restarts == s.restarts
    ensures r.1 != Some(NilCall)
  {
    var s' := Emit(s, Received(call)).(calls := s.calls + 1);
    match c.oracle(s.calls, call)
    case Fine => (s', None)
    case Panics => (s', Some(HandlerPanic))
    case PanicsInternally => (s', Some(InternalError))
  }

  /** invokeMsg: pills are suppressed. */
  function InvokeMsg(c: Config, s: Proc, m: Msg): (r: (Proc, Option<Panic>))
    ensures Grows(s, r.0)
    ensures r.0.calls >= s.calls && r.0.mbuffer == s.mbuffer && r.0.restarts == s.restarts
    ensures r.1 != Some(NilCall)
  {
    match m
    case Pill(_, _) => (s, None)
    case User(content) => Receive(c, s, Message(content))
  }

  /** The drain loop of a graceful pill, over msgs[i..]. */
  function Drain(c: Config, s: Proc, msgs: seq<Msg>, i: nat): (r: (Proc, Option<Panic>))
    requires i <= |msgs|
    ensures Grows(s, r.0)
    ensures r.0.calls >= s.calls && r.0.mbuffer == s.mbuffer && r.0.restarts == s.restarts
    ensures r.1 != Some(NilCall)
    decreases |msgs| - i
  {
    if i == |msgs| then (s, None)
    else
      var (s1, p) := InvokeMsg(c, s, msgs[i]);
      if p.Some? then (s1, p) else Drain(c, s1, msgs, i + 1)
  }

  /** cleanup, without the children: the deferred cancel comes last, and a nil one panics. */
  function Cleanup(s: Proc, cancel: Option<nat>): (r: (Proc, Option<Panic>))
    ensures Grows(s, r.0)
    ensures r.0.calls == s.calls && r.0.mbuffer == s.mbuffer && r.0.restarts == s.restarts
    ensures r.1 == if cancel.None? then Some(NilCall) else None
  {
    var s1 := Emit(Emit(Emit(s, InboxStopped), Deregistered), GotStopped);
    match cancel
    case Some(id) => (Emit(s1, Cancelled(id)), None)
    case None => (s1, Some(NilCall))
  }

  /** The main loop of Invoke from `i` on: the state, nproc, and the panic that ended it, if any. */
  function Work(c: Config, s: Proc, msgs: seq<Msg>, i: nat): (r: (Proc, nat, Option<Panic>))
    requires i <= |msgs|
    ensures Grows(s, r.0)
    ensures i <= r.1 <= |msgs| && (r.2.Some? ==> i < r.1 && r.2.value != NilCall)
    ensures r.0.calls >= s.calls && r.0.mbuffer == s.mbuffer && r.0.restarts == s.restarts
    decreases |msgs| - i
  {
    hide Emit, PhaseOf, Attempts, RestartCount, Cancels, InboxOn, Revived, Grew, InvokeMsg, Drain, Cleanup;
    GrewNothing(s.trace);
    if i == |msgs| then (s, i, None)
    else if msgs[i].Pill? then
      var (s1, p) := if msgs[i].graceful then Drain(c, s, msgs, i) else (s, None);
      if p.Some? then (s1, i + 1, p)
      else
        var s2 := Cleanup(s1, Some(msgs[i].id)).0;
        GrewTwice(s.trace, s1.trace, s2.trace);
        (s2, i + 1, None)
    else
      var (s1, p) := InvokeMsg(c, s, msgs[i]);
      if p.Some? then (s1, i + 1, p)
      else
        var r := Work(c, s1, msgs, i + 1);
        GrewTwice(s.trace, s1.trace, r.0.trace);
        r
  }

  /** Start up to the replay: a new receiver gets Initialized and Started. */
  function Startup(c: Config, s: Proc): (r: (Proc, Option<Panic>))
    ensures Grows(s, r.0)
    ensures r.0.calls > s.calls && r.0.mbuffer == s.mbuffer && r.0.restarts == s.restarts
    ensures r.1 != Some(NilCall)
  {
    var (s1, p1) := Receive(c, Emit(s, Produced), Initialized);
    if p1.Some? then (s1, p1) else Receive(c, s1, Started)
  }

  lemma {:induction false} StartupCalms(c: Config, s: Proc)
    requires c.Calms()
    ensures Startup(c, s).1 == Some(InternalError) ==> CalmLeft(c, Startup(c, s).0) < CalmLeft(c, s)
  {
  }

  /** Emit, for what is announced. */
  function Noted(s: Proc, e: Event): (r: Proc)
    ensures Grows(s, r)
    ensures r.mbuffer == s.mbuffer && r.restarts == s.restarts && r.calls == s.calls
  {
    Emit(s, e)
  }

  /** A recovered panic is followed by Stopped for the receiver that raised it. */
  function StopReceiver(s: Proc): (r: Proc)
    ensures Grows(s, r)
    ensures r.mbuffer == s.mbuffer && r.restarts == s.restarts && r.calls == s.calls
  {
    Emit(s, GotStopped)
  }

  function StartInbox(s: Proc): (r: Proc)
    ensures Grows(s, r)
    ensures r.mbuffer == s.mbuffer && r.restarts == s.restarts && r.calls == s.calls
  {
    Emit(s, InboxStarted)
  }

  ghost function Invoke(c: Config, s: Proc, msgs: seq<Msg>): (r: (Proc, Option<Panic>))
    requires c.Calms()
    ensures Grows(s, r.0)
    ensures Budget(c, r.0) <= Budget(c, s) && r.0.calls >= s.calls
    ensures r.1.Some? ==> r.1.value == NilCall && r.0.restarts == c.maxRestarts
    decreases 2 * Budget(c, s), CalmLeft(c, s), |msgs|, 0
  {
    var (s1, nproc, p) := Work(c, s, msgs, 0);
    if p.None? then (s1, None)
    else TryRestart(c, StopReceiver(s1).(mbuffer := msgs[nproc..]), p.value)
  }

  ghost function Start(c: Config, s: Proc): (r: (Proc, Option<Panic>))
    requires c.Calms()
    ensures Grows(s, r.0)
    ensures Budget(c, r.0) <= Budget(c, s) && r.0.calls >= s.calls
    ensures r.1.Some? ==> r.1.value == NilCall && r.0.restarts == c.maxRestarts
    decreases 2 * Budget(c, s), CalmLeft(c, s), |s.mbuffer|, 1
  {
    hide Emit, PhaseOf, Attempts, RestartCount, Cancels, InboxOn, Revived, Grew, Startup, RestartsLeft, StopReceiver, StartInbox;
    StartupCalms(c, s);
    var (s1, p1) := Startup(c, s);
    assert Budget(c, s1) == Budget(c, s);
    if p1.Some? then
      GrewTwice(s.trace, s1.trace, StopReceiver(s1).trace);
      var r := TryRestart(c, StopReceiver(s1), p1.value);
      GrewTwice(s.trace, StopReceiver(s1).trace, r.0.trace);
      r
    else if s1.mbuffer == [] then
      GrewTwice(s.trace, s1.trace, StartInbox(s1).trace);
      (StartInbox(s1), None)
    else
      var (s2, p2) := Invoke(c, s1, s1.mbuffer);
      GrewTwice(s.trace, s1.trace, s2.trace);
      if p2.Some? then
        GrewTwice(s.trace, s2.trace, StopReceiver(s2).trace);
        var r := TryRestart(c, StopReceiver(s2), p2.value);
        GrewTwice(s.trace, StopReceiver(s2).trace, r.0.trace);
        r
      else
        var s3 := StartInbox(s2.(mbuffer := []));
        GrewTwice(s.trace, s2.trace, s3.trace);
        (s3, None)
  }

  ghost function TryRestart(c: Config, s: Proc, v: Panic): (r: (Proc, Option<Panic>))
    requires c.Calms()
    ensures Grows(s, r.0)
    ensures Budget(c, r.0) <= Budget(c, s) && r.0.calls >= s.calls
    ensures r.1.Some? ==> r.1.value == NilCall && r.0.restarts == c.maxRestarts
    decreases if v == InternalError then 2 * Budget(c, s) else 2 * Budget(c, s) - 1, CalmLeft(c, s), |s.mbuffer|, 2
  {
    hide Emit, PhaseOf, Attempts, RestartCount, Cancels, InboxOn, Revived, Grew, RestartsLeft, Counted, Cleanup, Noted;
    if v == InternalError then Start(c, s)
    else if s.restarts == c.maxRestarts then
      var s1 := Noted(s, MaxRestartsExceeded);
      var r := Cleanup(s1, None);
      GrewTwice(s.trace, s1.trace, r.0.trace);
      r
    else
      CountedSpendsOne(c, s);
      var s1 := Noted(s.(restarts := Counted(s.restarts)), Restarted(Counted(s.restarts)));
      var r := Start(c, s1);
      GrewTwice(s.trace, s1.trace, r.0.trace);
      r
  }

  // ---------------------------------------------------------------- the restart budget

  /** The counted restarts a call makes are announced one by one and come out of the budget. */
  lemma {:induction false} InvokeSpends(c: Config, s: Proc, msgs: seq<Msg>)
    requires c.Calms()
    ensures RestartCount(Invoke(c, s, msgs).0.trace) + Budget(c, Invoke(c, s, msgs).0)
         == RestartCount(s.trace) + Budget(c, s)
    decreases 2 * Budget(c, s), CalmLeft(c, s), |msgs|, 0
  {
    hide Emit, PhaseOf, Attempts, RestartCount, Cancels, InboxOn, Revived;
    var (s1, nproc, p) := Work(c, s, msgs, 0);
    WorkAnnouncesNothing(c, s, msgs, 0);
    if p.Some? {
      TryRestartSpends(c, Emit(s1, GotStopped).(mbuffer := msgs[nproc..]), p.value);
    }
  }

  lemma {:induction false} StartupAnnouncesNothing(c: Config, s: Proc)
    ensures RestartCount(Startup(c, s).0.trace) == RestartCount(s.trace)
  {
    hide Emit, PhaseOf, Attempts, RestartCount, Cancels, InboxOn, Revived;
  }

  lemma {:induction false} StartSpends(c: Config, s: Proc)
    requires c.Calms()
    ensures RestartCount(Start(c, s).0.trace) + Budget(c, Start(c, s).0) == RestartCount(s.trace) + Budget(c, s)
    decreases 2 * Budget(c, s), CalmLeft(c, s), |s.mbuffer|, 1
  {
    hide Emit, PhaseOf, Attempts, RestartCount, Cancels, InboxOn, Revived;
    hide Startup;
    StartupAnnouncesNothing(c, s);
    StartupCalms(c, s);
    var (s1, p1) := Startup(c, s);
    if p1.Some? {
      TryRestartSpends(c, Emit(s1, GotStopped), p1.value);
    } else if s1.mbuffer != [] {
      InvokeSpends(c, s1, s1.mbuffer);
      var (s2, p2) := Invoke(c, s1, s1.mbuffer);
      if p2.Some? {
        TryRestartSpends(c, Emit(s2, GotStopped), p2.value);
      }
    }
  }

  lemma {:induction false} TryRestartSpends(c: Config, s: Proc, v: Panic)
    requires c.Calms()
    ensures RestartCount(TryRestart(c, s, v).0.trace) + Budget(c, TryRestart(c, s, v).0)
         == RestartCount(s.trace) + Budget(c, s)
    decreases if v == InternalError then 2 * Budget(c, s) else 2 * Budget(c, s) - 1, CalmLeft(c, s), |s.mbuffer|, 2
  {
    hide Emit, PhaseOf, Attempts, RestartCount, Cancels, InboxOn, Revived, Counted;
    if v == InternalError {
      StartSpends(c, s);
    } else if s.restarts != c.maxRestarts {
      CountedSpendsOne(c, s);
      var s1 := s.(restarts := Counted(s.restarts));
      StartSpends(c, Emit(s1, Restarted(s1.restarts)));
    }
  }

  lemma {:induction false} DrainAnnouncesNothing(c: Config, s: Proc, msgs: seq<Msg>, i: nat)
    requires i <= |msgs|
    ensures RestartCount(Drain(c, s, msgs, i).0.trace) == RestartCount(s.trace)
    decreases |msgs| - i
  {
    hide Emit, PhaseOf, Attempts, RestartCount, Cancels, InboxOn, Revived;
    if i < |msgs| && InvokeMsg(c, s, msgs[i]).1.None? {
      DrainAnnouncesNothing(c, InvokeMsg(c, s, msgs[i]).0, msgs, i + 1);
    }
  }

  lemma {:induction false} WorkAnnouncesNothing(c: Config, s: Proc, msgs: seq<Msg>, i: nat)
    requires i <= |msgs|
    ensures RestartCount(Work(c, s, msgs, i).0.trace) == RestartCount(s.trace)
    decreases |msgs| - i
  {
    hide Emit, PhaseOf, Attempts, RestartCount, Cancels, InboxOn, Revived;
    if i < |msgs| {
      DrainAnnouncesNothing(c, s, msgs, i);
      if msgs[i].User? && InvokeMsg(c, s, msgs[i]).1.None? {
        WorkAnnouncesNothing(c, InvokeMsg(c, s, msgs[i]).0, msgs, i + 1);
      }
    }
  }

  /** A process that starts within its limit stays within it. */
  lemma {:induction false} RestartsWithinLimit(c: Config, s: Proc, msgs: seq<Msg>)
    requires c.Calms() && 0 <= s.restarts <= c.maxRestarts
    ensures s.restarts <= Invoke(c, s, msgs).0.restarts <= c.maxRestarts
    ensures s.restarts <= Start(c, s).0.restarts <= c.maxRestarts
    ensures RestartCount(Invoke(c, s, msgs).0.trace) - RestartCount(s.trace) == Invoke(c, s, msgs).0.restarts - s.restarts
  {
    hide Invoke, Start;
    InvokeSpends(c, s, msgs);
    StartSpends(c, s);
  }
}
