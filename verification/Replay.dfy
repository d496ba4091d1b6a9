/**
 What the nested recursion of Invoke, tryRestart and Start amounts to: a flat loop that handles one
 message after another and reboots the receiver when a handler panics. The loop knows nothing of
 nesting, of the replay buffer or of the history; it keeps a ledger.
 */
module Replay {
  import opened Machine
  import opened Supervision

  /** What can be seen of a process: its counters, the messages attempted and the pills answered. */
  datatype Ledger = Ledger(restarts: int32, calls: nat, attempts: seq<Msg>, cancels: seq<nat>)

  function LedgerOf(s: Proc): Ledger {
    Ledger(s.restarts, s.calls, Attempts(s.trace), Cancels(s.trace))
  }

  /** How a batch ends: all messages handled, the pill at a position answered, or the budget spent. */
  datatype End = Idle | Answered(at: nat) | Exhausted

  // ---------------------------------------------------------------- batches

  function Users(msgs: seq<Msg>): (us: seq<Msg>)
    ensures PillFree(us)
  {
    if msgs == [] then [] else (if msgs[0].User? then [msgs[0]] else []) + Users(msgs[1..])
  }

  /** The user messages a batch asks for: up to the first pill, and past it when the pill is graceful. */
  function Served(msgs: seq<Msg>): seq<Msg> {
    if msgs == [] then []
    else if msgs[0].User? then [msgs[0]] + Served(msgs[1..])
    else if msgs[0].graceful then Users(msgs[1..])
    else []
  }

  predicate PillFree(msgs: seq<Msg>) {
    forall i | 0 <= i < |msgs| :: msgs[i].User?
  }

  /** The position of the first pill, or the length of the batch. */
  function FirstPill(msgs: seq<Msg>): (k: nat)
    ensures k <= |msgs| && PillFree(msgs[..k]) && (k < |msgs| ==> msgs[k].Pill?)
  {
    if msgs == [] || msgs[0].Pill? then 0
    else
      var k := FirstPill(msgs[1..]);
      assert msgs[..k + 1] == [msgs[0]] + msgs[1..][..k];
      k + 1
  }

  /** The handler gets through these messages, the first of them being call number n. */
  predicate AllFine(c: Config, n: nat, us: seq<Msg>)
    decreases |us|
  {
    us == [] || ((us[0].User? ==> c.oracle(n, Message(us[0].content)) == Fine) && AllFine(c, n + 1, us[1..]))
  }

  /** The batch goes through without a panic: the messages ahead of the first pill, and those a graceful pill drains. */
  predicate CleanPass(c: Config, n: nat, msgs: seq<Msg>) {
    var k := FirstPill(msgs);
    && AllFine(c, n, msgs[..k])
    && (k < |msgs| && msgs[k].graceful ==> AllFine(c, n + k, Users(msgs[k + 1..])))
  }

  // ---------------------------------------------------------------- the flat loop

  function PanicOf(o: Outcome): Panic
    requires o != Fine
  {
    if o == Panics then HandlerPanic else InternalError
  }

  /** Receivers are made until one gets through Initialized and Started: counters, and whether one did. */
  ghost function Boot(c: Config, restarts: int32, n: nat): (r: (int32, nat, bool))
    requires c.Calms()
    ensures RestartsLeft(c.maxRestarts, r.0) <= RestartsLeft(c.maxRestarts, restarts)
    decreases 2 * RestartsLeft(c.maxRestarts, restarts), CallsLeft(c.calm, n), 0
  {
    if c.oracle(n, Initialized) != Fine then Reboot(c, restarts, n + 1, PanicOf(c.oracle(n, Initialized)))
    else if c.oracle(n + 1, Started) != Fine then Reboot(c, restarts, n + 2, PanicOf(c.oracle(n + 1, Started)))
    else (restarts, n + 2, true)
  }

  /** What a panic costs: an InternalError nothing, any other one restart. */
  ghost function Reboot(c: Config, restarts: int32, n: nat, v: Panic): (r: (int32, nat, bool))
    requires c.Calms()
    ensures RestartsLeft(c.maxRestarts, r.0) <= RestartsLeft(c.maxRestarts, restarts)
    decreases
      if v == InternalError then 2 * RestartsLeft(c.maxRestarts, restarts) else 2 * RestartsLeft(c.maxRestarts, restarts) - 1,
      CallsLeft(c.calm, n), 1
  {
    if v == InternalError then Boot(c, restarts, n)
    else if restarts == c.maxRestarts then (restarts, n, false)
    else
      CountedSpendsOne(c, Proc(restarts, [], n, []));
      Boot(c, Counted(restarts), n)
  }

  function Attempt(l: Ledger, m: Msg): Ledger {
    l.(calls := l.calls + 1, attempts := l.attempts + [m])
  }

  /** Draining user messages, up to the first panic. */
  function DrainAll(c: Config, l: Ledger, us: seq<Msg>): (Ledger, Option<Panic>)
    decreases |us|
  {
    if us == [] then (l, None)
    else if us[0].Pill? then DrainAll(c, l, us[1..])
    else
      var o := c.oracle(l.calls, Message(us[0].content));
      if o != Fine then (Attempt(l, us[0]), Some(PanicOf(o))) else DrainAll(c, Attempt(l, us[0]), us[1..])
  }

  /** The messages of a batch one after another; the first is at position `at`. */
  ghost function Flat(c: Config, l: Ledger, msgs: seq<Msg>, at: nat): (Ledger, End)
    requires c.Calms()
    decreases |msgs|, 0
  {
    if msgs == [] then (l, Idle)
    else match msgs[0]
      case User(content) =>
        var o := c.oracle(l.calls, Message(content));
        if o == Fine then Flat(c, Attempt(l, msgs[0]), msgs[1..], at + 1)
        else GoOn(c, Attempt(l, msgs[0]), PanicOf(o), msgs[1..], at + 1)
      case Pill(id, graceful) =>
        var (l1, p) := if graceful then DrainAll(c, l, msgs[1..]) else (l, None);
        if p.None? then (l1.(cancels := l1.cancels + [id]), Answered(at))
        else GoOn(c, l1, p.value, msgs[1..], at + 1)
  }

  /** After a panic: reboot, then the rest of the batch. */
  ghost function GoOn(c: Config, l: Ledger, v: Panic, rest: seq<Msg>, at: nat): (Ledger, End)
    requires c.Calms()
    decreases |rest|, 1
  {
    var (restarts, n, up) := Reboot(c, l.restarts, l.calls, v);
    var l1 := l.(restarts := restarts, calls := n);
    if up then Flat(c, l1, rest, at) else (l1, Exhausted)
  }

  /** A start with messages buffered: boot, then the messages. */
  ghost function Launch(c: Config, l: Ledger, rest: seq<Msg>, at: nat): (Ledger, End)
    requires c.Calms()
  {
    var (restarts, n, up) := Boot(c, l.restarts, l.calls);
    var l1 := l.(restarts := restarts, calls := n);
    if up then Flat(c, l1, rest, at) else (l1, Exhausted)
  }

  // ---------------------------------------------------------------- the nested recursion refines it

  lemma {:induction false} EmitKeepsLedger(s: Proc, e: Event)
    requires !(e.Received? && e.call.Message?) && !e.Cancelled?
    ensures LedgerOf(Emit(s, e)) == LedgerOf(s)
  {
    hide Attempts, Cancels;
    assert Attempts(s.trace) + [] == Attempts(s.trace) && Cancels(s.trace) + [] == Cancels(s.trace);
  }

  lemma {:induction false} ReceiveLedger(c: Config, s: Proc, call: Call)
    ensures var (r, p) := Receive(c, s, call);
      && LedgerOf(r) == (if call.Message? then Attempt(LedgerOf(s), User(call.content))
                         else LedgerOf(s).(calls := s.calls + 1))
      && (p == if c.oracle(s.calls, call) == Fine then None else Some(PanicOf(c.oracle(s.calls, call))))
  {
    hide Emit, PhaseOf, Attempts, RestartCount, Cancels, InboxOn, Revived;
    var e := Received(call);
    assert Cancels(s.trace) + [] == Cancels(s.trace) && Attempts(s.trace) + [] == Attempts(s.trace);
  }

  lemma {:induction false} CleanupLedger(s: Proc, cancel: Option<nat>)
    ensures LedgerOf(Cleanup(s, cancel).0)
         == LedgerOf(s).(cancels := Cancels(s.trace) + if cancel.Some? then [cancel.value] else [])
  {
    hide Emit, PhaseOf, Attempts, RestartCount, Cancels, InboxOn, Revived;
    EmitKeepsLedger(s, InboxStopped);
    EmitKeepsLedger(Emit(s, InboxStopped), Deregistered);
    EmitKeepsLedger(Emit(Emit(s, InboxStopped), Deregistered), GotStopped);
    assert Attempts(s.trace) + [] == Attempts(s.trace) && Cancels(s.trace) + [] == Cancels(s.trace);
  }

  lemma {:induction false} DrainRefines(c: Config, s: Proc, msgs: seq<Msg>, i: nat)
    requires i <= |msgs|
    ensures (LedgerOf(Drain(c, s, msgs, i).0), Drain(c, s, msgs, i).1) == DrainAll(c, LedgerOf(s), msgs[i..])
    decreases |msgs| - i
  {
    hide LedgerOf, Receive;
    if i < |msgs| {
      assert msgs[i..][1..] == msgs[i + 1..];
      if msgs[i].User? {
        ReceiveLedger(c, s, Message(msgs[i].content));
        CallsOf(s);
        if InvokeMsg(c, s, msgs[i]).1.None? {
          DrainRefines(c, InvokeMsg(c, s, msgs[i]).0, msgs, i + 1);
        }
      } else {
        DrainRefines(c, s, msgs, i + 1);
      }
    }
  }

  lemma {:induction false} CallsOf(s: Proc)
    ensures LedgerOf(s).calls == s.calls && LedgerOf(s).restarts == s.restarts
    ensures LedgerOf(s).cancels == Cancels(s.trace) && LedgerOf(s).attempts == Attempts(s.trace)
  {
  }

  /** The main loop, up to where it ends: the flat loop does the same and goes on with what Invoke replays. */
  lemma {:induction false} WorkRefines(c: Config, s: Proc, msgs: seq<Msg>, i: nat, at: nat)
    requires c.Calms() && i <= |msgs|
    ensures var (s1, n, p) := Work(c, s, msgs, i);
      var flat := Flat(c, LedgerOf(s), msgs[i..], at + i);
      if p.None? then flat.0 == LedgerOf(s1) && !flat.1.Exhausted?
      else flat == GoOn(c, LedgerOf(s1), p.value, msgs[n..], at + n)
    decreases |msgs| - i
  {
    hide LedgerOf, Receive, Drain, DrainAll, GoOn, Cleanup;
    if i < |msgs| {
      assert msgs[i..][1..] == msgs[i + 1..];
      if msgs[i].User? {
        ReceiveLedger(c, s, Message(msgs[i].content));
        CallsOf(s);
        if InvokeMsg(c, s, msgs[i]).1.None? {
          WorkRefines(c, InvokeMsg(c, s, msgs[i]).0, msgs, i + 1, at);
        }
      } else {
        DrainSkipsPill(c, s, msgs, i);
        var s1 := if msgs[i].graceful then Drain(c, s, msgs, i).0 else s;
        CleanupLedger(s1, Some(msgs[i].id));
        CallsOf(s1);
      }
    }
  }

  lemma {:induction false} DrainSkipsPill(c: Config, s: Proc, msgs: seq<Msg>, i: nat)
    requires i < |msgs| && msgs[i].Pill?
    ensures (LedgerOf(Drain(c, s, msgs, i).0), Drain(c, s, msgs, i).1) == DrainAll(c, LedgerOf(s), msgs[i + 1..])
  {
    hide LedgerOf;
    DrainRefines(c, s, msgs, i + 1);
  }

  lemma {:induction false} StartupRefines(c: Config, s: Proc)
    ensures var (s1, p) := Startup(c, s);
      if c.oracle(s.calls, Initialized) != Fine then
        LedgerOf(s1) == LedgerOf(s).(calls := s.calls + 1) && p == Some(PanicOf(c.oracle(s.calls, Initialized)))
      else
        && LedgerOf(s1) == LedgerOf(s).(calls := s.calls + 2)
        && p == if c.oracle(s.calls + 1, Started) == Fine then None else Some(PanicOf(c.oracle(s.calls + 1, Started)))
  {
    hide Emit, LedgerOf, Receive;
    EmitKeepsLedger(s, Produced);
    var s0 := Emit(s, Produced);
    CallsOf(s);
    CallsOf(s0);
    ReceiveLedger(c, s0, Initialized);
    var s1 := Receive(c, s0, Initialized).0;
    CallsOf(s1);
    ReceiveLedger(c, s1, Started);
  }

  /** With the budget spent, nothing more happens that the ledger could show. */
  lemma {:induction false} ExhaustedLedger(c: Config, s: Proc, v: Panic)
    requires c.Calms() && s.restarts == c.maxRestarts && v != InternalError
    ensures LedgerOf(TryRestart(c, s, v).0) == LedgerOf(s) && TryRestart(c, s, v).1.Some?
  {
    hide Emit, LedgerOf, Cleanup;
    var s1 := Emit(s, MaxRestartsExceeded);
    EmitKeepsLedger(s, MaxRestartsExceeded);
    CleanupLedger(s1, None);
    CallsOf(s1);
    assert Cancels(s1.trace) + [] == Cancels(s1.trace);
  }

  /** Invoke on a batch does what the flat loop does. */
  lemma {:induction false} InvokeRefines(c: Config, s: Proc, msgs: seq<Msg>, at: nat)
    requires c.Calms()
    ensures LedgerOf(Invoke(c, s, msgs).0) == Flat(c, LedgerOf(s), msgs, at).0
    ensures Invoke(c, s, msgs).1.Some? <==> Flat(c, LedgerOf(s), msgs, at).1.Exhausted?
    decreases 2 * Budget(c, s), CalmLeft(c, s), |msgs|, 0
  {
    hide Emit, PhaseOf, Attempts, RestartCount, Cancels, InboxOn, Revived, LedgerOf, Work, Flat, GoOn, RestartsLeft,
      TryRestart, Grows;
    var (s1, n, p) := Work(c, s, msgs, 0);
    assert msgs[0..] == msgs;
    WorkRefines(c, s, msgs, 0, at);
    if p.Some? {
      var s2 := Emit(s1, GotStopped).(mbuffer := msgs[n..]);
      EmitKeepsLedger(s1, GotStopped);
      BufferIsNotLedger(Emit(s1, GotStopped), msgs[n..]);
      TryRestartRefines(c, s2, p.value, at + n);
    }
  }

  lemma {:induction false} BufferIsNotLedger(s: Proc, buffer: seq<Msg>)
    ensures LedgerOf(s.(mbuffer := buffer)) == LedgerOf(s)
  {
  }

  /** Start with messages buffered boots a receiver and then does what the flat loop does with them. */
  lemma {:induction false} StartRefines(c: Config, s: Proc, at: nat)
    requires c.Calms()
    ensures LedgerOf(Start(c, s).0) == Launch(c, LedgerOf(s), s.mbuffer, at).0
    ensures Start(c, s).1.Some? <==> Launch(c, LedgerOf(s), s.mbuffer, at).1.Exhausted?
    decreases 2 * Budget(c, s), CalmLeft(c, s), |s.mbuffer|, 1
  {
    hide Emit, PhaseOf, Attempts, RestartCount, Cancels, InboxOn, Revived, LedgerOf, Startup, Flat, RestartsLeft, Reboot,
      TryRestart, Invoke, Grows;
    StartupCalms(c, s);
    StartupRefines(c, s);
    CallsOf(s);
    var (s1, p1) := Startup(c, s);
    CallsOf(s1);
    if p1.Some? {
      EmitKeepsLedger(s1, GotStopped);
      TryRestartRefines(c, Emit(s1, GotStopped), p1.value, at);
    } else if s1.mbuffer == [] {
      EmitKeepsLedger(s1, InboxStarted);
      FlatNothing(c, LedgerOf(s1), at);
    } else {
      InvokeRefines(c, s1, s1.mbuffer, at);
      var (s2, p2) := Invoke(c, s1, s1.mbuffer);
      if p2.Some? {
        EmitKeepsLedger(s2, GotStopped);
        ExhaustedLedger(c, Emit(s2, GotStopped), p2.value);
      } else {
        BufferIsNotLedger(s2, []);
        EmitKeepsLedger(s2.(mbuffer := []), InboxStarted);
      }
    }
  }

  lemma {:induction false} FlatNothing(c: Config, l: Ledger, at: nat)
    requires c.Calms()
    ensures Flat(c, l, [], at) == (l, Idle)
  {
  }

  lemma {:induction false} TryRestartRefines(c: Config, s: Proc, v: Panic, at: nat)
    requires c.Calms()
    ensures LedgerOf(TryRestart(c, s, v).0) == GoOn(c, LedgerOf(s), v, s.mbuffer, at).0
    ensures TryRestart(c, s, v).1.Some? <==> GoOn(c, LedgerOf(s), v, s.mbuffer, at).1.Exhausted?
    decreases if v == InternalError then 2 * Budget(c, s) else 2 * Budget(c, s) - 1, CalmLeft(c, s), |s.mbuffer|, 2
  {
    hide Emit, PhaseOf, LedgerOf, Flat, Counted, Boot;
    CallsOf(s);
    if v == InternalError {
      StartRefines(c, s, at);
    } else if s.restarts == c.maxRestarts {
      ExhaustedLedger(c, s, v);
    } else {
      CountedSpendsOne(c, s);
      var s1 := s.(restarts := Counted(s.restarts));
      EmitKeepsLedger(s1, Restarted(s1.restarts));
      CountsInLedger(s, Counted(s.restarts));
      StartRefines(c, Emit(s1, Restarted(s1.restarts)), at);
    }
  }

  lemma {:induction false} CountsInLedger(s: Proc, restarts: int32)
    ensures LedgerOf(s.(restarts := restarts)) == LedgerOf(s).(restarts := restarts)
  {
  }

  // ---------------------------------------------------------------- when a pass panics

  /** The position of the first message the handler panics on, the first being call number n. */
  function FirstBroken(c: Config, n: nat, us: seq<Msg>): nat
    decreases |us|
  {
    if us == [] || (us[0].User? && c.oracle(n, Message(us[0].content)) != Fine) then 0
    else 1 + FirstBroken(c, n + 1, us[1..])
  }

  lemma {:induction false} DrainAllUsers(c: Config, l: Ledger, msgs: seq<Msg>)
    ensures DrainAll(c, l, msgs) == DrainAll(c, l, Users(msgs))
    decreases |msgs|
  {
    if msgs != [] {
      if msgs[0].User? {
        assert ([msgs[0]] + Users(msgs[1..]))[1..] == Users(msgs[1..]);
        DrainAllUsers(c, Attempt(l, msgs[0]), msgs[1..]);
      } else {
        assert [] + Users(msgs[1..]) == Users(msgs[1..]);
        DrainAllUsers(c, l, msgs[1..]);
      }
    }
  }

  lemma {:induction false} DrainFine(c: Config, l: Ledger, us: seq<Msg>)
    requires PillFree(us) && AllFine(c, l.calls, us)
    ensures DrainAll(c, l, us) == (l.(calls := l.calls + |us|, attempts := l.attempts + us), None)
    decreases |us|
  {
    if us == [] {
      assert l.attempts + us == l.attempts;
    } else {
      PillFreeTail(us);
      DrainFine(c, Attempt(l, us[0]), us[1..]);
      assert l.attempts + [us[0]] + us[1..] == l.attempts + us;
    }
  }

  lemma {:induction false} FirstBrokenIs(c: Config, n: nat, us: seq<Msg>)
    requires PillFree(us) && !AllFine(c, n, us)
    ensures var i := FirstBroken(c, n, us); i < |us| && c.oracle(n + i, Message(us[i].content)) != Fine
    decreases |us|
  {
    PillFreeTail(us);
    if c.oracle(n, Message(us[0].content)) == Fine {
      FirstBrokenIs(c, n + 1, us[1..]);
    }
  }

  lemma {:induction false} DrainBroken(c: Config, l: Ledger, us: seq<Msg>)
    requires PillFree(us) && !AllFine(c, l.calls, us)
    requires var i := FirstBroken(c, l.calls, us); i < |us| && c.oracle(l.calls + i, Message(us[i].content)) != Fine
    ensures var i := FirstBroken(c, l.calls, us);
      DrainAll(c, l, us) == (l.(calls := l.calls + i + 1, attempts := l.attempts + us[..i + 1]),
                             Some(PanicOf(c.oracle(l.calls + i, Message(us[i].content)))))
    decreases |us|
  {
    PillFreeTail(us);
    if c.oracle(l.calls, Message(us[0].content)) == Fine {
      var i := FirstBroken(c, l.calls + 1, us[1..]);
      DrainBroken(c, Attempt(l, us[0]), us[1..]);
      TakeOneMore(l.attempts, us, i + 1);
    } else {
      assert us[..1] == [us[0]];
    }
  }

  lemma {:induction false} TakeOneMore(a: seq<Msg>, us: seq<Msg>, n: nat)
    requires n < |us|
    ensures a + [us[0]] + us[1..][..n] == a + us[..n + 1]
  {
    assert us[..n + 1] == [us[0]] + us[1..][..n];
  }

  /** A drain attempts its messages in order, up to and including the first that panics. */
  lemma {:induction false} DrainExact(c: Config, l: Ledger, us: seq<Msg>)
    requires PillFree(us)
    ensures AllFine(c, l.calls, us) ==>
      DrainAll(c, l, us) == (l.(calls := l.calls + |us|, attempts := l.attempts + us), None)
    ensures !AllFine(c, l.calls, us) ==>
      var i := FirstBroken(c, l.calls, us);
      && i < |us| && c.oracle(l.calls + i, Message(us[i].content)) != Fine
      && DrainAll(c, l, us) == (l.(calls := l.calls + i + 1, attempts := l.attempts + us[..i + 1]),
                                Some(PanicOf(c.oracle(l.calls + i, Message(us[i].content)))))
  {
    hide AllFine, DrainAll, FirstBroken, PillFree;
    if AllFine(c, l.calls, us) {
      DrainFine(c, l, us);
    } else {
      FirstBrokenIs(c, l.calls, us);
      DrainBroken(c, l, us);
    }
  }

  lemma {:induction false} DrainPanicsExactly(c: Config, s: Proc, msgs: seq<Msg>, i: nat)
    requires i <= |msgs|
    ensures Drain(c, s, msgs, i).1.None? <==> AllFine(c, s.calls, Users(msgs[i..]))
  {
    hide LedgerOf, DrainAll, AllFine, Drain, Users;
    CallsOf(s);
    DrainRefines(c, s, msgs, i);
    DrainAllUsers(c, LedgerOf(s), msgs[i..]);
    DrainExact(c, LedgerOf(s), Users(msgs[i..]));
  }

  /** One message of a batch, as CleanPass sees it. */
  lemma {:induction false} CleanPassStep(c: Config, n: nat, msgs: seq<Msg>)
    requires msgs != [] && msgs[0].User?
    ensures FirstPill(msgs) == FirstPill(msgs[1..]) + 1
    ensures AllFine(c, n, msgs[..FirstPill(msgs)]) <==>
      c.oracle(n, Message(msgs[0].content)) == Fine && AllFine(c, n + 1, msgs[1..][..FirstPill(msgs[1..])])
    ensures CleanPass(c, n, msgs) <==> c.oracle(n, Message(msgs[0].content)) == Fine && CleanPass(c, n + 1, msgs[1..])
  {
    var k := FirstPill(msgs);
    assert msgs[..k][1..] == msgs[1..][..k - 1];
    if k < |msgs| {
      assert msgs[k + 1..] == msgs[1..][k..];
    }
  }

  /** The loop of Invoke panics exactly when the batch does not go through clean from its call number on. */
  lemma {:induction false} WorkPanicsExactly(c: Config, s: Proc, msgs: seq<Msg>, i: nat)
    requires i <= |msgs|
    ensures Work(c, s, msgs, i).2.None? <==> CleanPass(c, s.calls, msgs[i..])
    decreases |msgs| - i
  {
    hide Drain, Receive, Cleanup, AllFine, FirstPill;
    if i == |msgs| {
      NothingIsClean(c, s.calls, msgs[i..]);
    } else {
      assert msgs[i..][1..] == msgs[i + 1..];
      if msgs[i].User? {
        ReceivesFine(c, s, msgs[i].content);
        CleanPassStep(c, s.calls, msgs[i..]);
        if InvokeMsg(c, s, msgs[i]).1.None? {
          WorkPanicsExactly(c, InvokeMsg(c, s, msgs[i]).0, msgs, i + 1);
        }
      } else {
        PillComesFirst(c, s, msgs, i);
      }
    }
  }

  lemma {:induction false} NothingIsClean(c: Config, n: nat, msgs: seq<Msg>)
    requires msgs == []
    ensures CleanPass(c, n, msgs) && FirstPill(msgs) == 0
  {
  }

  lemma {:induction false} ReceivesFine(c: Config, s: Proc, content: int)
    ensures Receive(c, s, Message(content)).1.None? <==> c.oracle(s.calls, Message(content)) == Fine
    ensures Receive(c, s, Message(content)).0.calls == s.calls + 1
  {
  }

  lemma {:induction false} PillComesFirst(c: Config, s: Proc, msgs: seq<Msg>, i: nat)
    requires i < |msgs| && msgs[i].Pill?
    ensures FirstPill(msgs[i..]) == 0
    ensures AllFine(c, s.calls, msgs[i..][..0])
    ensures Users(msgs[i..]) == Users(msgs[i..][1..])
    ensures Drain(c, s, msgs, i).1.None? <==> AllFine(c, s.calls, Users(msgs[i..][0 + 1..]))
  {
    hide Drain;
    DrainPanicsExactly(c, s, msgs, i);
    assert [] + Users(msgs[i..][1..]) == Users(msgs[i..][1..]);
  }

  /** The first pill is graceful, the messages ahead of it go through, and one that it drains does not. */
  predicate DrainBreaks(c: Config, n: nat, msgs: seq<Msg>) {
    var k := FirstPill(msgs);
    && k < |msgs| && msgs[k].graceful
    && AllFine(c, n, msgs[..k]) && !AllFine(c, n + k, Users(msgs[k + 1..]))
  }

  lemma {:induction false} DrainBreaksStep(c: Config, n: nat, msgs: seq<Msg>)
    requires msgs != [] && msgs[0].User?
    ensures DrainBreaks(c, n, msgs) <==> c.oracle(n, Message(msgs[0].content)) == Fine && DrainBreaks(c, n + 1, msgs[1..])
  {
    hide AllFine;
    CleanPassStep(c, n, msgs);
    var k := FirstPill(msgs);
    if k < |msgs| {
      assert msgs[k + 1..] == msgs[1..][k..] && msgs[k] == msgs[1..][k - 1];
    }
  }

  /** The loop of Invoke panics at a pill, that is inside its drain, exactly when the drain breaks. */
  lemma {:induction false} DrainBreaksExactly(c: Config, s: Proc, msgs: seq<Msg>, i: nat)
    requires i <= |msgs|
    ensures var (s1, n, p) := Work(c, s, msgs, i);
      p.Some? && msgs[n - 1].Pill? <==> DrainBreaks(c, s.calls, msgs[i..])
    decreases |msgs| - i
  {
    hide Drain, Receive, Cleanup, AllFine, FirstPill;
    if i == |msgs| {
      NothingIsClean(c, s.calls, msgs[i..]);
    } else {
      assert msgs[i..][1..] == msgs[i + 1..];
      if msgs[i].User? {
        ReceivesFine(c, s, msgs[i].content);
        DrainBreaksStep(c, s.calls, msgs[i..]);
        if InvokeMsg(c, s, msgs[i]).1.None? {
          DrainBreaksExactly(c, InvokeMsg(c, s, msgs[i]).0, msgs, i + 1);
        }
      } else {
        PillComesFirst(c, s, msgs, i);
      }
    }
  }

  // ---------------------------------------------------------------- what the flat loop does

  /** Between `before` and `after`, messages of `wanted` were attempted in order, each once; all of them if complete. */
  ghost predicate Serves(before: seq<Msg>, after: seq<Msg>, wanted: seq<Msg>, complete: bool) {
    && before <= after
    && after[|before|..] <= wanted
    && (complete ==> after == before + wanted)
  }

  lemma {:induction false} ServesMore(a: seq<Msg>, m: Msg, z: seq<Msg>, rest: seq<Msg>, complete: bool)
    requires Serves(a + [m], z, rest, complete)
    ensures Serves(a, z, [m] + rest, complete)
  {
    assert z[|a|..] == [m] + z[|a| + 1..];
    if complete {
      assert a + [m] + rest == a + ([m] + rest);
    }
  }

  lemma {:induction false} ServesFewer(a: seq<Msg>, z: seq<Msg>, some: seq<Msg>, more: seq<Msg>)
    requires Serves(a, z, some, false)
    ensures Serves(a, z, some + more, false)
  {
  }

  lemma {:induction false} PillFreeTail(msgs: seq<Msg>)
    requires msgs != [] && PillFree(msgs)
    ensures PillFree(msgs[1..]) && msgs[0].User? && msgs == [msgs[0]] + msgs[1..]
  {
  }

  /** A batch without pills: in order, once each, all of it unless the budget runs out, and no pill answered. */
  lemma {:induction false} FlatUsers(c: Config, l: Ledger, us: seq<Msg>, at: nat)
    requires c.Calms() && PillFree(us)
    ensures var (r, end) := Flat(c, l, us, at);
      !end.Answered? && r.cancels == l.cancels && Serves(l.attempts, r.attempts, us, end.Idle?)
    decreases |us|
  {
    hide Reboot, Serves;
    if us == [] {
      ServesNothing(l.attempts);
    } else {
      PillFreeTail(us);
      var l1, o := Attempt(l, us[0]), c.oracle(l.calls, Message(us[0].content));
      var (r, end) := Flat(c, l, us, at);
      if o == Fine {
        FlatUsers(c, l1, us[1..], at + 1);
      } else {
        var (restarts, n, up) := Reboot(c, l1.restarts, l1.calls, PanicOf(o));
        if up {
          FlatUsers(c, l1.(restarts := restarts, calls := n), us[1..], at + 1);
        } else {
          ServesOnlyFirst(l1.attempts, us[1..]);
        }
        assert (r, end) == GoOn(c, l1, PanicOf(o), us[1..], at + 1);
      }
      ServesMore(l.attempts, us[0], r.attempts, us[1..], end.Idle?);
    }
  }

  lemma {:induction false} ServesNothing(a: seq<Msg>)
    ensures Serves(a, a, [], true)
  {
  }

  lemma {:induction false} ServesOnlyFirst(a: seq<Msg>, rest: seq<Msg>)
    ensures Serves(a, a, rest, false)
  {
  }

  /** The messages ahead of the rest may as well be a batch of their own. */
  lemma {:induction false} FlatSplit(c: Config, l: Ledger, us: seq<Msg>, rest: seq<Msg>, at: nat)
    requires c.Calms() && PillFree(us)
    ensures var (r, end) := Flat(c, l, us, at);
      Flat(c, l, us + rest, at) == if end.Exhausted? then (r, end) else Flat(c, r, rest, at + |us|)
    decreases |us|
  {
    hide Reboot;
    if us == [] {
      assert us + rest == rest;
    } else {
      PillFreeTail(us);
      assert (us + rest)[1..] == us[1..] + rest && (us + rest)[0] == us[0];
      var l1, o := Attempt(l, us[0]), c.oracle(l.calls, Message(us[0].content));
      if o == Fine {
        FlatSplit(c, l1, us[1..], rest, at + 1);
      } else {
        var (restarts, n, up) := Reboot(c, l1.restarts, l1.calls, PanicOf(o));
        if up {
          FlatSplit(c, l1.(restarts := restarts, calls := n), us[1..], rest, at + 1);
        }
      }
    }
  }

  lemma {:induction false} DrainKeepsCancels(c: Config, l: Ledger, us: seq<Msg>)
    ensures DrainAll(c, l, us).0.cancels == l.cancels
    decreases |us|
  {
    if us != [] {
      DrainKeepsCancels(c, if us[0].User? then Attempt(l, us[0]) else l, us[1..]);
    }
  }

  /** At most one pill of a batch is answered: the one at which the batch ends. */
  lemma {:induction false} FlatCancels(c: Config, l: Ledger, msgs: seq<Msg>, at: nat)
    requires c.Calms()
    ensures var (r, end) := Flat(c, l, msgs, at);
      if end.Answered? then
        && at <= end.at < at + |msgs| && msgs[end.at - at].Pill?
        && r.cancels == l.cancels + [msgs[end.at - at].id]
      else r.cancels == l.cancels
    decreases |msgs|, 0
  {
    hide Reboot, DrainAll;
    if msgs != [] {
      DrainKeepsCancels(c, l, msgs[1..]);
      var l1 := if msgs[0].User? then Attempt(l, msgs[0]) else if msgs[0].graceful then DrainAll(c, l, msgs[1..]).0 else l;
      FlatCancels(c, l1, msgs[1..], at + 1);
      if msgs[0].User? && c.oracle(l.calls, Message(msgs[0].content)) != Fine {
        GoOnCancels(c, l1, PanicOf(c.oracle(l.calls, Message(msgs[0].content))), msgs[1..], at + 1);
      } else if msgs[0].Pill? && msgs[0].graceful && DrainAll(c, l, msgs[1..]).1.Some? {
        GoOnCancels(c, l1, DrainAll(c, l, msgs[1..]).1.value, msgs[1..], at + 1);
      }
    }
  }

  lemma {:induction false} GoOnCancels(c: Config, l: Ledger, v: Panic, rest: seq<Msg>, at: nat)
    requires c.Calms()
    ensures var (r, end) := GoOn(c, l, v, rest, at);
      if end.Answered? then
        && at <= end.at < at + |rest| && rest[end.at - at].Pill?
        && r.cancels == l.cancels + [rest[end.at - at].id]
      else r.cancels == l.cancels
    decreases |rest|, 1
  {
    hide Reboot, Flat;
    var (restarts, n, up) := Reboot(c, l.restarts, l.calls, v);
    if up {
      FlatCancels(c, l.(restarts := restarts, calls := n), rest, at);
    }
  }

  // ---------------------------------------------------------------- what a batch gets

  /** What a pill at the head of a batch does. */
  lemma {:induction false} PillFlat(c: Config, l: Ledger, msgs: seq<Msg>, at: nat)
    requires c.Calms() && msgs != [] && msgs[0].Pill?
    ensures var us := Users(msgs[1..]);
      Flat(c, l, msgs, at) ==
        if !msgs[0].graceful then (l.(cancels := l.cancels + [msgs[0].id]), Answered(at))
        else if AllFine(c, l.calls, us) then
          (Ledger(l.restarts, l.calls + |us|, l.attempts + us, l.cancels + [msgs[0].id]), Answered(at))
        else Broken(c, l, us, msgs[1..], at + 1)
  {
    hide Reboot, DrainAll, AllFine, Users;
    DrainAllUsers(c, l, msgs[1..]);
    DrainExact(c, l, Users(msgs[1..]));
  }

  /** A drain of `us` that breaks: attempts up to the one that panics, a reboot, and then the rest, without the pill. */
  ghost function Broken(c: Config, l: Ledger, us: seq<Msg>, rest: seq<Msg>, at: nat): (Ledger, End)
    requires c.Calms() && PillFree(us) && !AllFine(c, l.calls, us)
  {
    var i := FirstBroken(c, l.calls, us);
    DrainExact(c, l, us);
    GoOn(c, l.(calls := l.calls + i + 1, attempts := l.attempts + us[..i + 1]),
         PanicOf(c.oracle(l.calls + i, Message(us[i].content))), rest, at)
  }

  lemma {:induction false} ServedSplit(msgs: seq<Msg>)
    ensures var k := FirstPill(msgs);
      Served(msgs) == msgs[..k] + if k < |msgs| && msgs[k].graceful then Users(msgs[k + 1..]) else []
    decreases |msgs|
  {
    hide Users, FirstPill;
    FirstPillStep(msgs);
    if msgs == [] || msgs[0].Pill? {
      assert msgs[..0] + Served(msgs) == Served(msgs);
    } else {
      ServedSplit(msgs[1..]);
      var k := FirstPill(msgs);
      var tail := if k < |msgs| && msgs[k].graceful then Users(msgs[k + 1..]) else [];
      assert msgs[..k] == [msgs[0]] + msgs[1..][..k - 1];
      assert [msgs[0]] + (msgs[1..][..k - 1] + tail) == msgs[..k] + tail;
      if k < |msgs| {
        assert msgs[k + 1..] == msgs[1..][k..];
      }
    }
  }

  lemma {:induction false} FirstPillStep(msgs: seq<Msg>)
    ensures FirstPill(msgs) == if msgs == [] || msgs[0].Pill? then 0 else 1 + FirstPill(msgs[1..])
  {
  }

  /** The messages ahead of the first pill, handled as a batch of their own. */
  ghost function UpToPill(c: Config, l: Ledger, msgs: seq<Msg>): (Ledger, End)
    requires c.Calms()
  {
    Flat(c, l, msgs[..FirstPill(msgs)], 0)
  }

  lemma {:induction false} PassPill(c: Config, l: Ledger, msgs: seq<Msg>)
    requires c.Calms()
    ensures var (k, (r, end)) := (FirstPill(msgs), UpToPill(c, l, msgs));
      && Flat(c, l, msgs, 0) == (if end.Exhausted? then (r, end) else Flat(c, r, msgs[k..], k))
      && !end.Answered? && r.cancels == l.cancels && Serves(l.attempts, r.attempts, msgs[..k], end.Idle?)
  {
    hide Flat, Serves;
    var k := FirstPill(msgs);
    assert msgs == msgs[..k] + msgs[k..];
    FlatSplit(c, l, msgs[..k], msgs[k..], 0);
    FlatUsers(c, l, msgs[..k], 0);
  }

  /** If the first pill is graceful and is reached, the messages it drains go through. */
  ghost predicate DrainHolds(c: Config, l: Ledger, msgs: seq<Msg>)
    requires c.Calms()
  {
    var k := FirstPill(msgs);
    k < |msgs| && msgs[k].graceful && UpToPill(c, l, msgs).1.Idle? ==>
      AllFine(c, UpToPill(c, l, msgs).0.calls, Users(msgs[k + 1..]))
  }

  /**
   The first pill of a batch is answered exactly when the messages ahead of it leave budget and it is
   hard or its drain holds.
   */
  lemma {:induction false} FirstPillAnswered(c: Config, l: Ledger, msgs: seq<Msg>)
    requires c.Calms() && FirstPill(msgs) < |msgs|
    ensures Flat(c, l, msgs, 0).1 == Answered(FirstPill(msgs)) <==> UpToPill(c, l, msgs).1.Idle? && DrainHolds(c, l, msgs)
  {
    hide Flat, Serves, AllFine, UpToPill;
    var k := FirstPill(msgs);
    var (r, end) := UpToPill(c, l, msgs);
    PassPill(c, l, msgs);
    if end.Idle? {
      PillFlat(c, r, msgs[k..], k);
      assert msgs[k..][1..] == msgs[k + 1..];
      if !DrainHolds(c, l, msgs) {
        BrokenLosesPill(c, r, Users(msgs[k + 1..]), msgs[k + 1..], k + 1);
      }
    }
  }

  lemma {:induction false} BrokenLosesPill(c: Config, l: Ledger, us: seq<Msg>, rest: seq<Msg>, at: nat)
    requires c.Calms() && PillFree(us) && !AllFine(c, l.calls, us)
    ensures Broken(c, l, us, rest, at).1.Answered? ==> at <= Broken(c, l, us, rest, at).1.at
  {
    hide GoOn;
    DrainExact(c, l, us);
    var i := FirstBroken(c, l.calls, us);
    GoOnCancels(c, l.(calls := l.calls + i + 1, attempts := l.attempts + us[..i + 1]),
                PanicOf(c.oracle(l.calls + i, Message(us[i].content))), rest, at);
  }

  /**
   Replay: unless the drain of a first graceful pill breaks, the messages a batch asks for are attempted
   in order, each once across all nested restarts, and all of them unless the budget runs out.
   */
  lemma {:induction false} InvokeServes(c: Config, s: Proc, msgs: seq<Msg>)
    requires c.Calms() && DrainHolds(c, LedgerOf(s), msgs)
    ensures Serves(Attempts(s.trace), Attempts(Invoke(c, s, msgs).0.trace), Served(msgs), Invoke(c, s, msgs).1.None?)
  {
    hide Flat, AllFine, UpToPill, Invoke, Served, Attempts, Cancels;
    InvokeRefines(c, s, msgs, 0);
    FlatServes(c, LedgerOf(s), msgs);
  }

  lemma {:induction false} FlatServes(c: Config, l: Ledger, msgs: seq<Msg>)
    requires c.Calms() && DrainHolds(c, l, msgs)
    ensures var (z, end) := Flat(c, l, msgs, 0); Serves(l.attempts, z.attempts, Served(msgs), !end.Exhausted?)
  {
    hide Flat, AllFine, UpToPill, Served, Serves, FirstPill, Users;
    var k := FirstPill(msgs);
    var (r, end) := UpToPill(c, l, msgs);
    PassPill(c, l, msgs);
    ServedSplit(msgs);
    var more := if k < |msgs| && msgs[k].graceful then Users(msgs[k + 1..]) else [];
    if end.Exhausted? {
      ServesFewer(l.attempts, r.attempts, msgs[..k], more);
    } else {
      ServesAll(l.attempts, r.attempts, msgs[..k]);
      ServesExactly(l.attempts, msgs[..k], more);
      if k == |msgs| {
        assert msgs[k..] == [] && r.attempts + [] == r.attempts;
        FlatNothing(c, r, k);
      } else {
        PillFlat(c, r, msgs[k..], k);
        assert msgs[k..][1..] == msgs[k + 1..] && r.attempts + [] == r.attempts;
      }
    }
  }

  lemma {:induction false} ServesExactly(a: seq<Msg>, first: seq<Msg>, second: seq<Msg>)
    ensures Serves(a, a + first + second, first + second, true)
  {
    assert a + first + second == a + (first + second);
  }

  /** With no pill first, or a hard one, there is no drain to break. */
  lemma {:induction false} WithoutDrain(c: Config, s: Proc, msgs: seq<Msg>)
    requires c.Calms() && (FirstPill(msgs) < |msgs| ==> !msgs[FirstPill(msgs)].graceful)
    ensures Serves(Attempts(s.trace), Attempts(Invoke(c, s, msgs).0.trace), msgs[..FirstPill(msgs)], Invoke(c, s, msgs).1.None?)
    ensures Invoke(c, s, msgs).1.Some? ==> Invoke(c, s, msgs).0.restarts == c.maxRestarts
  {
    hide Invoke, Attempts, Serves, UpToPill, AllFine, Served;
    InvokeServes(c, s, msgs);
    ServedSplit(msgs);
    assert msgs[..FirstPill(msgs)] + [] == msgs[..FirstPill(msgs)];
  }

  lemma {:induction false} NoPillAtAll(msgs: seq<Msg>)
    requires PillFree(msgs)
    ensures FirstPill(msgs) == |msgs|
  {
    if msgs != [] {
      PillFreeTail(msgs);
      NoPillAtAll(msgs[1..]);
    }
  }

  /**
   Crash replay: of a batch without pills, messages are attempted in order, each at most once
   across all nested restarts, and all of them unless the restart budget runs out.
   */
  lemma {:induction false} CrashReplay(c: Config, s: Proc, msgs: seq<Msg>)
    requires c.Calms() && PillFree(msgs)
    ensures Serves(Attempts(s.trace), Attempts(Invoke(c, s, msgs).0.trace), msgs, Invoke(c, s, msgs).1.None?)
    ensures Invoke(c, s, msgs).1.Some? ==> Invoke(c, s, msgs).0.restarts == c.maxRestarts
  {
    hide Invoke, Attempts, Serves;
    NoPillAtAll(msgs);
    assert msgs[..|msgs|] == msgs;
    WithoutDrain(c, s, msgs);
  }

  /** Which pills are answered: at most one of a batch, the one it ends at; whoever waits for another waits forever. */
  lemma {:induction false} PillsAnswered(c: Config, s: Proc, msgs: seq<Msg>)
    requires c.Calms()
    ensures var (r, end) := (Invoke(c, s, msgs).0, Flat(c, LedgerOf(s), msgs, 0).1);
      if end.Answered? then
        end.at < |msgs| && msgs[end.at].Pill? && Cancels(r.trace) == Cancels(s.trace) + [msgs[end.at].id]
      else Cancels(r.trace) == Cancels(s.trace)
  {
    hide Invoke, Flat, Attempts, Cancels;
    InvokeRefines(c, s, msgs, 0);
    FlatCancels(c, LedgerOf(s), msgs, 0);
  }

  /** A batch that goes through clean answers its first pill and no other. */
  lemma {:induction false} OnlyFirstPillAnswered(c: Config, s: Proc, msgs: seq<Msg>)
    requires c.Calms() && CleanPass(c, s.calls, msgs) && FirstPill(msgs) < |msgs|
    ensures Invoke(c, s, msgs).1.None? && Cancels(Invoke(c, s, msgs).0.trace) == Cancels(s.trace) + [msgs[FirstPill(msgs)].id]
  {
    hide Invoke, Flat, LedgerOf, CleanPass, FirstPill;
    CallsOf(s);
    CleanAnswers(c, LedgerOf(s), msgs);
    PillsAnswered(c, s, msgs);
    InvokeRefines(c, s, msgs, 0);
  }

  lemma {:induction false} CleanAnswers(c: Config, l: Ledger, msgs: seq<Msg>)
    requires c.Calms() && CleanPass(c, l.calls, msgs) && FirstPill(msgs) < |msgs|
    ensures Flat(c, l, msgs, 0).1 == Answered(FirstPill(msgs))
  {
    hide Flat, AllFine, FirstPill, Users;
    FineFlat(c, l, msgs[..FirstPill(msgs)], 0);
    FirstPillAnswered(c, l, msgs);
  }

  lemma {:induction false} FineFlat(c: Config, l: Ledger, us: seq<Msg>, at: nat)
    requires c.Calms() && PillFree(us) && AllFine(c, l.calls, us)
    ensures Flat(c, l, us, at) == (l.(calls := l.calls + |us|, attempts := l.attempts + us), Idle)
    decreases |us|
  {
    if us == [] {
      assert l.attempts + us == l.attempts;
    } else {
      PillFreeTail(us);
      FineFlat(c, Attempt(l, us[0]), us[1..], at + 1);
      assert l.attempts + [us[0]] + us[1..] == l.attempts + us;
    }
  }

  /**
   A drain that breaks, on any batch: the messages up to the one that panics were attempted, the pill is
   lost, and what came after the pill is handled from the start, so that those messages repeat.
   */
  lemma {:induction false} DrainPanicRepeats(c: Config, s: Proc, msgs: seq<Msg>)
    requires c.Calms() && UpToPill(c, LedgerOf(s), msgs).1.Idle? && !DrainHolds(c, LedgerOf(s), msgs)
    ensures var (k, r) := (FirstPill(msgs), UpToPill(c, LedgerOf(s), msgs).0);
      var us := Users(msgs[k + 1..]);
      var i := FirstBroken(c, r.calls, us);
      && r.attempts == Attempts(s.trace) + msgs[..k]
      && Flat(c, LedgerOf(s), msgs, 0) == Broken(c, r, us, msgs[k + 1..], k + 1)
      && Flat(c, LedgerOf(s), msgs, 0).1 != Answered(k)
      && (PillFree(msgs[k + 1..]) ==>
            && Cancels(Invoke(c, s, msgs).0.trace) == Cancels(s.trace)
            && i < |us| && us == msgs[k + 1..]
            && Serves(r.attempts + us[..i + 1], Attempts(Invoke(c, s, msgs).0.trace), us, Invoke(c, s, msgs).1.None?))
  {
    hide Invoke, Flat, GoOn, Attempts, Cancels, AllFine, UpToPill, Serves, Users;
    var (k, l) := (FirstPill(msgs), LedgerOf(s));
    var r := UpToPill(c, l, msgs).0;
    var us := Users(msgs[k + 1..]);
    PassPill(c, l, msgs);
    ServesAll(l.attempts, r.attempts, msgs[..k]);
    PillFlat(c, r, msgs[k..], k);
    assert msgs[k..][1..] == msgs[k + 1..];
    FirstPillAnswered(c, l, msgs);
    InvokeRefines(c, s, msgs, 0);
    DrainExact(c, r, us);
    if PillFree(msgs[k + 1..]) {
      AllUsers(msgs[k + 1..]);
      BrokenServes(c, r, us, k + 1);
    }
  }

  lemma {:induction false} ServesAll(a: seq<Msg>, z: seq<Msg>, wanted: seq<Msg>)
    requires Serves(a, z, wanted, true)
    ensures z == a + wanted
  {
  }

  lemma {:induction false} AllUsers(msgs: seq<Msg>)
    requires PillFree(msgs)
    ensures Users(msgs) == msgs
  {
    if msgs != [] {
      PillFreeTail(msgs);
      AllUsers(msgs[1..]);
    }
  }

  lemma {:induction false} BrokenServes(c: Config, l: Ledger, us: seq<Msg>, at: nat)
    requires c.Calms() && PillFree(us) && !AllFine(c, l.calls, us)
    ensures var (i, (z, end)) := (FirstBroken(c, l.calls, us), Broken(c, l, us, us, at));
      && i < |us| && z.cancels == l.cancels && !end.Answered?
      && Serves(l.attempts + us[..i + 1], z.attempts, us, end.Idle?)
  {
    hide Flat, Reboot, Serves, AllFine;
    DrainExact(c, l, us);
    var i := FirstBroken(c, l.calls, us);
    var l1 := l.(calls := l.calls + i + 1, attempts := l.attempts + us[..i + 1]);
    var (restarts, n, up) := Reboot(c, l1.restarts, l1.calls, PanicOf(c.oracle(l.calls + i, Message(us[i].content))));
    if up {
      FlatUsers(c, l1.(restarts := restarts, calls := n), us, at);
    } else {
      ServesOnlyFirst(l1.attempts, us);
    }
  }

  // ---------------------------------------------------------------- every batch, broken drains included

  /** Where the flat loop counts positions from changes nothing else. */
  lemma {:induction false} FlatAnywhere(c: Config, l: Ledger, msgs: seq<Msg>, at: nat, at': nat)
    requires c.Calms()
    ensures Flat(c, l, msgs, at).0 == Flat(c, l, msgs, at').0
    ensures Flat(c, l, msgs, at).1.Exhausted? <==> Flat(c, l, msgs, at').1.Exhausted?
    decreases |msgs|, 0
  {
    hide Reboot, DrainAll;
    if msgs != [] {
      var l1 := if msgs[0].User? then Attempt(l, msgs[0]) else if msgs[0].graceful then DrainAll(c, l, msgs[1..]).0 else l;
      FlatAnywhere(c, l1, msgs[1..], at + 1, at' + 1);
      if msgs[0].User? && c.oracle(l.calls, Message(msgs[0].content)) != Fine {
        GoOnAnywhere(c, l1, PanicOf(c.oracle(l.calls, Message(msgs[0].content))), msgs[1..], at + 1, at' + 1);
      } else if msgs[0].Pill? && msgs[0].graceful && DrainAll(c, l, msgs[1..]).1.Some? {
        GoOnAnywhere(c, l1, DrainAll(c, l, msgs[1..]).1.value, msgs[1..], at + 1, at' + 1);
      }
    }
  }

  lemma {:induction false} GoOnAnywhere(c: Config, l: Ledger, v: Panic, rest: seq<Msg>, at: nat, at': nat)
    requires c.Calms()
    ensures GoOn(c, l, v, rest, at).0 == GoOn(c, l, v, rest, at').0
    ensures GoOn(c, l, v, rest, at).1.Exhausted? <==> GoOn(c, l, v, rest, at').1.Exhausted?
    decreases |rest|, 1
  {
    hide Reboot, Flat;
    var (restarts, n, up) := Reboot(c, l.restarts, l.calls, v);
    if up {
      FlatAnywhere(c, l.(restarts := restarts, calls := n), rest, at, at');
    }
  }

  /** The ledger after a drain of `us` that breaks and the reboot that follows, and whether there was one. */
  ghost function Rebooted(c: Config, l: Ledger, us: seq<Msg>): (Ledger, bool)
    requires c.Calms() && PillFree(us) && !AllFine(c, l.calls, us)
  {
    FirstBrokenIs(c, l.calls, us);
    var i := FirstBroken(c, l.calls, us);
    var v := PanicOf(c.oracle(l.calls + i, Message(us[i].content)));
    var (restarts, n, up) := Reboot(c, l.restarts, l.calls + i + 1, v);
    (Ledger(restarts, n, l.attempts + us[..i + 1], l.cancels), up)
  }

  /**
   The messages a batch asks for when drains may break: up to the first pill, what its drain gets
   through, and then, if there is a reboot, what the messages after the pill ask for.
   */
  ghost function Asked(c: Config, l: Ledger, msgs: seq<Msg>): seq<Msg>
    requires c.Calms()
    decreases |msgs|
  {
    if DrainHolds(c, l, msgs) then Served(msgs)
    else
      var (k, r) := (FirstPill(msgs), UpToPill(c, l, msgs).0);
      var us := Users(msgs[k + 1..]);
      FirstBrokenIs(c, r.calls, us);
      var (l1, up) := Rebooted(c, r, us);
      msgs[..k] + us[..FirstBroken(c, r.calls, us) + 1] + if up then Asked(c, l1, msgs[k + 1..]) else []
  }

  lemma {:induction false} BrokenIs(c: Config, l: Ledger, us: seq<Msg>, rest: seq<Msg>, at: nat)
    requires c.Calms() && PillFree(us) && !AllFine(c, l.calls, us)
    ensures var (l1, up) := Rebooted(c, l, us);
      Broken(c, l, us, rest, at) == if up then Flat(c, l1, rest, at) else (l1, Exhausted)
  {
    hide Flat, Reboot, AllFine, FirstBroken;
    DrainExact(c, l, us);
  }

  /** The flat loop on a batch whose first drain breaks. */
  lemma {:induction false} FlatBroken(c: Config, l: Ledger, msgs: seq<Msg>)
    requires c.Calms() && !DrainHolds(c, l, msgs)
    ensures var (k, r) := (FirstPill(msgs), UpToPill(c, l, msgs).0);
      var (l1, up) := Rebooted(c, r, Users(msgs[k + 1..]));
      && r.attempts == l.attempts + msgs[..k]
      && Flat(c, l, msgs, 0) == if up then Flat(c, l1, msgs[k + 1..], k + 1) else (l1, Exhausted)
  {
    hide Flat, AllFine, UpToPill, Serves, Users, Rebooted, Broken;
    var (k, r) := (FirstPill(msgs), UpToPill(c, l, msgs).0);
    PassPill(c, l, msgs);
    ServesAll(l.attempts, r.attempts, msgs[..k]);
    PillFlat(c, r, msgs[k..], k);
    assert msgs[k..][1..] == msgs[k + 1..];
    BrokenIs(c, r, Users(msgs[k + 1..]), msgs[k + 1..], k + 1);
  }

  lemma {:induction false} FlatAsked(c: Config, l: Ledger, msgs: seq<Msg>)
    requires c.Calms()
    ensures var (z, end) := Flat(c, l, msgs, 0); Serves(l.attempts, z.attempts, Asked(c, l, msgs), !end.Exhausted?)
    decreases |msgs|
  {
    hide Flat, AllFine, UpToPill, Served, Serves, Reboot, Users, FirstBroken, FirstPill;
    if DrainHolds(c, l, msgs) {
      FlatServes(c, l, msgs);
    } else {
      FlatBroken(c, l, msgs);
      var (k, r) := (FirstPill(msgs), UpToPill(c, l, msgs).0);
      var us, rest := Users(msgs[k + 1..]), msgs[k + 1..];
      FirstBrokenIs(c, r.calls, us);
      var done := msgs[..k] + us[..FirstBroken(c, r.calls, us) + 1];
      var (l1, up) := Rebooted(c, r, us);
      assert l1.attempts == l.attempts + done;
      if up {
        FlatAsked(c, l1, rest);
        FlatAnywhere(c, l1, rest, k + 1, 0);
        ServesAfter(l.attempts, done, Flat(c, l1, rest, 0).0.attempts, Asked(c, l1, rest), !Flat(c, l1, rest, 0).1.Exhausted?);
      } else {
        assert done + [] == done;
        ServesSome(l.attempts, done);
      }
    }
  }

  lemma {:induction false} ServesAfter(a: seq<Msg>, done: seq<Msg>, z: seq<Msg>, rest: seq<Msg>, complete: bool)
    requires Serves(a + done, z, rest, complete)
    ensures Serves(a, z, done + rest, complete)
  {
    assert z[|a|..] == done + z[|a + done|..];
    assert a + done + rest == a + (done + rest);
  }

  lemma {:induction false} ServesSome(a: seq<Msg>, done: seq<Msg>)
    ensures Serves(a, a + done, done, false)
  {
  }

  /** What is attempted, for every batch and every panic pattern: in order what it asks for, all of it unless the budget runs out. */
  lemma {:induction false} InvokeAttempts(c: Config, s: Proc, msgs: seq<Msg>)
    requires c.Calms()
    ensures Serves(Attempts(s.trace), Attempts(Invoke(c, s, msgs).0.trace), Asked(c, LedgerOf(s), msgs), Invoke(c, s, msgs).1.None?)
  {
    hide Flat, Invoke, Asked, Attempts, Cancels, Serves;
    InvokeRefines(c, s, msgs, 0);
    FlatAsked(c, LedgerOf(s), msgs);
  }
}
