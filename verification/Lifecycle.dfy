/**
 The life of receivers over whole runs: what each sees, when a process that was shut down comes back
 to life, and exactly which runs then give messages to a receiver that was already stopped.
 */
module Lifecycle {
  import opened Machine
  import opened Supervision
  import opened Replay
  import opened History

  /** The process was never shut down. */
  ghost predicate Fresh(s: Proc) {
    InboxStopped !in s.trace && Deregistered !in s.trace && !Revived(s.trace)
  }

  // ---------------------------------------------------------------- one pass

  lemma {:induction false} DrainLife(c: Config, s: Proc, msgs: seq<Msg>, i: nat)
    requires i <= |msgs| && PhaseOf(s.trace) == Up && Fresh(s)
    ensures var r := Drain(c, s, msgs, i).0;
      PhaseOf(r.trace) == Up && Fresh(r) && InboxOn(r.trace) == InboxOn(s.trace) && Cancels(r.trace) == Cancels(s.trace)
    decreases |msgs| - i
  {
    hide Emit, PhaseOf, Attempts, RestartCount, Cancels, InboxOn, Revived, Grew;
    if i < |msgs| {
      assert Cancels(s.trace) + [] == Cancels(s.trace);
      if InvokeMsg(c, s, msgs[i]).1.None? {
        DrainLife(c, InvokeMsg(c, s, msgs[i]).0, msgs, i + 1);
      }
    }
  }

  /** A pass leaves the receiver up, or stopped once by the pill it answered. */
  lemma {:induction false} WorkLife(c: Config, s: Proc, msgs: seq<Msg>, i: nat)
    requires i <= |msgs| && PhaseOf(s.trace) == Up && Fresh(s)
    ensures var (s1, n, p) := Work(c, s, msgs, i);
      if p.Some? || Cancels(s1.trace) == Cancels(s.trace) then
        PhaseOf(s1.trace) == Up && Fresh(s1) && InboxOn(s1.trace) == InboxOn(s.trace) && Cancels(s1.trace) == Cancels(s.trace)
      else
        && PhaseOf(s1.trace) == Down(1) && !InboxOn(s1.trace) && !Revived(s1.trace)
        && InboxStopped in s1.trace && Deregistered in s1.trace
    decreases |msgs| - i
  {
    hide Emit, PhaseOf, Attempts, RestartCount, Cancels, InboxOn, Revived, Grew, Drain;
    if i < |msgs| {
      assert Cancels(s.trace) + [] == Cancels(s.trace);
      if msgs[i].Pill? {
        DrainLife(c, s, msgs, i);
        StoppedOnce(if msgs[i].graceful then Drain(c, s, msgs, i).0 else s, msgs[i].id);
      } else if InvokeMsg(c, s, msgs[i]).1.None? {
        WorkLife(c, InvokeMsg(c, s, msgs[i]).0, msgs, i + 1);
      }
    }
  }

  /** cleanup for a pill: the inbox is off, the receiver got one more Stopped, and the pill is answered. */
  lemma {:induction false} StoppedOnce(s: Proc, id: nat)
    ensures var r := Cleanup(s, Some(id)).0;
      && PhaseOf(r.trace) == Advance(PhaseOf(s.trace), GotStopped)
      && !InboxOn(r.trace) && Revived(r.trace) == Revived(s.trace)
      && InboxStopped in r.trace && Deregistered in r.trace
      && Cancels(r.trace) == Cancels(s.trace) + [id]
  {
    hide Emit, PhaseOf, Attempts, RestartCount, Cancels, InboxOn, Revived, Grew;
    assert Cancels(s.trace) + [] == Cancels(s.trace);
  }

  // ---------------------------------------------------------------- one call

  /**
   What a call leaves behind. A panic out of it means that the limit was announced and the process closed
   down for good: inbox off, deregistered, receiver stopped. Otherwise the receiver is up and no pill was
   answered, or it was stopped once and one was; and in that case the inbox is on again exactly when the
   pill was answered after a restart.
   */
  ghost predicate LivesOn(before: Proc, after: Proc, p: Option<Panic>, restarted: bool) {
    var phase := PhaseOf(after.trace);
    if p.Some? then
      && phase.Down? && !Revived(after.trace) && ClosedDown(after.trace)
      && MaxRestartsExceeded in after.trace && Deregistered in after.trace && !InboxOn(after.trace)
    else if Cancels(after.trace) == Cancels(before.trace) then
      phase == Up && Fresh(after) && (restarted || InboxOn(before.trace) ==> InboxOn(after.trace))
    else
      && phase == Down(1) && InboxStopped in after.trace && Deregistered in after.trace
      && (Revived(after.trace) <==> restarted) && (InboxOn(after.trace) <==> restarted)
  }

  lemma {:induction false} InvokeLife(c: Config, s: Proc, msgs: seq<Msg>)
    requires c.Calms() && PhaseOf(s.trace) == Up && Fresh(s)
    ensures LivesOn(s, Invoke(c, s, msgs).0, Invoke(c, s, msgs).1, Work(c, s, msgs, 0).2.Some?)
    decreases 2 * Budget(c, s), CalmLeft(c, s), |msgs|, 0
  {
    hide Emit, PhaseOf, Attempts, RestartCount, Cancels, InboxOn, Revived, Grew, Work, RestartsLeft, ClosedDown;
    var (s1, n, p) := Work(c, s, msgs, 0);
    WorkLife(c, s, msgs, 0);
    if p.Some? {
      assert Cancels(s1.trace) + [] == Cancels(s1.trace);
      TryRestartLife(c, Emit(s1, GotStopped).(mbuffer := msgs[n..]), p.value);
    }
  }

  lemma {:induction false} StartupLife(c: Config, s: Proc)
    requires PhaseOf(s.trace).Unborn? || PhaseOf(s.trace) == Down(1)
    ensures var (s1, p) := Startup(c, s);
      && (p.None? ==> PhaseOf(s1.trace) == Up)
      && PhaseOf(Emit(s1, GotStopped).trace) == Down(1)
      && Cancels(s1.trace) == Cancels(s.trace) && (Fresh(s) ==> Fresh(s1))
  {
    hide Emit, PhaseOf, Attempts, RestartCount, Cancels, InboxOn, Revived, Grew;
    assert Cancels(s.trace) + [] == Cancels(s.trace);
  }

  lemma {:induction false} StartLife(c: Config, s: Proc)
    requires c.Calms() && (PhaseOf(s.trace).Unborn? || PhaseOf(s.trace) == Down(1)) && Fresh(s)
    ensures LivesOn(s, Start(c, s).0, Start(c, s).1, true)
    decreases 2 * Budget(c, s), CalmLeft(c, s), |s.mbuffer|, 1
  {
    hide Emit, PhaseOf, Attempts, RestartCount, Cancels, InboxOn, Revived, Grew, Startup, RestartsLeft, Invoke, TryRestart,
      ClosedDown;
    StartupCalms(c, s);
    StartupLife(c, s);
    var (s1, p1) := Startup(c, s);
    assert Cancels(s.trace) + [] == Cancels(s.trace);
    if p1.Some? {
      TryRestartLife(c, Emit(s1, GotStopped), p1.value);
    } else if s1.mbuffer != [] {
      InvokeLife(c, s1, s1.mbuffer);
      var (s2, p2) := Invoke(c, s1, s1.mbuffer);
      if p2.Some? {
        ExhaustedLife(c, Emit(s2, GotStopped), p2.value);
      } else {
        InboxStartedLife(s2.(mbuffer := []));
      }
    }
  }

  lemma {:induction false} InboxStartedLife(s: Proc)
    ensures var r := Emit(s, InboxStarted);
      && PhaseOf(r.trace) == PhaseOf(s.trace) && Cancels(r.trace) == Cancels(s.trace) && InboxOn(r.trace)
      && (Revived(r.trace) <==> Revived(s.trace) || InboxStopped in s.trace)
      && (InboxStopped in r.trace <==> InboxStopped in s.trace)
      && (Deregistered in r.trace <==> Deregistered in s.trace)
  {
    hide PhaseOf, Attempts, RestartCount, Cancels, InboxOn, Revived;
    assert Cancels(s.trace) + [] == Cancels(s.trace);
  }

  /** With the budget spent the receiver gets its last Stopped and the inbox stays off. */
  lemma {:induction false} ExhaustedLife(c: Config, s: Proc, v: Panic)
    requires c.Calms() && s.restarts == c.maxRestarts && v != InternalError && PhaseOf(s.trace).Down? && !Revived(s.trace)
    ensures LivesOn(s, TryRestart(c, s, v).0, TryRestart(c, s, v).1, true) && TryRestart(c, s, v).1.Some?
  {
    hide Emit, PhaseOf, Attempts, RestartCount, Cancels, InboxOn, Revived, Grew, ClosedDown;
    TryRestartCloses(c, s, v);
    ClosedDownMeans(TryRestart(c, s, v).0.trace);
  }

  lemma {:induction false} TryRestartLife(c: Config, s: Proc, v: Panic)
    requires c.Calms() && PhaseOf(s.trace) == Down(1) && Fresh(s)
    ensures LivesOn(s, TryRestart(c, s, v).0, TryRestart(c, s, v).1, true)
    decreases if v == InternalError then 2 * Budget(c, s) else 2 * Budget(c, s) - 1, CalmLeft(c, s), |s.mbuffer|, 2
  {
    hide Emit, PhaseOf, Attempts, RestartCount, Cancels, InboxOn, Revived, Grew, Counted, Start, ClosedDown;
    assert Cancels(s.trace) + [] == Cancels(s.trace);
    if v == InternalError {
      StartLife(c, s);
    } else if s.restarts == c.maxRestarts {
      ExhaustedLife(c, s, v);
    } else {
      CountedSpendsOne(c, s);
      var s1 := s.(restarts := Counted(s.restarts));
      StartLife(c, Emit(s1, Restarted(s1.restarts)));
    }
  }

  // ---------------------------------------------------------------- coming back to life

  /**
   A process that was shut down is started again exactly when one of the pills of the batch is
   answered although the batch did not go through clean.
   */
  lemma {:induction false} RevivedExactly(c: Config, s: Proc, msgs: seq<Msg>)
    requires c.Calms() && PhaseOf(s.trace) == Up && Fresh(s)
    ensures Revived(Invoke(c, s, msgs).0.trace) <==>
      Flat(c, LedgerOf(s), msgs, 0).1.Answered? && !CleanPass(c, s.calls, msgs)
  {
    hide Invoke, Flat, PhaseOf, Attempts, Cancels, InboxOn, Revived, CleanPass, Work;
    InvokeLife(c, s, msgs);
    InvokeRefines(c, s, msgs, 0);
    PillsAnswered(c, s, msgs);
    WorkPanicsExactly(c, s, msgs, 0);
    assert msgs[0..] == msgs;
  }

  /** Unless its drain breaks: when the first pill is reached, and a handler panics on a message ahead of it. */
  lemma {:induction false} RevivedByPanicAhead(c: Config, s: Proc, msgs: seq<Msg>)
    requires c.Calms() && PhaseOf(s.trace) == Up && Fresh(s) && DrainHolds(c, LedgerOf(s), msgs)
    ensures var k := FirstPill(msgs);
      Revived(Invoke(c, s, msgs).0.trace) <==>
        k < |msgs| && UpToPill(c, LedgerOf(s), msgs).1.Idle? && !AllFine(c, s.calls, msgs[..k])
  {
    hide Invoke, Flat, PhaseOf, Revived, LedgerOf, AllFine, FirstPill, Users;
    var (k, l) := (FirstPill(msgs), LedgerOf(s));
    CallsOf(s);
    RevivedExactly(c, s, msgs);
    PassPill(c, l, msgs);
    if k == |msgs| {
      assert msgs[k..] == [];
      FlatNothing(c, UpToPill(c, l, msgs).0, k);
    } else {
      FirstPillAnswered(c, l, msgs);
      if AllFine(c, s.calls, msgs[..k]) {
        FineFlat(c, l, msgs[..k], 0);
      }
    }
  }

  /** A replayed pill shuts the process down and then, as every Start ends, starts its inbox again. */
  lemma {:induction false} ReplayedPillRevives(c: Config, s: Proc, pill: Msg)
    requires c.Calms() && (PhaseOf(s.trace).Unborn? || PhaseOf(s.trace) == Down(1)) && Fresh(s)
    requires pill.Pill? && s.mbuffer == [pill] && Boot(c, s.restarts, s.calls).2
    ensures var (r, p) := Start(c, s);
      && p.None? && Revived(r.trace) && InboxOn(r.trace) && PhaseOf(r.trace) == Down(1)
      && Cancels(r.trace) == Cancels(s.trace) + [pill.id]
  {
    hide Start, PhaseOf, Attempts, Cancels, InboxOn, Revived, Boot;
    StartLife(c, s);
    StartRefines(c, s, 0);
    var l := LedgerOf(s);
    var (restarts, n, up) := Boot(c, l.restarts, l.calls);
    LonePill(c, l.(restarts := restarts, calls := n), pill);
  }

  lemma {:induction false} LonePill(c: Config, l: Ledger, pill: Msg)
    requires c.Calms() && pill.Pill?
    ensures Flat(c, l, [pill], 0) == (l.(cancels := l.cancels + [pill.id]), Answered(0))
  {
    assert DrainAll(c, l, [pill][1..]) == (l, None);
  }

  // ---------------------------------------------------------------- messages for a receiver that was stopped

  lemma {:induction false} DeadDrain(c: Config, s: Proc, msgs: seq<Msg>, i: nat)
    requires i <= |msgs| && PhaseOf(s.trace).Down?
    ensures if Users(msgs[i..]) == [] then Drain(c, s, msgs, i) == (s, None)
            else PhaseOf(Drain(c, s, msgs, i).0.trace) == Bad
    decreases |msgs| - i
  {
    hide Emit, PhaseOf, Attempts, RestartCount, Cancels, InboxOn, Revived;
    if i < |msgs| {
      assert msgs[i..][1..] == msgs[i + 1..];
      if msgs[i].Pill? {
        assert [] + Users(msgs[i + 1..]) == Users(msgs[i + 1..]);
        DeadDrain(c, s, msgs, i + 1);
      }
    }
  }

  /** A batch that asks for a message makes it reach a stopped receiver; any other one stops the receiver once more. */
  lemma {:induction false} DeadWork(c: Config, s: Proc, msgs: seq<Msg>)
    requires msgs != [] && PhaseOf(s.trace).Down?
    ensures if Served(msgs) == [] then Work(c, s, msgs, 0) == (Cleanup(s, Some(msgs[0].id)).0, 1, None) && msgs[0].Pill?
            else PhaseOf(Work(c, s, msgs, 0).0.trace) == Bad
  {
    hide Emit, PhaseOf, Attempts, RestartCount, Cancels, InboxOn, Revived, Drain, Cleanup;
    assert msgs[0..] == msgs;
    if msgs[0].Pill? {
      DeadDrain(c, s, msgs, 0);
      assert [] + Users(msgs[1..]) == Users(msgs[1..]);
      CleanupStaysBad(if msgs[0].graceful then Drain(c, s, msgs, 0).0 else s, msgs[0].id);
    } else {
      var (s1, p) := InvokeMsg(c, s, msgs[0]);
      assert PhaseOf(s1.trace) == Bad;
    }
  }

  lemma {:induction false} CleanupStaysBad(s: Proc, id: nat)
    ensures PhaseOf(s.trace) == Bad ==> PhaseOf(Cleanup(s, Some(id)).0.trace) == Bad
  {
  }

  /** The same for the whole call: what is bad stays bad, and otherwise the inbox is off for good. */
  lemma {:induction false} DeadInvoke(c: Config, s: Proc, msgs: seq<Msg>)
    requires c.Calms() && msgs != [] && PhaseOf(s.trace).Down?
    ensures var (r, p) := Invoke(c, s, msgs);
      if Served(msgs) == [] then p.None? && !InboxOn(r.trace) && PhaseOf(r.trace) == Down(PhaseOf(s.trace).stops + 1)
      else PhaseOf(r.trace) == Bad
  {
    hide Emit, PhaseOf, Attempts, RestartCount, Cancels, InboxOn, Revived, Work, Served, TryRestart, Cleanup;
    DeadWork(c, s, msgs);
    if Served(msgs) == [] {
      StoppedOnce(s, msgs[0].id);
    }
  }

  // ---------------------------------------------------------------- whole lives

  /**
   The batches that are handed to Invoke, one after another. The single consumer of an inbox leaves
   when the inbox is off. After a revival there are two, and a batch that one of them has popped is
   handed over even if the other has meanwhile turned the inbox off again.
   */
  ghost function Live(c: Config, s: Proc, batches: seq<seq<Msg>>): (r: (Proc, Option<Panic>))
    requires c.Calms()
    ensures PhaseOf(s.trace) == Bad ==> PhaseOf(r.0.trace) == Bad
    decreases |batches|
  {
    hide PhaseOf, InboxOn, Revived, Invoke;
    if batches == [] || (!InboxOn(s.trace) && !Revived(s.trace)) then (s, None)
    else
      var (s1, p) := Invoke(c, s, batches[0]);
      if p.Some? then (s1, p) else Live(c, s1, batches[1..])
  }

  /**
   Over a whole life, whatever it goes through: restarts are announced in turn, every pill is answered right
   after a shutdown, and a panic leaves only a process that was closed down.
   */
  lemma {:induction false} LifeIsTidy(c: Config, s: Proc, batches: seq<seq<Msg>>)
    requires c.Calms() && Tidy(s)
    ensures Tidy(Live(c, s, batches).0) && (Live(c, s, batches).1.Some? ==> ClosedDown(Live(c, s, batches).0.trace))
    decreases |batches|
  {
    hide PhaseOf, InboxOn, Revived, Invoke, Tidy, ClosedDown, Work;
    if batches != [] && (InboxOn(s.trace) || Revived(s.trace)) {
      InvokeEndsWell(c, s, batches[0]);
      if Invoke(c, s, batches[0]).1.None? {
        LifeIsTidy(c, Invoke(c, s, batches[0]).0, batches[1..]);
      }
    }
  }

  /** From the first Start on. */
  lemma {:induction false} WholeLifeIsTidy(c: Config, batches: seq<seq<Msg>>)
    requires c.Calms()
    ensures var (s, p) := Start(c, NEWBORN);
      if p.Some? then Tidy(s) && ClosedDown(s.trace)
      else
        && Tidy(Live(c, s, batches).0) && s.mbuffer == []
        && (Live(c, s, batches).1.Some? ==> ClosedDown(Live(c, s, batches).0.trace))
  {
    hide Start, Live, ClosedDown;
    StartEndsWell(c, NEWBORN);
    if Start(c, NEWBORN).1.None? {
      LifeIsTidy(c, Start(c, NEWBORN).0, batches);
    }
  }

  /** One of the batches asks for a message. */
  predicate Asks(batches: seq<seq<Msg>>) {
    exists b | b in batches :: Served(b) != []
  }

  lemma {:induction false} AsksFirst(batches: seq<seq<Msg>>)
    requires batches != []
    ensures Asks(batches) <==> Served(batches[0]) != [] || Asks(batches[1..])
  {
    assert batches == [batches[0]] + batches[1..];
    if Served(batches[0]) != [] {
      assert batches[0] in batches;
    } else if Asks(batches[1..]) {
      var b :| b in batches[1..] && Served(b) != [];
      assert b in batches;
    }
  }

  /** Some batch answers a pill after a panic, and one handed over after it asks for a message. */
  ghost predicate Relapses(c: Config, l: Ledger, batches: seq<seq<Msg>>)
    requires c.Calms()
    decreases |batches|
  {
    batches != [] &&
    match Flat(c, l, batches[0], 0)
    case (_, Exhausted) => false
    case (_, Answered(_)) => !CleanPass(c, l.calls, batches[0]) && Asks(batches[1..])
    case (l1, Idle) => Relapses(c, l1, batches[1..])
  }

  /** After a revival, whatever the inbox does: a message reaches a stopped receiver exactly when a batch asks for one. */
  lemma {:induction false} DeadLife(c: Config, s: Proc, batches: seq<seq<Msg>>)
    requires c.Calms() && PhaseOf(s.trace).Down? && Revived(s.trace)
    ensures PhaseOf(Live(c, s, batches).0.trace) == Bad <==> Asks(batches)
    decreases |batches|
  {
    hide PhaseOf, InboxOn, Revived, Invoke, Served, Asks;
    if batches == [] {
      NobodyAsks();
    } else {
      AsksFirst(batches);
      if batches[0] == [] {
        EmptyBatch(c, s);
        NothingServed();
        DeadLife(c, s, batches[1..]);
      } else {
        DeadInvoke(c, s, batches[0]);
        if Served(batches[0]) == [] {
          DeadLife(c, Invoke(c, s, batches[0]).0, batches[1..]);
        }
      }
    }
  }

  lemma {:induction false} NothingServed()
    ensures Served([]) == []
  {
  }

  lemma {:induction false} NobodyAsks()
    ensures !Asks([])
  {
  }

  lemma {:induction false} EmptyBatch(c: Config, s: Proc)
    requires c.Calms()
    ensures Invoke(c, s, []) == (s, None)
  {
  }

  lemma {:induction false} LifeExact(c: Config, s: Proc, batches: seq<seq<Msg>>)
    requires c.Calms() && PhaseOf(s.trace) == Up && InboxOn(s.trace) && Fresh(s)
    ensures PhaseOf(Live(c, s, batches).0.trace) == Bad <==> Relapses(c, LedgerOf(s), batches)
    decreases |batches|
  {
    hide PhaseOf, InboxOn, Revived, Invoke, Flat, CleanPass, Attempts, Cancels, Work, Asks;
    if batches != [] {
      var msgs := batches[0];
      var (s1, p) := Invoke(c, s, msgs);
      InvokeLife(c, s, msgs);
      InvokeRefines(c, s, msgs, 0);
      PillsAnswered(c, s, msgs);
      WorkPanicsExactly(c, s, msgs, 0);
      assert msgs[0..] == msgs;
      if p.None? {
        if PhaseOf(s1.trace) == Up {
          LifeExact(c, s1, batches[1..]);
        } else if InboxOn(s1.trace) {
          DeadLife(c, s1, batches[1..]);
        } else {
          assert Live(c, s1, batches[1..]).0 == s1;
        }
      }
    }
  }

  lemma {:induction false} NewbornLife()
    ensures PhaseOf(NEWBORN.trace) == Unborn && Fresh(NEWBORN) && LedgerOf(NEWBORN) == Ledger(0, 0, [], [])
  {
  }

  /**
   Lifecycle: from its first Start through any batches with any panics, every receiver of a process sees
   Initialized, Started, messages and then only Stopped, if and only if the batches do not relapse.
   */
  lemma {:induction false} LifecycleExact(c: Config, batches: seq<seq<Msg>>)
    requires c.Calms()
    ensures var (s, p) := Start(c, NEWBORN);
      && PhaseOf(s.trace) != Bad
      && (p.None? ==> (PhaseOf(Live(c, s, batches).0.trace) == Bad <==> Relapses(c, LedgerOf(s), batches)))
  {
    hide Start, PhaseOf, Revived, InboxOn, Flat, Attempts, Cancels, Relapses;
    NewbornLife();
    StartLife(c, NEWBORN);
    StartRefines(c, NEWBORN, 0);
    var (s, p) := Start(c, NEWBORN);
    var l := LedgerOf(NEWBORN);
    var (restarts, n, up) := Boot(c, l.restarts, l.calls);
    FlatNothing(c, l.(restarts := restarts, calls := n), 0);
    if p.None? {
      LifeExact(c, s, batches);
    }
  }

  /** No relapse where every batch has no pill, or goes through clean whenever it comes. */
  lemma {:induction false} NoRelapse(c: Config, l: Ledger, batches: seq<seq<Msg>>)
    requires c.Calms()
    requires forall b | b in batches :: PillFree(b) || forall n: nat :: CleanPass(c, n, b)
    ensures !Relapses(c, l, batches)
    decreases |batches|
  {
    hide Flat, CleanPass, Asks;
    if batches != [] {
      var b := batches[0];
      assert b in batches;
      if PillFree(b) {
        FlatUsers(c, l, b, 0);
      } else {
        assert CleanPass(c, l.calls, b);
      }
      var (l1, end) := Flat(c, l, b, 0);
      if end.Idle? {
        NoRelapse(c, l1, batches[1..]);
      }
    }
  }

  /** So lives are proper, whatever panics, if there are no pills; and with pills, if no handler panics ahead of or under one. */
  lemma {:induction false} Lifecycle(c: Config, batches: seq<seq<Msg>>)
    requires c.Calms()
    requires forall b | b in batches :: PillFree(b) || forall n: nat :: CleanPass(c, n, b)
    ensures var (s, p) := Start(c, NEWBORN); p.None? ==> PhaseOf(Live(c, s, batches).0.trace) != Bad
  {
    hide Start, PhaseOf, Relapses, CleanPass;
    LifecycleExact(c, batches);
    NoRelapse(c, LedgerOf(Start(c, NEWBORN).0), batches);
  }

  // ---------------------------------------------------------------- a life that goes wrong

  /** The handler panics on its first message and on nothing else. */
  const CLUMSY := Config(3, (n, call) => if n == 2 then Panics else Fine, 0)

  /**
   A message that panics ahead of a pill, then any batches, among them one with a message: it reaches a
   receiver that was stopped, even when a batch before it, popped by the other consumer, is a pill that
   turns the inbox off again.
   */
  lemma {:induction false} LifeAfterDeath(x: int, id: nat, graceful: bool, later: seq<seq<Msg>>)
    requires Asks(later)
    ensures CLUMSY.Calms()
    ensures var (s, p) := Start(CLUMSY, NEWBORN);
      p.None? && PhaseOf(Live(CLUMSY, s, [[User(x), Pill(id, graceful)]] + later).0.trace) == Bad
  {
    hide Start, PhaseOf, Attempts, Cancels, Flat, CleanPass, Live, Asks;
    var (c, batches) := (CLUMSY, [[User(x), Pill(id, graceful)]] + later);
    NewbornLife();
    StartRefines(c, NEWBORN, 0);
    FlatNothing(c, Ledger(0, 2, [], []), 0);
    ClumsyFlat(x, id, graceful);
    assert batches[1..] == later;
    LifecycleExact(c, batches);
  }

  lemma {:induction false} PillThenMessage(y: int, id: nat)
    ensures Asks([[Pill(id, false)], [User(y)]])
  {
    assert [User(y)] in [[Pill(id, false)], [User(y)]] && Served([User(y)]) != [];
  }

  lemma {:induction false} ClumsyFlat(x: int, id: nat, graceful: bool)
    ensures Flat(CLUMSY, Ledger(0, 2, [], []), [User(x), Pill(id, graceful)], 0).1 == Answered(1)
    ensures !CleanPass(CLUMSY, 2, [User(x), Pill(id, graceful)])
  {
    var (c, msgs) := (CLUMSY, [User(x), Pill(id, graceful)]);
    assert msgs[1..] == [Pill(id, graceful)];
    assert Counted(0) == 1;
    assert Reboot(c, 0, 3, HandlerPanic) == Boot(c, 1, 3) == (1, 5, true);
    PillFlat(c, Ledger(1, 5, [User(x)], []), msgs[1..], 1);
    assert Users(msgs[1..][1..]) == [];
    assert Attempt(Ledger(0, 2, [], []), User(x)) == Ledger(0, 3, [User(x)], []);
    assert Flat(c, Ledger(0, 2, [], []), msgs, 0) == GoOn(c, Ledger(0, 3, [User(x)], []), HandlerPanic, msgs[1..], 1);
    assert msgs[..FirstPill(msgs)][0] == User(x);
  }
}
