/**
 What the history of a process looks like after any batches and any panics: restarts are announced with
 their number, a pill is answered only when the process is down, and a panic leaves a call only after the
 limit was announced and the process closed down.
 */
module History {
  import opened Machine
  import opened Supervision

  // ---------------------------------------------------------------- histories

  /** The process has just been shut down. */
  predicate ShutDown(trace: seq<Event>) {
    |trace| >= 3 && trace[|trace| - 3..] == [InboxStopped, Deregistered, GotStopped]
  }

  /** The limit was announced, and then the process was shut down. */
  predicate ClosedDown(trace: seq<Event>) {
    ShutDown(trace) && |trace| >= 4 && trace[|trace| - 4] == MaxRestartsExceeded
  }

  /** The n-th restart is announced as number n, and a cancel function is called right after a shutdown. */
  predicate InTurn(front: seq<Event>, e: Event) {
    && (e.Restarted? ==> e.count == ToInt32(RestartCount(front) + 1))
    && (e.Cancelled? ==> ShutDown(front))
  }

  predicate Orderly(trace: seq<Event>) {
    trace == [] || (Orderly(trace[..|trace| - 1]) && InTurn(trace[..|trace| - 1], trace[|trace| - 1]))
  }

  /** And the restart counter says how many there were. */
  predicate Tidy(s: Proc) {
    Orderly(s.trace) && s.restarts == ToInt32(RestartCount(s.trace))
  }

  lemma {:induction false} ClosedDownMeans(trace: seq<Event>)
    requires ClosedDown(trace)
    ensures MaxRestartsExceeded in trace && InboxStopped in trace && Deregistered in trace && !InboxOn(trace)
  {
    var n := |trace|;
    var end := trace[n - 3..];
    assert trace[n - 3] == end[0] && trace[n - 2] == end[1] && trace[n - 1] == end[2];
    assert trace[..n - 1][..n - 2] == trace[..n - 2];
    assert !InboxOn(trace[..n - 2]);
    assert !InboxOn(trace[..n - 1]);
  }

  // ---------------------------------------------------------------- one event

  lemma {:induction false} TidyEvent(s: Proc, e: Event)
    requires Tidy(s) && !e.Restarted? && InTurn(s.trace, e)
    ensures Tidy(Emit(s, e))
  {
    hide PhaseOf, Attempts, RestartCount, Cancels, InboxOn, Revived, ShutDown;
    var r := Emit(s, e);
    assert r.trace[..|r.trace| - 1] == s.trace;
  }

  lemma {:induction false} CountedNext(n: nat)
    ensures Counted(ToInt32(n)) == ToInt32(n + 1)
  {
  }

  lemma {:induction false} TidyRestart(s: Proc)
    requires Tidy(s)
    ensures Tidy(Emit(s.(restarts := Counted(s.restarts)), Restarted(Counted(s.restarts))))
  {
    hide PhaseOf, Attempts, RestartCount, Cancels, InboxOn, Revived, ShutDown, ToInt32, Counted;
    var r := Emit(s.(restarts := Counted(s.restarts)), Restarted(Counted(s.restarts)));
    assert r.trace[..|r.trace| - 1] == s.trace;
    CountedNext(RestartCount(s.trace));
  }

  lemma {:induction false} LimitUnchanged(s: Proc, e: Event)
    requires e != MaxRestartsExceeded
    ensures MaxRestartsExceeded in Emit(s, e).trace <==> MaxRestartsExceeded in s.trace
  {
  }

  // ---------------------------------------------------------------- one pass

  /** A stretch that announces nothing and answers pills only after a shutdown. */
  ghost predicate Steady(before: Proc, after: Proc) {
    && (Tidy(before) ==> Tidy(after))
    && (MaxRestartsExceeded in after.trace <==> MaxRestartsExceeded in before.trace)
  }

  lemma {:induction false} SteadyEvent(s: Proc, e: Event)
    requires !e.Restarted? && !e.Cancelled? && e != MaxRestartsExceeded
    ensures Steady(s, Emit(s, e))
  {
    hide Emit, Orderly, ShutDown;
    LimitUnchanged(s, e);
    if Tidy(s) {
      TidyEvent(s, e);
    }
  }

  lemma {:induction false} CleanupSteady(s: Proc, id: nat)
    ensures Steady(s, Cleanup(s, Some(id)).0)
  {
    hide PhaseOf, Attempts, RestartCount, Cancels, InboxOn, Revived, Grew, Orderly;
    var s3 := Emit(Emit(Emit(s, InboxStopped), Deregistered), GotStopped);
    assert s3.trace[|s3.trace| - 3..] == [InboxStopped, Deregistered, GotStopped];
    SteadyEvent(s, InboxStopped);
    SteadyEvent(Emit(s, InboxStopped), Deregistered);
    SteadyEvent(Emit(Emit(s, InboxStopped), Deregistered), GotStopped);
    LimitUnchanged(s3, Cancelled(id));
    if Tidy(s3) {
      TidyEvent(s3, Cancelled(id));
    }
  }

  lemma {:induction false} ReceiveSteady(c: Config, s: Proc, call: Call)
    ensures Steady(s, Receive(c, s, call).0)
  {
    hide Emit, Orderly;
    SteadyEvent(s, Received(call));
  }

  lemma {:induction false} DrainSteady(c: Config, s: Proc, msgs: seq<Msg>, i: nat)
    requires i <= |msgs|
    ensures Steady(s, Drain(c, s, msgs, i).0)
    decreases |msgs| - i
  {
    hide Receive, Tidy;
    if i < |msgs| {
      if msgs[i].User? {
        ReceiveSteady(c, s, Message(msgs[i].content));
      }
      if InvokeMsg(c, s, msgs[i]).1.None? {
        DrainSteady(c, InvokeMsg(c, s, msgs[i]).0, msgs, i + 1);
      }
    }
  }

  lemma {:induction false} WorkSteady(c: Config, s: Proc, msgs: seq<Msg>, i: nat)
    requires i <= |msgs|
    ensures Steady(s, Work(c, s, msgs, i).0)
    decreases |msgs| - i
  {
    hide Receive, Tidy, Drain, Cleanup, Grew;
    if i < |msgs| {
      match msgs[i]
      case Pill(id, graceful) =>
        DrainSteady(c, s, msgs, i);
        CleanupSteady(if graceful then Drain(c, s, msgs, i).0 else s, id);
      case User(content) =>
        ReceiveSteady(c, s, Message(content));
        if InvokeMsg(c, s, msgs[i]).1.None? {
          WorkSteady(c, InvokeMsg(c, s, msgs[i]).0, msgs, i + 1);
        }
    }
  }

  lemma {:induction false} StartupSteady(c: Config, s: Proc)
    ensures Steady(s, Startup(c, s).0)
  {
    hide Emit, Receive, Tidy;
    SteadyEvent(s, Produced);
    ReceiveSteady(c, Emit(s, Produced), Initialized);
    ReceiveSteady(c, Receive(c, Emit(s, Produced), Initialized).0, Started);
  }

  // ---------------------------------------------------------------- one call

  /**
   How a call ends. With a panic: closed down, right before. Without: the limit was not announced, and nothing
   is left in the replay buffer if the call was a start or found it empty.
   */
  ghost predicate EndsWell(before: Proc, after: Proc, p: Option<Panic>, replays: bool) {
    && (Tidy(before) ==> Tidy(after))
    && (p.Some? ==> ClosedDown(after.trace))
    && (p.None? ==> (MaxRestartsExceeded in after.trace <==> MaxRestartsExceeded in before.trace))
    && (p.None? && (replays || before.mbuffer == []) ==> after.mbuffer == [])
  }

  lemma {:induction false} InvokeEndsWell(c: Config, s: Proc, msgs: seq<Msg>)
    requires c.Calms()
    ensures EndsWell(s, Invoke(c, s, msgs).0, Invoke(c, s, msgs).1, Work(c, s, msgs, 0).2.Some?)
    decreases 2 * Budget(c, s), CalmLeft(c, s), |msgs|, 0
  {
    hide Emit, PhaseOf, Attempts, RestartCount, Cancels, InboxOn, Revived, Grew, Work, TryRestart, ClosedDown, Orderly;
    var (s1, nproc, p) := Work(c, s, msgs, 0);
    WorkSteady(c, s, msgs, 0);
    if p.Some? {
      SteadyEvent(s1, GotStopped);
      TryRestartEndsWell(c, StopReceiver(s1).(mbuffer := msgs[nproc..]), p.value);
    }
  }

  lemma {:induction false} StartEndsWell(c: Config, s: Proc)
    requires c.Calms()
    ensures EndsWell(s, Start(c, s).0, Start(c, s).1, true)
    decreases 2 * Budget(c, s), CalmLeft(c, s), |s.mbuffer|, 1
  {
    hide Emit, PhaseOf, Attempts, RestartCount, Cancels, InboxOn, Revived, Grew, Startup, TryRestart, Invoke, ClosedDown, Orderly;
    StartupSteady(c, s);
    StartupCalms(c, s);
    var (s1, p1) := Startup(c, s);
    if p1.Some? {
      SteadyEvent(s1, GotStopped);
      TryRestartEndsWell(c, StopReceiver(s1), p1.value);
    } else if s1.mbuffer == [] {
      SteadyEvent(s1, InboxStarted);
    } else {
      InvokeEndsWell(c, s1, s1.mbuffer);
      var (s2, p2) := Invoke(c, s1, s1.mbuffer);
      if p2.Some? {
        SteadyEvent(s2, GotStopped);
        TryRestartCloses(c, StopReceiver(s2), p2.value);
      } else {
        SteadyEvent(s2.(mbuffer := []), InboxStarted);
      }
    }
  }

  /** With the budget spent, the limit is announced and the process is shut down. */
  lemma {:induction false} TryRestartCloses(c: Config, s: Proc, v: Panic)
    requires c.Calms() && v != InternalError && s.restarts == c.maxRestarts
    ensures TryRestart(c, s, v).1.Some? && ClosedDown(TryRestart(c, s, v).0.trace)
    ensures Tidy(s) ==> Tidy(TryRestart(c, s, v).0)
  {
    hide PhaseOf, Attempts, RestartCount, Cancels, InboxOn, Revived, Grew, Orderly;
    var s1 := Emit(s, MaxRestartsExceeded);
    var r := Emit(Emit(Emit(s1, InboxStopped), Deregistered), GotStopped);
    assert r.trace[|r.trace| - 3..] == [InboxStopped, Deregistered, GotStopped];
    assert TryRestart(c, s, v).0 == r;
    if Tidy(s) {
      TidyEvent(s, MaxRestartsExceeded);
      TidyEvent(s1, InboxStopped);
      TidyEvent(Emit(s1, InboxStopped), Deregistered);
      TidyEvent(Emit(Emit(s1, InboxStopped), Deregistered), GotStopped);
    }
  }

  lemma {:induction false} TryRestartEndsWell(c: Config, s: Proc, v: Panic)
    requires c.Calms()
    ensures EndsWell(s, TryRestart(c, s, v).0, TryRestart(c, s, v).1, true)
    decreases if v == InternalError then 2 * Budget(c, s) else 2 * Budget(c, s) - 1, CalmLeft(c, s), |s.mbuffer|, 2
  {
    hide Emit, PhaseOf, Attempts, RestartCount, Cancels, InboxOn, Revived, Grew, Counted, Start, ClosedDown, Orderly;
    if v == InternalError {
      StartEndsWell(c, s);
    } else if s.restarts == c.maxRestarts {
      TryRestartCloses(c, s, v);
    } else {
      CountedSpendsOne(c, s);
      var s1 := s.(restarts := Counted(s.restarts));
      if Tidy(s) {
        TidyRestart(s);
      }
      LimitUnchanged(s1, Restarted(s1.restarts));
      StartEndsWell(c, Noted(s1, Restarted(s1.restarts)));
    }
  }
}
