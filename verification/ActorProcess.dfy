/**
 The process of one actor as it updates itself in place, method by method against the functions of
 Supervision, whose lemmas say what those functions guarantee.
 */
module ActorProcess {
  import opened Machine
  import opened Supervision
  import History

  /**
   The process as it updates itself. A method that returns Some panicked; what follows the call in
   the source's deferred recovery is the caller's look at that result.
   */
  class Process {
    const config: Config
    var restarts: int32
    var mbuffer: seq<Msg>
    var calls: nat
    var trace: seq<Event>

    function State(): Proc
      reads this
    {
      Proc(restarts, mbuffer, calls, trace)
    }

    constructor (config: Config)
      ensures this.config == config && State() == NEWBORN
    {
      this.config := config;
      restarts, mbuffer, calls, trace := 0, [], 0, [];
    }

    method Note(e: Event)
      modifies `trace
      ensures State() == Emit(old(State()), e)
    {
      trace := trace + [e];
    }

    method Receive(call: Call) returns (p: Option<Panic>)
      modifies `trace, `calls
      ensures (State(), p) == Supervision.Receive(config, old(State()), call)
    {
      var outcome := config.oracle(calls, call);
      Note(Received(call));
      calls := calls + 1;
      match outcome
      case Fine => p := None;
      case Panics => p := Some(HandlerPanic);
      case PanicsInternally => p := Some(InternalError);
    }

    method InvokeMsg(m: Msg) returns (p: Option<Panic>)
      modifies `trace, `calls
      ensures (State(), p) == Supervision.InvokeMsg(config, old(State()), m)
    {
      if m.Pill? {
        return None;
      }
      p := Receive(Message(m.content));
    }

    method Drain(msgs: seq<Msg>, processed: nat) returns (p: Option<Panic>)
      requires processed <= |msgs|
      modifies `trace, `calls
      ensures (State(), p) == Supervision.Drain(config, old(State()), msgs, processed)
    {
      hide Emit, PhaseOf, Attempts, RestartCount, Cancels, InboxOn, Revived, Grew, Supervision.InvokeMsg;
      var i := processed;
      while i < |msgs|
        invariant processed <= i <= |msgs|
        invariant Supervision.Drain(config, State(), msgs, i)
               == Supervision.Drain(config, old(State()), msgs, processed)
      {
        p := InvokeMsg(msgs[i]);
        if p.Some? {
          return;
        }
        i := i + 1;
      }
      p := None;
    }

    method Cleanup(cancel: Option<nat>) returns (p: Option<Panic>)
      modifies `trace
      ensures (State(), p) == Supervision.Cleanup(old(State()), cancel)
    {
      hide Emit;
      Note(InboxStopped);
      Note(Deregistered);
      Note(GotStopped);
      match cancel
      case Some(id) =>
        Note(Cancelled(id));
        p := None;
      case None =>
        p := Some(NilCall);
    }

    /** The body of Invoke, before its deferred recovery. */
    method Work(msgs: seq<Msg>) returns (nproc: nat, p: Option<Panic>)
      modifies `trace, `calls
      ensures (State(), nproc, p) == Supervision.Work(config, old(State()), msgs, 0)
    {
      hide Emit, PhaseOf, Attempts, RestartCount, Cancels, InboxOn, Revived, Grew, Grows, Supervision.InvokeMsg,
        Supervision.Drain, Supervision.Cleanup;
      nproc := 0;
      var processed := 0;
      for i := 0 to |msgs|
        invariant nproc == i && processed == i
        invariant Supervision.Work(config, State(), msgs, i) == Supervision.Work(config, old(State()), msgs, 0)
      {
        nproc := nproc + 1;
        var msg := msgs[i];
        if msg.Pill? {
          if msg.graceful {
            p := Drain(msgs, processed);
            if p.Some? {
              return;
            }
          }
          p := Cleanup(Some(msg.id));
          return;
        }
        p := InvokeMsg(msg);
        if p.Some? {
          return;
        }
        processed := processed + 1;
      }
      p := None;
    }

    method Invoke(msgs: seq<Msg>) returns (p: Option<Panic>)
      requires config.Calms()
      modifies this
      ensures (State(), p) == Supervision.Invoke(config, old(State()), msgs)
      ensures p.Some? ==> History.ClosedDown(trace)
      decreases 2 * Budget(config, State()), CalmLeft(config, State()), |msgs|, 0
    {
      hide Emit, PhaseOf, Attempts, RestartCount, Cancels, InboxOn, Revived, Grew, Supervision.Work, Supervision.TryRestart,
        History.ClosedDown;
      History.InvokeEndsWell(config, State(), msgs);
      var nproc;
      nproc, p := Work(msgs);
      if p.Some? {
        Note(GotStopped);
        var buffer := [];
        for i := 0 to |msgs| - nproc
          invariant buffer == msgs[nproc..nproc + i]
        {
          buffer := buffer + [msgs[i + nproc]];
        }
        assert buffer == msgs[nproc..];
        mbuffer := buffer;
        p := TryRestart(p.value);
      }
    }

    method Start() returns (p: Option<Panic>)
      requires config.Calms()
      modifies this
      ensures (State(), p) == Supervision.Start(config, old(State()))
      ensures p.Some? ==> History.ClosedDown(trace)
      decreases 2 * Budget(config, State()), CalmLeft(config, State()), |mbuffer|, 1
    {
      hide Emit, PhaseOf, Attempts, RestartCount, Cancels, InboxOn, Revived, Grew, Supervision.TryRestart, Supervision.Invoke,
        RestartsLeft, Supervision.Receive, History.ClosedDown;
      StartupCalms(config, State());
      History.StartEndsWell(config, State());
      Note(Produced);
      p := Receive(Initialized);
      if p.None? {
        p := Receive(Started);
        if p.None? && |mbuffer| > 0 {
          p := Invoke(mbuffer);
          if p.None? {
            mbuffer := [];
          }
        }
      }
      if p.Some? {
        Note(GotStopped);
        p := TryRestart(p.value);
      } else {
        Note(InboxStarted);
      }
    }

    method TryRestart(v: Panic) returns (p: Option<Panic>)
      requires config.Calms()
      modifies this
      ensures (State(), p) == Supervision.TryRestart(config, old(State()), v)
      ensures p.Some? ==> History.ClosedDown(trace)
      decreases if v == InternalError then 2 * Budget(config, State()) else 2 * Budget(config, State()) - 1,
        CalmLeft(config, State()), |mbuffer|, 2
    {
      hide Emit, PhaseOf, Attempts, RestartCount, Cancels, InboxOn, Revived, Grew, Supervision.Start, Supervision.Cleanup,
        RestartsLeft, Counted, History.ClosedDown;
      History.TryRestartEndsWell(config, State(), v);
      if v == InternalError {
        p := Start();
        return;
      }
      if restarts == config.maxRestarts {
        Note(MaxRestartsExceeded);
        p := Cleanup(None);
        return;
      }
      CountedSpendsOne(config, State());
      restarts := Counted(restarts);
      Note(Restarted(restarts));
      p := Start();
    }
  }
}
