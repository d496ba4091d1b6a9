/**
 The inbox protocol: any number of senders push into a shared deque and race on a compare-and-swap
 to start the single goroutine that drains it. The protocol is a transition system whose steps are
 the atomic operations of the source (a lock-protected deque operation, or one atomic operation on
 the status word); a run is any sequence of steps of any threads.
 */
module Mailbox {
  import opened Machine

  datatype Msg = Msg(content: int, urgent: bool)

  /** procStatus */
  datatype Status = Stopped | Starting | Idle | Running

  /** Where a thread stands: the next atomic operation it will perform. */
  datatype Pc =
    | Push(msg: Msg)           // Send or SendPriority, before the deque operation
    | Schedule                 // schedule, before the swap idle -> running
    | Spawn                    // schedule, after winning that swap: about to start process
    | Start                    // Start, before the swap stopped -> starting
    | Activate                 // Start, before the unconditional store of idle
    | Stop                     // Stop, before the store of stopped
    | Clear                    // Clear, before emptying the deque
    | Loop                     // run, before loading the status
    | Pop                      // run, before PopN
    | Hold(batch: seq<Msg>)    // run, with a popped batch not yet given to Invoke
    | Invoke                   // run, inside Invoke
    | Leave                    // process, before the swap running -> idle
    | Recheck                  // process, after winning that swap, before reading the length
    | Done

  /**
   The shared state and the threads, with histories: messages in push order, in pop order, as
   given to Invoke, and dropped by Clear; the number of Clear operations and of won Start swaps.
   */
  datatype State = State(
    status: Status,
    queue: seq<Msg>,
    threads: seq<Pc>,
    pushed: seq<Msg>,
    popped: seq<Msg>,
    delivered: seq<Msg>,
    cleared: multiset<Msg>,
    clears: nat,
    starts: nat)

  const MESSAGE_BATCH_SIZE := 4096

  const INIT := State(Stopped, [], [], [], [], [], multiset{}, 0, 0)

  /** A step: a caller enters one of the inbox operations, or thread `t` performs its next operation. */
  datatype Action = Enter(pc: Pc) | Go(t: nat)

  function At(s: State, t: nat, pc: Pc): State
    requires t < |s.threads|
  {
    s.(threads := s.threads[t := pc])
  }

  predicate Enabled(s: State, a: Action) {
    match a
    case Enter(pc) => pc.Push? || pc.Start? || pc.Stop? || pc.Clear?
    case Go(t) => t < |s.threads| && !s.threads[t].Done?
  }

  function Batch(queue: seq<Msg>): nat {
    if |queue| < MESSAGE_BATCH_SIZE then |queue| else MESSAGE_BATCH_SIZE
  }

  function Next(s: State, a: Action): State
    requires Enabled(s, a)
  {
    match a
    case Enter(pc) => s.(threads := s.threads + [pc])
    case Go(t) =>
      match s.threads[t]
      case Push(msg) =>
        At(s, t, Schedule).(
          queue := if msg.urgent then [msg] + s.queue else s.queue + [msg],
          pushed := s.pushed + [msg])
      case Schedule => if s.status == Idle then At(s, t, Spawn).(status := Running) else At(s, t, Done)
      case Spawn => s.(threads := s.threads[t := Done] + [Loop])
      case Start =>
        if s.status == Stopped then At(s, t, Activate).(status := Starting, starts := s.starts + 1)
        else At(s, t, Done)
      case Activate => At(s, t, Schedule).(status := Idle)
      case Stop => At(s, t, Done).(status := Stopped)
      case Clear => At(s, t, Done).(queue := [], cleared := s.cleared + multiset(s.queue), clears := s.clears + 1)
      case Loop => if s.status == Stopped then At(s, t, Leave) else At(s, t, Pop)
      case Pop =>
        var n := Batch(s.queue);
        if n == 0 then At(s, t, Leave)
        else At(s, t, Hold(s.queue[..n])).(queue := s.queue[n..], popped := s.popped + s.queue[..n])
      case Hold(batch) => At(s, t, Invoke).(delivered := s.delivered + batch)
      case Invoke => At(s, t, Loop)
      case Leave => if s.status == Running then At(s, t, Recheck).(status := Idle) else At(s, t, Done)
      case Recheck => if |s.queue| > 0 then At(s, t, Schedule) else At(s, t, Done)
  }

  /** The state after a run, if every step of it can be taken. */
  predicate IsRun(s: State, run: seq<Action>)
    decreases run
  {
    run == [] || (Enabled(s, run[0]) && IsRun(Next(s, run[0]), run[1..]))
  }

  function After(s: State, run: seq<Action>): State
    requires IsRun(s, run)
    decreases run
  {
    if run == [] then s else After(Next(s, run[0]), run[1..])
  }

  // ---------------------------------------------------------------- no lost wakeup

  /** A thread that will still try to win the swap idle -> running if there is something to do. */
  predicate Owes(pc: Pc) {
    pc.Schedule? || pc.Recheck?
  }

  ghost predicate SomeoneOwes(s: State) {
    exists t | 0 <= t < |s.threads| :: Owes(s.threads[t])
  }

  /** An idle inbox with queued messages is about to be woken. */
  ghost predicate Awake(s: State) {
    s.status == Idle && s.queue != [] ==> SomeoneOwes(s)
  }

  lemma {:induction false} AwakeStep(s: State, a: Action)
    requires Awake(s) && Enabled(s, a)
    ensures Awake(Next(s, a))
  {
    var s' := Next(s, a);
    if s'.status == Idle && s'.queue != [] {
      match a
      case Enter(pc) =>
        var u :| 0 <= u < |s.threads| && Owes(s.threads[u]);
        assert Owes(s'.threads[u]);
      case Go(t) =>
        if Owes(s'.threads[t]) {
        } else {
          var u :| 0 <= u < |s.threads| && Owes(s.threads[u]);
          assert u != t && Owes(s'.threads[u]);
        }
    }
  }

  /** No lost wakeup, over every run of any threads whatsoever. */
  lemma {:induction false} NoLostWakeup(s: State, run: seq<Action>)
    requires IsRun(s, run) && Awake(s)
    ensures Awake(After(s, run))
    decreases run
  {
    if run != [] {
      AwakeStep(s, run[0]);
      NoLostWakeup(Next(s, run[0]), run[1..]);
    }
  }

  // ---------------------------------------------------------------- one consumer

  /** Between winning idle -> running and leaving process. */
  predicate Consumes(pc: Pc) {
    pc.Spawn? || pc.Loop? || pc.Pop? || pc.Hold? || pc.Invoke? || pc.Leave?
  }

  /** In charge of the inbox: consuming, or between the two writes of Start. */
  predicate Owns(pc: Pc) {
    Consumes(pc) || pc.Activate?
  }

  ghost predicate Owned(s: State) {
    exists t | 0 <= t < |s.threads| :: Owns(s.threads[t])
  }

  ghost predicate OneOwner(s: State) {
    forall t, u | 0 <= t < u < |s.threads| :: !(Owns(s.threads[t]) && Owns(s.threads[u]))
  }

  /** The status word says who is in charge. */
  ghost predicate Exclusive(s: State) {
    && OneOwner(s)
    && (forall t | 0 <= t < |s.threads| ::
          && (Consumes(s.threads[t]) ==> s.status == Running || s.status == Stopped)
          && (s.threads[t].Activate? ==> s.status == Starting || s.status == Stopped))
    && (s.status == Running || s.status == Starting ==> Owned(s))
  }

  /** A step that does not win Start's swap while the inbox is still in somebody's charge. */
  ghost predicate Tame(s: State, a: Action) {
    a.Go? && a.t < |s.threads| && s.threads[a.t].Start? && s.status == Stopped ==> !Owned(s)
  }

  ghost predicate TameRun(s: State, run: seq<Action>)
    requires IsRun(s, run)
    decreases run
  {
    run == [] || (Tame(s, run[0]) && TameRun(Next(s, run[0]), run[1..]))
  }

  /** A step of the only thread that can be in charge, before or after it. */
  lemma {:induction false} OwnerMoves(s: State, t: nat, pc: Pc, status: Status)
    requires t < |s.threads| && forall u | 0 <= u < |s.threads| && u != t :: !Owns(s.threads[u])
    requires Consumes(pc) ==> status == Running || status == Stopped
    requires pc.Activate? ==> status == Starting || status == Stopped
    requires status == Running || status == Starting ==> Owns(pc)
    ensures Exclusive(At(s, t, pc).(status := status))
  {
    var s' := At(s, t, pc).(status := status);
    assert forall u | 0 <= u < |s'.threads| && u != t :: !Owns(s'.threads[u]);
    if Owns(pc) {
      assert Owns(s'.threads[t]);
    }
  }

  /** A step of a thread that is in charge neither before nor after it. */
  lemma {:induction false} BystanderMoves(s: State, t: nat, pc: Pc, status: Status)
    requires Exclusive(s) && t < |s.threads| && !Owns(s.threads[t]) && !Owns(pc)
    requires status == s.status || status == Stopped
    ensures Exclusive(At(s, t, pc).(status := status))
  {
    KeepsOwned(s, At(s, t, pc));
  }

  /** The goroutine takes over from the thread that spawned it. */
  lemma {:induction false} SpawnMoves(s: State, t: nat)
    requires Exclusive(s) && t < |s.threads| && s.threads[t].Spawn?
    ensures Exclusive(s.(threads := s.threads[t := Done] + [Loop]))
  {
    var s' := s.(threads := s.threads[t := Done] + [Loop]);
    assert Owns(s'.threads[|s.threads|]);
    assert forall u | 0 <= u < |s.threads| :: !Owns(s'.threads[u]);
  }

  lemma {:induction false} OthersDoNotOwn(s: State, t: nat)
    requires Exclusive(s) && t < |s.threads|
    requires Owns(s.threads[t]) || !Owned(s)
    ensures forall u | 0 <= u < |s.threads| && u != t :: !Owns(s.threads[u])
  {
  }

  /** Exclusive does not mention the queue or the histories. */
  lemma {:induction false} SameControl(s: State, s': State)
    requires Exclusive(s) && s'.threads == s.threads && s'.status == s.status
    ensures Exclusive(s')
  {
    KeepsOwned(s, s');
  }

  lemma {:induction false} ExclusiveStep(s: State, a: Action)
    requires Exclusive(s) && Enabled(s, a) && Tame(s, a)
    ensures Exclusive(Next(s, a))
  {
    var s' := Next(s, a);
    if a.Enter? {
      KeepsOwned(s, s');
    } else {
      var t, pc := a.t, s.threads[a.t];
      if pc.Spawn? {
        SpawnMoves(s, t);
      } else {
        var pc' := s'.threads[t];
        ExclusiveGo(s, t, pc', s'.status);
        SameControl(At(s, t, pc').(status := s'.status), s');
      }
    }
  }

  lemma {:induction false} ExclusiveGo(s: State, t: nat, pc': Pc, status': Status)
    requires Exclusive(s) && Enabled(s, Go(t)) && Tame(s, Go(t)) && !s.threads[t].Spawn?
    requires pc' == Next(s, Go(t)).threads[t] && status' == Next(s, Go(t)).status
    ensures Exclusive(At(s, t, pc').(status := status'))
  {
    hide Exclusive;
    if Owns(s.threads[t]) {
      OthersDoNotOwn(s, t);
      OwnerStatus(s, t);
      OwnerMoves(s, t, pc', status');
    } else if Owns(pc') {
      IdleUnowned(s);
      OthersDoNotOwn(s, t);
      OwnerMoves(s, t, pc', status');
    } else {
      BystanderMoves(s, t, pc', status');
    }
  }

  lemma {:induction false} OwnerStatus(s: State, t: nat)
    requires Exclusive(s) && t < |s.threads|
    ensures Consumes(s.threads[t]) ==> s.status == Running || s.status == Stopped
    ensures s.threads[t].Activate? ==> s.status == Starting || s.status == Stopped
  {
  }

  lemma {:induction false} IdleUnowned(s: State)
    requires Exclusive(s)
    ensures s.status == Idle ==> !Owned(s)
  {
  }

  /** Threads other than owners may change, and new ones appear, without changing who is in charge. */
  lemma {:induction false} KeepsOwned(s: State, s': State)
    requires |s.threads| <= |s'.threads|
    requires forall t | 0 <= t < |s.threads| && Owns(s.threads[t]) :: s'.threads[t] == s.threads[t]
    ensures Owned(s) ==> Owned(s')
  {
    if Owned(s) {
      var t :| 0 <= t < |s.threads| && Owns(s.threads[t]);
      assert Owns(s'.threads[t]);
    }
  }

  /**
   Single consumer: after every tame run at most one goroutine consumes; exactly one owner exists
   while the status is running, and none while it is idle.
   */
  lemma {:induction false} SingleConsumer(s: State, run: seq<Action>)
    requires IsRun(s, run) && Exclusive(s) && TameRun(s, run)
    ensures Exclusive(After(s, run))
    decreases run
  {
    if run != [] {
      ExclusiveStep(s, run[0]);
      SingleConsumer(Next(s, run[0]), run[1..]);
    }
  }

  ghost predicate TwoConsumers(s: State) {
    exists t, u | 0 <= t < u < |s.threads| :: Consumes(s.threads[t]) && Consumes(s.threads[u])
  }

  lemma {:induction false} TwoAt(s: State, t: nat, u: nat)
    requires t < |s.threads| && u < |s.threads| && t != u
    requires Consumes(s.threads[t]) && Consumes(s.threads[u])
    ensures TwoConsumers(s)
  {
    var i, j := if t < u then t else u, if t < u then u else t;
    assert Consumes(s.threads[i]) && Consumes(s.threads[j]);
  }

  /**
   Tameness is exactly what single consumption needs: from any state where Start's swap can be won
   while the inbox is in somebody's charge, a run leads to two consumers.
   */
  lemma {:induction false} UntameStartBreaks(s: State, t: nat, u: nat) returns (run: seq<Action>)
    requires t < |s.threads| && s.threads[t].Start? && s.status == Stopped
    requires u < |s.threads| && Owns(s.threads[u])
    ensures IsRun(s, run) && run != [] && run[0] == Go(t) && !Tame(s, Go(t))
    ensures TwoConsumers(After(s, run)) && After(s, run).starts == s.starts + 1
  {
    var s1 := Next(s, Go(t));
    var s2 := Next(s1, Go(t));
    var s3 := Next(s2, Go(t));
    assert Owned(s);
    assert s3.threads == s.threads[t := Spawn] && s3.status == Running;
    if Consumes(s.threads[u]) {
      run := [Go(t), Go(t), Go(t)];
      RunOfThree(s, Go(t), Go(t), Go(t));
      TwoAt(s3, t, u);
    } else {
      var s4 := Next(s3, Go(u));
      var s5 := Next(s4, Go(u));
      assert s5.threads == s.threads[t := Spawn][u := Spawn];
      run := [Go(t), Go(t), Go(t)] + [Go(u), Go(u)];
      RunOfThree(s, Go(t), Go(t), Go(t));
      RunOfTwo(s3, Go(u), Go(u));
      RunAppend(s, [Go(t), Go(t), Go(t)], [Go(u), Go(u)]);
      TwoAt(s5, t, u);
    }
  }

  /** Stages of an inbox that is started, stopped and about to be started again. */
  const STARTED := INIT.(status := Idle, threads := [Schedule], starts := 1)
  const STOPPING := STARTED.(status := Running, threads := [Spawn, Stop])
  const RESTARTING := STARTED.(status := Stopped, threads := [Spawn, Done, Start])

  lemma {:induction false} StartsAndStops()
    ensures IsRun(INIT, [Enter(Start), Go(0), Go(0)]) && After(INIT, [Enter(Start), Go(0), Go(0)]) == STARTED
    ensures IsRun(STARTED, [Go(0), Enter(Stop)]) && After(STARTED, [Go(0), Enter(Stop)]) == STOPPING
    ensures IsRun(STOPPING, [Go(1), Enter(Start)]) && After(STOPPING, [Go(1), Enter(Start)]) == RESTARTING
  {
    hide IsRun, After;
    var s1 := INIT.(threads := [Start]);
    var s2 := INIT.(status := Starting, threads := [Activate], starts := 1);
    assert Next(INIT, Enter(Start)) == s1 && Next(s1, Go(0)) == s2 && Next(s2, Go(0)) == STARTED;
    RunOfThree(INIT, Enter(Start), Go(0), Go(0));
    var s4 := STARTED.(status := Running, threads := [Spawn]);
    assert Next(STARTED, Go(0)) == s4 && Next(s4, Enter(Stop)) == STOPPING;
    RunOfTwo(STARTED, Go(0), Enter(Stop));
    var s6 := STARTED.(status := Stopped, threads := [Spawn, Done]);
    assert Next(STOPPING, Go(1)) == s6 && Next(s6, Enter(Start)) == RESTARTING;
    RunOfTwo(STOPPING, Go(1), Enter(Start));
  }

  /** And such a state is reached: an inbox that is started, stopped and started again has two consumers. */
  lemma {:induction false} TwoConsumersReachable() returns (run: seq<Action>)
    ensures IsRun(INIT, run) && TwoConsumers(After(INIT, run)) && After(INIT, run).starts == 2
  {
    hide IsRun, After, Next, TwoConsumers;
    StartsAndStops();
    RunAppend(INIT, [Enter(Start), Go(0), Go(0)], [Go(0), Enter(Stop)]);
    var leg := [Enter(Start), Go(0), Go(0)] + [Go(0), Enter(Stop)];
    RunAppend(INIT, leg, [Go(1), Enter(Start)]);
    var restart := UntameStartBreaks(RESTARTING, 2, 0);
    RunAppend(INIT, leg + [Go(1), Enter(Start)], restart);
    run := leg + [Go(1), Enter(Start)] + restart;
  }

  lemma {:induction false} RunOfTwo(s: State, a: Action, b: Action)
    requires Enabled(s, a) && Enabled(Next(s, a), b)
    ensures IsRun(s, [a, b]) && After(s, [a, b]) == Next(Next(s, a), b)
  {
    hide Next, Enabled;
    var s1 := Next(s, a);
    assert [a, b][1..] == [b] && [b][1..] == [];
    assert IsRun(s1, [b]);
    assert After(s1, [b]) == After(Next(s1, b), [b][1..]) == Next(s1, b);
  }

  lemma {:induction false} RunOfThree(s: State, a: Action, b: Action, c: Action)
    requires Enabled(s, a) && Enabled(Next(s, a), b) && Enabled(Next(Next(s, a), b), c)
    ensures IsRun(s, [a, b, c]) && After(s, [a, b, c]) == Next(Next(Next(s, a), b), c)
  {
    hide Next, Enabled;
    RunOfTwo(Next(s, a), b, c);
    assert [a, b, c][1..] == [b, c];
  }

  lemma {:induction false} RunAppend(s: State, a: seq<Action>, b: seq<Action>)
    requires IsRun(s, a) && IsRun(After(s, a), b)
    ensures IsRun(s, a + b) && After(s, a + b) == After(After(s, a), b)
    decreases a
  {
    hide Next, Enabled;
    if a == [] {
      assert a + b == b;
    } else {
      assert (a + b)[1..] == a[1..] + b;
      RunAppend(Next(s, a[0]), a[1..], b);
    }
  }

  lemma {:induction false} TameAppend(s: State, a: seq<Action>, b: seq<Action>)
    requires IsRun(s, a) && IsRun(After(s, a), b)
    ensures IsRun(s, a + b) && (TameRun(s, a + b) <==> TameRun(s, a) && TameRun(After(s, a), b))
    decreases |a|
  {
    hide Next, Enabled, Tame;
    RunAppend(s, a, b);
    if a == [] {
      assert a + b == b;
    } else {
      assert (a + b)[1..] == a[1..] + b;
      TameAppend(Next(s, a[0]), a[1..], b);
    }
  }

  /** Before the first won Start the inbox is in nobody's charge. */
  ghost predicate Unstarted(s: State) {
    s.starts == 0 ==> s.status == Stopped && !Owned(s)
  }

  /** A thread that is not in charge, while nobody has won a Start, stays so and changes neither status nor threads. */
  lemma {:induction false} UnstartedGo(s: State, t: nat)
    requires Enabled(s, Go(t)) && s.status == Stopped && !Owns(s.threads[t]) && Next(s, Go(t)).starts == s.starts
    ensures var s' := Next(s, Go(t));
      s'.status == Stopped && |s'.threads| == |s.threads| && s'.threads == s.threads[t := s'.threads[t]] && !Owns(s'.threads[t])
  {
  }

  lemma {:induction false} UnstartedStep(s: State, a: Action)
    requires Unstarted(s) && Enabled(s, a)
    ensures Unstarted(Next(s, a)) && Next(s, a).starts >= s.starts
  {
    hide Owns;
    StartsNeverDrop(s, a);
    var s' := Next(s, a);
    if s'.starts == 0 {
      match a
      case Enter(pc) => EntersOutside(s, pc);
      case Go(t) =>
        hide Next;
        UnstartedGo(s, t);
    }
  }

  lemma {:induction false} StartsNeverDrop(s: State, a: Action)
    requires Enabled(s, a)
    ensures Next(s, a).starts >= s.starts
  {
  }

  lemma {:induction false} EntersOutside(s: State, pc: Pc)
    requires Enabled(s, Enter(pc))
    ensures !Owns(pc) && Next(s, Enter(pc)).threads == s.threads + [pc] && Next(s, Enter(pc)).status == s.status
  {
  }

  lemma {:induction false} StartsGrow(s: State, run: seq<Action>)
    requires IsRun(s, run)
    ensures After(s, run).starts >= s.starts
    decreases run
  {
    if run != [] {
      StartsGrow(Next(s, run[0]), run[1..]);
    }
  }

  /** An inbox whose Start is won at most once is only run tamely. */
  lemma {:induction false} OneStartIsTame(s: State, run: seq<Action>)
    requires IsRun(s, run) && Unstarted(s) && After(s, run).starts <= 1
    ensures TameRun(s, run)
    decreases run
  {
    if run != [] {
      UnstartedStep(s, run[0]);
      StartsGrow(Next(s, run[0]), run[1..]);
      OneStartIsTame(Next(s, run[0]), run[1..]);
    }
  }

  // ---------------------------------------------------------------- conservation and order

  ghost predicate Balanced(pushed: seq<Msg>, popped: seq<Msg>, queue: seq<Msg>, cleared: multiset<Msg>) {
    multiset(pushed) == multiset(popped) + multiset(queue) + cleared
  }

  /** Every accepted message is popped, still queued or was dropped by Clear, and nothing else is. */
  ghost predicate Conserved(s: State) {
    Balanced(s.pushed, s.popped, s.queue, s.cleared)
  }

  lemma {:induction false} PushBalanced(pushed: seq<Msg>, popped: seq<Msg>, queue: seq<Msg>, cleared: multiset<Msg>, m: Msg)
    requires Balanced(pushed, popped, queue, cleared)
    ensures Balanced(pushed + [m], popped, [m] + queue, cleared)
    ensures Balanced(pushed + [m], popped, queue + [m], cleared)
  {
  }

  lemma {:induction false} PopBalanced(pushed: seq<Msg>, popped: seq<Msg>, queue: seq<Msg>, cleared: multiset<Msg>, n: nat)
    requires Balanced(pushed, popped, queue, cleared) && n <= |queue|
    ensures Balanced(pushed, popped + queue[..n], queue[n..], cleared)
  {
    assert queue == queue[..n] + queue[n..];
  }

  lemma {:induction false} ClearBalanced(pushed: seq<Msg>, popped: seq<Msg>, queue: seq<Msg>, cleared: multiset<Msg>)
    requires Balanced(pushed, popped, queue, cleared)
    ensures Balanced(pushed, popped, [], cleared + multiset(queue))
  {
  }

  lemma {:induction false} ConservedStep(s: State, a: Action)
    requires Conserved(s) && Enabled(s, a)
    ensures Conserved(Next(s, a))
  {
    hide Balanced;
    if a.Go? && s.threads[a.t].Push? {
      PushBalanced(s.pushed, s.popped, s.queue, s.cleared, s.threads[a.t].msg);
    } else if a.Go? && s.threads[a.t].Pop? {
      PopBalanced(s.pushed, s.popped, s.queue, s.cleared, Batch(s.queue));
    } else if a.Go? && s.threads[a.t].Clear? {
      ClearBalanced(s.pushed, s.popped, s.queue, s.cleared);
    }
  }

  lemma {:induction false} Conservation(s: State, run: seq<Action>)
    requires IsRun(s, run) && Conserved(s)
    ensures Conserved(After(s, run))
    decreases run
  {
    if run != [] {
      ConservedStep(s, run[0]);
      Conservation(Next(s, run[0]), run[1..]);
    }
  }

  /** Batches reach Invoke in the order they were popped, none lost and none repeated. */
  ghost predicate HandsOver(s: State) {
    forall t | 0 <= t < |s.threads| && s.threads[t].Hold? :: s.popped == s.delivered + s.threads[t].batch
  }

  ghost predicate NothingHeld(s: State) {
    (forall t | 0 <= t < |s.threads| :: !s.threads[t].Hold?) ==> s.popped == s.delivered
  }

  /** A step that neither takes a batch nor hands one over. */
  lemma {:induction false} HandsUntouched(s: State, s': State)
    requires HandsOver(s) && NothingHeld(s)
    requires s'.popped == s.popped && s'.delivered == s.delivered && |s.threads| <= |s'.threads|
    requires forall t | 0 <= t < |s'.threads| :: s'.threads[t].Hold? ==> t < |s.threads| && s'.threads[t] == s.threads[t]
    requires forall t | 0 <= t < |s.threads| :: s.threads[t].Hold? ==> s'.threads[t] == s.threads[t]
    ensures HandsOver(s') && NothingHeld(s')
  {
    if forall t | 0 <= t < |s'.threads| :: !s'.threads[t].Hold? {
      forall t | 0 <= t < |s.threads|
        ensures !s.threads[t].Hold?
      {
        assert !s'.threads[t].Hold?;
      }
    }
  }

  lemma {:induction false} HandsOverStep(s: State, a: Action)
    requires OneOwner(s) && HandsOver(s) && NothingHeld(s) && Enabled(s, a)
    ensures HandsOver(Next(s, a)) && NothingHeld(Next(s, a))
  {
    hide HandsOver, NothingHeld, OneOwner;
    var s' := Next(s, a);
    if a.Go? && s.threads[a.t].Hold? {
      HandsBatch(s, a.t);
    } else if a.Go? && s.threads[a.t].Pop? && Batch(s.queue) > 0 {
      TakesBatch(s, a.t, s.queue[..Batch(s.queue)], s');
    } else {
      OtherSteps(s, a);
      hide Next;
      HandsUntouched(s, s');
    }
  }

  /** Only handing over and popping touch a batch. */
  lemma {:induction false} OtherSteps(s: State, a: Action)
    requires Enabled(s, a)
    requires a.Go? ==> !s.threads[a.t].Hold? && (s.threads[a.t].Pop? ==> Batch(s.queue) == 0)
    ensures var s' := Next(s, a);
      && s'.popped == s.popped && s'.delivered == s.delivered && |s.threads| <= |s'.threads|
      && (forall t | 0 <= t < |s'.threads| :: s'.threads[t].Hold? ==> t < |s.threads| && s'.threads[t] == s.threads[t])
      && (forall t | 0 <= t < |s.threads| :: s.threads[t].Hold? ==> s'.threads[t] == s.threads[t])
  {
    hide Next;
    match a
    case Enter(pc) => EnterHoldsNothing(s, pc);
    case Go(t) =>
      if s.threads[t].Spawn? {
        SpawnOfThread(s, t);
      } else {
        GoHoldsNothing(s, t);
        StepIsLocal(s, t);
      }
  }

  lemma {:induction false} EnterHoldsNothing(s: State, pc: Pc)
    requires Enabled(s, Enter(pc))
    ensures Next(s, Enter(pc)) == s.(threads := s.threads + [pc]) && !pc.Hold?
  {
  }

  lemma {:induction false} GoHoldsNothing(s: State, t: nat)
    requires Enabled(s, Go(t)) && !s.threads[t].Spawn? && !s.threads[t].Hold?
    requires s.threads[t].Pop? ==> Batch(s.queue) == 0
    ensures var s' := Next(s, Go(t));
      s'.popped == s.popped && s'.delivered == s.delivered && |s'.threads| == |s.threads| && !s'.threads[t].Hold?
  {
  }

  lemma {:induction false} HandsBatch(s: State, t: nat)
    requires OneOwner(s) && HandsOver(s) && t < |s.threads| && s.threads[t].Hold?
    ensures HandsOver(At(s, t, Invoke).(delivered := s.delivered + s.threads[t].batch))
    ensures NothingHeld(At(s, t, Invoke).(delivered := s.delivered + s.threads[t].batch))
  {
    OthersHoldNothing(s, t);
    assert s.popped == s.delivered + s.threads[t].batch;
  }

  lemma {:induction false} TakesBatch(s: State, t: nat, batch: seq<Msg>, s': State)
    requires OneOwner(s) && NothingHeld(s) && t < |s.threads| && s.threads[t].Pop?
    requires s'.threads == s.threads[t := Hold(batch)]
    requires s'.popped == s.popped + batch && s'.delivered == s.delivered
    ensures HandsOver(s') && NothingHeld(s')
  {
    OthersHoldNothing(s, t);
    assert s.popped == s.delivered;
    assert s'.threads[t].Hold?;
  }

  lemma {:induction false} OthersHoldNothing(s: State, t: nat)
    requires OneOwner(s) && t < |s.threads| && Owns(s.threads[t])
    ensures forall u | 0 <= u < |s.threads| && u != t :: !s.threads[u].Hold?
  {
    forall u | 0 <= u < |s.threads| && u != t
      ensures !s.threads[u].Hold?
    {
      assert !Owns(s.threads[u]);
    }
  }

  lemma {:induction false} BatchesInOrder(s: State, run: seq<Action>)
    requires IsRun(s, run) && Exclusive(s) && TameRun(s, run) && HandsOver(s) && NothingHeld(s)
    ensures HandsOver(After(s, run)) && NothingHeld(After(s, run))
    decreases run
  {
    if run != [] {
      ExclusiveStep(s, run[0]);
      HandsOverStep(s, run[0]);
      BatchesInOrder(Next(s, run[0]), run[1..]);
    }
  }

  /** The ordinary messages of a sequence, in order. */
  function Ordinary(q: seq<Msg>): (r: seq<Msg>)
    ensures (forall m <- q :: !m.urgent) ==> r == q
  {
    if q == [] then [] else (if q[0].urgent then [] else [q[0]]) + Ordinary(q[1..])
  }

  lemma {:induction false} OrdinaryFirst(q: seq<Msg>)
    requires q != []
    ensures Ordinary(q) == (if q[0].urgent then [] else [q[0]]) + Ordinary(q[1..])
  {
  }

  lemma {:induction false} OrdinaryAppend(a: seq<Msg>, b: seq<Msg>)
    ensures Ordinary(a + b) == Ordinary(a) + Ordinary(b)
    decreases |a|
  {
    hide Ordinary;
    if a == [] {
      assert a + b == b && Ordinary(a) == [];
    } else {
      assert (a + b)[1..] == a[1..] + b;
      OrdinaryAppend(a[1..], b);
      OrdinaryFirst(a);
      OrdinaryFirst(a + b);
      ConcatAssoc(if a[0].urgent then [] else [a[0]], Ordinary(a[1..]), Ordinary(b));
    }
  }

  /** Without Clear, ordinary messages are popped in push order, whatever urgent ones overtake them. */
  ghost predicate InOrder(s: State) {
    s.clears == 0 ==> Ordinary(s.pushed) == Ordinary(s.popped) + Ordinary(s.queue)
  }

  lemma {:induction false} InOrderStep(s: State, a: Action)
    requires InOrder(s) && Enabled(s, a)
    ensures InOrder(Next(s, a))
  {
    hide Ordinary;
    if a.Go? && s.threads[a.t].Push? && s.clears == 0 {
      PushInOrder(s.pushed, s.popped, s.queue, s.threads[a.t].msg);
    } else if a.Go? && s.threads[a.t].Pop? && s.clears == 0 {
      PopInOrder(s.pushed, s.popped, s.queue, Batch(s.queue));
    }
  }

  lemma {:induction false} OrdinaryOne(m: Msg)
    ensures Ordinary([m]) == if m.urgent then [] else [m]
  {
  }

  lemma {:induction false} PushInOrder(pushed: seq<Msg>, popped: seq<Msg>, queue: seq<Msg>, m: Msg)
    requires Ordinary(pushed) == Ordinary(popped) + Ordinary(queue)
    ensures Ordinary(pushed + [m]) == Ordinary(popped) + Ordinary(if m.urgent then [m] + queue else queue + [m])
  {
    hide Ordinary;
    OrdinaryAppend(pushed, [m]);
    OrdinaryAppend(queue, [m]);
    OrdinaryAppend([m], queue);
    OrdinaryOne(m);
    ConcatAssoc(Ordinary(popped), Ordinary(queue), Ordinary([m]));
    assert Ordinary(pushed) + [] == Ordinary(pushed) && [] + Ordinary(queue) == Ordinary(queue);
  }

  lemma {:induction false} PopInOrder(pushed: seq<Msg>, popped: seq<Msg>, queue: seq<Msg>, n: nat)
    requires Ordinary(pushed) == Ordinary(popped) + Ordinary(queue) && n <= |queue|
    ensures Ordinary(pushed) == Ordinary(popped + queue[..n]) + Ordinary(queue[n..])
  {
    hide Ordinary;
    var x, y := queue[..n], queue[n..];
    assert queue == x + y;
    OrdinaryAppend(x, y);
    OrdinaryAppend(popped, x);
    ConcatAssoc(Ordinary(popped), Ordinary(x), Ordinary(y));
  }

  lemma {:induction false} OrderKept(s: State, run: seq<Action>)
    requires IsRun(s, run) && InOrder(s)
    ensures InOrder(After(s, run))
    decreases run
  {
    if run != [] {
      InOrderStep(s, run[0]);
      OrderKept(Next(s, run[0]), run[1..]);
    }
  }

  lemma {:induction false} InitHolds()
    ensures Awake(INIT) && Exclusive(INIT) && Conserved(INIT) && HandsOver(INIT) && NothingHeld(INIT)
    ensures InOrder(INIT) && Unstarted(INIT)
  {
  }

  lemma {:induction false} DeliveredIsPopped(s: State)
    requires HandsOver(s) && NothingHeld(s)
    ensures s.delivered <= s.popped
  {
    if exists t | 0 <= t < |s.threads| :: s.threads[t].Hold? {
      var t :| 0 <= t < |s.threads| && s.threads[t].Hold?;
      assert s.popped == s.delivered + s.threads[t].batch;
    }
  }

  /**
   Order of delivery, over every tame run from the initial state without Clear: the ordinary
   messages given to Invoke are a prefix of the ordinary messages accepted, and with no urgent
   message the batches are, one after the other, a prefix of everything accepted.
   */
  lemma {:induction false} FifoDelivery(run: seq<Action>)
    requires IsRun(INIT, run) && TameRun(INIT, run) && After(INIT, run).clears == 0
    ensures Ordinary(After(INIT, run).delivered) <= Ordinary(After(INIT, run).pushed)
    ensures (forall m <- After(INIT, run).pushed :: !m.urgent) ==> After(INIT, run).delivered <= After(INIT, run).pushed
  {
    hide Ordinary, IsRun, After, TameRun;
    var s := After(INIT, run);
    InitHolds();
    OrderKept(INIT, run);
    BatchesInOrder(INIT, run);
    Conservation(INIT, run);
    DeliveredIsPopped(s);
    var rest := s.popped[|s.delivered|..];
    assert s.popped == s.delivered + rest;
    OrdinaryAppend(s.delivered, rest);
    if forall m <- s.pushed :: !m.urgent {
      DeliveredWasPushed(s);
    }
  }

  lemma {:induction false} DeliveredWasPushed(s: State)
    requires Conserved(s) && s.delivered <= s.popped
    ensures forall m <- s.delivered :: m in s.pushed
  {
    assert forall m <- s.popped :: m in multiset(s.pushed);
    assert forall m <- s.delivered :: m in s.popped;
  }

  // ---------------------------------------------------------------- the account of every run

  function Held(pc: Pc): multiset<Msg> {
    if pc.Hold? then multiset(pc.batch) else multiset{}
  }

  /** What all threads together have popped and not yet given to Invoke. */
  function InHand(threads: seq<Pc>): multiset<Msg> {
    if threads == [] then multiset{} else Held(threads[0]) + InHand(threads[1..])
  }

  lemma {:induction false} InHandAt(threads: seq<Pc>, t: nat, pc: Pc)
    requires t < |threads|
    ensures InHand(threads[t := pc]) + Held(threads[t]) == InHand(threads) + Held(pc)
    decreases t
  {
    hide Held;
    if t == 0 {
      assert threads[0 := pc][1..] == threads[1..];
    } else {
      assert threads[t := pc][1..] == threads[1..][t - 1 := pc];
      InHandAt(threads[1..], t - 1, pc);
      assert InHand(threads[t := pc]) == Held(threads[0]) + InHand(threads[1..][t - 1 := pc]);
      assert InHand(threads) == Held(threads[0]) + InHand(threads[1..]);
      AddToBoth(Held(threads[0]), InHand(threads[1..][t - 1 := pc]), Held(threads[t]), InHand(threads[1..]), Held(pc));
    }
  }

  lemma {:induction false} AddToBoth(h: multiset<Msg>, a: multiset<Msg>, b: multiset<Msg>, c: multiset<Msg>, d: multiset<Msg>)
    requires a + b == c + d
    ensures h + a + b == h + c + d
  {
    assert h + a + b == h + (a + b) && h + c + d == h + (c + d);
  }

  lemma {:induction false} InHandAppend(threads: seq<Pc>, pc: Pc)
    ensures InHand(threads + [pc]) == InHand(threads) + Held(pc)
    decreases |threads|
  {
    hide Held;
    if threads == [] {
      assert threads + [pc] == [pc] && [pc][1..] == [];
    } else {
      assert (threads + [pc])[1..] == threads[1..] + [pc];
      InHandAppend(threads[1..], pc);
    }
  }

  /** What was popped was given to Invoke or is in somebody's hand. */
  ghost predicate Accounted(s: State) {
    multiset(s.popped) == multiset(s.delivered) + InHand(s.threads)
  }

  /** A step of a thread moves a batch from the queue to its hand, or from its hand to Invoke, or touches none. */
  lemma {:induction false} StepOfHand(s: State, t: nat)
    requires Enabled(s, Go(t)) && !s.threads[t].Spawn?
    ensures var (s', pc) := (Next(s, Go(t)), s.threads[t]);
      && |s'.threads| == |s.threads|
      && multiset(s'.popped) + Held(pc) + multiset(s.delivered) == multiset(s.popped) + Held(s'.threads[t]) + multiset(s'.delivered)
  {
    if s.threads[t].Pop? && Batch(s.queue) > 0 {
      var batch := s.queue[..Batch(s.queue)];
      assert Next(s, Go(t)).popped == s.popped + batch && Next(s, Go(t)).threads[t] == Hold(batch);
    } else if !s.threads[t].Hold? {
      GoHoldsNothing(s, t);
    }
  }

  lemma {:induction false} AccountedStep(s: State, a: Action)
    requires Accounted(s) && Enabled(s, a)
    ensures Accounted(Next(s, a))
  {
    hide Next, InHand;
    match a
    case Enter(pc) =>
      EnterHoldsNothing(s, pc);
      InHandAppend(s.threads, pc);
    case Go(t) =>
      if s.threads[t].Spawn? {
        SpawnOfThread(s, t);
        InHandAt(s.threads, t, Done);
        InHandAppend(s.threads[t := Done], Loop);
      } else {
        StepIsLocal(s, t);
        StepOfHand(s, t);
        InHandAt(s.threads, t, Next(s, a).threads[t]);
        Cancel(multiset(s.popped), multiset(s.delivered), InHand(s.threads), Held(s.threads[t]),
               multiset(Next(s, a).popped), multiset(Next(s, a).delivered), InHand(Next(s, a).threads),
               Held(Next(s, a).threads[t]));
      }
  }

  lemma {:induction false} Cancel(p: multiset<Msg>, d: multiset<Msg>, i: multiset<Msg>, h: multiset<Msg>,
               p': multiset<Msg>, d': multiset<Msg>, i': multiset<Msg>, h': multiset<Msg>)
    requires p == d + i && p' + h + d == p + h' + d' && i' + h == i + h'
    ensures p' == d' + i'
  {
    forall m
      ensures p'[m] == (d' + i')[m]
    {
      assert (p' + h + d)[m] == (p + h' + d')[m] && (i' + h)[m] == (i + h')[m];
    }
  }

  lemma {:induction false} AccountedRun(s: State, run: seq<Action>)
    requires IsRun(s, run) && Accounted(s)
    ensures Accounted(After(s, run))
    decreases |run|
  {
    hide Accounted, Next, Enabled;
    if run != [] {
      AccountedStep(s, run[0]);
      AccountedRun(Next(s, run[0]), run[1..]);
    }
  }

  /** In every run: accepted is delivered, in hand, queued or cleared. */
  lemma {:induction false} MailboxAccount(run: seq<Action>)
    requires IsRun(INIT, run)
    ensures var s := After(INIT, run);
      multiset(s.pushed) == multiset(s.delivered) + InHand(s.threads) + multiset(s.queue) + s.cleared
  {
    hide IsRun, After;
    InitHolds();
    AccountedRun(INIT, run);
    Conservation(INIT, run);
  }

  // ---------------------------------------------------------------- quiescence

  /** Whoever set the status to running or starting, or took over, is still there. */
  ghost predicate Manned(s: State) {
    && (s.status == Running ==> exists t | 0 <= t < |s.threads| :: Consumes(s.threads[t]))
    && (s.status == Starting ==> exists t | 0 <= t < |s.threads| :: s.threads[t].Activate?)
  }

  /** What a step does to who is in charge: it stays, or the status no longer needs it. */
  lemma {:induction false} StepOfOwner(s: State, t: nat)
    requires Enabled(s, Go(t)) && !s.threads[t].Spawn?
    ensures var (s', pc) := (Next(s, Go(t)), s.threads[t]);
      && |s'.threads| == |s.threads|
      && (s'.status == Running ==> Consumes(s'.threads[t]) || (s.status == Running && !Consumes(pc)))
      && (s'.status == Starting ==> s'.threads[t].Activate? || (s.status == Starting && !pc.Activate?))
  {
  }

  lemma {:induction false} MannedStep(s: State, a: Action)
    requires Manned(s) && Enabled(s, a)
    ensures Manned(Next(s, a))
  {
    hide Next, Consumes;
    var s' := Next(s, a);
    match a
    case Enter(pc) =>
      EnterHoldsNothing(s, pc);
      StillThere(s, s');
    case Go(t) =>
      if s.threads[t].Spawn? {
        SpawnOfThread(s, t);
        SpawnsConsumer(s, t);
      } else {
        StepIsLocal(s, t);
        StepOfOwner(s, t);
        if s'.status == Running && !Consumes(s'.threads[t]) {
          var u :| 0 <= u < |s.threads| && Consumes(s.threads[u]);
          assert Consumes(s'.threads[u]);
        }
        if s'.status == Starting && !s'.threads[t].Activate? {
          var u :| 0 <= u < |s.threads| && s.threads[u].Activate?;
          assert s'.threads[u].Activate?;
        }
      }
  }

  lemma {:induction false} StillThere(s: State, s': State)
    requires Manned(s) && s'.status == s.status && s.threads <= s'.threads
    ensures Manned(s')
  {
    if s.status == Running {
      var u :| 0 <= u < |s.threads| && Consumes(s.threads[u]);
      assert Consumes(s'.threads[u]);
    } else if s.status == Starting {
      var u :| 0 <= u < |s.threads| && s.threads[u].Activate?;
      assert s'.threads[u].Activate?;
    }
  }

  lemma {:induction false} SpawnsConsumer(s: State, t: nat)
    requires Manned(s) && t < |s.threads| && s.threads[t].Spawn?
    ensures Manned(s.(threads := s.threads[t := Done] + [Loop]))
  {
    var s' := s.(threads := s.threads[t := Done] + [Loop]);
    assert Consumes(s'.threads[|s.threads|]);
    if s.status == Starting {
      var u :| 0 <= u < |s.threads| && s.threads[u].Activate?;
      assert s'.threads[u].Activate?;
    }
  }

  lemma {:induction false} MannedRun(s: State, run: seq<Action>)
    requires IsRun(s, run) && Manned(s)
    ensures Manned(After(s, run))
    decreases |run|
  {
    hide Manned, Next, Enabled;
    if run != [] {
      MannedStep(s, run[0]);
      MannedRun(Next(s, run[0]), run[1..]);
    }
  }

  ghost predicate Quiescent(s: State) {
    forall t | 0 <= t < |s.threads| :: s.threads[t].Done?
  }

  lemma {:induction false} NothingInHand(threads: seq<Pc>)
    requires forall t | 0 <= t < |threads| :: threads[t].Done?
    ensures InHand(threads) == multiset{}
    decreases |threads|
  {
    if threads != [] {
      NothingInHand(threads[1..]);
    }
  }

  /**
   In every run: when nothing is left to do in an inbox that is not stopped, it is idle and empty,
   and everything accepted was given to Invoke or dropped by Clear.
   */
  lemma {:induction false} QuiescentIsDrained(run: seq<Action>)
    requires IsRun(INIT, run)
    requires Quiescent(After(INIT, run)) && After(INIT, run).status != Stopped
    ensures After(INIT, run).status == Idle && After(INIT, run).queue == []
    ensures multiset(After(INIT, run).pushed) == multiset(After(INIT, run).delivered) + After(INIT, run).cleared
  {
    hide IsRun, After;
    InitHolds();
    NoLostWakeup(INIT, run);
    MannedRun(INIT, run);
    MailboxAccount(run);
    NothingInHand(After(INIT, run).threads);
  }

  // ---------------------------------------------------------------- progress

  /** Operations of callers still to come: each can wake a consumer or change the status. */
  function External(pc: Pc): nat {
    match pc
    case Start => 2
    case Push(_) => 1
    case Activate => 1
    case Stop => 1
    case Clear => 1
    case _ => 0
  }

  /** How far a thread is from being done, when callers do nothing more. */
  function Distance(pc: Pc, pending: bool, stopped: bool): nat {
    match pc
    case Leave => if pending && !stopped then 8 else 2
    case Recheck => if pending then 7 else 1
    case Schedule => 6
    case Hold(_) => 6
    case Spawn => 5
    case Invoke => 5
    case Loop => 4
    case Pop => 3
    case _ => 0
  }

  function Externals(threads: seq<Pc>): nat {
    if threads == [] then 0 else External(threads[0]) + Externals(threads[1..])
  }

  function Distances(threads: seq<Pc>, pending: bool, stopped: bool): nat {
    if threads == [] then 0
    else Distance(threads[0], pending, stopped) + Distances(threads[1..], pending, stopped)
  }

  lemma {:induction false} SumsAt(threads: seq<Pc>, t: nat, pc: Pc, pending: bool, stopped: bool)
    requires t < |threads|
    ensures Externals(threads[t := pc]) == Externals(threads) - External(threads[t]) + External(pc)
    ensures Distances(threads[t := pc], pending, stopped)
         == Distances(threads, pending, stopped) - Distance(threads[t], pending, stopped) + Distance(pc, pending, stopped)
    decreases t
  {
    hide External, Distance;
    if t == 0 {
      assert threads[0 := pc][1..] == threads[1..];
    } else {
      assert threads[t := pc][1..] == threads[1..][t - 1 := pc];
      SumsAt(threads[1..], t - 1, pc, pending, stopped);
    }
  }

  lemma {:induction false} SumsAppend(threads: seq<Pc>, pc: Pc, pending: bool, stopped: bool)
    ensures Externals(threads + [pc]) == Externals(threads) + External(pc)
    ensures Distances(threads + [pc], pending, stopped) == Distances(threads, pending, stopped) + Distance(pc, pending, stopped)
    decreases threads
  {
    hide External, Distance;
    if threads == [] {
      assert threads + [pc] == [pc] && [pc][1..] == [];
    } else {
      assert (threads + [pc])[1..] == threads[1..] + [pc];
      SumsAppend(threads[1..], pc, pending, stopped);
    }
  }

  /** The caller operations, the queued messages and the distances, in this order of importance. */
  function Work(s: State): (nat, nat, nat) {
    (Externals(s.threads), |s.queue|, Distances(s.threads, s.queue != [], s.status == Stopped))
  }

  predicate Less(x: (nat, nat, nat), y: (nat, nat, nat)) {
    x.0 < y.0 || (x.0 == y.0 && (x.1 < y.1 || (x.1 == y.1 && x.2 < y.2)))
  }

  lemma {:induction false} StepIsLocal(s: State, t: nat)
    requires Enabled(s, Go(t)) && !s.threads[t].Spawn?
    ensures var s' := Next(s, Go(t)); |s'.threads| == |s.threads| && s'.threads == s.threads[t := s'.threads[t]]
  {
  }

  lemma {:induction false} CallerStep(s: State, t: nat)
    requires Enabled(s, Go(t)) && External(s.threads[t]) > 0
    ensures External(Next(s, Go(t)).threads[t]) < External(s.threads[t])
  {
  }

  /** A step of a thread with no caller operation ahead: the queue gets shorter, or the thread nearer to done. */
  lemma {:induction false} InnerStep(s: State, t: nat)
    requires Enabled(s, Go(t)) && !s.threads[t].Spawn? && External(s.threads[t]) == 0
    ensures var (s', pc) := (Next(s, Go(t)), s.threads[t]);
      && External(s'.threads[t]) == 0
      && (|| |s'.queue| < |s.queue|
          || (&& s'.queue == s.queue && (s'.status == Stopped <==> s.status == Stopped)
              && Distance(s'.threads[t], s.queue != [], s.status == Stopped) < Distance(pc, s.queue != [], s.status == Stopped)))
  {
    match s.threads[t]
    case Pop => PopStep(s, t);
    case Leave =>
    case Recheck =>
    case Schedule =>
    case Hold(_) =>
    case Invoke =>
    case Loop =>
  }

  lemma {:induction false} PopStep(s: State, t: nat)
    requires Enabled(s, Go(t)) && s.threads[t].Pop?
    ensures var s' := Next(s, Go(t));
      if s.queue == [] then s' == At(s, t, Leave) else s'.threads[t].Hold? && |s'.queue| < |s.queue|
  {
  }

  lemma {:induction false} SpawnOfThread(s: State, t: nat)
    requires Enabled(s, Go(t)) && s.threads[t].Spawn?
    ensures Next(s, Go(t)) == s.(threads := s.threads[t := Done] + [Loop])
    ensures External(Spawn) == External(Done) == External(Loop) == 0
    ensures forall pending, stopped ::
      Distance(Done, pending, stopped) + Distance(Loop, pending, stopped) < Distance(Spawn, pending, stopped)
  {
  }

  /** Every step that is not a new call brings the inbox closer to quiescence. */
  lemma {:induction false} StepWorks(s: State, t: nat)
    requires Enabled(s, Go(t))
    ensures Less(Work(Next(s, Go(t))), Work(s))
  {
    hide Externals, Distances, External, Distance, Next;
    var s' := Next(s, Go(t));
    var pc := s.threads[t];
    var pending, stopped := s'.queue != [], s'.status == Stopped;
    if pc.Spawn? {
      SpawnOfThread(s, t);
      SumsAt(s.threads, t, Done, pending, stopped);
      SumsAppend(s.threads[t := Done], Loop, pending, stopped);
    } else {
      StepIsLocal(s, t);
      if External(pc) > 0 {
        CallerStep(s, t);
      } else {
        InnerStep(s, t);
      }
      SumsAt(s.threads, t, s'.threads[t], pending, stopped);
    }
  }

  /** A run of `k` internal steps, as states. */
  ghost predicate InternalRun(states: nat -> State, k: nat) {
    forall i: nat | i < k :: exists t: nat :: Enabled(states(i), Go(t)) && states(i + 1) == Next(states(i), Go(t))
  }

  /** No execution goes on for ever without new calls. */
  lemma {:induction false} NoInfiniteRun(states: nat -> State, i: nat)
    requires forall k: nat :: InternalRun(states, k)
    ensures false
    decreases Work(states(i)).0, Work(states(i)).1, Work(states(i)).2
  {
    hide Work, Next, Enabled;
    assert InternalRun(states, i + 1);
    var t: nat :| Enabled(states(i), Go(t)) && states(i + 1) == Next(states(i), Go(t));
    StepWorks(states(i), t);
    NoInfiniteRun(states, i + 1);
  }
}
