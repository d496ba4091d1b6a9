/**
 What the inbox hands out, and when: the order of priority and ordinary messages, what Clear forgets,
 and what a stopped inbox still delivers. All of it over every run of the protocol in `Mailbox`.
 */
module Delivery {
  import opened Machine
  import opened Mailbox

  // ---------------------------------------------------------------- the line

  /** The messages taken so far and those waiting, in the order in which they are taken. */
  function Line(s: State): seq<Msg> {
    s.popped + s.queue
  }

  /** Not a Clear, and not a send with priority. */
  predicate Plain(s: State, a: Action) {
    a.Go? && a.t < |s.threads| ==>
      match s.threads[a.t]
      case Clear => false
      case Push(msg) => !msg.urgent
      case _ => true
  }

  predicate PlainRun(s: State, run: seq<Action>)
    requires IsRun(s, run)
    decreases |run|
  {
    run == [] || (Plain(s, run[0]) && PlainRun(Next(s, run[0]), run[1..]))
  }

  lemma {:induction false} PlainStep(s: State, a: Action)
    requires Enabled(s, a) && Plain(s, a)
    ensures s.pushed <= Next(s, a).pushed && Line(Next(s, a)) == Line(s) + Next(s, a).pushed[|s.pushed|..]
  {
    if a.Go? && s.threads[a.t].Push? {
      ConcatAssoc(s.popped, s.queue, [s.threads[a.t].msg]);
    } else if a.Go? && s.threads[a.t].Pop? {
      var n := Batch(s.queue);
      ConcatAssoc(s.popped, s.queue[..n], s.queue[n..]);
      assert s.queue[..n] + s.queue[n..] == s.queue;
    }
  }

  /** Plain steps only move messages along the line and add new ones at its end. */
  lemma {:induction false} PlainLine(s: State, run: seq<Action>)
    requires IsRun(s, run) && PlainRun(s, run)
    ensures var z := After(s, run); s.pushed <= z.pushed && Line(z) == Line(s) + z.pushed[|s.pushed|..]
    decreases |run|
  {
    hide Next, Enabled, Line, Plain;
    if run != [] {
      var s1 := Next(s, run[0]);
      PlainStep(s, run[0]);
      PlainLine(s1, run[1..]);
      var z := After(s, run);
      ConcatAssoc(Line(s), s1.pushed[|s.pushed|..], z.pushed[|s1.pushed|..]);
      assert s1.pushed[|s.pushed|..] + z.pushed[|s1.pushed|..] == z.pushed[|s.pushed|..];
    }
  }

  /**
   A priority send overtakes: from the moment it is pushed, the message stands behind what was taken
   already and before everything that was waiting, and stays there in every run until the next Clear or
   priority send. Whatever is sent later comes after all of that, in order.
   */
  lemma {:induction false} PriorityOvertakes(s: State, t: nat, run: seq<Action>)
    requires t < |s.threads| && s.threads[t].Push? && s.threads[t].msg.urgent
    requires IsRun(Next(s, Go(t)), run) && PlainRun(Next(s, Go(t)), run)
    ensures var (m, z) := (s.threads[t].msg, After(Next(s, Go(t)), run));
      && s.pushed + [m] <= z.pushed
      && z.popped + z.queue == s.popped + ([m] + s.queue) + z.pushed[|s.pushed| + 1..]
  {
    PlainLine(Next(s, Go(t)), run);
  }

  /** An ordinary send goes to the end of the line, and stays behind what was there, in every such run. */
  lemma {:induction false} SendQueuesUp(s: State, t: nat, run: seq<Action>)
    requires t < |s.threads| && s.threads[t].Push? && !s.threads[t].msg.urgent
    requires IsRun(Next(s, Go(t)), run) && PlainRun(Next(s, Go(t)), run)
    ensures var (m, z) := (s.threads[t].msg, After(Next(s, Go(t)), run));
      && s.pushed + [m] <= z.pushed
      && z.popped + z.queue == s.popped + (s.queue + [m]) + z.pushed[|s.pushed| + 1..]
  {
    PlainLine(Next(s, Go(t)), run);
  }

  /** What Clear finds in the queue is never taken: in every run after it, only what is sent afterwards is. */
  lemma {:induction false} ClearForgets(s: State, t: nat, run: seq<Action>)
    requires t < |s.threads| && s.threads[t].Clear?
    requires IsRun(Next(s, Go(t)), run) && PlainRun(Next(s, Go(t)), run)
    ensures var z := After(Next(s, Go(t)), run);
      s.pushed <= z.pushed && z.popped + z.queue == s.popped + z.pushed[|s.pushed|..]
  {
    PlainLine(Next(s, Go(t)), run);
  }

  /**
   So in tame runs the first message given to Invoke, after those that were taken already, is the one sent
   with priority, and the messages it overtook follow in order.
   */
  lemma {:induction false} PriorityDelivery(before: seq<Action>, t: nat, run: seq<Action>)
    requires IsRun(INIT, before) && TameRun(INIT, before)
    requires var s := After(INIT, before); t < |s.threads| && s.threads[t].Push? && s.threads[t].msg.urgent
    requires var s1 := Next(After(INIT, before), Go(t)); IsRun(s1, run) && TameRun(s1, run) && PlainRun(s1, run)
    ensures var (s, z) := (After(INIT, before), After(Next(After(INIT, before), Go(t)), run));
      && |s.pushed| < |z.pushed|
      && z.delivered <= s.popped + ([s.threads[t].msg] + s.queue) + z.pushed[|s.pushed| + 1..]
      && (|z.delivered| > |s.popped| ==> z.delivered[|s.popped|] == s.threads[t].msg)
  {
    hide IsRun, After, TameRun, Next, PlainRun, HandsOver, NothingHeld, Exclusive;
    var s := After(INIT, before);
    var s1 := Next(s, Go(t));
    InitHolds();
    SingleConsumer(INIT, before);
    BatchesInOrder(INIT, before);
    PushStep(s, t);
    BatchesInOrder(s1, run);
    var z := After(s1, run);
    DeliveredIsPopped(z);
    PriorityOvertakes(s, t, run);
    assert z.popped <= z.popped + z.queue;
  }

  lemma {:induction false} PushStep(s: State, t: nat)
    requires t < |s.threads| && s.threads[t].Push? && Exclusive(s) && HandsOver(s) && NothingHeld(s)
    ensures Exclusive(Next(s, Go(t))) && HandsOver(Next(s, Go(t))) && NothingHeld(Next(s, Go(t)))
  {
    hide Next, HandsOver, NothingHeld, Exclusive;
    ExclusiveStep(s, Go(t));
    ExclusiveIsOneOwner(s);
    HandsOverStep(s, Go(t));
  }

  lemma {:induction false} ExclusiveIsOneOwner(s: State)
    requires Exclusive(s)
    ensures OneOwner(s)
  {
  }

  // ---------------------------------------------------------------- a consumer at work

  /** A batch leaves something behind only if it holds 4096 messages. */
  lemma {:induction false} BatchIsFull(s: State, t: nat)
    requires t < |s.threads| && s.threads[t].Pop?
    ensures var s' := Next(s, Go(t));
      && Line(s') == Line(s) && s.popped <= s'.popped && |s'.popped| <= |s.popped| + 4096
      && (s'.queue != [] ==> |s'.popped| == |s.popped| + 4096)
  {
    assert s.queue[..Batch(s.queue)] + s.queue[Batch(s.queue)..] == s.queue;
    ConcatAssoc(s.popped, s.queue[..Batch(s.queue)], s.queue[Batch(s.queue)..]);
  }

  /** In the loop of run. */
  predicate Working(pc: Pc) {
    pc.Loop? || pc.Pop? || pc.Hold? || pc.Invoke?
  }

  /** All along the run there is something to do. */
  predicate BusyRun(s: State, run: seq<Action>)
    requires IsRun(s, run)
    decreases |run|
  {
    s.status != Stopped && s.queue != [] && (run == [] || BusyRun(Next(s, run[0]), run[1..]))
  }

  /** A consumer does not leave while there are messages and nobody stops the inbox, whatever others do. */
  lemma {:induction false} ConsumerStays(s: State, t: nat, run: seq<Action>)
    requires IsRun(s, run) && BusyRun(s, run) && t < |s.threads| && Working(s.threads[t])
    ensures t < |After(s, run).threads| && Working(After(s, run).threads[t])
    decreases |run|
  {
    hide Next, Enabled, Working;
    if run != [] {
      StaysInLoop(s, t, run[0]);
      ConsumerStays(Next(s, run[0]), t, run[1..]);
    }
  }

  lemma {:induction false} StaysInLoop(s: State, t: nat, a: Action)
    requires Enabled(s, a) && s.status != Stopped && s.queue != [] && t < |s.threads| && Working(s.threads[t])
    ensures t < |Next(s, a).threads| && Working(Next(s, a).threads[t])
  {
    hide Next;
    match a
    case Enter(pc) => EnterHoldsNothing(s, pc);
    case Go(u) =>
      if s.threads[u].Spawn? {
        SpawnOfThread(s, u);
      } else {
        StepIsLocal(s, u);
        if u == t {
          LoopsOn(s, t);
        }
      }
  }

  lemma {:induction false} LoopsOn(s: State, t: nat)
    requires t < |s.threads| && s.status != Stopped && s.queue != [] && Working(s.threads[t])
    ensures Working(Next(s, Go(t)).threads[t])
  {
  }

  // ---------------------------------------------------------------- a stopped inbox

  /** The threads about to pop: past the test of the status. */
  function Poppers(s: State): nat {
    multiset(s.threads)[Pop]
  }

  function IsPop(pc: Pc): nat {
    if pc.Pop? then 1 else 0
  }

  lemma {:induction false} PoppersAt(threads: seq<Pc>, t: nat, pc: Pc)
    requires t < |threads|
    ensures multiset(threads[t := pc])[Pop] == multiset(threads)[Pop] - IsPop(threads[t]) + IsPop(pc)
  {
  }

  lemma {:induction false} PoppersAppend(threads: seq<Pc>, pc: Pc)
    ensures multiset(threads + [pc])[Pop] == multiset(threads)[Pop] + IsPop(pc)
  {
  }

  /** A thread of a stopped inbox, unless it wins a Start: it pops only if it was about to, one batch, and does not pop again. */
  lemma {:induction false} StoppedGo(s: State, t: nat)
    requires Enabled(s, Go(t)) && s.status == Stopped && !s.threads[t].Activate? && !s.threads[t].Spawn?
    requires Next(s, Go(t)).starts == s.starts
    ensures var s' := Next(s, Go(t));
      && s'.status == Stopped && |s'.threads| == |s.threads| && !s'.threads[t].Activate? && s.popped <= s'.popped
      && |s'.popped| + MESSAGE_BATCH_SIZE * IsPop(s'.threads[t]) <= |s.popped| + MESSAGE_BATCH_SIZE * IsPop(s.threads[t])
  {
  }

  /** What a step leaves in a stopped inbox where nobody is about to store idle. */
  lemma {:induction false} StoppedStep(s: State, a: Action)
    requires s.status == Stopped && Activate !in s.threads && Enabled(s, a) && Next(s, a).starts == s.starts
    ensures var s' := Next(s, a);
      && s'.status == Stopped && Activate !in s'.threads && s.popped <= s'.popped
      && |s'.popped| + MESSAGE_BATCH_SIZE * Poppers(s') <= |s.popped| + MESSAGE_BATCH_SIZE * Poppers(s)
  {
    hide Next, IsPop;
    match a
    case Enter(pc) =>
      EnterHoldsNothing(s, pc);
      EnterIsNoPop(s, pc);
      PoppersAppend(s.threads, pc);
    case Go(t) =>
      if s.threads[t].Spawn? {
        SpawnOfThread(s, t);
        SpawnIsNoPop();
        PoppersAt(s.threads, t, Done);
        PoppersAppend(s.threads[t := Done], Loop);
      } else {
        StoppedGo(s, t);
        StepIsLocal(s, t);
        PoppersAt(s.threads, t, Next(s, a).threads[t]);
      }
  }

  lemma {:induction false} EnterIsNoPop(s: State, pc: Pc)
    requires Enabled(s, Enter(pc))
    ensures IsPop(pc) == 0 && !pc.Activate?
  {
  }

  lemma {:induction false} SpawnIsNoPop()
    ensures IsPop(Spawn) == IsPop(Done) == IsPop(Loop) == 0
  {
  }

  /**
   A stopped inbox stops delivering: as long as no Start is won, it stays stopped, and each thread that was
   about to pop takes at most one more batch; if there is none, nothing more is taken.
   */
  lemma {:induction false} StoppedStays(s: State, run: seq<Action>)
    requires IsRun(s, run) && s.status == Stopped && Activate !in s.threads && After(s, run).starts == s.starts
    ensures var z := After(s, run);
      && z.status == Stopped && Activate !in z.threads && s.popped <= z.popped
      && |z.popped| + MESSAGE_BATCH_SIZE * Poppers(z) <= |s.popped| + MESSAGE_BATCH_SIZE * Poppers(s)
      && (Pop !in s.threads ==> z.popped == s.popped)
    decreases |run|
  {
    hide Next, Enabled;
    if run != [] {
      StartsNeverDrop(s, run[0]);
      StartsGrow(Next(s, run[0]), run[1..]);
      StoppedStep(s, run[0]);
      StoppedStays(Next(s, run[0]), run[1..]);
    }
  }

  /** A Start has won its swap and stores idle over the stop: a consumer is spawned and gets past the test. */
  lemma {:induction false} ActivateResumes(s: State, t: nat) returns (run: seq<Action>)
    requires t < |s.threads| && s.threads[t].Activate?
    ensures IsRun(s, run) && Pop in After(s, run).threads
    ensures After(s, run).starts == s.starts && After(s, run).popped == s.popped
  {
    var n := |s.threads|;
    var s3 := s.(status := Running, threads := s.threads[t := Done] + [Loop]);
    var s1 := At(s, t, Schedule).(status := Idle);
    var s2 := At(s1, t, Spawn).(status := Running);
    assert s1.threads[t := Spawn] == s.threads[t := Spawn] && s2.threads[t := Done] == s.threads[t := Done];
    assert Next(s, Go(t)) == s1 && Next(s1, Go(t)) == s2 && Next(s2, Go(t)) == s3;
    RunOfThree(s, Go(t), Go(t), Go(t));
    var s4 := Next(s3, Go(n));
    assert s4.threads[n] == Pop;
    RunOfOne(s3, Go(n));
    RunAppend(s, [Go(t), Go(t), Go(t)], [Go(n)]);
    run := [Go(t), Go(t), Go(t)] + [Go(n)];
  }

  lemma {:induction false} RunOfOne(s: State, a: Action)
    requires Enabled(s, a)
    ensures IsRun(s, [a]) && After(s, [a]) == Next(s, a)
  {
    hide Next, Enabled;
    assert [a][1..] == [];
    assert IsRun(Next(s, a), []) && After(Next(s, a), []) == Next(s, a);
  }

  /** A thread about to pop pops whatever is sent in time, although the inbox is stopped. */
  lemma {:induction false} PopperPops(s: State, t: nat) returns (run: seq<Action>)
    requires t < |s.threads| && s.threads[t].Pop?
    ensures IsRun(s, run) && After(s, run).starts == s.starts && After(s, run).popped != s.popped
  {
    var (n, m) := (|s.threads|, Msg(0, false));
    var s1 := s.(threads := s.threads + [Push(m)]);
    var s2 := Next(s1, Go(n));
    var s3 := Next(s2, Go(t));
    assert s2.threads[t] == Pop && |s2.queue| > 0;
    assert |s3.popped| == |s.popped| + Batch(s2.queue);
    RunOfThree(s, Enter(Push(m)), Go(n), Go(t));
    run := [Enter(Push(m)), Go(n), Go(t)];
  }

  /** After a stop, and unless a Start is won, more is taken in some run. */
  ghost predicate TakesMore(s: State) {
    exists run :: IsRun(s, run) && After(s, run).starts == s.starts && After(s, run).popped != s.popped
  }

  /** That is so exactly when, at the stop, a thread was about to pop or about to store idle. */
  lemma {:induction false} StopExact(s: State)
    requires s.status == Stopped
    ensures TakesMore(s) <==> Pop in s.threads || Activate in s.threads
  {
    hide IsRun, After;
    if Activate in s.threads {
      var t :| 0 <= t < |s.threads| && s.threads[t] == Activate;
      var a := ActivateResumes(s, t);
      var s1 := After(s, a);
      var u :| 0 <= u < |s1.threads| && s1.threads[u] == Pop;
      var b := PopperPops(s1, u);
      MoreIsPopped(s, a, b);
    } else if Pop in s.threads {
      var t :| 0 <= t < |s.threads| && s.threads[t] == Pop;
      var b := PopperPops(s, t);
    } else if TakesMore(s) {
      var run :| IsRun(s, run) && After(s, run).starts == s.starts && After(s, run).popped != s.popped;
      StoppedStays(s, run);
    }
  }

  lemma {:induction false} MoreIsPopped(s: State, a: seq<Action>, b: seq<Action>)
    requires IsRun(s, a) && After(s, a).starts == s.starts && After(s, a).popped == s.popped
    requires IsRun(After(s, a), b) && After(After(s, a), b).starts == s.starts && After(After(s, a), b).popped != s.popped
    ensures TakesMore(s)
  {
    hide IsRun, After;
    RunAppend(s, a, b);
  }
}
