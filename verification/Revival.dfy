/**
 Where the mailbox and the life of a process meet. Invoke runs inside the consumer of the inbox, and
 the Stop and Start that its trace records are calls on that inbox. Played there, a revival is a Start
 that wins its swap while a consumer remains, and leaves two.
 */
module Revival {
  import opened Supervision
  import opened Replay
  import opened Lifecycle
  import Mailbox
  import Delivery

  // ---------------------------------------------------------------- in the trace

  /** Since `from`, a Start found the inbox off, so that its swap was won. */
  predicate WonSince(trace: seq<Event>, from: nat) {
    |trace| > from &&
    var front := trace[..|trace| - 1];
    WonSince(front, from) || (trace[|trace| - 1].InboxStarted? && !InboxOn(front))
  }

  /** From an inbox that is on and was never stopped: a swap is won exactly when the process is revived. */
  lemma {:induction false} WonExactly(trace: seq<Event>, from: nat)
    requires from <= |trace| && InboxOn(trace[..from]) && InboxStopped !in trace[..from] && !Revived(trace[..from])
    ensures WonSince(trace, from) <==> Revived(trace)
    ensures !WonSince(trace, from) ==> (InboxStopped in trace <==> !InboxOn(trace))
    decreases |trace|
  {
    hide InboxOn, Revived, WonSince;
    if |trace| == from {
      assert trace[..from] == trace;
      NotWonYet(trace);
    } else {
      var front := trace[..|trace| - 1];
      assert front[..from] == trace[..from];
      WonExactly(front, from);
      LastEvent(trace, from);
    }
  }

  lemma {:induction false} LastEvent(trace: seq<Event>, from: nat)
    requires |trace| > from
    ensures var (front, e) := (trace[..|trace| - 1], trace[|trace| - 1]);
      && (InboxOn(trace) <==> e.InboxStarted? || (!e.InboxStopped? && InboxOn(front)))
      && (Revived(trace) <==> Revived(front) || (e.InboxStarted? && InboxStopped in front))
      && (WonSince(trace, from) <==> WonSince(front, from) || (e.InboxStarted? && !InboxOn(front)))
      && (InboxStopped in trace <==> InboxStopped in front || e == InboxStopped)
  {
    hide InboxOn, Revived, WonSince;
    assert trace == trace[..|trace| - 1] + [trace[|trace| - 1]];
    LastUnfolded(trace, from);
  }

  lemma {:induction false} LastUnfolded(trace: seq<Event>, from: nat)
    requires |trace| > from
    ensures var (front, e) := (trace[..|trace| - 1], trace[|trace| - 1]);
      && (InboxOn(trace) <==> e.InboxStarted? || (!e.InboxStopped? && InboxOn(front)))
      && (Revived(trace) <==> Revived(front) || (e.InboxStarted? && InboxStopped in front))
      && (WonSince(trace, from) <==> WonSince(front, from) || (e.InboxStarted? && !InboxOn(front)))
  {
  }

  // ---------------------------------------------------------------- in the mailbox

  /** What the goroutine that is inside Invoke does to the inbox at an event of the trace. */
  function Acts(m: Mailbox.State, e: Event): seq<Mailbox.Action> {
    var t := |m.threads|;
    match e
    case InboxStopped => [Mailbox.Enter(Mailbox.Stop), Mailbox.Go(t)]
    case InboxStarted =>
      if m.status == Mailbox.Stopped then
        [Mailbox.Enter(Mailbox.Start), Mailbox.Go(t)] + [Mailbox.Go(t), Mailbox.Go(t)]
      else [Mailbox.Enter(Mailbox.Start), Mailbox.Go(t)]
    case _ => []
  }

  /** And what that leaves: a Start that wins goes on to spawn a consumer. */
  function Acted(m: Mailbox.State, e: Event): Mailbox.State {
    match e
    case InboxStopped => m.(status := Mailbox.Stopped, threads := m.threads + [Mailbox.Done])
    case InboxStarted =>
      if m.status == Mailbox.Stopped then
        m.(status := Mailbox.Running, threads := m.threads + [Mailbox.Spawn], starts := m.starts + 1)
      else m.(threads := m.threads + [Mailbox.Done])
    case _ => m
  }

  lemma {:induction false} Stops(m: Mailbox.State)
    ensures var run := Acts(m, InboxStopped);
      Mailbox.IsRun(m, run) && Mailbox.After(m, run) == Acted(m, InboxStopped) && Mailbox.TameRun(m, run)
  {
    var (a, b, t) := (Mailbox.Enter(Mailbox.Stop), Mailbox.Go(|m.threads|), |m.threads|);
    var m1 := Mailbox.Next(m, a);
    assert m1.threads == m.threads + [Mailbox.Stop];
    assert (m.threads + [Mailbox.Stop])[t := Mailbox.Done] == m.threads + [Mailbox.Done];
    Mailbox.RunOfTwo(m, a, b);
    TameOfTwo(m, a, b);
  }

  lemma {:induction false} TameOfTwo(m: Mailbox.State, a: Mailbox.Action, b: Mailbox.Action)
    requires Mailbox.Enabled(m, a) && Mailbox.Enabled(Mailbox.Next(m, a), b)
    ensures Mailbox.IsRun(m, [a, b])
    ensures Mailbox.TameRun(m, [a, b]) <==> Mailbox.Tame(m, a) && Mailbox.Tame(Mailbox.Next(m, a), b)
  {
    hide Mailbox.Next, Mailbox.Enabled, Mailbox.Tame;
    Mailbox.RunOfTwo(m, a, b);
    assert [a, b][1..] == [b] && [b][1..] == [];
    assert Mailbox.TameRun(Mailbox.Next(m, a), [b]) <==> Mailbox.Tame(Mailbox.Next(m, a), b);
  }

  /** A Start that finds the inbox on or being started loses its swap. */
  lemma {:induction false} StartLoses(m: Mailbox.State)
    requires m.status != Mailbox.Stopped
    ensures var run := Acts(m, InboxStarted);
      Mailbox.IsRun(m, run) && Mailbox.After(m, run) == Acted(m, InboxStarted) && Mailbox.TameRun(m, run)
  {
    var (a, b, t) := (Mailbox.Enter(Mailbox.Start), Mailbox.Go(|m.threads|), |m.threads|);
    var m1 := Mailbox.Next(m, a);
    assert m1.threads == m.threads + [Mailbox.Start];
    assert (m.threads + [Mailbox.Start])[t := Mailbox.Done] == m.threads + [Mailbox.Done];
    Mailbox.RunOfTwo(m, a, b);
    TameOfTwo(m, a, b);
  }

  /** The four steps of a Start that finds it stopped. */
  lemma {:induction false} StartSteps(m: Mailbox.State)
    requires m.status == Mailbox.Stopped
    ensures var (a, b) := (Mailbox.Enter(Mailbox.Start), Mailbox.Go(|m.threads|));
      var m1 := m.(threads := m.threads + [Mailbox.Start]);
      var m2 := m.(status := Mailbox.Starting, threads := m.threads + [Mailbox.Activate], starts := m.starts + 1);
      var m3 := m2.(status := Mailbox.Idle, threads := m.threads + [Mailbox.Schedule]);
      && Mailbox.Enabled(m, a) && Mailbox.Next(m, a) == m1
      && Mailbox.Enabled(m1, b) && Mailbox.Next(m1, b) == m2
      && Mailbox.Enabled(m2, b) && Mailbox.Next(m2, b) == m3
      && Mailbox.Enabled(m3, b) && Mailbox.Next(m3, b) == Acted(m, InboxStarted)
  {
    SwapLast(m.threads, Mailbox.Start, Mailbox.Activate);
    SwapLast(m.threads, Mailbox.Activate, Mailbox.Schedule);
    SwapLast(m.threads, Mailbox.Schedule, Mailbox.Spawn);
  }

  /** It wins, and is untame if somebody is still in charge. */
  lemma {:induction false} StartWins(m: Mailbox.State, u: nat)
    requires m.status == Mailbox.Stopped && u < |m.threads| && Mailbox.Owns(m.threads[u])
    ensures var run := Acts(m, InboxStarted);
      Mailbox.IsRun(m, run) && Mailbox.After(m, run) == Acted(m, InboxStarted) && !Mailbox.TameRun(m, run)
  {
    hide Mailbox.IsRun, Mailbox.After, Mailbox.TameRun, Mailbox.Next, Mailbox.Enabled, Acted;
    var (a, b) := (Mailbox.Enter(Mailbox.Start), Mailbox.Go(|m.threads|));
    var m1 := m.(threads := m.threads + [Mailbox.Start]);
    var m2 := m.(status := Mailbox.Starting, threads := m.threads + [Mailbox.Activate], starts := m.starts + 1);
    StartSteps(m);
    Mailbox.RunOfTwo(m, a, b);
    Mailbox.RunOfTwo(m2, b, b);
    Mailbox.RunAppend(m, [a, b], [b, b]);
    TameOfTwo(m, a, b);
    Mailbox.TameAppend(m, [a, b], [b, b]);
    assert Mailbox.Owns(m1.threads[u]);
  }

  lemma {:induction false} SwapLast(threads: seq<Mailbox.Pc>, x: Mailbox.Pc, y: Mailbox.Pc)
    ensures (threads + [x])[|threads| := y] == threads + [y] && (threads + [x])[|threads|] == x
  {
  }

  // ---------------------------------------------------------------- the trace, played in the mailbox

  function Played(m: Mailbox.State, trace: seq<Event>, from: nat): Mailbox.State {
    if |trace| <= from then m else Acted(Played(m, trace[..|trace| - 1], from), trace[|trace| - 1])
  }

  function Plays(m: Mailbox.State, trace: seq<Event>, from: nat): seq<Mailbox.Action> {
    if |trace| <= from then []
    else
      var front := trace[..|trace| - 1];
      Plays(m, front, from) + Acts(Played(m, front, from), trace[|trace| - 1])
  }

  /** The goroutine `u` is still inside Invoke, the status says what the trace says, and a won swap left a second consumer. */
  ghost predicate Follows(m: Mailbox.State, u: nat, trace: seq<Event>, from: nat) {
    && u < |m.threads| && m.threads[u].Invoke?
    && m.status == (if InboxOn(trace) then Mailbox.Running else Mailbox.Stopped)
    && (WonSince(trace, from) ==> Mailbox.TwoConsumers(m))
  }

  lemma {:induction false} ActedFollows(m: Mailbox.State, u: nat, trace: seq<Event>, from: nat)
    requires |trace| > from && Follows(m, u, trace[..|trace| - 1], from)
    ensures Follows(Acted(m, trace[|trace| - 1]), u, trace, from)
  {
    var (front, e) := (trace[..|trace| - 1], trace[|trace| - 1]);
    var m' := Acted(m, e);
    if WonSince(front, from) {
      var t, v :| 0 <= t < v < |m.threads| && Mailbox.Consumes(m.threads[t]) && Mailbox.Consumes(m.threads[v]);
      Mailbox.TwoAt(m', t, v);
    } else if e.InboxStarted? && !InboxOn(front) {
      Mailbox.TwoAt(m', u, |m.threads|);
    }
  }

  lemma {:induction false} PlaysTrace(m: Mailbox.State, u: nat, trace: seq<Event>, from: nat)
    requires from <= |trace| && Follows(m, u, trace[..from], from)
    ensures Mailbox.IsRun(m, Plays(m, trace, from)) && Mailbox.After(m, Plays(m, trace, from)) == Played(m, trace, from)
    ensures Follows(Played(m, trace, from), u, trace, from)
    ensures Mailbox.TameRun(m, Plays(m, trace, from)) <==> !WonSince(trace, from)
    decreases |trace|
  {
    hide Mailbox.IsRun, Mailbox.After, Mailbox.TameRun, Acted, Acts;
    if |trace| == from {
      NothingPlayed(m);
      assert trace[..from] == trace;
    } else {
      var (front, e) := (trace[..|trace| - 1], trace[|trace| - 1]);
      assert front[..from] == trace[..from];
      PlaysTrace(m, u, front, from);
      var m1 := Played(m, front, from);
      PlaysEvent(m1, u, e, front, from);
      Mailbox.RunAppend(m, Plays(m, front, from), Acts(m1, e));
      Mailbox.TameAppend(m, Plays(m, front, from), Acts(m1, e));
      ActedFollows(m1, u, trace, from);
    }
  }

  lemma {:induction false} NothingPlayed(m: Mailbox.State)
    ensures Mailbox.IsRun(m, []) && Mailbox.After(m, []) == m && Mailbox.TameRun(m, [])
  {
  }

  lemma {:induction false} PlaysEvent(m: Mailbox.State, u: nat, e: Event, front: seq<Event>, from: nat)
    requires Follows(m, u, front, from)
    ensures Mailbox.IsRun(m, Acts(m, e)) && Mailbox.After(m, Acts(m, e)) == Acted(m, e)
    ensures Mailbox.TameRun(m, Acts(m, e)) <==> !(e.InboxStarted? && !InboxOn(front))
  {
    hide Mailbox.IsRun, Mailbox.After, Mailbox.TameRun, InboxOn;
    match e
    case InboxStopped => Stops(m);
    case InboxStarted =>
      if m.status == Mailbox.Stopped {
        StartWins(m, u);
      } else {
        StartLoses(m);
      }
    case _ => NothingPlayed(m);
  }

  /**
   While the consumer `u` of an inbox is inside Invoke, the calls that Invoke makes on that inbox are a
   tame run exactly when the process is not revived; a revival leaves two consumers.
   */
  lemma {:induction false} RevivalIsUntame(c: Config, s: Proc, msgs: seq<Msg>, m: Mailbox.State, u: nat)
    requires c.Calms() && Fresh(s) && InboxOn(s.trace)
    requires u < |m.threads| && m.threads[u].Invoke? && m.status == Mailbox.Running
    ensures var (trace, from) := (Invoke(c, s, msgs).0.trace, |s.trace|);
      && Mailbox.IsRun(m, Plays(m, trace, from))
      && (Mailbox.TameRun(m, Plays(m, trace, from)) <==> !Revived(trace))
      && (Revived(trace) ==> Mailbox.TwoConsumers(Mailbox.After(m, Plays(m, trace, from))))
  {
    hide Invoke, InboxOn, Revived, Plays, Played, Mailbox.IsRun, Mailbox.After, Mailbox.TameRun, PhaseOf;
    var (trace, from) := (Invoke(c, s, msgs).0.trace, |s.trace|);
    assert trace[..from] == s.trace;
    NotWonYet(s.trace);
    PlaysTrace(m, u, trace, from);
    WonExactly(trace, from);
  }

  lemma {:induction false} NotWonYet(trace: seq<Event>)
    ensures !WonSince(trace, |trace|)
  {
  }

  /** Nothing holds back a batch that was popped: it is handed over although the inbox was stopped meanwhile. */
  lemma {:induction false} PoppedIsHandedOver(m: Mailbox.State, t: nat)
    requires t < |m.threads| && m.threads[t].Hold?
    ensures Mailbox.Enabled(m, Mailbox.Go(t))
    ensures Mailbox.Next(m, Mailbox.Go(t)).delivered == m.delivered + m.threads[t].batch
  {
  }

  // ---------------------------------------------------------------- an inbox that is off

  lemma {:induction false} PlayedTakesNothing(m: Mailbox.State, trace: seq<Event>, from: nat)
    ensures Played(m, trace, from).popped == m.popped
    decreases |trace|
  {
    if |trace| > from {
      PlayedTakesNothing(m, trace[..|trace| - 1], from);
    }
  }

  /** The consumer is inside Invoke, so that nobody is about to pop or to store idle. */
  lemma {:induction false} InsideInvoke(m: Mailbox.State, u: nat)
    requires Mailbox.Exclusive(m) && u < |m.threads| && m.threads[u].Invoke?
    ensures Mailbox.Pop !in m.threads && Mailbox.Activate !in m.threads
  {
    Mailbox.OthersDoNotOwn(m, u);
  }

  /**
   Why a life ends where the inbox goes off without a revival: when Invoke comes back from such a batch, nothing
   more is ever taken from the inbox, in any run in which no Start is won.
   */
  lemma {:induction false} OffIsTheEnd(c: Config, s: Proc, msgs: seq<Msg>, m: Mailbox.State, u: nat, run: seq<Mailbox.Action>)
    requires c.Calms() && Fresh(s) && InboxOn(s.trace)
    requires u < |m.threads| && m.threads[u].Invoke? && m.status == Mailbox.Running && Mailbox.Exclusive(m)
    requires var trace := Invoke(c, s, msgs).0.trace; !InboxOn(trace) && !Revived(trace)
    requires var z := Played(m, Invoke(c, s, msgs).0.trace, |s.trace|);
      Mailbox.IsRun(z, run) && Mailbox.After(z, run).starts == z.starts
    ensures var z := Played(m, Invoke(c, s, msgs).0.trace, |s.trace|);
      Mailbox.After(z, run).popped == m.popped && Mailbox.After(z, run).status == Mailbox.Stopped
  {
    hide Invoke, InboxOn, Revived, Plays, Played, Mailbox.IsRun, Mailbox.After, Mailbox.TameRun, PhaseOf, Mailbox.Exclusive;
    var (trace, from) := (Invoke(c, s, msgs).0.trace, |s.trace|);
    assert trace[..from] == s.trace;
    NotWonYet(s.trace);
    PlaysTrace(m, u, trace, from);
    WonExactly(trace, from);
    var z := Played(m, trace, from);
    Mailbox.SingleConsumer(m, Plays(m, trace, from));
    InsideInvoke(z, u);
    PlayedTakesNothing(m, trace, from);
    Delivery.StoppedStays(z, run);
  }
}
