/**
 Shutting down a tree of actors. A process that is cleaned up poisons its children one by one, each
 time waiting for the pill's cancel, before it takes itself down. Pills are served, and nothing is
 spawned meanwhile. The order in which Go ranges over a map of children is the order of `kids`.
 */
module Shutdown {
  import opened Machine

  type Id = string

  datatype Tree = Tree(id: Id, kids: seq<Tree>)

  datatype Event =
    | InboxStopped(id: Id)
    | Deregistered(id: Id)
    | GotStopped(id: Id)
    | Cancelled(id: Id)    // the cancel function of the pill sent to `id`
    | DeadLetter(id: Id)   // a pill for a process that is not registered

  // ---------------------------------------------------------------- trees

  function Nodes(t: Tree): set<Id> {
    {t.id} + NodesOf(t.kids)
  }

  function NodesOf(kids: seq<Tree>): set<Id> {
    if kids == [] then {} else Nodes(kids[0]) + NodesOf(kids[1..])
  }

  predicate Distinct(t: Tree) {
    t.id !in NodesOf(t.kids) && DistinctKids(t.kids)
  }

  predicate DistinctKids(kids: seq<Tree>) {
    kids == [] || (Distinct(kids[0]) && Nodes(kids[0]) !! NodesOf(kids[1..]) && DistinctKids(kids[1..]))
  }

  /** The nodes a shutdown reaches: registered, under registered ones. */
  function Live(t: Tree, registry: set<Id>): set<Id> {
    {t.id} + LiveOf(t.kids, registry)
  }

  function LiveOf(kids: seq<Tree>, registry: set<Id>): set<Id> {
    if kids == [] then {}
    else (if kids[0].id in registry then Live(kids[0], registry) else {}) + LiveOf(kids[1..], registry)
  }

  // ---------------------------------------------------------------- the events of a shutdown

  /** cleanup: the children first, then the process itself, the deferred cancel last. */
  function Cleanup(t: Tree, registry: set<Id>): seq<Event>
    decreases t, 0
  {
    PoisonAll(t.kids, registry) + TakeDown(t.id)
  }

  function TakeDown(id: Id): seq<Event> {
    [InboxStopped(id), Deregistered(id), GotStopped(id), Cancelled(id)]
  }

  /** A pill for a process that is gone is a dead letter and is cancelled at once. */
  function Poison(t: Tree, registry: set<Id>): seq<Event>
    decreases t, 1
  {
    if t.id in registry then Cleanup(t, registry) else [DeadLetter(t.id), Cancelled(t.id)]
  }

  function PoisonAll(kids: seq<Tree>, registry: set<Id>): seq<Event>
    decreases kids, 0
  {
    if kids == [] then [] else Poison(kids[0], registry) + PoisonAll(kids[1..], registry)
  }

  /** The registry after a trace. */
  function After(registry: set<Id>, trace: seq<Event>): set<Id> {
    registry - set e | e in trace && e.Deregistered? :: e.id
  }

  // ---------------------------------------------------------------- who appears

  lemma {:induction false} LiveIsInside(t: Tree, registry: set<Id>)
    ensures Live(t, registry) <= Nodes(t)
    decreases t
  {
    LiveOfIsInside(t.kids, registry);
  }

  lemma {:induction false} LiveOfIsInside(kids: seq<Tree>, registry: set<Id>)
    ensures LiveOf(kids, registry) <= NodesOf(kids)
    decreases kids
  {
    if kids != [] {
      LiveIsInside(kids[0], registry);
      LiveOfIsInside(kids[1..], registry);
    }
  }

  lemma {:induction false} EventsInside(t: Tree, registry: set<Id>, e: Event)
    requires e in Cleanup(t, registry)
    ensures e.id in Nodes(t)
    decreases t
  {
    if e in PoisonAll(t.kids, registry) {
      EventsOfKidsInside(t.kids, registry, e);
    }
  }

  lemma {:induction false} EventsOfKidsInside(kids: seq<Tree>, registry: set<Id>, e: Event)
    requires e in PoisonAll(kids, registry)
    ensures e.id in NodesOf(kids)
    decreases kids
  {
    if e in Poison(kids[0], registry) {
      if kids[0].id in registry {
        EventsInside(kids[0], registry, e);
      }
    } else {
      EventsOfKidsInside(kids[1..], registry, e);
    }
  }

  // ---------------------------------------------------------------- exactly once

  /** How often x is taken down: inbox stopped, deregistered, given Stopped. */
  ghost predicate TakenDown(trace: seq<Event>, x: Id, times: nat) {
    && multiset(trace)[InboxStopped(x)] == times
    && multiset(trace)[Deregistered(x)] == times
    && multiset(trace)[GotStopped(x)] == times
  }

  lemma {:induction false} TakenDownConcat(a: seq<Event>, b: seq<Event>, x: Id, m: nat, n: nat)
    requires TakenDown(a, x, m) && TakenDown(b, x, n)
    ensures TakenDown(a + b, x, m + n)
  {
  }

  lemma {:induction false} TakeDownOnce(id: Id, x: Id)
    ensures TakenDown(TakeDown(id), x, if x == id then 1 else 0)
  {
  }

  /** A shutdown takes down exactly the live nodes of the tree, each once. */
  lemma {:induction false} ShutdownExact(t: Tree, registry: set<Id>, x: Id)
    requires Distinct(t)
    ensures TakenDown(Cleanup(t, registry), x, if x in Live(t, registry) then 1 else 0)
    decreases t
  {
    hide TakenDown, TakeDown;
    ShutdownKidsExact(t.kids, registry, x);
    LiveOfIsInside(t.kids, registry);
    TakeDownOnce(t.id, x);
    TakenDownConcat(PoisonAll(t.kids, registry), TakeDown(t.id), x,
                    if x in LiveOf(t.kids, registry) then 1 else 0, if x == t.id then 1 else 0);
  }

  lemma {:induction false} ShutdownKidsExact(kids: seq<Tree>, registry: set<Id>, x: Id)
    requires DistinctKids(kids)
    ensures TakenDown(PoisonAll(kids, registry), x, if x in LiveOf(kids, registry) then 1 else 0)
    decreases kids
  {
    hide TakenDown;
    if kids == [] {
      NothingTakenDown(x);
    } else {
      ShutdownKidsExact(kids[1..], registry, x);
      LiveOfIsInside(kids[1..], registry);
      var first := if kids[0].id in registry then Live(kids[0], registry) else {};
      if kids[0].id in registry {
        ShutdownExact(kids[0], registry, x);
        LiveIsInside(kids[0], registry);
      } else {
        DeadLetterTakesNothingDown(kids[0].id, x);
      }
      TakenDownConcat(Poison(kids[0], registry), PoisonAll(kids[1..], registry), x,
                      if x in first then 1 else 0, if x in LiveOf(kids[1..], registry) then 1 else 0);
    }
  }

  lemma {:induction false} NothingTakenDown(x: Id)
    ensures TakenDown([], x, 0)
  {
  }

  lemma {:induction false} DeadLetterTakesNothingDown(id: Id, x: Id)
    ensures TakenDown([DeadLetter(id), Cancelled(id)], x, 0)
  {
  }

  /** Exactly the live subtree leaves the registry. */
  lemma {:induction false} ShutdownDeregisters(t: Tree, registry: set<Id>)
    requires Distinct(t)
    ensures After(registry, Cleanup(t, registry)) == registry - Live(t, registry)
  {
    var trace := Cleanup(t, registry);
    forall x: Id
      ensures Deregistered(x) in trace <==> x in Live(t, registry)
    {
      ShutdownExact(t, registry, x);
      assert Deregistered(x) in multiset(trace) <==> Deregistered(x) in trace;
    }
  }

  // ---------------------------------------------------------------- every pill is cancelled

  /** The nodes that are sent a pill, or are the root: the live ones and those listed under them that are gone. */
  function Reached(t: Tree, registry: set<Id>): set<Id> {
    {t.id} + ReachedOf(t.kids, registry)
  }

  function ReachedOf(kids: seq<Tree>, registry: set<Id>): set<Id> {
    if kids == [] then {}
    else (if kids[0].id in registry then Reached(kids[0], registry) else {kids[0].id}) + ReachedOf(kids[1..], registry)
  }

  lemma {:induction false} ReachedIsInside(t: Tree, registry: set<Id>)
    ensures Live(t, registry) <= Reached(t, registry) <= Nodes(t)
    decreases t
  {
    ReachedOfIsInside(t.kids, registry);
  }

  lemma {:induction false} ReachedOfIsInside(kids: seq<Tree>, registry: set<Id>)
    ensures LiveOf(kids, registry) <= ReachedOf(kids, registry) <= NodesOf(kids)
    decreases kids
  {
    if kids != [] {
      ReachedIsInside(kids[0], registry);
      ReachedOfIsInside(kids[1..], registry);
    }
  }

  /** How often the pill of x is cancelled, and how often it is a dead letter. */
  ghost predicate Answered(trace: seq<Event>, x: Id, cancels: nat, letters: nat) {
    multiset(trace)[Cancelled(x)] == cancels && multiset(trace)[DeadLetter(x)] == letters
  }

  lemma {:induction false} AnsweredConcat(a: seq<Event>, b: seq<Event>, x: Id, m: nat, k: nat, n: nat, l: nat)
    requires Answered(a, x, m, k) && Answered(b, x, n, l)
    ensures Answered(a + b, x, m + n, k + l)
  {
  }

  lemma {:induction false} AnsweredBasics(id: Id, x: Id)
    ensures Answered([], x, 0, 0) && Answered(TakeDown(id), x, Ones({id}, x), 0)
    ensures Answered([DeadLetter(id), Cancelled(id)], x, Ones({id}, x), Ones({id}, x))
  {
  }

  function Ones(ids: set<Id>, x: Id): nat {
    if x in ids then 1 else 0
  }

  /**
   Every pill is cancelled exactly once, so that no parent waits for ever: that of a live process when it is down,
   and that of a process which is gone at once, as a dead letter.
   */
  lemma {:induction false} PillsAnswered(t: Tree, registry: set<Id>, x: Id)
    requires Distinct(t)
    ensures var (reached, live) := (Reached(t, registry), Live(t, registry));
      Answered(Cleanup(t, registry), x, Ones(reached, x), Ones(reached - live, x))
    decreases t
  {
    hide Answered, TakeDown;
    KidsAnswered(t.kids, registry, x);
    ReachedOfIsInside(t.kids, registry);
    AnsweredBasics(t.id, x);
    var (reached, live) := (ReachedOf(t.kids, registry), LiveOf(t.kids, registry));
    AnsweredConcat(PoisonAll(t.kids, registry), TakeDown(t.id), x, Ones(reached, x), Ones(reached - live, x), Ones({t.id}, x), 0);
  }

  lemma {:induction false} KidsAnswered(kids: seq<Tree>, registry: set<Id>, x: Id)
    requires DistinctKids(kids)
    ensures var (reached, live) := (ReachedOf(kids, registry), LiveOf(kids, registry));
      Answered(PoisonAll(kids, registry), x, Ones(reached, x), Ones(reached - live, x))
    decreases kids, 1
  {
    hide Answered, Ones, Nodes, NodesOf, Distinct, Poison, Reached, Live;
    if kids == [] {
      AnsweredBasics("", x);
      OnesOfNone(x);
    } else {
      var r, l := KidAnswered(kids, registry, x);
      KidsAnswered(kids[1..], registry, x);
      ReachedOfIsInside(kids[1..], registry);
      var (rs, ls) := (ReachedOf(kids[1..], registry), LiveOf(kids[1..], registry));
      AnsweredConcat(Poison(kids[0], registry), PoisonAll(kids[1..], registry), x,
                     Ones(r, x), Ones(r - l, x), Ones(rs, x), Ones(rs - ls, x));
      OnesApart(r, l, rs, ls, x);
    }
  }

  /** The first of the children: those it reaches, and the live ones among them. */
  lemma {:induction false} KidAnswered(kids: seq<Tree>, registry: set<Id>, x: Id) returns (r: set<Id>, l: set<Id>)
    requires kids != [] && DistinctKids(kids)
    ensures ReachedOf(kids, registry) == r + ReachedOf(kids[1..], registry) && LiveOf(kids, registry) == l + LiveOf(kids[1..], registry)
    ensures l <= r <= Nodes(kids[0])
    ensures Answered(Poison(kids[0], registry), x, Ones(r, x), Ones(r - l, x))
    decreases kids, 0
  {
    hide Answered, Ones, NodesOf, Cleanup;
    var k := kids[0];
    if k.id in registry {
      r, l := Reached(k, registry), Live(k, registry);
      ReachedIsInside(k, registry);
      PillsAnswered(k, registry, x);
    } else {
      r, l := {k.id}, {};
      AnsweredBasics(k.id, x);
      assert {k.id} - {} == {k.id};
    }
  }

  lemma {:induction false} OnesOfNone(x: Id)
    ensures Ones({}, x) == 0 && Ones({} - {}, x) == 0
  {
  }

  lemma {:induction false} OnesApart(r: set<Id>, l: set<Id>, rs: set<Id>, ls: set<Id>, x: Id)
    requires r !! rs && l <= r && ls <= rs
    ensures Ones(r, x) + Ones(rs, x) == Ones(r + rs, x)
    ensures Ones(r - l, x) + Ones(rs - ls, x) == Ones(r + rs - (l + ls), x)
  {
  }

  // ---------------------------------------------------------------- in what order

  /** Whenever b happens, a has happened. */
  ghost predicate Precedes(trace: seq<Event>, a: Event, b: Event) {
    forall i | 0 <= i < |trace| && trace[i] == b :: a in trace[..i]
  }

  lemma {:induction false} PrecedesConcat(x: seq<Event>, y: seq<Event>, a: Event, b: Event)
    requires Precedes(x, a, b) && (a in x || Precedes(y, a, b))
    ensures Precedes(x + y, a, b)
  {
    var z := x + y;
    forall i | 0 <= i < |z| && z[i] == b
      ensures a in z[..i]
    {
      if i < |x| {
        assert z[..i] == x[..i];
      } else {
        assert z[..i] == x + y[..i - |x|];
      }
    }
  }

  lemma {:induction false} PrecedesAbsent(trace: seq<Event>, a: Event, b: Event)
    requires b !in trace
    ensures Precedes(trace, a, b)
  {
  }

  /** `c` is a live node strictly below the live node `p`. */
  predicate Below(t: Tree, registry: set<Id>, p: Id, c: Id) {
    (p == t.id && c in LiveOf(t.kids, registry)) || BelowKids(t.kids, registry, p, c)
  }

  predicate BelowKids(kids: seq<Tree>, registry: set<Id>, p: Id, c: Id) {
    kids != [] &&
    ((kids[0].id in registry && Below(kids[0], registry, p, c)) || BelowKids(kids[1..], registry, p, c))
  }

  lemma {:induction false} BelowInside(t: Tree, registry: set<Id>, p: Id, c: Id)
    requires Below(t, registry, p, c)
    ensures p in Nodes(t)
    decreases t
  {
    if p != t.id {
      BelowKidsInside(t.kids, registry, p, c);
    }
  }

  lemma {:induction false} BelowKidsInside(kids: seq<Tree>, registry: set<Id>, p: Id, c: Id)
    requires BelowKids(kids, registry, p, c)
    ensures p in NodesOf(kids)
    decreases kids
  {
    if kids[0].id in registry && Below(kids[0], registry, p, c) {
      BelowInside(kids[0], registry, p, c);
    } else {
      BelowKidsInside(kids[1..], registry, p, c);
    }
  }

  /** Children before parents: a process stops its inbox only when all live ones below it are stopped and cancelled. */
  lemma {:induction false} ChildrenFirst(t: Tree, registry: set<Id>, p: Id, c: Id)
    requires Distinct(t) && Below(t, registry, p, c)
    ensures Precedes(Cleanup(t, registry), GotStopped(c), InboxStopped(p))
    ensures Precedes(Cleanup(t, registry), Cancelled(c), InboxStopped(p))
    decreases t
  {
    hide Precedes;
    var kids := PoisonAll(t.kids, registry);
    if p == t.id {
      if InboxStopped(p) in kids {
        EventsOfKidsInside(t.kids, registry, InboxStopped(p));
      }
      if BelowKids(t.kids, registry, p, c) {
        BelowKidsInside(t.kids, registry, p, c);
      }
      KidsAreStopped(t.kids, registry, c);
      PrecedesAbsent(kids, GotStopped(c), InboxStopped(p));
      PrecedesAbsent(kids, Cancelled(c), InboxStopped(p));
    } else {
      ChildrenFirstKids(t.kids, registry, p, c);
      PrecedesAbsent(TakeDown(t.id), GotStopped(c), InboxStopped(p));
      PrecedesAbsent(TakeDown(t.id), Cancelled(c), InboxStopped(p));
    }
    PrecedesConcat(kids, TakeDown(t.id), GotStopped(c), InboxStopped(p));
    PrecedesConcat(kids, TakeDown(t.id), Cancelled(c), InboxStopped(p));
  }

  lemma {:induction false} ChildrenFirstKids(kids: seq<Tree>, registry: set<Id>, p: Id, c: Id)
    requires DistinctKids(kids) && BelowKids(kids, registry, p, c)
    ensures Precedes(PoisonAll(kids, registry), GotStopped(c), InboxStopped(p))
    ensures Precedes(PoisonAll(kids, registry), Cancelled(c), InboxStopped(p))
    decreases kids
  {
    hide Precedes;
    var first, rest := Poison(kids[0], registry), PoisonAll(kids[1..], registry);
    if kids[0].id in registry && Below(kids[0], registry, p, c) {
      ChildrenFirst(kids[0], registry, p, c);
      BelowInside(kids[0], registry, p, c);
      if InboxStopped(p) in rest {
        EventsOfKidsInside(kids[1..], registry, InboxStopped(p));
      }
      PrecedesAbsent(rest, GotStopped(c), InboxStopped(p));
      PrecedesAbsent(rest, Cancelled(c), InboxStopped(p));
    } else {
      ChildrenFirstKids(kids[1..], registry, p, c);
      BelowKidsInside(kids[1..], registry, p, c);
      if InboxStopped(p) in first {
        EventsInside(kids[0], registry, InboxStopped(p));
      }
      PrecedesAbsent(first, GotStopped(c), InboxStopped(p));
      PrecedesAbsent(first, Cancelled(c), InboxStopped(p));
    }
    PrecedesConcat(first, rest, GotStopped(c), InboxStopped(p));
    PrecedesConcat(first, rest, Cancelled(c), InboxStopped(p));
  }

  lemma {:induction false} IsStopped(t: Tree, registry: set<Id>, c: Id)
    requires c in Live(t, registry)
    ensures GotStopped(c) in Cleanup(t, registry) && Cancelled(c) in Cleanup(t, registry)
    decreases t
  {
    if c == t.id {
      assert TakeDown(c)[2] == GotStopped(c) && TakeDown(c)[3] == Cancelled(c);
    } else {
      KidsAreStopped(t.kids, registry, c);
    }
  }

  lemma {:induction false} KidsAreStopped(kids: seq<Tree>, registry: set<Id>, c: Id)
    requires c in LiveOf(kids, registry)
    ensures GotStopped(c) in PoisonAll(kids, registry) && Cancelled(c) in PoisonAll(kids, registry)
    decreases kids
  {
    if kids[0].id in registry && c in Live(kids[0], registry) {
      IsStopped(kids[0], registry, c);
    } else {
      KidsAreStopped(kids[1..], registry, c);
    }
  }

  /** The live node `p` lists a child `c`, registered or not, and sends it a pill. */
  predicate Sends(t: Tree, registry: set<Id>, p: Id, c: Id) {
    (p == t.id && exists k | k in t.kids :: k.id == c) || SendsKids(t.kids, registry, p, c)
  }

  predicate SendsKids(kids: seq<Tree>, registry: set<Id>, p: Id, c: Id) {
    kids != [] &&
    ((kids[0].id in registry && Sends(kids[0], registry, p, c)) || SendsKids(kids[1..], registry, p, c))
  }

  lemma {:induction false} SendsInside(t: Tree, registry: set<Id>, p: Id, c: Id)
    requires Sends(t, registry, p, c)
    ensures p in Nodes(t)
    decreases t
  {
    if p != t.id {
      SendsKidsInside(t.kids, registry, p, c);
    }
  }

  lemma {:induction false} SendsKidsInside(kids: seq<Tree>, registry: set<Id>, p: Id, c: Id)
    requires SendsKids(kids, registry, p, c)
    ensures p in NodesOf(kids)
    decreases kids
  {
    if kids[0].id in registry && Sends(kids[0], registry, p, c) {
      SendsInside(kids[0], registry, p, c);
    } else {
      SendsKidsInside(kids[1..], registry, p, c);
    }
  }

  lemma {:induction false} KidIsCancelled(kids: seq<Tree>, registry: set<Id>, k: Tree)
    requires k in kids
    ensures Cancelled(k.id) in PoisonAll(kids, registry)
    decreases kids
  {
    if kids[0] == k {
      assert TakeDown(k.id)[3] == Cancelled(k.id) && [DeadLetter(k.id), Cancelled(k.id)][1] == Cancelled(k.id);
      assert Cancelled(k.id) in Poison(k, registry);
    } else {
      assert kids == [kids[0]] + kids[1..];
      KidIsCancelled(kids[1..], registry, k);
    }
  }

  /** A process waits for the pill of every child it lists, also one that is gone, before it stops its own inbox. */
  lemma {:induction false} PillsAwaited(t: Tree, registry: set<Id>, p: Id, c: Id)
    requires Distinct(t) && Sends(t, registry, p, c)
    ensures Cancelled(c) in Cleanup(t, registry) && Precedes(Cleanup(t, registry), Cancelled(c), InboxStopped(p))
    decreases t
  {
    hide Precedes;
    var kids := PoisonAll(t.kids, registry);
    if p == t.id {
      if InboxStopped(p) in kids {
        EventsOfKidsInside(t.kids, registry, InboxStopped(p));
      }
      if SendsKids(t.kids, registry, p, c) {
        SendsKidsInside(t.kids, registry, p, c);
      }
      var k :| k in t.kids && k.id == c;
      KidIsCancelled(t.kids, registry, k);
      PrecedesAbsent(kids, Cancelled(c), InboxStopped(p));
    } else {
      PillsAwaitedKids(t.kids, registry, p, c);
      PrecedesAbsent(TakeDown(t.id), Cancelled(c), InboxStopped(p));
    }
    PrecedesConcat(kids, TakeDown(t.id), Cancelled(c), InboxStopped(p));
  }

  lemma {:induction false} PillsAwaitedKids(kids: seq<Tree>, registry: set<Id>, p: Id, c: Id)
    requires DistinctKids(kids) && SendsKids(kids, registry, p, c)
    ensures Cancelled(c) in PoisonAll(kids, registry) && Precedes(PoisonAll(kids, registry), Cancelled(c), InboxStopped(p))
    decreases kids
  {
    hide Precedes;
    var first, rest := Poison(kids[0], registry), PoisonAll(kids[1..], registry);
    if kids[0].id in registry && Sends(kids[0], registry, p, c) {
      PillsAwaited(kids[0], registry, p, c);
      SendsInside(kids[0], registry, p, c);
      if InboxStopped(p) in rest {
        EventsOfKidsInside(kids[1..], registry, InboxStopped(p));
      }
      PrecedesAbsent(rest, Cancelled(c), InboxStopped(p));
    } else {
      PillsAwaitedKids(kids[1..], registry, p, c);
      SendsKidsInside(kids[1..], registry, p, c);
      if InboxStopped(p) in first {
        EventsInside(kids[0], registry, InboxStopped(p));
      }
      PrecedesAbsent(first, Cancelled(c), InboxStopped(p));
    }
    PrecedesConcat(first, rest, Cancelled(c), InboxStopped(p));
  }

  /** The inbox stops first, then the process leaves the registry, gets Stopped, and only then is the cancel called. */
  ghost predicate InOrder(trace: seq<Event>, x: Id) {
    && Precedes(trace, InboxStopped(x), Deregistered(x))
    && Precedes(trace, Deregistered(x), GotStopped(x))
    && Precedes(trace, Deregistered(x), Cancelled(x))
    && Precedes(trace, GotStopped(x), Cancelled(x))
  }

  lemma {:induction false} InOrderConcat(a: seq<Event>, b: seq<Event>, x: Id)
    requires InOrder(a, x) && InOrder(b, x)
    ensures InOrder(a + b, x)
  {
    hide Precedes;
    PrecedesConcat(a, b, InboxStopped(x), Deregistered(x));
    PrecedesConcat(a, b, Deregistered(x), GotStopped(x));
    PrecedesConcat(a, b, Deregistered(x), Cancelled(x));
    PrecedesConcat(a, b, GotStopped(x), Cancelled(x));
  }

  /** Every registered process is taken down in that order; no cancel fires for one that is still registered. */
  lemma {:induction false} CancelLast(t: Tree, registry: set<Id>, x: Id)
    requires x in registry
    ensures InOrder(Cleanup(t, registry), x)
    decreases t
  {
    hide InOrder;
    CancelLastKids(t.kids, registry, x);
    TakeDownInOrder(t.id, x);
    InOrderConcat(PoisonAll(t.kids, registry), TakeDown(t.id), x);
  }

  lemma {:induction false} CancelLastKids(kids: seq<Tree>, registry: set<Id>, x: Id)
    requires x in registry
    ensures InOrder(PoisonAll(kids, registry), x)
    decreases kids
  {
    hide InOrder;
    if kids == [] {
      NothingInOrder(x);
    } else {
      if kids[0].id in registry {
        CancelLast(kids[0], registry, x);
      } else {
        DeadLetterInOrder(kids[0].id, x);
      }
      CancelLastKids(kids[1..], registry, x);
      InOrderConcat(Poison(kids[0], registry), PoisonAll(kids[1..], registry), x);
    }
  }

  lemma {:induction false} NothingInOrder(x: Id)
    ensures InOrder([], x)
  {
  }

  lemma {:induction false} DeadLetterInOrder(id: Id, x: Id)
    requires x != id
    ensures InOrder([DeadLetter(id), Cancelled(id)], x)
  {
  }

  lemma {:induction false} TakeDownInOrder(id: Id, x: Id)
    ensures InOrder(TakeDown(id), x)
  {
    var trace := TakeDown(id);
    assert trace[..1][0] == InboxStopped(id);
    assert trace[..2][1] == Deregistered(id);
    assert trace[..3][1] == Deregistered(id) && trace[..3][2] == GotStopped(id);
  }

  // ---------------------------------------------------------------- the engine, in place

  /** The live part of a tree is what the contexts of the processes say: each lists its children, each child its parent. */
  predicate Mirrors(children: map<Id, seq<Id>>, parent: map<Id, Id>, registry: set<Id>, t: Tree)
    decreases t, 1
  {
    && t.id in children && |children[t.id]| == |t.kids|
    && (forall i | 0 <= i < |t.kids| :: children[t.id][i] == t.kids[i].id)
    && MirrorsKids(children, parent, registry, t.id, t.kids)
  }

  predicate MirrorsKids(children: map<Id, seq<Id>>, parent: map<Id, Id>, registry: set<Id>, up: Id, kids: seq<Tree>)
    decreases kids, 0
  {
    kids == [] ||
    (&& kids[0].id in parent && parent[kids[0].id] == up
     && (kids[0].id in registry ==> Mirrors(children, parent, registry, kids[0]))
     && MirrorsKids(children, parent, registry, up, kids[1..]))
  }

  /** Two states look the same to a set of nodes. */
  predicate SameOn(nodes: set<Id>, c1: map<Id, seq<Id>>, r1: set<Id>, c2: map<Id, seq<Id>>, r2: set<Id>) {
    && (forall x | x in nodes && x in c1 :: x in c2 && c2[x] == c1[x])
    && (forall x | x in nodes :: x in r1 <==> x in r2)
  }

  lemma {:induction false} MirrorsFrame(
    t: Tree, parent: map<Id, Id>, c1: map<Id, seq<Id>>, r1: set<Id>, c2: map<Id, seq<Id>>, r2: set<Id>)
    requires Mirrors(c1, parent, r1, t) && SameOn(Nodes(t), c1, r1, c2, r2)
    ensures Mirrors(c2, parent, r2, t)
    decreases t, 1
  {
    MirrorsKidsFrame(t.kids, parent, t.id, c1, r1, c2, r2);
  }

  lemma {:induction false} MirrorsKidsFrame(
    kids: seq<Tree>, parent: map<Id, Id>, up: Id, c1: map<Id, seq<Id>>, r1: set<Id>, c2: map<Id, seq<Id>>, r2: set<Id>)
    requires MirrorsKids(c1, parent, r1, up, kids) && SameOn(NodesOf(kids), c1, r1, c2, r2)
    ensures MirrorsKids(c2, parent, r2, up, kids)
    decreases kids, 0
  {
    if kids != [] {
      assert kids[0].id in Nodes(kids[0]);
      if kids[0].id in r1 {
        MirrorsFrame(kids[0], parent, c1, r1, c2, r2);
      }
      MirrorsKidsFrame(kids[1..], parent, up, c1, r1, c2, r2);
    }
  }

  /** A shutdown depends on the registry only where its nodes are. */
  lemma {:induction false} CleanupFrame(t: Tree, r1: set<Id>, r2: set<Id>)
    requires forall x | x in Nodes(t) :: x in r1 <==> x in r2
    ensures Cleanup(t, r1) == Cleanup(t, r2) && Live(t, r1) == Live(t, r2)
    decreases t, 1
  {
    PoisonAllFrame(t.kids, r1, r2);
  }

  lemma {:induction false} PoisonAllFrame(kids: seq<Tree>, r1: set<Id>, r2: set<Id>)
    requires forall x | x in NodesOf(kids) :: x in r1 <==> x in r2
    ensures PoisonAll(kids, r1) == PoisonAll(kids, r2) && LiveOf(kids, r1) == LiveOf(kids, r2)
    decreases kids, 0
  {
    if kids != [] {
      CleanupFrame(kids[0], r1, r2);
      PoisonAllFrame(kids[1..], r1, r2);
    }
  }

  function Without(ids: seq<Id>, id: Id): seq<Id> {
    if ids == [] then [] else (if ids[0] == id then [] else [ids[0]]) + Without(ids[1..], id)
  }

  /** The nodes whose contexts a shutdown may touch: those of the tree, and the parent of its root. */
  function Touched(parent: map<Id, Id>, t: Tree): set<Id> {
    Nodes(t) + if t.id in parent then {parent[t.id]} else {}
  }

  class Engine {
    var registry: set<Id>
    var children: map<Id, seq<Id>>
    const parent: map<Id, Id>
    var trace: seq<Event>

    /** sendPoisonPill to a child, and waiting until its context is done. */
    method PoisonAndWait(id: Id, ghost t: Tree)
      requires t.id == id && Distinct(t) && (id in registry ==> Mirrors(children, parent, registry, t))
      requires id in parent ==> parent[id] !in Nodes(t)
      modifies this
      ensures trace == old(trace) + Poison(t, old(registry))
      ensures registry == old(registry) - (if id in old(registry) then Live(t, old(registry)) else {})
      ensures forall x | x in old(children) && x !in Touched(parent, t) :: x in children && children[x] == old(children[x])
      decreases t, 1
    {
      if id !in registry {
        trace := trace + [DeadLetter(id), Cancelled(id)];
      } else {
        CleanupProcess(id, t);
      }
    }

    method CleanupProcess(id: Id, ghost t: Tree)
      requires t.id == id && Distinct(t) && Mirrors(children, parent, registry, t)
      requires id in parent ==> parent[id] !in Nodes(t)
      modifies this
      ensures trace == old(trace) + Cleanup(t, old(registry))
      ensures registry == old(registry) - Live(t, old(registry))
      ensures forall x | x in old(children) && x !in Touched(parent, t) :: x in children && children[x] == old(children[x])
      ensures id in parent && parent[id] in old(children) ==>
        parent[id] in children && children[parent[id]] == Without(old(children)[parent[id]], id)
      decreases t, 0
    {
      hide Cleanup, PoisonAll, LiveOf, NodesOf, DistinctKids, MirrorsKids, Poison, Without;
      if id in parent && parent[id] in children {
        children := children[parent[id] := Without(children[parent[id]], id)];
      }
      MirrorsFrame(t, parent, old(children), registry, children, registry);
      var kids := children[id];
      PoisonChildren(id, kids, t.kids);
      trace := trace + [InboxStopped(id)];
      registry := registry - {id};
      trace := trace + [Deregistered(id), GotStopped(id), Cancelled(id)];
      CleanupIs(t, old(registry));
    }

    /** The loop of cleanup over the children, as they were listed before it. */
    method PoisonChildren(id: Id, pids: seq<Id>, ghost kids: seq<Tree>)
      requires |pids| == |kids| && forall i | 0 <= i < |kids| :: pids[i] == kids[i].id
      requires DistinctKids(kids) && MirrorsKids(children, parent, registry, id, kids) && id !in NodesOf(kids)
      modifies this
      ensures trace == old(trace) + PoisonAll(kids, old(registry))
      ensures registry == old(registry) - LiveOf(kids, old(registry))
      ensures forall x | x in old(children) && x !in NodesOf(kids) + {id} :: x in children && children[x] == old(children[x])
      decreases kids, 0
    {
      hide PoisonAll, LiveOf, NodesOf, DistinctKids, MirrorsKids, Mirrors, Live, Nodes, Cleanup, Poison, Distinct;
      assert kids[0..] == kids;
      for n := 0 to |pids|
        invariant trace + PoisonAll(kids[n..], registry) == old(trace) + PoisonAll(kids, old(registry))
        invariant registry - LiveOf(kids[n..], registry) == old(registry) - LiveOf(kids, old(registry))
        invariant DistinctKids(kids[n..]) && NodesOf(kids[n..]) <= NodesOf(kids)
        invariant MirrorsKids(children, parent, registry, id, kids[n..])
        invariant forall x | x in old(children) && x !in NodesOf(kids) + {id} :: x in children && children[x] == old(children[x])
      {
        ghost var c, r, t := children, registry, trace;
        ghost var k, rest := kids[n], kids[n + 1..];
        NextKid(kids, n, r);
        NextMirrors(kids, n, c, parent, r, id);
        LiveIsInside(k, r);
        PoisonAndWait(pids[n], k);
        MirrorsKidsFrame(rest, parent, id, c, r, children, registry);
        PoisonAllFrame(rest, r, registry);
        ConcatAssoc(t, Poison(k, r), PoisonAll(rest, r));
      }
      NoKids(registry);
      assert kids[|pids|..] == [] && trace + [] == trace;
    }
  }

  lemma {:induction false} NoKids(registry: set<Id>)
    ensures PoisonAll([], registry) == [] && LiveOf([], registry) == {}
  {
  }

  lemma {:induction false} NextKid(kids: seq<Tree>, n: nat, registry: set<Id>)
    requires n < |kids|
    ensures kids[n].id in Nodes(kids[n])
    ensures PoisonAll(kids[n..], registry) == Poison(kids[n], registry) + PoisonAll(kids[n + 1..], registry)
    ensures LiveOf(kids[n..], registry)
         == (if kids[n].id in registry then Live(kids[n], registry) else {}) + LiveOf(kids[n + 1..], registry)
    ensures NodesOf(kids[n..]) == Nodes(kids[n]) + NodesOf(kids[n + 1..])
    ensures DistinctKids(kids[n..]) <==>
      Distinct(kids[n]) && Nodes(kids[n]) !! NodesOf(kids[n + 1..]) && DistinctKids(kids[n + 1..])
  {
    assert kids[n..][1..] == kids[n + 1..];
  }

  lemma {:induction false} NextMirrors(kids: seq<Tree>, n: nat, children: map<Id, seq<Id>>, parent: map<Id, Id>, registry: set<Id>, up: Id)
    requires n < |kids| && MirrorsKids(children, parent, registry, up, kids[n..])
    ensures kids[n].id in parent && parent[kids[n].id] == up
    ensures kids[n].id in registry ==> Mirrors(children, parent, registry, kids[n])
    ensures MirrorsKids(children, parent, registry, up, kids[n + 1..])
  {
    assert kids[n..][1..] == kids[n + 1..];
  }

  lemma {:induction false} CleanupIs(t: Tree, registry: set<Id>)
    ensures Cleanup(t, registry)
         == PoisonAll(t.kids, registry) + [InboxStopped(t.id)] + [Deregistered(t.id), GotStopped(t.id), Cancelled(t.id)]
  {
  }

  lemma {:induction false} WithoutExact(ids: seq<Id>, id: Id, x: Id)
    ensures x in Without(ids, id) <==> x in ids && x != id
  {
    if ids != [] {
      WithoutExact(ids[1..], id, x);
    }
  }
}
