/**
 Provider and agent of one node together. Snapshots travel from the provider to the agent in FIFO
 order; neither is restarted; an unreachable host is one the provider knows.
 */
module ClusterRun {
  import opened Agent
  import opened Codec
  import opened FirstWins
  import opened Machine
  import opened Membership
  import opened Provider

  /** `delivered` is the last snapshot the agent took; `departed` says a snapshot has dropped a member. */
  datatype Node = Node(
    provider: map<seq<byte>, Member>,
    channel: seq<seq<Member>>,
    agent: Tables,
    delivered: map<seq<byte>, Member>,
    departed: bool)

  datatype Event =
    | Hear(ms: seq<Member>, snapshot: seq<Member>)       // Handshake or Members at the provider
    | Lose(host: seq<byte>, id: seq<byte>, snapshot: seq<Member>) // memberLeave at the provider
    | Deliver                                            // Members at the agent
    | Learn(pids: seq<Pid>)                              // Activation or ActorTopology at the agent
    | Forget(pid: Pid)                                   // Deactivation at the agent

  /** After the provider's Started: it knows itself and has published that. */
  function Boot(self: Member, local: set<seq<byte>>): Node {
    Node(map[self.id := self], [[self]], Tables(map[], local, map[]), map[], false)
  }

  /** A snapshot is whatever order the map came in. */
  ghost predicate Possible(n: Node, e: Event) {
    match e
    case Hear(ms, snapshot) => Lists(snapshot, AddMembers(n.provider, ms))
    case Lose(host, id, snapshot) =>
      id in n.provider && n.provider[id].host == host && Lists(snapshot, n.provider - {id})
    case Deliver => n.channel != []
    case _ => true
  }

  function Apply(n: Node, e: Event): Node
    requires e.Deliver? ==> n.channel != []
  {
    match e
    case Hear(ms, snapshot) => n.(provider := AddMembers(n.provider, ms), channel := n.channel + [snapshot])
    case Lose(host, id, snapshot) => n.(provider := n.provider - {id}, channel := n.channel + [snapshot])
    case Deliver =>
      n.(channel := n.channel[1..],
         agent := TakeSnapshot(n.agent, n.channel[0]),
         delivered := ByID(n.channel[0]),
         departed := n.departed || Departed(n.agent.members, n.channel[0]) != map[])
    case Learn(pids) => n.(agent := n.agent.(activated := Activate(n.agent.activated, pids)))
    case Forget(pid) => n.(agent := n.agent.(activated := n.agent.activated - {pid.id}))
  }

  ghost predicate PossibleRun(n: Node, events: seq<Event>)
    decreases |events|
  {
    events == [] || (Possible(n, events[0]) && PossibleRun(Apply(n, events[0]), events[1..]))
  }

  ghost function Run(n: Node, events: seq<Event>): Node
    requires PossibleRun(n, events)
    decreases |events|
  {
    if events == [] then n else Run(Apply(n, events[0]), events[1..])
  }

  // ---------------------------------------------------------------- the invariant

  /** From `from`, through the snapshots under way, to `to`: neighbours agree on the records they share. */
  ghost predicate Chain(from: map<seq<byte>, Member>, channel: seq<seq<Member>>, to: map<seq<byte>, Member>)
    decreases |channel|
  {
    if channel == [] then from == to
    else Agree(from, ByID(channel[0])) && Chain(ByID(channel[0]), channel[1..], to)
  }

  lemma {:induction false} ChainGrows(
    from: map<seq<byte>, Member>, channel: seq<seq<Member>>, to: map<seq<byte>, Member>, snapshot: seq<Member>)
    requires Chain(from, channel, to) && Agree(to, ByID(snapshot))
    ensures Chain(from, channel + [snapshot], ByID(snapshot))
    decreases |channel|
  {
    if channel == [] {
      assert ([] + [snapshot])[1..] == [];
    } else {
      ChainGrows(ByID(channel[0]), channel[1..], to, snapshot);
      assert (channel + [snapshot])[1..] == channel[1..] + [snapshot];
    }
  }

  ghost predicate Inv(local: set<seq<byte>>, n: Node) {
    && Keyed(n.provider)
    && Chain(n.delivered, n.channel, n.provider)
    && n.agent.members == n.delivered
    && Consistent(local, n.agent)
    && (if n.departed then n.agent.kinds == KindsOf(n.agent.members) else local <= n.agent.kinds)
  }

  lemma {:induction false} BootInv(self: Member, local: set<seq<byte>>)
    ensures Inv(local, Boot(self, local))
  {
    var n := Boot(self, local);
    assert ByID([self]) == n.provider by {
      assert [self][..0] == [];
      assert ByID([]) == map[];
    }
    assert n.channel[1..] == [];
    assert Chain(n.provider, [], n.provider);
    assert KindsOf(map[]) == {};
  }

  /** What every step keeps. */
  lemma {:induction false} StepKeeps(local: set<seq<byte>>, n: Node, e: Event)
    requires Inv(local, n) && Possible(n, e)
    ensures Inv(local, Apply(n, e))
  {
    hide Lists, KindsOf, ByID, Merge, Departed, Joined, AddMembers;
    match e
    case Hear(ms, snapshot) =>
      AddMembersKeeps(n.provider, ms);
      ListingRoundTrip(snapshot, AddMembers(n.provider, ms));
      ChainGrows(n.delivered, n.channel, n.provider, snapshot);
    case Lose(host, id, snapshot) =>
      ListingRoundTrip(snapshot, n.provider - {id});
      ChainGrows(n.delivered, n.channel, n.provider, snapshot);
    case Deliver =>
      MergeExact(n.agent.members, n.channel[0]);
      ConsistentAfterSnapshot(local, n.agent, n.channel[0]);
    case Learn(pids) =>
      ActivateKeyed(n.agent.activated, pids);
    case Forget(_) =>
  }

  lemma {:induction false} RunKeeps(local: set<seq<byte>>, n: Node, events: seq<Event>)
    requires Inv(local, n) && PossibleRun(n, events)
    ensures Inv(local, Run(n, events))
    decreases |events|
  {
    if events != [] {
      StepKeeps(local, n, events[0]);
      RunKeeps(local, Apply(n, events[0]), events[1..]);
    }
  }

  /**
   Agreement: in every run the agent's member map is the last snapshot it was given, record for
   record, and once everything published has arrived it is the provider's map.
   */
  lemma {:induction false} AgentAgrees(self: Member, local: set<seq<byte>>, events: seq<Event>)
    requires PossibleRun(Boot(self, local), events)
    ensures var n := Run(Boot(self, local), events);
      n.agent.members == n.delivered && (n.channel == [] ==> n.agent.members == n.provider)
  {
    BootInv(self, local);
    RunKeeps(local, Boot(self, local), events);
  }

  /** So many deliveries. */
  function Deliveries(k: nat): seq<Event> {
    if k == 0 then [] else [Deliver] + Deliveries(k - 1)
  }

  lemma {:induction false} AllDelivered(n: Node)
    ensures PossibleRun(n, Deliveries(|n.channel|))
    ensures Run(n, Deliveries(|n.channel|)).channel == [] && Run(n, Deliveries(|n.channel|)).provider == n.provider
    decreases |n.channel|
  {
    hide TakeSnapshot, Departed;
    if n.channel != [] {
      assert Deliveries(|n.channel|)[1..] == Deliveries(|n.channel| - 1);
      AllDelivered(Apply(n, Deliver));
    }
  }

  lemma {:induction false} RunsOn(n: Node, a: seq<Event>, b: seq<Event>)
    requires PossibleRun(n, a) && PossibleRun(Run(n, a), b)
    ensures PossibleRun(n, a + b) && Run(n, a + b) == Run(Run(n, a), b)
    decreases |a|
  {
    hide Apply, Lists, AddMembers;
    if a == [] {
      assert a + b == b;
    } else {
      assert (a + b)[1..] == a[1..] + b;
      RunsOn(Apply(n, a[0]), a[1..], b);
    }
  }

  /** Convergence: every run can go on by delivering what is under way, and then the agent knows what the provider knew. */
  lemma {:induction false} Converges(self: Member, local: set<seq<byte>>, events: seq<Event>)
    requires PossibleRun(Boot(self, local), events)
    ensures var n := Run(Boot(self, local), events);
      var rest := Deliveries(|n.channel|);
      PossibleRun(n, rest) && Run(n, rest).channel == [] && Run(n, rest).agent.members == n.provider
  {
    hide Run, PossibleRun;
    var n := Run(Boot(self, local), events);
    AllDelivered(n);
    RunsOn(Boot(self, local), events, Deliveries(|n.channel|));
    AgentAgrees(self, local, events + Deliveries(|n.channel|));
  }

  /**
   Tables: in every run the activated table is keyed by PID.ID, and the known kinds are those of the members,
   and up to the first departure the local ones as well.
   */
  lemma {:induction false} TablesConsistent(self: Member, local: set<seq<byte>>, events: seq<Event>)
    requires PossibleRun(Boot(self, local), events)
    ensures var n := Run(Boot(self, local), events);
      && PidKeyed(n.agent.activated)
      && n.agent.kinds == KindsOf(n.agent.members) + if n.departed then {} else local
  {
    BootInv(self, local);
    RunKeeps(local, Boot(self, local), events);
  }

  /** The same for one kind: what it means that it is known. */
  lemma {:induction false} KindKnown(self: Member, local: set<seq<byte>>, events: seq<Event>, kind: seq<byte>)
    requires PossibleRun(Boot(self, local), events)
    ensures var n := Run(Boot(self, local), events);
      var offered := exists id | id in n.delivered :: kind in n.delivered[id].kinds;
      kind in n.agent.kinds <==> offered || (kind in local && !n.departed)
  {
    hide Run, PossibleRun;
    TablesConsistent(self, local, events);
    AgentAgrees(self, local, events);
    var n := Run(Boot(self, local), events);
    KindsMember(n.delivered, kind);
  }

  lemma {:induction false} KindsMember(members: map<seq<byte>, Member>, kind: seq<byte>)
    ensures kind in KindsOf(members) <==> exists id | id in members :: kind in members[id].kinds
  {
  }

  // ---------------------------------------------------------------- the activated actors, one by one

  /**
   The actor known under one ID, followed through a run on its own: it is the first that is learned while there
   is none, and it is forgotten when that ID is deactivated, or when a snapshot is delivered that lacks a member,
   of the snapshot before, on the host the actor lives on.
   */
  ghost function Follow(known: Option<Pid>, n: Node, events: seq<Event>, id: seq<byte>): Option<Pid>
    requires PossibleRun(n, events)
    decreases |events|
  {
    if events == [] then known
    else
      var next :=
        match events[0]
        case Learn(pids) => if known.Some? then known else Listed(PidId, pids, id)
        case Forget(pid) => if pid.id == id then None else known
        case Deliver => if known.Some? && Loses(n.delivered, n.channel[0], known.value.address) then None else known
        case _ => known;
      Follow(next, Apply(n, events[0]), events[1..], id)
  }

  lemma {:induction false} FollowsTable(local: set<seq<byte>>, n: Node, events: seq<Event>, id: seq<byte>)
    requires Inv(local, n) && PossibleRun(n, events)
    ensures Find(Run(n, events).agent.activated, id) == Follow(Find(n.agent.activated, id), n, events, id)
    decreases |events|
  {
    hide Inv, Lists, AddMembers, Listed, Activate, TakeSnapshot, Loses;
    if events != [] {
      StepKeeps(local, n, events[0]);
      match events[0] {
        case Learn(pids) => ActivateFirst(n.agent.activated, pids, id);
        case Deliver =>
          MembersAreDelivered(local, n);
          SnapshotForgets(n.agent, n.channel[0], id);
        case _ =>
      }
      FollowsTable(local, Apply(n, events[0]), events[1..], id);
    }
  }

  lemma {:induction false} MembersAreDelivered(local: set<seq<byte>>, n: Node)
    requires Inv(local, n)
    ensures n.agent.members == n.delivered
  {
  }

  /** In every run, the table of activated actors holds for each ID what its own history says, and nothing else. */
  lemma {:induction false} ActivatedExactly(self: Member, local: set<seq<byte>>, events: seq<Event>, id: seq<byte>)
    requires PossibleRun(Boot(self, local), events)
    ensures Find(Run(Boot(self, local), events).agent.activated, id) == Follow(None, Boot(self, local), events, id)
  {
    hide Inv, PossibleRun;
    BootInv(self, local);
    FollowsTable(local, Boot(self, local), events, id);
  }

  // ---------------------------------------------------------------- the members, one by one

  /** The record of one member, followed on its own: the first that is heard while there is none, until it is lost. */
  function FollowMember(known: Option<Member>, events: seq<Event>, id: seq<byte>): Option<Member>
    decreases |events|
  {
    if events == [] then known
    else
      var next :=
        match events[0]
        case Hear(ms, _) => if known.Some? then known else Listed(MemberId, ms, id)
        case Lose(_, lost, _) => if lost == id then None else known
        case _ => known;
      FollowMember(next, events[1..], id)
  }

  lemma {:induction false} FollowsMembers(n: Node, events: seq<Event>, id: seq<byte>)
    requires PossibleRun(n, events)
    ensures Find(Run(n, events).provider, id) == FollowMember(Find(n.provider, id), events, id)
    decreases |events|
  {
    hide Lists, AddMembers, Listed, TakeSnapshot, Activate;
    if events != [] {
      match events[0] {
        case Hear(ms, _) => AddMembersFirst(n.provider, ms, id);
        case _ =>
      }
      FollowsMembers(Apply(n, events[0]), events[1..], id);
    }
  }

  /**
   In every run, the provider knows each member by the first record heard since it was last lost, and when everything
   has been delivered so does the agent.
   */
  lemma {:induction false} MembersExactly(self: Member, local: set<seq<byte>>, events: seq<Event>, id: seq<byte>)
    requires PossibleRun(Boot(self, local), events)
    ensures var n := Run(Boot(self, local), events);
      var known := FollowMember(if id == self.id then Some(self) else None, events, id);
      Find(n.provider, id) == known && (n.channel == [] ==> Find(n.agent.members, id) == known)
  {
    hide Run, PossibleRun;
    FollowsMembers(Boot(self, local), events, id);
    AgentAgrees(self, local, events);
  }
}
