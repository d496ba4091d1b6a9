/**
 The agent of one cluster node: its member map, the kinds it knows, and the table of activated
 actors. Snapshots from the provider are diffed by member ID only.
 */
module Agent {
  import opened Codec
  import opened FirstWins
  import opened Machine
  import opened Membership

  /** What an agent holds. */
  datatype Tables = Tables(members: map<seq<byte>, Member>, kinds: set<seq<byte>>, activated: map<seq<byte>, Pid>)

  /** What an agent sends: its table of activated actors to a member that joins, and a pill to a deactivated actor. */
  datatype Effect = Topology(to: Member, pids: seq<Pid>) | Poison(pid: Pid)

  /** A topology for `to` that holds the whole table. */
  ghost predicate Complete(e: Effect, to: Member, activated: map<seq<byte>, Pid>) {
    e.Topology? && e.to == to && |e.pids| == |activated| && (set p | p in e.pids) == activated.Values
  }

  /** Each of `joined` was sent the whole table, unless it is empty. */
  ghost predicate Announced(before: seq<Effect>, after: seq<Effect>, joined: seq<Member>, activated: map<seq<byte>, Pid>) {
    if activated == map[] then after == before
    else
      && |after| == |before| + |joined| && after[..|before|] == before
      && forall j | 0 <= j < |joined| :: Complete(after[|before| + j], joined[j], activated)
  }

  lemma {:induction false} AnnouncedOneMore(before: seq<Effect>, mid: seq<Effect>, after: seq<Effect>, joined: seq<Member>, m: Member,
                         activated: map<seq<byte>, Pid>)
    requires Announced(before, mid, joined, activated) && Announced(mid, after, [m], activated)
    ensures Announced(before, after, joined + [m], activated)
  {
    hide Complete;
    if activated != map[] {
      forall j | 0 <= j < |joined| + 1
        ensures Complete(after[|before| + j], (joined + [m])[j], activated)
      {
        if j < |joined| {
          assert after[|before| + j] == after[..|mid|][|before| + j] == mid[|before| + j];
        } else {
          assert Complete(after[|mid| + 0], [m][0], activated);
        }
      }
      assert after[..|before|] == after[..|mid|][..|before|];
    }
  }

  function SetOf(kinds: seq<seq<byte>>): set<seq<byte>> {
    set k | k in kinds
  }

  function KindsOf(members: map<seq<byte>, Member>): set<seq<byte>> {
    set id, k | id in members && k in members[id].kinds :: k
  }

  function HostsOf(members: map<seq<byte>, Member>): set<seq<byte>> {
    set id | id in members :: members[id].host
  }

  predicate PidKeyed(activated: map<seq<byte>, Pid>) {
    forall id | id in activated :: activated[id].id == id
  }

  // ---------------------------------------------------------------- what each message does

  /** The members of the snapshot, but with the record the agent already had where it had one. */
  function Merge(members: map<seq<byte>, Member>, snapshot: seq<Member>): map<seq<byte>, Member> {
    var latest := ByID(snapshot);
    map id | id in latest :: if id in members then members[id] else latest[id]
  }

  function Joined(members: map<seq<byte>, Member>, snapshot: seq<Member>): map<seq<byte>, Member> {
    ByID(snapshot) - members.Keys
  }

  function Departed(members: map<seq<byte>, Member>, snapshot: seq<Member>): map<seq<byte>, Member> {
    members - Ids(snapshot)
  }

  /** The activated actors that do not live on one of the hosts. */
  function Off(activated: map<seq<byte>, Pid>, hosts: set<seq<byte>>): map<seq<byte>, Pid> {
    map id | id in activated && activated[id].address !in hosts :: activated[id]
  }

  function TakeSnapshot(t: Tables, snapshot: seq<Member>): Tables {
    var members := Merge(t.members, snapshot);
    var gone := Departed(t.members, snapshot);
    Tables(members,
           if gone == map[] then t.kinds + KindsOf(Joined(t.members, snapshot)) else KindsOf(members),
           Off(t.activated, HostsOf(gone)))
  }

  function PidId(pid: Pid): seq<byte> {
    pid.id
  }

  /** The first PID with an ID wins. */
  function Activate(activated: map<seq<byte>, Pid>, pids: seq<Pid>): map<seq<byte>, Pid> {
    AddAll(PidId, activated, pids)
  }

  // ---------------------------------------------------------------- what they keep

  /**
   The kinds an agent knows lie between those of its members and those plus the local ones, and the
   activated table is keyed by PID.ID.
   */
  predicate Consistent(local: set<seq<byte>>, t: Tables) {
    && Keyed(t.members) && PidKeyed(t.activated)
    && KindsOf(t.members) <= t.kinds <= KindsOf(t.members) + local
  }

  lemma {:induction false} ConsistentAfterSnapshot(local: set<seq<byte>>, t: Tables, snapshot: seq<Member>)
    requires Consistent(local, t)
    ensures Consistent(local, TakeSnapshot(t, snapshot))
    ensures Departed(t.members, snapshot) != map[] || t.kinds == KindsOf(t.members) ==>
      TakeSnapshot(t, snapshot).kinds == KindsOf(TakeSnapshot(t, snapshot).members)
    ensures Departed(t.members, snapshot) == map[] && local <= t.kinds ==> local <= TakeSnapshot(t, snapshot).kinds
  {
    var u := TakeSnapshot(t, snapshot);
    if Departed(t.members, snapshot) == map[] {
      MergeWithoutDepartures(t.members, snapshot);
      KindsOfUnion(t.members, Joined(t.members, snapshot));
    }
  }

  /** A member of that host is not in the snapshot. */
  predicate Loses(members: map<seq<byte>, Member>, snapshot: seq<Member>, host: seq<byte>) {
    exists id | id in members :: id !in Ids(snapshot) && members[id].host == host
  }

  /** Of the activated actors, a snapshot forgets exactly those at the host of a member that it no longer has. */
  lemma {:induction false} SnapshotForgets(t: Tables, snapshot: seq<Member>, id: seq<byte>)
    ensures Find(TakeSnapshot(t, snapshot).activated, id)
         == if id in t.activated && !Loses(t.members, snapshot, t.activated[id].address) then Some(t.activated[id]) else None
  {
    var gone := Departed(t.members, snapshot);
    if id in t.activated {
      var host := t.activated[id].address;
      if Loses(t.members, snapshot, host) {
        var x :| x in t.members && x !in Ids(snapshot) && t.members[x].host == host;
        assert x in gone && gone[x].host == host;
      }
      if host in HostsOf(gone) {
        var x :| x in gone && gone[x].host == host;
        assert x in t.members && x !in Ids(snapshot) && t.members[x].host == host;
      }
    }
  }

  lemma {:induction false} NobodyDeparted(members: map<seq<byte>, Member>, snapshot: seq<Member>)
    requires Departed(members, snapshot) == map[]
    ensures members.Keys <= ByID(snapshot).Keys
  {
    hide ByID, Ids;
    assert members.Keys - Ids(snapshot) == Departed(members, snapshot).Keys == {};
    NothingOutside(members.Keys, Ids(snapshot));
  }

  lemma {:induction false} NothingOutside(a: set<seq<byte>>, b: set<seq<byte>>)
    requires a - b == {}
    ensures a <= b
  {
    forall x | x in a
      ensures x in b
    {
      assert x in b || x in a - b;
    }
  }

  lemma {:induction false} MergeWithoutDepartures(members: map<seq<byte>, Member>, snapshot: seq<Member>)
    requires Departed(members, snapshot) == map[]
    ensures Merge(members, snapshot) == members + Joined(members, snapshot)
    ensures members.Keys !! Joined(members, snapshot).Keys
  {
    hide ByID, Departed, Ids;
    NobodyDeparted(members, snapshot);
    var (latest, all) := (ByID(snapshot), members + Joined(members, snapshot));
    assert all.Keys == latest.Keys;
    forall id | id in latest
      ensures Merge(members, snapshot)[id] == all[id]
    {
    }
  }

  lemma {:induction false} KindsOfUnion(a: map<seq<byte>, Member>, b: map<seq<byte>, Member>)
    requires a.Keys !! b.Keys
    ensures KindsOf(a + b) == KindsOf(a) + KindsOf(b)
  {
    forall k | k in KindsOf(a)
      ensures k in KindsOf(a + b)
    {
      var id :| id in a && k in a[id].kinds;
      assert (a + b)[id] == a[id];
    }
    forall k | k in KindsOf(b)
      ensures k in KindsOf(a + b)
    {
      var id :| id in b && k in b[id].kinds;
      assert (a + b)[id] == b[id];
    }
  }

  /** Diffing by ID gives the snapshot itself exactly when no shared ID changed its record. */
  lemma {:induction false} MergeExact(members: map<seq<byte>, Member>, snapshot: seq<Member>)
    ensures Merge(members, snapshot) == ByID(snapshot) <==> Agree(members, ByID(snapshot))
  {
    var latest := ByID(snapshot);
    if Merge(members, snapshot) == latest {
      forall id | id in members && id in latest
        ensures members[id] == latest[id]
      {
        assert Merge(members, snapshot)[id] == members[id];
      }
    }
  }

  /** Activation keeps what was there, and adds the first PID given for an ID that was not. */
  lemma {:induction false} ActivateFirst(activated: map<seq<byte>, Pid>, pids: seq<Pid>, id: seq<byte>)
    ensures Find(Activate(activated, pids), id)
         == if id in activated then Some(activated[id]) else Listed(PidId, pids, id)
  {
    AddAllFirst(PidId, activated, pids, id);
  }

  lemma {:induction false} ActivateKeyed(activated: map<seq<byte>, Pid>, pids: seq<Pid>)
    requires PidKeyed(activated)
    ensures PidKeyed(Activate(activated, pids))
  {
    AddAllKeyed(PidId, activated, pids);
  }

  // ---------------------------------------------------------------- the agent, in place

  class ClusterAgent {
    const members: MemberSet
    const localKinds: set<seq<byte>>
    var kinds: set<seq<byte>>
    var activated: map<seq<byte>, Pid>
    var outbox: seq<Effect>

    function State(): Tables
      reads this, members
    {
      Tables(members.members, kinds, activated)
    }

    ghost predicate Valid()
      reads this, members
    {
      Consistent(localKinds, State())
    }

    constructor (local: seq<seq<byte>>)
      ensures Valid() && fresh(members) && localKinds == SetOf(local)
      ensures State() == Tables(map[], SetOf(local), map[]) && outbox == []
    {
      members := new MemberSet([]);
      localKinds := SetOf(local);
      kinds := SetOf(local);
      activated, outbox := map[], [];
    }

    method AddActivated(pid: Pid)
      modifies `activated
      ensures activated == if pid.id in old(activated) then old(activated) else old(activated)[pid.id := pid]
    {
      if pid.id !in activated {
        activated := activated[pid.id := pid];
      }
    }

    method RemoveActivated(pid: Pid)
      modifies `activated
      ensures activated == old(activated) - {pid.id}
    {
      activated := activated - {pid.id};
    }

    method HandleActorTopology(pids: seq<Pid>)
      requires Valid()
      modifies `activated
      ensures Valid() && State() == old(State()).(activated := Activate(old(activated), pids))
    {
      for i := 0 to |pids|
        invariant activated == Activate(old(activated), pids[..i])
      {
        AddOneMore(PidId, old(activated), pids, i);
        AddActivated(pids[i]);
      }
      assert pids[..|pids|] == pids;
      ActivateKeyed(old(activated), pids);
    }

    method HandleActivation(pid: Pid)
      requires Valid()
      modifies `activated
      ensures Valid() && State() == old(State()).(activated := Activate(old(activated), [pid]))
    {
      AddOneMore(PidId, activated, [pid], 0);
      assert [pid][..1] == [pid];
      AddActivated(pid);
    }

    method HandleDeactivation(pid: Pid)
      requires Valid()
      modifies `activated, `outbox
      ensures Valid() && State() == old(State()).(activated := old(activated) - {pid.id})
      ensures outbox == old(outbox) + [Poison(pid)]
    {
      RemoveActivated(pid);
      outbox := outbox + [Poison(pid)];
    }

    method TrackKinds(member: Member)
      modifies `kinds
      ensures kinds == old(kinds) + SetOf(member.kinds)
    {
      for i := 0 to |member.kinds|
        invariant kinds == old(kinds) + SetOf(member.kinds[..i])
      {
        assert member.kinds[..i + 1] == member.kinds[..i] + [member.kinds[i]];
        if member.kinds[i] !in kinds {
          kinds := kinds + {member.kinds[i]};
        }
      }
      assert member.kinds[..|member.kinds|] == member.kinds;
    }

    /** Send the table of activated actors to a member, if there is anything in it. */
    method SendTopology(member: Member)
      modifies `outbox
      ensures Announced(old(outbox), outbox, [member], activated)
    {
      var pids := [];
      var todo := activated.Keys;
      while todo != {}
        invariant todo <= activated.Keys && |pids| + |todo| == |activated|
        invariant forall p | p in pids :: p in activated.Values
        invariant forall id | id in activated && id !in todo :: activated[id] in pids
        decreases |todo|
      {
        var id :| id in todo;
        pids := pids + [activated[id]];
        todo := todo - {id};
      }
      assert (set p | p in pids) == activated.Values;
      if |pids| > 0 {
        outbox := outbox + [Topology(member, pids)];
      }
    }

    method MemberJoin(member: Member)
      modifies `kinds, `outbox, members
      ensures members.members == old(members.members)[member.id := member]
      ensures kinds == old(kinds) + SetOf(member.kinds)
      ensures Announced(old(outbox), outbox, [member], activated)
    {
      members.Add(member);
      TrackKinds(member);
      SendTopology(member);
    }

    method RebuildKinds()
      modifies `kinds
      ensures kinds == KindsOf(members.members)
    {
      hide KindsOf, SetOf;
      KindsOfNone();
      kinds := {};
      var todo := members.members.Keys;
      ghost var done: map<seq<byte>, Member> := map[];
      while todo != {}
        invariant todo <= members.members.Keys && done == members.members - todo
        invariant kinds == KindsOf(done)
        decreases |todo|
      {
        var id :| id in todo;
        TrackKinds(members.members[id]);
        KindsOfOneMore(done, id, members.members[id]);
        todo := todo - {id};
        done := done[id := members.members[id]];
      }
      assert done == members.members;
    }

    /** The loop of MemberLeave: what Go ranges over is the map that is being deleted from. */
    method RemoveActivatedOn(host: seq<byte>)
      requires PidKeyed(activated)
      modifies `activated
      ensures activated == Off(old(activated), {host}) && PidKeyed(activated)
      ensures forall id :: id in activated <==> id in old(activated) && old(activated)[id].address != host
    {
      var todo := activated.Keys;
      while todo != {}
        invariant PidKeyed(activated) && activated.Keys <= old(activated).Keys
        invariant forall id | id in old(activated) ::
          id !in activated <==> id !in todo && old(activated)[id].address == host
        invariant forall id | id in activated :: activated[id] == old(activated)[id]
        decreases |todo|
      {
        var id :| id in todo;
        todo := todo - {id};
        if id in activated && activated[id].address == host {
          RemoveActivated(activated[id]);
        }
      }
    }

    method MemberLeave(member: Member)
      requires PidKeyed(activated)
      modifies `kinds, `activated, members
      ensures members.members == old(members.members) - {member.id}
      ensures kinds == KindsOf(members.members)
      ensures activated == Off(old(activated), {member.host}) && PidKeyed(activated)
      ensures forall id :: id in activated <==> id in old(activated) && old(activated)[id].address != member.host
    {
      members.Remove(member);
      RebuildKinds();
      RemoveActivatedOn(member.host);
    }

    method Join(joined: seq<Member>, ghost added: map<seq<byte>, Member>)
      requires Keyed(added) && Lists(joined, added)
      modifies `kinds, `outbox, members
      ensures Announced(old(outbox), outbox, joined, activated)
      ensures members.members == old(members.members) + added
      ensures kinds == old(kinds) + KindsOf(added)
    {
      hide KindsOf, Lists, ByID, Ids, Announced;
      NothingAnnounced(outbox, activated);
      KindsOfNone();
      ByIDNone();
      for i := 0 to |joined|
        invariant members.members == old(members.members) + ByID(joined[..i])
        invariant kinds == old(kinds) + KindsOf(ByID(joined[..i]))
        invariant Announced(old(outbox), outbox, joined[..i], activated)
      {
        NextIsNew(joined, added, i);
        KindsOfOneMore(ByID(joined[..i]), joined[i].id, joined[i]);
        AddAfterMerge(old(members.members), ByID(joined[..i]), joined[i]);
        ghost var sent := outbox;
        MemberJoin(joined[i]);
        AnnouncedOneMore(old(outbox), sent, outbox, joined[..i], joined[i], activated);
        assert joined[..i] + [joined[i]] == joined[..i + 1];
      }
      assert joined[..|joined|] == joined;
      ListingRoundTrip(joined, added);
    }

    method Leave(left: seq<Member>)
      requires PidKeyed(activated)
      modifies `kinds, `activated, members
      ensures members.members == old(members.members) - Ids(left)
      ensures kinds == if left == [] then old(kinds) else KindsOf(members.members)
      ensures activated == Off(old(activated), Hosts(left)) && PidKeyed(activated)
    {
      hide KindsOf;
      for i := 0 to |left|
        invariant members.members == old(members.members) - Ids(left[..i])
        invariant kinds == if i == 0 then old(kinds) else KindsOf(members.members)
        invariant activated == Off(old(activated), Hosts(left[..i])) && PidKeyed(activated)
      {
        assert left[..i + 1] == left[..i] + [left[i]];
        OffOneMore(old(activated), Hosts(left[..i]), left[i].host);
        MemberLeave(left[i]);
      }
      assert left[..|left|] == left;
    }

    method HandleMembers(snapshot: seq<Member>)
      requires Valid()
      modifies this, members
      ensures Valid() && State() == TakeSnapshot(old(State()), snapshot)
      ensures forall id :: id in activated <==>
        id in old(activated) && !Loses(old(members.members), snapshot, old(activated)[id].address)
      ensures exists joined ::
        Lists(joined, Joined(old(members.members), snapshot)) && Announced(old(outbox), outbox, joined, old(activated))
    {
      hide KindsOf, Lists, ByID, Announced;
      ghost var t := State();
      var latest := new MemberSet(snapshot);
      var known := members.Slice();
      ListsIds(known, t.members);
      var joined := latest.Except(known);
      var left := members.Except(snapshot);
      ListsIds(left, Departed(t.members, snapshot));
      Join(joined, Joined(t.members, snapshot));
      Leave(left);
      JoinThenLeave(t.members, snapshot);
      ListsHosts(left, Departed(t.members, snapshot));
      ConsistentAfterSnapshot(localKinds, t, snapshot);
      forall id
        ensures id in activated <==> id in t.activated && !Loses(t.members, snapshot, t.activated[id].address)
      {
        SnapshotForgets(t, snapshot, id);
      }
    }
  }

  // ---------------------------------------------------------------- loops over members

  lemma {:induction false} NothingAnnounced(outbox: seq<Effect>, activated: map<seq<byte>, Pid>)
    ensures Announced(outbox, outbox, [], activated)
  {
  }

  function Hosts(ms: seq<Member>): set<seq<byte>> {
    set m | m in ms :: m.host
  }

  lemma {:induction false} ByIDNone()
    ensures ByID([]) == map[]
  {
  }

  lemma {:induction false} AddAfterMerge(a: map<seq<byte>, Member>, b: map<seq<byte>, Member>, m: Member)
    ensures (a + b)[m.id := m] == a + b[m.id := m]
  {
  }

  lemma {:induction false} KindsOfNone()
    ensures KindsOf(map[]) == {}
  {
  }

  lemma {:induction false} KindsOfOneMore(members: map<seq<byte>, Member>, id: seq<byte>, m: Member)
    requires id !in members
    ensures KindsOf(members[id := m]) == KindsOf(members) + SetOf(m.kinds)
  {
    assert members[id := m] == members + map[id := m];
    KindsOfUnion(members, map[id := m]);
    assert KindsOf(map[id := m]) == SetOf(m.kinds) by {
      assert forall k | k in SetOf(m.kinds) :: id in map[id := m] && k in map[id := m][id].kinds;
    }
  }

  lemma {:induction false} NextIsNew(ms: seq<Member>, members: map<seq<byte>, Member>, i: nat)
    requires Lists(ms, members) && i < |ms|
    ensures ms[i].id !in Ids(ms[..i])
    ensures ByID(ms[..i + 1]) == ByID(ms[..i])[ms[i].id := ms[i]]
  {
    assert ms[..i + 1][..i] == ms[..i];
  }

  lemma {:induction false} OffOneMore(activated: map<seq<byte>, Pid>, hosts: set<seq<byte>>, host: seq<byte>)
    ensures Off(Off(activated, hosts), {host}) == Off(activated, hosts + {host})
  {
  }

  lemma {:induction false} ListsIds(ms: seq<Member>, members: map<seq<byte>, Member>)
    requires Keyed(members) && Lists(ms, members)
    ensures Ids(ms) == members.Keys
    ensures ms == [] <==> members == map[]
  {
    ListingRoundTrip(ms, members);
    if ms != [] {
      assert ms[0].id in members;
    }
  }

  lemma {:induction false} ListsHosts(ms: seq<Member>, members: map<seq<byte>, Member>)
    requires Keyed(members) && Lists(ms, members)
    ensures Hosts(ms) == HostsOf(members)
  {
    forall h | h in HostsOf(members)
      ensures h in Hosts(ms)
    {
      var id :| id in members && members[id].host == h;
      assert members[id] in ms;
    }
    forall h | h in Hosts(ms)
      ensures h in HostsOf(members)
    {
      var m :| m in ms && m.host == h;
      assert members[m.id] == m;
    }
  }

  /** Adding the joined members and removing the departed ones gives the merge. */
  lemma {:induction false} JoinThenLeave(members: map<seq<byte>, Member>, snapshot: seq<Member>)
    ensures members + Joined(members, snapshot) - Departed(members, snapshot).Keys == Merge(members, snapshot)
  {
  }
}
