/** The self-managed provider: it keeps the members it has heard of and publishes snapshots to the agent. */
module Provider {
  import opened FirstWins
  import opened Machine
  import opened Membership

  function MemberId(m: Member): seq<byte> {
    m.id
  }

  /** A member that is known already, or was named earlier in the list, is kept as it is. */
  function AddMembers(members: map<seq<byte>, Member>, ms: seq<Member>): map<seq<byte>, Member> {
    AddAll(MemberId, members, ms)
  }

  /** Adding never changes a record that is there. */
  lemma {:induction false} AddMembersKeeps(members: map<seq<byte>, Member>, ms: seq<Member>)
    requires Keyed(members)
    ensures Keyed(AddMembers(members, ms))
    ensures Agree(members, AddMembers(members, ms)) && members.Keys <= AddMembers(members, ms).Keys
  {
    AddAllKeyed(MemberId, members, ms);
    forall id | id in members
      ensures id in AddMembers(members, ms) && AddMembers(members, ms)[id] == members[id]
    {
      AddAllFirst(MemberId, members, ms, id);
    }
  }

  /** Of a new member, the first record that was named is taken. */
  lemma {:induction false} AddMembersFirst(members: map<seq<byte>, Member>, ms: seq<Member>, id: seq<byte>)
    ensures Find(AddMembers(members, ms), id) == if id in members then Some(members[id]) else Listed(MemberId, ms, id)
  {
    AddAllFirst(MemberId, members, ms, id);
  }

  class SelfManaged {
    const members: MemberSet
    /** The snapshots sent to the agent, in order. */
    var outbox: seq<seq<Member>>

    ghost predicate Valid()
      reads this, members
    {
      Keyed(members.members)
    }

    /** The state changed to `after`, and `after` was published. */
    twostate predicate Published(after: map<seq<byte>, Member>)
      reads this, members
    {
      && members.members == after
      && |outbox| == |old(outbox)| + 1 && outbox[..|old(outbox)|] == old(outbox)
      && Lists(outbox[|old(outbox)|], after)
    }

    constructor ()
      ensures Valid() && fresh(members) && members.members == map[] && outbox == []
    {
      members := new MemberSet([]);
      outbox := [];
    }

    method SendMembersToAgent()
      requires Valid()
      modifies `outbox
      ensures Published(old(members.members))
    {
      var snapshot := members.Slice();
      outbox := outbox + [snapshot];
    }

    method Started(self: Member)
      requires Valid()
      modifies this, members
      ensures Valid() && Published(old(members.members)[self.id := self])
    {
      members.Add(self);
      SendMembersToAgent();
    }

    method HandleMembers(ms: seq<Member>)
      requires Valid()
      modifies this, members
      ensures Valid() && Published(AddMembers(old(members.members), ms))
    {
      hide Lists;
      for i := 0 to |ms|
        invariant members.members == AddMembers(old(members.members), ms[..i])
        invariant outbox == old(outbox)
      {
        AddOneMore(MemberId, old(members.members), ms, i);
        if !members.Contains(ms[i]) {
          members.Add(ms[i]);
        }
      }
      assert ms[..|ms|] == ms;
      AddMembersKeeps(old(members.members), ms);
      SendMembersToAgent();
    }

    /** A handshake adds its member and is answered with everyone known after that. */
    method HandleHandshake(member: Member) returns (reply: seq<Member>)
      requires Valid()
      modifies this, members
      ensures Valid() && Published(AddMembers(old(members.members), [member]))
      ensures Lists(reply, members.members)
    {
      HandleMembers([member]);
      reply := members.Slice();
    }

    method RemoveMember(member: Member)
      requires Valid()
      modifies this, members
      ensures Valid() && Published(old(members.members) - {member.id})
    {
      if members.Contains(member) {
        members.Remove(member);
      }
      assert members.members == old(members.members) - {member.id};
      SendMembersToAgent();
    }

    /**
     A host became unreachable. The nil member of an unknown host is dereferenced, which panics;
     of several members on one host an arbitrary one is removed.
     */
    method HandleMemberLeave(host: seq<byte>) returns (panicked: bool)
      requires Valid()
      modifies this, members
      ensures Valid()
      ensures panicked <==> forall id | id in old(members.members) :: old(members.members)[id].host != host
      ensures panicked ==> unchanged(this) && unchanged(members)
      ensures !panicked ==> exists id | id in old(members.members) ::
        old(members.members)[id].host == host && Published(old(members.members) - {id})
    {
      var member := members.GetByHost(host);
      panicked := member.None?;
      if member.Some? {
        RemoveMember(member.value);
      }
    }
  }
}
