/**
 The members of a cluster, keyed by ID. Go ranges over a map in no fixed order; where the source
 does, the model picks the next key arbitrarily, so a contract holds for every order.
 */
module Membership {
  import opened Machine

  datatype Member = Member(id: seq<byte>, host: seq<byte>, region: seq<byte>, kinds: seq<seq<byte>>)

  function Ids(ms: seq<Member>): set<seq<byte>> {
    set m | m in ms :: m.id
  }

  predicate Keyed(members: map<seq<byte>, Member>) {
    forall id | id in members :: members[id].id == id
  }

  /** Two maps have the same record for every ID they share. */
  predicate Agree(a: map<seq<byte>, Member>, b: map<seq<byte>, Member>) {
    forall id | id in a && id in b :: a[id] == b[id]
  }

  /** The map of a list: the last record with an ID wins. */
  function ByID(ms: seq<Member>): (r: map<seq<byte>, Member>)
    ensures Keyed(r) && r.Keys == Ids(ms)
    ensures forall id | id in r :: r[id] in ms
  {
    if ms == [] then map[]
    else
      var m := ms[|ms| - 1];
      assert ms == ms[..|ms| - 1] + [m];
      ByID(ms[..|ms| - 1])[m.id := m]
  }

  /** What an ID stands for is the record listed last with it. */
  lemma {:induction false} ByIDLast(ms: seq<Member>, i: nat)
    requires i < |ms| && forall j | i < j < |ms| :: ms[j].id != ms[i].id
    ensures ms[i].id in ByID(ms) && ByID(ms)[ms[i].id] == ms[i]
    decreases |ms|
  {
    if i < |ms| - 1 {
      ByIDLast(ms[..|ms| - 1], i);
    }
  }

  /** `ms` is `members` in some order. */
  ghost predicate Lists(ms: seq<Member>, members: map<seq<byte>, Member>) {
    && (forall m | m in ms :: m.id in members && members[m.id] == m)
    && (forall id | id in members :: members[id] in ms)
    && (forall i, j | 0 <= i < j < |ms| :: ms[i].id != ms[j].id)
  }

  /** Listing a keyed map and keying the list again loses nothing. */
  lemma {:induction false} ListingRoundTrip(ms: seq<Member>, members: map<seq<byte>, Member>)
    requires Keyed(members) && Lists(ms, members)
    ensures ByID(ms) == members
  {
    assert Ids(ms) == members.Keys by {
      forall id | id in members
        ensures id in Ids(ms)
      {
        assert members[id] in ms && members[id].id == id;
      }
    }
    forall id | id in members
      ensures ByID(ms)[id] == members[id]
    {
      assert ByID(ms)[id] in ms && ByID(ms)[id].id == id;
    }
  }

  lemma {:induction false} ListsNone()
    ensures Lists([], map[])
  {
  }

  lemma {:induction false} ListsOneMore(ms: seq<Member>, members: map<seq<byte>, Member>, m: Member)
    requires Lists(ms, members) && m.id !in members
    ensures Lists(ms + [m], members[m.id := m])
  {
    var more := members[m.id := m];
    forall id | id in more
      ensures more[id] in ms + [m]
    {
      if id != m.id {
        assert members[id] in ms;
      }
    }
    forall i, j | 0 <= i < j < |ms + [m]|
      ensures (ms + [m])[i].id != (ms + [m])[j].id
    {
      assert ms[i] in ms;
    }
  }

  class MemberSet {
    var members: map<seq<byte>, Member>

    constructor (ms: seq<Member>)
      ensures members == ByID(ms)
    {
      members := map[];
      new;
      members := Index(ms);
    }

    method GetByHost(host: seq<byte>) returns (r: Option<Member>)
      requires Keyed(members)
      ensures r.None? <==> forall id | id in members :: members[id].host != host
      ensures r.Some? ==> r.value.host == host && r.value.id in members && members[r.value.id] == r.value
    {
      r := None;
      var todo := members.Keys;
      while todo != {}
        invariant todo <= members.Keys
        invariant r.None? ==> forall id | id in members.Keys - todo :: members[id].host != host
        invariant r.Some? ==> r.value.host == host && r.value.id in members && members[r.value.id] == r.value
        decreases |todo|
      {
        var id :| id in todo;
        todo := todo - {id};
        if members[id].host == host {
          r := Some(members[id]);
        }
      }
    }

    method Add(member: Member)
      modifies this
      ensures members == old(members)[member.id := member]
    {
      members := members[member.id := member];
    }

    predicate Contains(member: Member)
      reads this
    {
      member.id in members
    }

    method Remove(member: Member)
      modifies this
      ensures members == old(members) - {member.id}
    {
      members := members - {member.id};
    }

    method Slice() returns (ms: seq<Member>)
      requires Keyed(members)
      ensures Lists(ms, members)
    {
      hide Lists;
      ms := [];
      var todo := members.Keys;
      ghost var done: map<seq<byte>, Member> := map[];
      ListsNone();
      while todo != {}
        invariant todo <= members.Keys && done == members - todo
        invariant Lists(ms, done)
        decreases |todo|
      {
        var id :| id in todo;
        ListsOneMore(ms, done, members[id]);
        ms := ms + [members[id]];
        todo := todo - {id};
        done := done[id := members[id]];
      }
      assert done == members;
    }

    static method Index(ms: seq<Member>) returns (m: map<seq<byte>, Member>)
      ensures m == ByID(ms)
    {
      m := map[];
      for i := 0 to |ms|
        invariant m == ByID(ms[..i])
      {
        assert ms[..i + 1][..i] == ms[..i];
        m := m[ms[i].id := ms[i]];
      }
      assert ms[..|ms|] == ms;
    }

    /** The members whose ID does not occur in `ms`. */
    method Except(ms: seq<Member>) returns (except: seq<Member>)
      requires Keyed(members)
      ensures Lists(except, members - Ids(ms))
    {
      var m := Index(ms);
      except := Outside(m.Keys);
    }

    /** The loop of Except over the members. */
    method Outside(ids: set<seq<byte>>) returns (except: seq<Member>)
      requires Keyed(members)
      ensures Lists(except, members - ids)
    {
      hide Lists;
      except := [];
      var todo := members.Keys;
      ghost var done: map<seq<byte>, Member> := map[];
      ListsNone();
      while todo != {}
        invariant todo <= members.Keys && done.Keys == members.Keys - ids - todo
        invariant forall id | id in done :: done[id] == members[id]
        invariant Lists(except, done)
        decreases |todo|
      {
        var id :| id in todo;
        if members[id].id !in ids {
          ListsOneMore(except, done, members[id]);
          except := except + [members[id]];
          done := done[id := members[id]];
        }
        todo := todo - {id};
      }
      assert done == members - ids;
    }
  }
}
