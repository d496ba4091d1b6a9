/** The indexed set of process IDs: a slice of PIDs and the position of each key, with swap-remove. */
module PidSet {
  import opened Machine
  import opened Codec

  datatype Key = Key(address: seq<byte>, id: seq<byte>)

  /** Two PIDs are the same member when address and ID agree, whatever else they carry. */
  function KeyOf(pid: Pid): Key {
    Key(pid.address, pid.id)
  }

  datatype Index = Index(pids: seq<Pid>, lookup: map<Key, nat>) {
    /** The index is exact: a key is at the position the lookup gives, and nowhere else. */
    ghost predicate Good() {
      && (forall i | 0 <= i < |pids| :: KeyOf(pids[i]) in lookup && lookup[KeyOf(pids[i])] == i)
      && (forall k | k in lookup :: lookup[k] < |pids| && KeyOf(pids[lookup[k]]) == k)
    }

    /** The abstract value: one PID for each key. */
    ghost function Contents(): map<Key, Pid>
      requires Good()
    {
      map k | k in lookup :: pids[lookup[k]]
    }
  }

  datatype Op = Add(pid: Pid) | Remove(pid: Pid) | Clear

  /** What an operation does to slice and lookup. */
  function Do(ix: Index, op: Op): Index
    requires op.Remove? && KeyOf(op.pid) in ix.lookup ==> ix.lookup[KeyOf(op.pid)] < |ix.pids|
  {
    match op
    case Add(v) =>
      if KeyOf(v) in ix.lookup then ix else Index(ix.pids + [v], ix.lookup[KeyOf(v) := |ix.pids|])
    case Remove(v) =>
      if KeyOf(v) !in ix.lookup then ix
      else
        var i, last := ix.lookup[KeyOf(v)], |ix.pids| - 1;
        var lookup := ix.lookup - {KeyOf(v)};
        if i < last then Index(ix.pids[i := ix.pids[last]][..last], lookup[KeyOf(ix.pids[last]) := i])
        else Index(ix.pids[..last], lookup)
    case Clear => Index([], map[])
  }

  /** What the operation means on a finite set of keys. */
  function Meaning(contents: map<Key, Pid>, op: Op): map<Key, Pid> {
    match op
    case Add(v) => if KeyOf(v) in contents then contents else contents[KeyOf(v) := v]
    case Remove(v) => contents - {KeyOf(v)}
    case Clear => map[]
  }

  lemma {:induction false} AddRefines(ix: Index, v: Pid)
    requires ix.Good()
    ensures Do(ix, Add(v)).Good() && Do(ix, Add(v)).Contents() == Meaning(ix.Contents(), Add(v))
  {
  }

  /** Moving the last PID into the hole keeps the index exact. */
  lemma {:induction false} RemoveStaysGood(ix: Index, v: Pid)
    requires ix.Good() && KeyOf(v) in ix.lookup
    ensures Do(ix, Remove(v)).Good()
  {
    var i, last := ix.lookup[KeyOf(v)], |ix.pids| - 1;
    var r := Do(ix, Remove(v));
    forall j | 0 <= j < |r.pids|
      ensures KeyOf(r.pids[j]) in r.lookup && r.lookup[KeyOf(r.pids[j])] == j
    {
      assert r.pids[j] == ix.pids[if j == i then last else j];
    }
    forall k | k in r.lookup
      ensures r.lookup[k] < |r.pids| && KeyOf(r.pids[r.lookup[k]]) == k
    {
      var j := ix.lookup[k];
      assert ix.pids[j] == ix.pids[ix.lookup[k]] && j != i;
      assert j == last ==> k == KeyOf(ix.pids[last]);
    }
  }

  lemma {:induction false} RemoveTakesKey(ix: Index, v: Pid)
    requires ix.Good()
    ensures Do(ix, Remove(v)).lookup.Keys == ix.lookup.Keys - {KeyOf(v)}
  {
    if KeyOf(v) in ix.lookup {
      var last := |ix.pids| - 1;
      assert KeyOf(ix.pids[last]) in ix.lookup && ix.lookup[KeyOf(ix.pids[last])] == last;
    }
  }

  lemma {:induction false} RemoveKeepsOthers(ix: Index, v: Pid, k: Key)
    requires ix.Good() && Do(ix, Remove(v)).Good() && k in ix.lookup && k != KeyOf(v)
    requires k in Do(ix, Remove(v)).lookup
    ensures Do(ix, Remove(v)).Contents()[k] == ix.Contents()[k]
  {
    if KeyOf(v) in ix.lookup {
      var i, j, last := ix.lookup[KeyOf(v)], ix.lookup[k], |ix.pids| - 1;
      assert KeyOf(ix.pids[j]) == k && KeyOf(ix.pids[i]) == KeyOf(v);
      assert j == last ==> k == KeyOf(ix.pids[last]);
      assert j != last ==> k != KeyOf(ix.pids[last]);
    }
  }

  lemma {:induction false} RemoveRefines(ix: Index, v: Pid)
    requires ix.Good() && Do(ix, Remove(v)).Good()
    ensures Do(ix, Remove(v)).Contents() == Meaning(ix.Contents(), Remove(v))
  {
    hide Do;
    RemoveTakesKey(ix, v);
    forall k | k in Do(ix, Remove(v)).lookup
      ensures Do(ix, Remove(v)).Contents()[k] == ix.Contents()[k]
    {
      RemoveKeepsOthers(ix, v, k);
    }
  }

  ghost function Run(ix: Index, ops: seq<Op>): (r: Index)
    requires ix.Good()
    ensures r.Good()
    decreases |ops|
  {
    if ops == [] then ix
    else
      OpRefines(ix, ops[0]);
      Run(Do(ix, ops[0]), ops[1..])
  }

  function MeaningOfRun(contents: map<Key, Pid>, ops: seq<Op>): map<Key, Pid>
    decreases |ops|
  {
    if ops == [] then contents else MeaningOfRun(Meaning(contents, ops[0]), ops[1..])
  }

  lemma {:induction false} OpRefines(ix: Index, op: Op)
    requires ix.Good()
    ensures Do(ix, op).Good() && Do(ix, op).Contents() == Meaning(ix.Contents(), op)
  {
    match op
    case Add(v) => AddRefines(ix, v);
    case Remove(v) =>
      if KeyOf(v) in ix.lookup {
        RemoveStaysGood(ix, v);
      }
      RemoveRefines(ix, v);
    case Clear =>
  }

  /** After every sequence of operations the index is exact and holds the set the operations describe. */
  lemma {:induction false} RunRefines(ix: Index, ops: seq<Op>)
    requires ix.Good()
    ensures Run(ix, ops).Contents() == MeaningOfRun(ix.Contents(), ops)
    decreases |ops|
  {
    if ops != [] {
      OpRefines(ix, ops[0]);
      RunRefines(Do(ix, ops[0]), ops[1..]);
    }
  }

  // ---------------------------------------------------------------- building and cloning

  const EMPTY := Index([], map[])

  /** NewPIDSet: the PIDs are added one by one. */
  ghost function Build(pids: seq<Pid>): (ix: Index)
    ensures ix.Good()
  {
    if pids == [] then EMPTY
    else
      AddRefines(Build(pids[..|pids| - 1]), pids[|pids| - 1]);
      Do(Build(pids[..|pids| - 1]), Add(pids[|pids| - 1]))
  }

  /** An exact index is determined by its slice. */
  lemma {:induction false} IndexDetermined(a: Index, b: Index)
    requires a.Good() && b.Good() && a.pids == b.pids
    ensures a == b
  {
    forall k | k in a.lookup
      ensures k in b.lookup && b.lookup[k] == a.lookup[k]
    {
      assert KeyOf(b.pids[a.lookup[k]]) == k;
    }
    forall k | k in b.lookup
      ensures k in a.lookup
    {
      assert KeyOf(a.pids[b.lookup[k]]) == k;
    }
  }

  lemma {:induction false} BuildStep(pids: seq<Pid>, pid: Pid)
    ensures Build(pids + [pid]) == Do(Build(pids), Add(pid))
  {
    assert (pids + [pid])[..|pids|] == pids;
  }

  /** The PIDs of an exact index have distinct keys. */
  lemma {:induction false} NotEarlier(ix: Index, before: Index, n: nat)
    requires ix.Good() && before.Good() && n < |ix.pids| && before.pids == ix.pids[..n]
    ensures KeyOf(ix.pids[n]) !in before.lookup
  {
    var k := KeyOf(ix.pids[n]);
    assert ix.lookup[k] == n;
    assert forall i | 0 <= i < n :: before.pids[i] == ix.pids[i] && ix.lookup[KeyOf(ix.pids[i])] == i;
  }

  lemma {:induction false} BuildKeeps(ix: Index, n: nat)
    requires ix.Good() && n <= |ix.pids|
    ensures Build(ix.pids[..n]).pids == ix.pids[..n]
  {
    hide Build, Index.Good;
    if n == 0 {
      BuildNone();
    } else {
      BuildKeeps(ix, n - 1);
      assert ix.pids[..n] == ix.pids[..n - 1] + [ix.pids[n - 1]];
      BuildStep(ix.pids[..n - 1], ix.pids[n - 1]);
      NotEarlier(ix, Build(ix.pids[..n - 1]), n - 1);
    }
  }

  lemma {:induction false} BuildNone()
    ensures Build([]) == EMPTY
  {
  }

  /** Rebuilding a set from its slice gives the same set, in the same order. */
  lemma {:induction false} CloneRoundTrip(ix: Index)
    requires ix.Good()
    ensures Build(ix.pids) == ix
  {
    BuildKeeps(ix, |ix.pids|);
    assert ix.pids[..|ix.pids|] == ix.pids;
    IndexDetermined(Build(ix.pids), ix);
  }

  lemma {:induction false} KnownPosition(ix: Index, v: Pid)
    requires ix.Good() && KeyOf(v) in ix.lookup
    ensures ix.lookup[KeyOf(v)] < |ix.pids|
  {
  }

  // ---------------------------------------------------------------- the set, in place

  class PIDSet {
    var pids: seq<Pid>
    var lookup: map<Key, nat>

    function State(): Index
      reads this
    {
      Index(pids, lookup)
    }

    ghost predicate Valid()
      reads this
    {
      State().Good()
    }

    constructor (vs: seq<Pid>)
      ensures Valid() && State() == Build(vs)
    {
      pids, lookup := [], map[];
      new;
      for i := 0 to |vs|
        invariant State() == Build(vs[..i])
      {
        assert vs[..i + 1][..i] == vs[..i];
        AddPid(vs[i]);
      }
      assert vs[..|vs|] == vs;
    }

    predicate Contains(v: Pid)
      reads this
    {
      KeyOf(v) in lookup
    }

    method AddPid(v: Pid)
      requires Valid()
      modifies this
      ensures Valid() && State() == Do(old(State()), Add(v))
      ensures State().Contents() == Meaning(old(State().Contents()), Add(v))
    {
      AddRefines(State(), v);
      if Contains(v) {
        return;
      }
      pids := pids + [v];
      lookup := lookup[KeyOf(v) := |pids| - 1];
    }

    method RemovePid(v: Pid) returns (existed: bool)
      requires Valid()
      modifies this
      ensures Valid() && State() == Do(old(State()), Remove(v))
      ensures State().Contents() == Meaning(old(State().Contents()), Remove(v))
      ensures existed <==> KeyOf(v) in old(State().Contents())
    {
      hide Index.Good, Meaning;
      OpRefines(State(), Remove(v));
      if KeyOf(v) !in lookup {
        return false;
      }
      KnownPosition(State(), v);
      var i := lookup[KeyOf(v)];
      lookup := lookup - {KeyOf(v)};
      if i < |pids| - 1 {
        var lastPid := pids[|pids| - 1];
        pids := pids[i := lastPid];
        lookup := lookup[KeyOf(lastPid) := i];
      }
      pids := pids[..|pids| - 1];
      existed := true;
    }

    method ClearAll()
      modifies this
      ensures Valid() && State() == Do(old(State()), Clear) && State().Contents() == map[]
    {
      pids, lookup := [], map[];
    }

    method Clone() returns (copy: PIDSet)
      requires Valid()
      ensures fresh(copy) && copy.Valid() && copy.State() == State()
    {
      CloneRoundTrip(State());
      copy := new PIDSet(pids);
    }
  }
}
