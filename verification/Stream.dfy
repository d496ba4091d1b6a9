/**
 The two ends of a remote stream: the writer compresses a batch of deliveries into an Envelope
 with tables of type names, targets and senders; the reader expands an Envelope it received into
 local sends. Payload serialization is a byte string with its type name; the 64-bit hash behind
 lookup keys is a parameter.
 */
module Stream {
  import opened Machine
  import opened Codec
  import opened Dictionary
  import Stability
  import Wire

  type Hash = seq<byte> -> uint64

  /** A queued remote send; `payload` is None when serialization fails. */
  datatype Deliver = Deliver(
    target: Pid,
    sender: Option<Pid>,
    typeName: seq<byte>,
    payload: Option<seq<byte>>,
    priority: bool)

  /** A send that the reader hands to its local engine. */
  datatype Delivery = Delivery(
    target: Pid,
    sender: Option<Pid>,
    typeName: seq<byte>,
    data: seq<byte>,
    priority: bool)

  /** LookupKey: the hash of address and ID, with nothing in between. */
  function KeyOf(hash: Hash): Pid -> uint64 {
    (p: Pid) => hash(p.address + p.id)
  }

  function NameKey(): seq<byte> -> seq<byte> {
    (name: seq<byte>) => name
  }

  function Targets(batch: seq<Deliver>): (r: seq<Option<Pid>>)
    ensures |r| == |batch| && forall i | 0 <= i < |batch| :: r[i] == Some(batch[i].target)
  {
    seq(|batch|, i requires 0 <= i < |batch| => Some(batch[i].target))
  }

  function Senders(batch: seq<Deliver>): (r: seq<Option<Pid>>)
    ensures |r| == |batch| && forall i | 0 <= i < |batch| :: r[i] == batch[i].sender
  {
    seq(|batch|, i requires 0 <= i < |batch| => batch[i].sender)
  }

  function Names(batch: seq<Deliver>): (r: seq<Option<seq<byte>>>)
    ensures |r| == |batch| && forall i | 0 <= i < |batch| :: r[i] == Some(batch[i].typeName)
  {
    seq(|batch|, i requires 0 <= i < |batch| => Some(batch[i].typeName))
  }

  // ---------------------------------------------------------------- the writer

  function IndexIn<T, K(==)>(key: T -> K, table: seq<T>, x: Option<T>): int32 {
    if x.None? then 0 else ToInt32(IndexOf(key, table, key(x.value)))
  }

  function SlotOf(hash: Hash, batch: seq<Deliver>, d: Deliver): Option<Message> {
    if d.payload.None? then None
    else Some(Message(
      d.payload.value,
      IndexIn(KeyOf(hash), Table(KeyOf(hash), Targets(batch)), Some(d.target)),
      IndexIn(KeyOf(hash), Table(KeyOf(hash), Senders(batch)), d.sender),
      IndexIn(NameKey(), Table(NameKey(), Names(batch)), Some(d.typeName)),
      d.priority, []))
  }

  /** The Envelope a batch is compressed into. */
  function EnvelopeOf(hash: Hash, batch: seq<Deliver>): (e: Envelope)
    ensures |e.messages| == |batch| && forall i | 0 <= i < |batch| :: e.messages[i] == SlotOf(hash, batch, batch[i])
  {
    Envelope(
      Table(NameKey(), Names(batch)),
      Table(KeyOf(hash), Targets(batch)),
      Table(KeyOf(hash), Senders(batch)),
      seq(|batch|, i requires 0 <= i < |batch| => SlotOf(hash, batch, batch[i])),
      [])
  }

  /** The lookup map of a table: exactly its keys, each with its position. */
  ghost predicate Mirrors<T, K(!new)>(key: T -> K, m: map<K, int32>, table: seq<T>) {
    && |m| == |table|
    && forall k :: (k in m <==> IndexOf(key, table, k) < |table|) && (k in m ==> m[k] == IndexOf(key, table, k))
  }

  /** lookupPIDs and lookupTypeName: the index of a value, which joins the table when its key is new. */
  method Lookup<T, K(!new, ==)>(key: T -> K, m: map<K, int32>, x: Option<T>, table: seq<T>)
    returns (id: int32, m': map<K, int32>, table': seq<T>)
    requires Mirrors(key, m, table) && |table| < TWO31
    ensures Mirrors(key, m', table')
    ensures table' == Add(key, table, x)
    ensures id == IndexIn(key, table', x)
    ensures x.Some? ==> IndexOf(key, table', key(x.value)) < |table'|
  {
    if x.None? {
      return 0, m, table;
    }
    var max: int32 := |m|;
    var k := key(x.value);
    if k in m {
      return m[k], m, table;
    }
    MirrorsOneMore(key, m, table, x.value);
    return max, m[k := max], table + [x.value];
  }

  /** A new key gets the next position, in the map as in the table. */
  lemma {:induction false} MirrorsOneMore<T, K(!new)>(key: T -> K, m: map<K, int32>, table: seq<T>, x: T)
    requires Mirrors(key, m, table) && |table| < TWO31 && key(x) !in m
    ensures Mirrors(key, m[key(x) := |m|], table + [x])
    ensures IndexOf(key, table + [x], key(x)) == |table|
  {
    forall j
      ensures IndexOf(key, table, j) < |table| ==> IndexOf(key, table + [x], j) == IndexOf(key, table, j)
      ensures IndexOf(key, table, j) == |table| ==> IndexOf(key, table + [x], j) == |table| + IndexOf(key, [x], j)
    {
      IndexOfAppend(key, table, [x], j);
    }
  }

  /** Invoke of the stream writer, up to the Envelope it sends. */
  method Compress(hash: Hash, batch: seq<Deliver>) returns (e: Envelope)
    requires |batch| <= TWO31
    ensures e == EnvelopeOf(hash, batch)
  {
    hide Table, Add, IndexIn, Mirrors, KeyOf, NameKey, SlotOf, EnvelopeOf, Names, Targets, Senders;
    var typeLookup: map<seq<byte>, int32>, typeNames := map[], [];
    var senderLookup: map<uint64, int32>, senders := map[], [];
    var targetLookup: map<uint64, int32>, targets := map[], [];
    var messages: seq<Option<Message>> := [];
    EmptyTables(hash);
    assert Names(batch)[..0] == [] && Targets(batch)[..0] == [] && Senders(batch)[..0] == [];
    for i := 0 to |batch|
      invariant Mirrors(NameKey(), typeLookup, typeNames) && typeNames == Table(NameKey(), Names(batch)[..i])
      invariant Mirrors(KeyOf(hash), targetLookup, targets) && targets == Table(KeyOf(hash), Targets(batch)[..i])
      invariant Mirrors(KeyOf(hash), senderLookup, senders) && senders == Table(KeyOf(hash), Senders(batch)[..i])
      invariant |messages| == i
      invariant forall j | 0 <= j < i :: messages[j] == SlotOf(hash, batch, batch[j])
    {
      TableNext(NameKey(), Names(batch), i);
      TableNext(KeyOf(hash), Senders(batch), i);
      TableNext(KeyOf(hash), Targets(batch), i);
      var typeId, senderId, targetId;
      typeId, typeLookup, typeNames := Lookup(NameKey(), typeLookup, Names(batch)[i], typeNames);
      senderId, senderLookup, senders := Lookup(KeyOf(hash), senderLookup, Senders(batch)[i], senders);
      targetId, targetLookup, targets := Lookup(KeyOf(hash), targetLookup, Targets(batch)[i], targets);
      SlotFinal(hash, batch, i);
      if batch[i].payload.None? {
        messages := messages + [None];
      } else {
        messages := messages + [Some(Message(batch[i].payload.value, targetId, senderId, typeId, batch[i].priority, []))];
      }
    }
    assert Names(batch)[..|batch|] == Names(batch) && Targets(batch)[..|batch|] == Targets(batch);
    assert Senders(batch)[..|batch|] == Senders(batch);
    e := Envelope(typeNames, targets, senders, messages, []);
    WholeEnvelope(hash, batch, messages);
  }

  /** The slot written at step `i` is the one the finished tables give. */
  lemma {:induction false} SlotFinal(hash: Hash, batch: seq<Deliver>, i: nat)
    requires i < |batch|
    ensures SlotOf(hash, batch, batch[i]) ==
      if batch[i].payload.None? then None
      else Some(Message(
        batch[i].payload.value,
        IndexIn(KeyOf(hash), Table(KeyOf(hash), Targets(batch)[..i + 1]), Targets(batch)[i]),
        IndexIn(KeyOf(hash), Table(KeyOf(hash), Senders(batch)[..i + 1]), Senders(batch)[i]),
        IndexIn(NameKey(), Table(NameKey(), Names(batch)[..i + 1]), Names(batch)[i]),
        batch[i].priority, []))
  {
    hide Table, IndexIn, KeyOf, NameKey;
    IndexFinal(NameKey(), Names(batch), i);
    IndexFinal(KeyOf(hash), Senders(batch), i);
    IndexFinal(KeyOf(hash), Targets(batch), i);
  }

  lemma {:induction false} WholeEnvelope(hash: Hash, batch: seq<Deliver>, messages: seq<Option<Message>>)
    requires |messages| == |batch| && forall j | 0 <= j < |batch| :: messages[j] == SlotOf(hash, batch, batch[j])
    ensures EnvelopeOf(hash, batch)
         == Envelope(Table(NameKey(), Names(batch)), Table(KeyOf(hash), Targets(batch)), Table(KeyOf(hash), Senders(batch)),
                     messages, [])
  {
    assert messages == EnvelopeOf(hash, batch).messages;
  }

  lemma {:induction false} EmptyTables(hash: Hash)
    ensures Table(NameKey(), []) == [] && Mirrors(NameKey(), map[], [])
    ensures Table(KeyOf(hash), []) == [] && Mirrors(KeyOf(hash), map[], [])
  {
  }

  lemma {:induction false} TableNext<T, K>(key: T -> K, xs: seq<Option<T>>, i: nat)
    requires i < |xs|
    ensures Table(key, xs[..i + 1]) == Add(key, Table(key, xs[..i]), xs[i])
    ensures |Table(key, xs[..i])| <= i
  {
    assert xs[..i + 1][..i] == xs[..i];
    assert xs[..i][..i] == xs[..i];
    TablePrefix(key, xs[..i], i);
  }

  lemma {:induction false} IsInTable<T, K>(key: T -> K, xs: seq<Option<T>>, i: nat)
    requires i < |xs| && xs[i].Some?
    ensures IndexOf(key, Table(key, xs), key(xs[i].value)) < |Table(key, xs)|
  {
    TableLookup(key, xs, key(xs[i].value));
    FirstWithFinds(key, xs, i);
  }

  /** An index handed out at step `i` is the index in the table of the whole batch. */
  lemma {:induction false} IndexFinal<T, K>(key: T -> K, xs: seq<Option<T>>, i: nat)
    requires i < |xs|
    ensures IndexIn(key, Table(key, xs[..i + 1]), xs[i]) == IndexIn(key, Table(key, xs), xs[i])
  {
    if xs[i].Some? {
      IsInTable(key, xs[..i + 1], i);
      TableIndexStable(key, xs, i + 1, key(xs[i].value));
    }
  }

  // ---------------------------------------------------------------- the reader

  /** How the expansion of one Envelope ends. */
  datatype Ending = Finished | Undecodable | Panicked

  /** One message of an Envelope: the send it stands for, or how the loop ends. */
  datatype Expanded = Sends(delivery: Delivery) | Ends(ending: Ending)

  predicate InRange<T>(i: int, s: seq<T>) {
    0 <= i < |s|
  }

  function ExpandOne(accepts: (seq<byte>, seq<byte>) -> bool, e: Envelope, slot: Option<Message>): Expanded {
    if slot.None? then Ends(Panicked)
    else
      var m := slot.value;
      if !InRange(m.typeNameIndex, e.typeNames) then Ends(Panicked)
      else if !accepts(e.typeNames[m.typeNameIndex], m.data) then Ends(Undecodable)
      else if !InRange(m.targetIndex, e.targets) then Ends(Panicked)
      else if |e.senders| > 0 && !InRange(m.senderIndex, e.senders) then Ends(Panicked)
      else
        var sender := if |e.senders| > 0 then Some(e.senders[m.senderIndex]) else None;
        Sends(Delivery(e.targets[m.targetIndex], sender, e.typeNames[m.typeNameIndex], m.data, m.priority))
  }

  /** The sends for the messages from `k` on, up to the first that ends the loop. */
  function Expand(accepts: (seq<byte>, seq<byte>) -> bool, e: Envelope, k: nat): (seq<Delivery>, Ending)
    requires k <= |e.messages|
    decreases |e.messages| - k
  {
    if k == |e.messages| then ([], Finished)
    else
      match ExpandOne(accepts, e, e.messages[k])
      case Ends(ending) => ([], ending)
      case Sends(d) =>
        var (rest, ending) := Expand(accepts, e, k + 1);
        ([d] + rest, ending)
  }

  /** A message that the reader can resolve in the tables that came with it. */
  predicate Resolvable(e: Envelope, slot: Option<Message>) {
    && slot.Some? && 0 <= slot.value.typeNameIndex < |e.typeNames| && 0 <= slot.value.targetIndex < |e.targets|
    && (e.senders == [] || 0 <= slot.value.senderIndex < |e.senders|)
  }

  /** One whose payload is refused, which is tried before its PIDs are looked up. */
  predicate Refused(accepts: (seq<byte>, seq<byte>) -> bool, e: Envelope, slot: Option<Message>) {
    && slot.Some? && 0 <= slot.value.typeNameIndex < |e.typeNames|
    && !accepts(e.typeNames[slot.value.typeNameIndex], slot.value.data)
  }

  /**
   What a reader does with any Envelope at all, however it was made: it sends each message, in order, up to the
   first that cannot be resolved or is refused; a refused one ends the stream with an error, any other with a panic.
   */
  lemma {:induction false} ReaderExact(accepts: (seq<byte>, seq<byte>) -> bool, e: Envelope, k: nat)
    requires k <= |e.messages|
    ensures var (sent, ending) := Expand(accepts, e, k);
      var n := k + |sent|;
      && n <= |e.messages| && (ending == Finished <==> n == |e.messages|)
      && (forall i | k <= i < n :: Resolvable(e, e.messages[i]) && !Refused(accepts, e, e.messages[i]))
      && (forall i | k <= i < n :: var m := e.messages[i].value;
            sent[i - k] == Delivery(e.targets[m.targetIndex], if e.senders == [] then None else Some(e.senders[m.senderIndex]),
                                    e.typeNames[m.typeNameIndex], m.data, m.priority))
      && (n < |e.messages| ==>
            if Refused(accepts, e, e.messages[n]) then ending == Undecodable
            else !Resolvable(e, e.messages[n]) && ending == Panicked)
    decreases |e.messages| - k
  {
    if k < |e.messages| && ExpandOne(accepts, e, e.messages[k]).Sends? {
      ReaderExact(accepts, e, k + 1);
    }
  }

  /** The reader's loop over the messages of a received Envelope. */
  method Receive(accepts: (seq<byte>, seq<byte>) -> bool, e: Envelope)
    returns (sent: seq<Delivery>, ending: Ending)
    ensures (sent, ending) == Expand(accepts, e, 0)
  {
    hide ExpandOne;
    sent := [];
    var k := 0;
    assert [] + Expand(accepts, e, 0).0 == Expand(accepts, e, 0).0;
    while k < |e.messages|
      invariant 0 <= k <= |e.messages|
      invariant Expand(accepts, e, 0) == (sent + Expand(accepts, e, k).0, Expand(accepts, e, k).1)
    {
      match ExpandOne(accepts, e, e.messages[k]) {
        case Ends(reason) =>
          assert sent + [] == sent;
          return sent, reason;
        case Sends(d) =>
          assert sent + ([d] + Expand(accepts, e, k + 1).0) == (sent + [d]) + Expand(accepts, e, k + 1).0;
          sent := sent + [d];
      }
      k := k + 1;
    }
    assert sent + [] == sent;
    return sent, Finished;
  }

  // ---------------------------------------------------------------- end to end

  /** What the far end sends for the `i`th delivery of a batch, as the tables resolve it. */
  function Received(hash: Hash, batch: seq<Deliver>, i: nat): Delivery
    requires i < |batch|
  {
    var d := batch[i];
    if d.payload.None? then
      Delivery(batch[0].target, FirstPresent(Senders(batch)), batch[0].typeName, [], false)
    else
      Delivery(
        Resolve(hash, Targets(batch), Some(d.target)).value,
        Resolve(hash, Senders(batch), d.sender),
        d.typeName, d.payload.value, d.priority)
  }

  /** A table entry found for `x`: the first value with its key, or the first of all for an absent one. */
  function Resolve(hash: Hash, xs: seq<Option<Pid>>, x: Option<Pid>): (r: Option<Pid>)
    ensures x.Some? ==> r.Some?
  {
    if x.None? then FirstPresent(xs)
    else
      var first := FirstWith(KeyOf(hash), xs, KeyOf(hash)(x.value));
      if first.None? then x else first
  }

  /** The wire between the two ends. */
  function Transmit(hash: Hash, accepts: (seq<byte>, seq<byte>) -> bool, batch: seq<Deliver>): Result<(seq<Delivery>, Ending)>
    requires |EncodeEnvelope(EnvelopeOf(hash, batch))| < TWO63
  {
    var e :- DecodeEnvelope(NO_ENVELOPE, EncodeEnvelope(EnvelopeOf(hash, batch)));
    Ok(Expand(accepts, e, 0))
  }

  /** What the sender meant to be delivered: every delivery whose payload serializes, in order. */
  function Intended(batch: seq<Deliver>): seq<Delivery> {
    if batch == [] then []
    else
      var d := batch[0];
      (if d.payload.None? then [] else [Delivery(d.target, d.sender, d.typeName, d.payload.value, d.priority)])
      + Intended(batch[1..])
  }

  predicate AllPresent<T>(xs: seq<Option<T>>) {
    forall i | 0 <= i < |xs| :: xs[i].Some?
  }

  predicate NonePresent<T>(xs: seq<Option<T>>) {
    forall i | 0 <= i < |xs| :: xs[i].None?
  }

  predicate AllSerialize(batch: seq<Deliver>) {
    forall i | 0 <= i < |batch| :: batch[i].payload.Some?
  }

  /** The condition a sender could check: every payload serializes, no lookup key is shared, senders all or none. */
  ghost predicate Faithful(hash: Hash, batch: seq<Deliver>) {
    && AllSerialize(batch)
    && KeysFaithful(KeyOf(hash), Targets(batch))
    && KeysFaithful(KeyOf(hash), Senders(batch))
    && (AllPresent(Senders(batch)) || NonePresent(Senders(batch)))
  }

  lemma {:induction false} FirstPresentNone<T>(xs: seq<Option<T>>)
    ensures FirstPresent(xs).None? <==> NonePresent(xs)
    ensures FirstPresent(xs).Some? ==> FirstPresent(xs) in xs
    decreases xs
  {
    if xs != [] {
      FirstPresentNone(xs[1..]);
      assert forall i | 1 <= i < |xs| :: xs[i] == xs[1..][i - 1];
    }
  }

  /** The tables give every value back exactly when keys are faithful and values are all present or all absent. */
  lemma {:induction false} ResolveExact(hash: Hash, xs: seq<Option<Pid>>)
    ensures (forall i | 0 <= i < |xs| :: Resolve(hash, xs, xs[i]) == xs[i])
        <==> KeysFaithful(KeyOf(hash), xs) && (AllPresent(xs) || NonePresent(xs))
  {
    var key := KeyOf(hash);
    FirstPresentNone(xs);
    forall i | 0 <= i < |xs| && xs[i].Some?
      ensures Resolve(hash, xs, xs[i]) == FirstWith(key, xs, key(xs[i].value))
      ensures Resolve(hash, xs, xs[i]) in xs && key(Resolve(hash, xs, xs[i]).value) == key(xs[i].value)
    {
      FirstWithFinds(key, xs, i);
    }
    if forall i | 0 <= i < |xs| :: Resolve(hash, xs, xs[i]) == xs[i] {
      forall x, y | Some(x) in xs && Some(y) in xs && key(x) == key(y)
        ensures x == y
      {
        var i :| 0 <= i < |xs| && xs[i] == Some(x);
        var j :| 0 <= j < |xs| && xs[j] == Some(y);
        assert Resolve(hash, xs, xs[i]) == Resolve(hash, xs, xs[j]);
      }
    }
  }

  /** An index taken from a table leads back to what the table resolves the value to. */
  lemma {:induction false} IndexLeadsBack<K>(key: Pid -> K, xs: seq<Option<Pid>>, x: Option<Pid>)
    requires x in xs && |xs| <= TWO31
    ensures var t, i := Table(key, xs), IndexIn(key, Table(key, xs), x);
      if x.None? then i == 0 && FirstPresent(xs) == (if t == [] then None else Some(t[0]))
      else 0 <= i < |t| && Some(t[i]) == FirstWith(key, xs, key(x.value))
  {
    hide Table;
    TableFirst(key, xs);
    TablePrefix(key, xs, |xs|);
    if x.Some? {
      var j :| 0 <= j < |xs| && xs[j] == x;
      FirstWithFinds(key, xs, j);
      TableLookup(key, xs, key(x.value));
    }
  }

  lemma {:induction false} NameLeadsBack(xs: seq<Option<seq<byte>>>, name: seq<byte>)
    requires Some(name) in xs && |xs| <= TWO31
    ensures var t, i := Table(NameKey(), xs), IndexIn(NameKey(), Table(NameKey(), xs), Some(name));
      0 <= i < |t| && t[i] == name
  {
    hide Table;
    TablePrefix(NameKey(), xs, |xs|);
    var j :| 0 <= j < |xs| && xs[j] == Some(name);
    FirstWithFinds(NameKey(), xs, j);
    TableLookup(NameKey(), xs, name);
  }

  /** Each slot of the transmitted Envelope expands to what the tables resolve it to. */
  lemma {:induction false} SlotExpands(hash: Hash, accepts: (seq<byte>, seq<byte>) -> bool, batch: seq<Deliver>, i: nat)
    requires i < |batch| <= TWO31
    ensures var e, d := Filled(EnvelopeOf(hash, batch)), Received(hash, batch, i);
      ExpandOne(accepts, e, e.messages[i])
      == if accepts(d.typeName, d.data) then Sends(d) else Ends(Undecodable)
  {
    hide Table, FirstWith, KeyOf, IndexIn;
    var d := batch[i];
    if d.payload.None? {
      TableFirst(NameKey(), Names(batch));
      TableFirst(KeyOf(hash), Targets(batch));
      TableFirst(KeyOf(hash), Senders(batch));
      assert FirstPresent(Names(batch)) == Names(batch)[0] && FirstPresent(Targets(batch)) == Targets(batch)[0];
    } else {
      assert Names(batch)[i] in Names(batch) && Targets(batch)[i] in Targets(batch) && Senders(batch)[i] in Senders(batch);
      NameLeadsBack(Names(batch), d.typeName);
      IndexLeadsBack(KeyOf(hash), Targets(batch), Some(d.target));
      IndexLeadsBack(KeyOf(hash), Senders(batch), d.sender);
    }
  }

  /** A finished expansion has one send per message slot. */
  lemma {:induction false} ExpandLength(accepts: (seq<byte>, seq<byte>) -> bool, e: Envelope, k: nat)
    requires k <= |e.messages| && Expand(accepts, e, k).1 == Finished
    ensures |Expand(accepts, e, k).0| == |e.messages| - k
    ensures forall i | k <= i < |e.messages| :: ExpandOne(accepts, e, e.messages[i]) == Sends(Expand(accepts, e, k).0[i - k])
    decreases |e.messages| - k
  {
    hide ExpandOne;
    if k < |e.messages| {
      assert ExpandOne(accepts, e, e.messages[k]) != Ends(Finished) by {
        NeverEndsFinished(accepts, e, e.messages[k]);
      }
      ExpandLength(accepts, e, k + 1);
    }
  }

  lemma {:induction false} NeverEndsFinished(accepts: (seq<byte>, seq<byte>) -> bool, e: Envelope, slot: Option<Message>)
    ensures ExpandOne(accepts, e, slot) != Ends(Finished)
  {
  }

  lemma {:induction false} ExpandFinishes(accepts: (seq<byte>, seq<byte>) -> bool, e: Envelope, k: nat)
    requires k <= |e.messages|
    requires forall i | k <= i < |e.messages| :: ExpandOne(accepts, e, e.messages[i]).Sends?
    ensures Expand(accepts, e, k).1 == Finished
    decreases |e.messages| - k
  {
    hide ExpandOne;
    if k < |e.messages| {
      ExpandFinishes(accepts, e, k + 1);
    }
  }

  lemma {:induction false} IntendedLength(batch: seq<Deliver>)
    ensures |Intended(batch)| <= |batch|
    ensures |Intended(batch)| == |batch| <==> AllSerialize(batch)
    ensures AllSerialize(batch) ==> forall i | 0 <= i < |batch| :: var d := batch[i];
      Intended(batch)[i] == Delivery(d.target, d.sender, d.typeName, d.payload.value, d.priority)
    decreases batch
  {
    if batch != [] {
      IntendedLength(batch[1..]);
      assert forall i | 1 <= i < |batch| :: batch[i] == batch[1..][i - 1];
    }
  }

  /** The Envelope of a batch is well formed when its PIDs are. */
  /** The PIDs of a batch are such as were built here or decoded. */
  predicate WellFormed(batch: seq<Deliver>) {
    batch == []
    || (&& PidWellFormed(batch[0].target) && (batch[0].sender.Some? ==> PidWellFormed(batch[0].sender.value))
        && WellFormed(batch[1..]))
  }

  lemma {:induction false} WellFormedEach(batch: seq<Deliver>)
    requires WellFormed(batch)
    ensures forall d <- batch :: PidWellFormed(d.target) && (d.sender.Some? ==> PidWellFormed(d.sender.value))
  {
    hide PidWellFormed;
    if batch != [] {
      WellFormedEach(batch[1..]);
      assert batch == [batch[0]] + batch[1..];
    }
  }

  lemma {:induction false} EachWellFormed(batch: seq<Deliver>)
    requires forall d <- batch :: PidWellFormed(d.target) && (d.sender.Some? ==> PidWellFormed(d.sender.value))
    ensures WellFormed(batch)
    decreases |batch|
  {
    hide PidWellFormed;
    if batch != [] {
      assert batch[0] in batch && forall d <- batch[1..] :: d in batch;
      EachWellFormed(batch[1..]);
    }
  }

  lemma {:induction false} EnvelopeOfWellFormed(hash: Hash, batch: seq<Deliver>)
    requires forall d <- batch :: PidWellFormed(d.target) && (d.sender.Some? ==> PidWellFormed(d.sender.value))
    ensures EnvelopeWellFormed(EnvelopeOf(hash, batch))
  {
    hide PidWellFormed, KeyOf, NameKey, IndexIn, Table;
    var e := EnvelopeOf(hash, batch);
    TableFrom(KeyOf(hash), Targets(batch));
    TableFrom(KeyOf(hash), Senders(batch));
    NoUnknown();
    assert PidsWellFormed(e.targets) by {
      assert forall i | 0 <= i < |e.targets| :: Some(e.targets[i]) in Targets(batch);
    }
    assert PidsWellFormed(e.senders) by {
      assert forall i | 0 <= i < |e.senders| :: Some(e.senders[i]) in Senders(batch);
    }
    assert SlotsWellFormed(e.messages);
  }

  lemma {:induction false} NoUnknown()
    ensures Wire.IsUnknownBlock(Wire.MessageSchema, [])
    ensures Wire.IsUnknownBlock(Wire.EnvelopeSchema, [])
  {
  }

  lemma {:induction false} TableFrom<T, K>(key: T -> K, xs: seq<Option<T>>)
    ensures forall i | 0 <= i < |Table(key, xs)| :: Some(Table(key, xs)[i]) in xs
    decreases |xs|
  {
    if xs != [] {
      TableFrom(key, xs[..|xs| - 1]);
    }
  }

  /**
   End to end: compressing, printing, parsing and expanding a batch delivers exactly what was
   meant, in order, if and only if the batch is faithful.
   */
  lemma {:induction false} RemoteRoundTrip(hash: Hash, accepts: (seq<byte>, seq<byte>) -> bool, batch: seq<Deliver>)
    requires |batch| <= TWO31 && |EncodeEnvelope(EnvelopeOf(hash, batch))| < TWO63
    requires WellFormed(batch)
    requires forall d <- batch :: d.payload.Some? ==> accepts(d.typeName, d.payload.value)
    ensures Transmit(hash, accepts, batch) == Ok((Intended(batch), Finished)) <==> Faithful(hash, batch)
  {
    hide DecodeEnvelope, EncodeEnvelope, EnvelopeOf, PidWellFormed, EnvelopeWellFormed, ExpandOne, Expand, Intended, Filled, Resolve,
      WellFormed;
    var e := Filled(EnvelopeOf(hash, batch));
    WellFormedEach(batch);
    EnvelopeOfWellFormed(hash, batch);
    EnvelopeRoundTrip(EnvelopeOf(hash, batch));
    assert Transmit(hash, accepts, batch) == Ok(Expand(accepts, e, 0));
    FilledLength(hash, batch);
    if Faithful(hash, batch) {
      FaithfulDelivers(hash, accepts, batch, e);
    }
    if Expand(accepts, e, 0) == (Intended(batch), Finished) {
      DeliversFaithful(hash, accepts, batch, e);
    }
  }

  /** For a serialized delivery, what arrives is what was meant exactly when the tables resolve both PIDs. */
  lemma {:induction false} ReceivedAsIntended(hash: Hash, batch: seq<Deliver>, i: nat)
    requires i < |batch| && AllSerialize(batch) && |Intended(batch)| == |batch|
    ensures Received(hash, batch, i) == Intended(batch)[i] <==>
      && Resolve(hash, Targets(batch), Targets(batch)[i]) == Targets(batch)[i]
      && Resolve(hash, Senders(batch), Senders(batch)[i]) == Senders(batch)[i]
  {
    hide Resolve, Intended;
    IntendedLength(batch);
  }

  lemma {:induction false} DeliversFaithful(hash: Hash, accepts: (seq<byte>, seq<byte>) -> bool, batch: seq<Deliver>, e: Envelope)
    requires |batch| <= TWO31
    requires e == Filled(EnvelopeOf(hash, batch)) && |e.messages| == |batch|
    requires Expand(accepts, e, 0) == (Intended(batch), Finished)
    ensures Faithful(hash, batch)
  {
    hide EnvelopeOf, ExpandOne, Expand, Intended, Filled, Received, Faithful;
    ExpandLength(accepts, e, 0);
    IntendedLength(batch);
    forall i | 0 <= i < |batch|
      ensures Received(hash, batch, i) == Intended(batch)[i]
    {
      SlotExpands(hash, accepts, batch, i);
    }
    FaithfulWhenReceived(hash, batch);
  }

  lemma {:induction false} FaithfulWhenReceived(hash: Hash, batch: seq<Deliver>)
    requires AllSerialize(batch) && |Intended(batch)| == |batch|
    requires forall i | 0 <= i < |batch| :: Received(hash, batch, i) == Intended(batch)[i]
    ensures Faithful(hash, batch)
  {
    hide Intended, Received, Resolve, KeysFaithful;
    ResolveExact(hash, Targets(batch));
    ResolveExact(hash, Senders(batch));
    forall i | 0 <= i < |batch|
      ensures Resolve(hash, Targets(batch), Targets(batch)[i]) == Targets(batch)[i]
      ensures Resolve(hash, Senders(batch), Senders(batch)[i]) == Senders(batch)[i]
    {
      ReceivedAsIntended(hash, batch, i);
    }
  }

  lemma {:induction false} ReceivedWhenFaithful(hash: Hash, batch: seq<Deliver>, i: nat)
    requires Faithful(hash, batch) && i < |batch| == |Intended(batch)|
    ensures Received(hash, batch, i) == Intended(batch)[i]
  {
    hide Intended, Received, Resolve, KeysFaithful;
    ResolveExact(hash, Targets(batch));
    ResolveExact(hash, Senders(batch));
    assert Resolve(hash, Targets(batch), Targets(batch)[i]) == Targets(batch)[i];
    ReceivedAsIntended(hash, batch, i);
  }

  lemma {:induction false} FilledLength(hash: Hash, batch: seq<Deliver>)
    ensures |Filled(EnvelopeOf(hash, batch)).messages| == |batch|
  {
  }

  lemma {:induction false} ExpandIs(accepts: (seq<byte>, seq<byte>) -> bool, e: Envelope, want: seq<Delivery>)
    requires |want| == |e.messages|
    requires forall i | 0 <= i < |want| :: ExpandOne(accepts, e, e.messages[i]) == Sends(want[i])
    ensures Expand(accepts, e, 0) == (want, Finished)
  {
    hide ExpandOne, Expand;
    ExpandFinishes(accepts, e, 0);
    ExpandLength(accepts, e, 0);
    assert forall i | 0 <= i < |want| :: Sends(want[i]) == Sends(Expand(accepts, e, 0).0[i]);
    assert Expand(accepts, e, 0).0 == want;
  }

  lemma {:induction false} SlotDelivers(hash: Hash, accepts: (seq<byte>, seq<byte>) -> bool, batch: seq<Deliver>, e: Envelope, i: nat)
    requires i < |batch| <= TWO31 && Faithful(hash, batch) && |Intended(batch)| == |batch|
    requires batch[i].payload.Some? ==> accepts(batch[i].typeName, batch[i].payload.value)
    requires e == Filled(EnvelopeOf(hash, batch)) && |e.messages| == |batch|
    ensures ExpandOne(accepts, e, e.messages[i]) == Sends(Intended(batch)[i])
  {
    hide EnvelopeOf, ExpandOne, Intended, Filled, KeysFaithful, Resolve;
    SlotExpands(hash, accepts, batch, i);
    ReceivedWhenFaithful(hash, batch, i);
  }

  lemma {:induction false} FaithfulDelivers(hash: Hash, accepts: (seq<byte>, seq<byte>) -> bool, batch: seq<Deliver>, e: Envelope)
    requires |batch| <= TWO31 && Faithful(hash, batch)
    requires forall d <- batch :: d.payload.Some? ==> accepts(d.typeName, d.payload.value)
    requires e == Filled(EnvelopeOf(hash, batch)) && |e.messages| == |batch|
    ensures Expand(accepts, e, 0) == (Intended(batch), Finished)
  {
    hide EnvelopeOf, ExpandOne, Expand, Intended, Filled, Faithful;
    FaithfulSerializes(hash, batch);
    IntendedLength(batch);
    forall i | 0 <= i < |batch|
      ensures ExpandOne(accepts, e, e.messages[i]) == Sends(Intended(batch)[i])
    {
      assert batch[i] in batch;
      SlotDelivers(hash, accepts, batch, e, i);
    }
    ExpandIs(accepts, e, Intended(batch));
  }

  lemma {:induction false} FaithfulSerializes(hash: Hash, batch: seq<Deliver>)
    requires Faithful(hash, batch)
    ensures AllSerialize(batch)
  {
  }

  /** Every delivery of a batch, as the tables resolve it. */
  function Arrivals(hash: Hash, batch: seq<Deliver>): (r: seq<Delivery>)
    ensures |r| == |batch| && forall i | 0 <= i < |batch| :: r[i] == Received(hash, batch, i)
  {
    seq(|batch|, i requires 0 <= i < |batch| => Received(hash, batch, i))
  }

  /** How many deliveries come before the first whose payload the receiver cannot deserialize. */
  function Accepted(accepts: (seq<byte>, seq<byte>) -> bool, ds: seq<Delivery>): (n: nat)
    ensures n <= |ds|
    decreases |ds|
  {
    if ds == [] || !accepts(ds[0].typeName, ds[0].data) then 0 else 1 + Accepted(accepts, ds[1..])
  }

  lemma {:induction false} ExpandUpTo(accepts: (seq<byte>, seq<byte>) -> bool, e: Envelope, ds: seq<Delivery>, k: nat)
    requires k <= |ds| == |e.messages|
    requires forall i | 0 <= i < |ds| ::
      ExpandOne(accepts, e, e.messages[i]) == if accepts(ds[i].typeName, ds[i].data) then Sends(ds[i]) else Ends(Undecodable)
    ensures var n := Accepted(accepts, ds[k..]);
      Expand(accepts, e, k) == (ds[k..][..n], if k + n == |ds| then Finished else Undecodable)
    decreases |ds| - k
  {
    hide ExpandOne;
    if k < |ds| {
      assert ds[k..][1..] == ds[k + 1..] && ds[k..][0] == ds[k];
      ExpandUpTo(accepts, e, ds, k + 1);
      if accepts(ds[k].typeName, ds[k].data) {
        var n := Accepted(accepts, ds[k + 1..]);
        assert ds[k..][..n + 1] == [ds[k]] + ds[k + 1..][..n];
      }
    }
  }

  /**
   What arrives for any batch and any receiver: each PID as the first in the batch with its key, up to
   the first payload the receiver cannot deserialize, where the stream ends.
   */
  lemma {:induction false} ArrivesExactly(hash: Hash, accepts: (seq<byte>, seq<byte>) -> bool, batch: seq<Deliver>)
    requires |batch| <= TWO31 && |EncodeEnvelope(EnvelopeOf(hash, batch))| < TWO63
    requires WellFormed(batch)
    ensures var (all, n) := (Arrivals(hash, batch), Accepted(accepts, Arrivals(hash, batch)));
      Transmit(hash, accepts, batch) == Ok((all[..n], if n == |batch| then Finished else Undecodable))
  {
    hide DecodeEnvelope, EncodeEnvelope, EnvelopeOf, PidWellFormed, EnvelopeWellFormed, ExpandOne, Expand, Filled, Resolve,
      Received, Accepted, WellFormed;
    var e := Filled(EnvelopeOf(hash, batch));
    WellFormedEach(batch);
    EnvelopeOfWellFormed(hash, batch);
    EnvelopeRoundTrip(EnvelopeOf(hash, batch));
    FilledLength(hash, batch);
    var ds := Arrivals(hash, batch);
    forall i | 0 <= i < |ds|
      ensures ExpandOne(accepts, e, e.messages[i])
           == if accepts(ds[i].typeName, ds[i].data) then Sends(ds[i]) else Ends(Undecodable)
    {
      SlotExpands(hash, accepts, batch, i);
    }
    ExpandUpTo(accepts, e, ds, 0);
    assert ds[0..] == ds;
  }

  /**
   A delivery whose payload does not serialize still arrives, if no payload up to it is refused: empty,
   of the first type in the batch, at the first target.
   */
  lemma {:induction false} PhantomDelivery(hash: Hash, accepts: (seq<byte>, seq<byte>) -> bool, batch: seq<Deliver>, i: nat)
    requires i < |batch| <= TWO31 && |EncodeEnvelope(EnvelopeOf(hash, batch))| < TWO63
    requires forall d <- batch :: PidWellFormed(d.target) && (d.sender.Some? ==> PidWellFormed(d.sender.value))
    requires batch[i].payload.None? && i < Accepted(accepts, Arrivals(hash, batch))
    ensures Transmit(hash, accepts, batch).Ok? && i < |Transmit(hash, accepts, batch).value.0|
    ensures var got := Transmit(hash, accepts, batch).value.0[i];
      got.target == batch[0].target && got.typeName == batch[0].typeName && got.data == [] && !got.priority
  {
    hide Transmit, EncodeEnvelope, EnvelopeOf, PidWellFormed, Accepted, WellFormed;
    EachWellFormed(batch);
    ArrivesExactly(hash, accepts, batch);
    assert Arrivals(hash, batch)[i] == Received(hash, batch, i);
  }

  lemma {:induction false} AllAccepted(accepts: (seq<byte>, seq<byte>) -> bool, ds: seq<Delivery>)
    requires forall name, data :: accepts(name, data)
    ensures Accepted(accepts, ds) == |ds|
    decreases |ds|
  {
    if ds != [] {
      AllAccepted(accepts, ds[1..]);
    }
  }

  lemma {:induction false} ArrivesWhole(hash: Hash, accepts: (seq<byte>, seq<byte>) -> bool, batch: seq<Deliver>)
    requires |batch| <= TWO31 && |EncodeEnvelope(EnvelopeOf(hash, batch))| < TWO63
    requires WellFormed(batch)
    requires forall name, data :: accepts(name, data)
    ensures Transmit(hash, accepts, batch) == Ok((Arrivals(hash, batch), Finished))
  {
    hide Transmit, EncodeEnvelope, EnvelopeOf, PidWellFormed, Accepted, Received;
    ArrivesExactly(hash, accepts, batch);
    AllAccepted(accepts, Arrivals(hash, batch));
    assert Arrivals(hash, batch)[..|batch|] == Arrivals(hash, batch);
  }

  // ---------------------------------------------------------------- batches that arrive changed

  /** Two PIDs that split the same bytes differently between address and ID, and so share a key whatever the hash. */
  const P := Pid([1, 2], [3], [])
  const Q := Pid([1], [2, 3], [])

  function Empty(target: Pid, sender: Option<Pid>): Deliver {
    Deliver(target, sender, [7], Some([]), false)
  }

  function Got(target: Pid, sender: Option<Pid>): Delivery {
    Delivery(target, sender, [7], [], false)
  }

  lemma {:induction false} SameKey(hash: Hash)
    ensures P != Q && KeyOf(hash)(P) == KeyOf(hash)(Q)
  {
    assert P.address + P.id == Q.address + Q.id;
    assert P.id != Q.id;
  }

  /** Two empty messages for P or Q make an Envelope of a few bytes. */
  lemma {:induction false} SmallEnvelope(e: Envelope)
    requires e.typeNames == [[7]] && e.targets == [P] && (e.senders == [] || e.senders == [P]) && e.unknown == []
    requires |e.messages| == 2 && forall m <- e.messages :: m == None || m == Some(NO_MESSAGE)
    ensures |EncodeEnvelope(e)| < TWO63
  {
    hide EncodePid, EncodeMessage, EncodeEnvelope, Repeated, Wire.EncodeFields, Wire.EncodeField;
    Stability.EnvelopeSizeIs(e);
    SmallPid();
    SmallMessage();
    OneField(1, [7]);
    OneField(2, EncodePid(P));
    OneField(3, EncodePid(P));
    OneField(4, EncodeMessage(NO_MESSAGE));
    Stability.RepeatedGrows(4, [EncodeMessage(NO_MESSAGE)], EncodeMessage(NO_MESSAGE));
    Stability.SmallField(4, EncodeMessage(NO_MESSAGE));
    NoFields(3);
    assert EncodePids([P]) == [EncodePid(P)] && EncodePids([]) == [];
    assert e.messages[0] in e.messages && e.messages[1] in e.messages;
    assert EncodeSlots(e.messages) == [EncodeMessage(NO_MESSAGE)] + [EncodeMessage(NO_MESSAGE)];
  }

  lemma {:induction false} NoFields(num: nat)
    ensures Wire.EncodeFields(Repeated(num, [])) == []
  {
  }

  lemma {:induction false} OneField(num: nat, content: seq<byte>)
    requires 1 <= num < 16 && |content| < 128
    ensures |Wire.EncodeFields(Repeated(num, [content]))| <= |content| + 2
  {
    hide Wire.EncodeFields, Wire.EncodeField, Repeated;
    NoFields(num);
    Stability.RepeatedGrows(num, [], content);
    Stability.SmallField(num, content);
    assert [] + [content] == [content];
  }

  lemma {:induction false} SmallPid()
    ensures |EncodePid(P)| <= 7
  {
    hide Wire.EncodeField;
    PidSizeParts(P);
    Stability.SmallField(1, P.address);
    Stability.SmallField(2, P.id);
  }

  lemma {:induction false} SmallMessage()
    ensures EncodeMessage(NO_MESSAGE) == []
  {
  }

  /** The Envelope of two empty messages to targets that share P's key. */
  lemma {:induction false} TwoMessages(hash: Hash, batch: seq<Deliver>)
    requires |batch| == 2 && batch[0].target == P && (batch[1].target == P || batch[1].target == Q)
    requires forall d <- batch :: d.typeName == [7] && (d.payload == Some([]) || d.payload == None) && !d.priority
    requires (batch[0].sender == None == batch[1].sender) || (batch[0].sender == Some(P) && batch[1].sender == None)
    ensures |EncodeEnvelope(EnvelopeOf(hash, batch))| < TWO63
  {
    hide EncodeEnvelope, Table, FirstPresent, SlotOf;
    TwoTables(hash, batch);
    var e := EnvelopeOf(hash, batch);
    assert batch[0] in batch && batch[1] in batch;
    SmallSlot(hash, batch, batch[0]);
    SmallSlot(hash, batch, batch[1]);
    assert e.messages[0] == SlotOf(hash, batch, batch[0]) && e.messages[1] == SlotOf(hash, batch, batch[1]);
    SmallEnvelope(e);
  }

  lemma {:induction false} TwoTables(hash: Hash, batch: seq<Deliver>)
    requires |batch| == 2 && batch[0].target == P && (batch[1].target == P || batch[1].target == Q)
    requires batch[0].typeName == batch[1].typeName == [7]
    requires (batch[0].sender == None == batch[1].sender) || (batch[0].sender == Some(P) && batch[1].sender == None)
    ensures Table(KeyOf(hash), Targets(batch)) == [P] && Table(NameKey(), Names(batch)) == [[7]]
    ensures Table(KeyOf(hash), Senders(batch)) == if batch[0].sender.Some? then [P] else []
  {
    hide Table;
    SameKey(hash);
    TableOfTwo(KeyOf(hash), Targets(batch));
    TableOfTwo(NameKey(), Names(batch));
    TableOfTwo(KeyOf(hash), Senders(batch));
  }

  /** With such tables every index is 0. */
  lemma {:induction false} SmallSlot(hash: Hash, batch: seq<Deliver>, d: Deliver)
    requires Table(KeyOf(hash), Targets(batch)) == [P] && Table(NameKey(), Names(batch)) == [[7]]
    requires Table(KeyOf(hash), Senders(batch)) == [P] || d.sender.None?
    requires (d.target == P || d.target == Q) && (d.sender.None? || d.sender == Some(P)) && d.typeName == [7]
    requires (d.payload == Some([]) || d.payload == None) && !d.priority
    ensures SlotOf(hash, batch, d) == None || SlotOf(hash, batch, d) == Some(NO_MESSAGE)
  {
    hide Table;
    SameKey(hash);
  }

  /** A table of two entries where the second brings nothing new. */
  lemma {:induction false} TableOfTwo<T, K>(key: T -> K, xs: seq<Option<T>>)
    requires |xs| == 2 && (xs[1].Some? ==> xs[0].Some? && key(xs[0].value) == key(xs[1].value))
    ensures Table(key, xs) == if xs[0].Some? then [xs[0].value] else []
  {
    assert xs[..1][..0] == [] && xs[..1][0] == xs[0];
    assert Table(key, xs[..1]) == Add(key, Table(key, []), xs[0]);
  }

  /** What such batches turn into: a message for Q goes to P, and one without a sender comes from P. */
  lemma {:induction false} UnfaithfulBatches(hash: Hash, accepts: (seq<byte>, seq<byte>) -> bool)
    requires forall name, data :: accepts(name, data)
    ensures var (collide, mixed) := ([Empty(P, None), Empty(Q, None)], [Empty(P, Some(P)), Empty(P, None)]);
      && !Faithful(hash, collide) && !Faithful(hash, mixed)
      && |EncodeEnvelope(EnvelopeOf(hash, collide))| < TWO63 && |EncodeEnvelope(EnvelopeOf(hash, mixed))| < TWO63
      && Transmit(hash, accepts, collide) == Ok(([Got(P, None), Got(P, None)], Finished))
      && Transmit(hash, accepts, mixed) == Ok(([Got(P, Some(P)), Got(P, Some(P))], Finished))
  {
    hide Transmit, EncodeEnvelope, EnvelopeOf, PidWellFormed, WellFormed, Faithful, Arrivals;
    var (collide, mixed) := ([Empty(P, None), Empty(Q, None)], [Empty(P, Some(P)), Empty(P, None)]);
    NotFaithful(hash, collide, mixed);
    TwoMessages(hash, collide);
    TwoMessages(hash, mixed);
    PlainPids(collide);
    PlainPids(mixed);
    ArrivesWhole(hash, accepts, collide);
    ArrivesWhole(hash, accepts, mixed);
    ResolvesToP(hash, collide, mixed);
  }

  /** And a batch with a payload that does not serialize: it arrives as one more message. */
  lemma {:induction false} PhantomBatch(hash: Hash, accepts: (seq<byte>, seq<byte>) -> bool)
    requires forall name, data :: accepts(name, data)
    ensures var batch := [Empty(P, None), Empty(Q, None).(payload := None)];
      && |EncodeEnvelope(EnvelopeOf(hash, batch))| < TWO63
      && Transmit(hash, accepts, batch) == Ok(([Got(P, None), Got(P, None)], Finished))
  {
    hide Transmit, EncodeEnvelope, EnvelopeOf, PidWellFormed, WellFormed, Resolve, FirstPresent;
    var batch := [Empty(P, None), Empty(Q, None).(payload := None)];
    TwoMessages(hash, batch);
    PlainPids(batch);
    ArrivesWhole(hash, accepts, batch);
    FirstPresentNone(Senders(batch));
    ResolvesFirst(hash, batch);
    var all := Arrivals(hash, batch);
    assert all[0] == Received(hash, batch, 0) == Got(P, None);
    assert all[1] == Received(hash, batch, 1) == Got(P, None);
    assert all == [Got(P, None), Got(P, None)];
  }

  lemma {:induction false} ResolvesFirst(hash: Hash, batch: seq<Deliver>)
    requires batch == [Empty(P, None), Empty(Q, None).(payload := None)]
    ensures Resolve(hash, Targets(batch), Some(P)) == Some(P) && Resolve(hash, Senders(batch), None) == None
  {
    assert Targets(batch)[0] == Some(P);
    FirstPresentNone(Senders(batch));
  }

  lemma {:induction false} NotFaithful(hash: Hash, collide: seq<Deliver>, mixed: seq<Deliver>)
    requires collide == [Empty(P, None), Empty(Q, None)] && mixed == [Empty(P, Some(P)), Empty(P, None)]
    ensures !Faithful(hash, collide) && !Faithful(hash, mixed)
  {
    SameKey(hash);
    assert Targets(collide)[0] == Some(P) && Targets(collide)[1] == Some(Q);
    assert Senders(mixed)[0].Some? && Senders(mixed)[1].None?;
  }

  lemma {:induction false} PlainPids(batch: seq<Deliver>)
    requires |batch| == 2
    requires forall d <- batch :: d.target.unknown == [] && (d.sender.Some? ==> d.sender.value.unknown == [])
    ensures WellFormed(batch)
  {
    hide PidWellFormed;
    assert batch[0] in batch && batch[1] in batch && batch[1..][0] == batch[1] && batch[1..][1..] == [];
    assert WellFormed([]);
    PlainPid(batch[0].target);
    PlainPid(batch[1].target);
    if batch[0].sender.Some? {
      PlainPid(batch[0].sender.value);
    }
    if batch[1].sender.Some? {
      PlainPid(batch[1].sender.value);
    }
    assert WellFormed(batch[1..]);
  }

  lemma {:induction false} PlainPid(p: Pid)
    requires p.unknown == []
    ensures PidWellFormed(p)
  {
    Wire.ScanEmpty(Wire.PidSchema, 0);
  }

  lemma {:induction false} ResolvesToP(hash: Hash, collide: seq<Deliver>, mixed: seq<Deliver>)
    requires collide == [Empty(P, None), Empty(Q, None)] && mixed == [Empty(P, Some(P)), Empty(P, None)]
    ensures Arrivals(hash, collide) == [Got(P, None), Got(P, None)]
    ensures Arrivals(hash, mixed) == [Got(P, Some(P)), Got(P, Some(P))]
  {
    SameKey(hash);
    assert Targets(collide)[0] == Some(P) && Targets(mixed)[0] == Some(P);
    assert Senders(collide)[0] == None && Senders(collide)[1..][0] == None && Senders(collide)[1..][1..] == [];
    assert Senders(mixed)[0] == Some(P);
    assert Resolve(hash, Targets(collide), Some(P)) == Resolve(hash, Targets(collide), Some(Q)) == Some(P);
    FirstPresentNone(Senders(collide));
    assert Resolve(hash, Senders(collide), None) == None;
    assert Arrivals(hash, collide)[0] == Got(P, None) && Arrivals(hash, collide)[1] == Got(P, None);
  }
}
