/**
 The three messages on the wire (PID, Message, Envelope) as values: what MarshalVT prints and
 what UnmarshalVT leaves in the value it decodes into.
 */
module Codec {
  import opened Machine
  import opened Wire

  // ---------------------------------------------------------------- PID

  /** A process identifier; strings are bytes, and `unknown` holds fields of newer versions. */
  datatype Pid = Pid(address: seq<byte>, id: seq<byte>, unknown: seq<byte>)

  const NO_PID := Pid([], [], [])

  function PidFields(p: Pid): seq<Field> {
    (if p.address == [] then [] else [LenField(1, p.address)])
    + (if p.id == [] then [] else [LenField(2, p.id)])
  }

  function EncodePid(p: Pid): seq<byte> {
    EncodeFields(PidFields(p)) + p.unknown
  }

  function ApplyPid(p: Pid, f: Field): Pid {
    match f
    case LenField(num, b) => if num == 1 then p.(address := b) else p.(id := b)
    case RawField(b) => p.(unknown := p.unknown + b)
    case VarintField(_, _) => p
  }

  function FoldPid(p: Pid, fs: seq<Field>): Pid
    decreases fs
  {
    if fs == [] then p else FoldPid(ApplyPid(p, fs[0]), fs[1..])
  }

  /** UnmarshalVT into an existing PID. */
  function DecodePid(p: Pid, s: seq<byte>): Result<Pid>
    requires |s| < TWO63
  {
    var scanned := Scan(PidSchema, s, 0);
    if scanned.err.Some? then Err(scanned.err.value) else Ok(FoldPid(p, scanned.fields))
  }

  predicate PidWellFormed(p: Pid) {
    IsUnknownBlock(PidSchema, p.unknown)
  }

  lemma {:induction false} FoldPidUnknown(p: Pid, fs: seq<Field>)
    ensures FoldPid(p, fs).unknown == p.unknown + Unknown(fs)
    ensures AllRaw(fs) ==> FoldPid(p, fs) == p.(unknown := p.unknown + Unknown(fs))
    decreases fs
  {
    if fs != [] {
      FoldPidUnknown(ApplyPid(p, fs[0]), fs[1..]);
      var head := if fs[0].RawField? then fs[0].bytes else [];
      ConcatAssoc(p.unknown, head, Unknown(fs[1..]));
    }
  }

  lemma {:induction false} FoldPidAppend(p: Pid, a: seq<Field>, b: seq<Field>)
    ensures FoldPid(p, a + b) == FoldPid(FoldPid(p, a), b)
    decreases a
  {
    if a == [] {
      assert a + b == b;
    } else {
      assert (a + b)[1..] == a[1..] + b;
      FoldPidAppend(ApplyPid(p, a[0]), a[1..], b);
    }
  }

  lemma {:induction false} PidFieldsFold(p: Pid)
    ensures AllFit(PidSchema, PidFields(p))
    ensures FoldPid(NO_PID, PidFields(p)) == p.(unknown := [])
  {
    var a := if p.address == [] then [] else [LenField(1, p.address)];
    var b := if p.id == [] then [] else [LenField(2, p.id)];
    AllFitAppend(PidSchema, a, b);
    FoldPidAppend(NO_PID, a, b);
  }

  /** Whatever bytes a PID was decoded from, its unknown bytes can be decoded again. */
  lemma {:induction false} DecodedPidWellFormed(s: seq<byte>, p: Pid)
    requires |s| < TWO63 && DecodePid(NO_PID, s) == Ok(p)
    ensures PidWellFormed(p)
  {
    hide Scan, Unknown, FoldPid, IsUnknownBlock;
    var fields := Scan(PidSchema, s, 0).fields;
    FoldPidUnknown(NO_PID, fields);
    UnknownIsBlock(PidSchema, s, 0);
    assert p.unknown == [] + Unknown(fields) == Unknown(fields);
  }

  /** Printing and parsing a PID gives it back exactly when its unknown bytes are whole unknown fields. */
  lemma {:induction false} PidRoundTrip(p: Pid)
    requires |EncodePid(p)| < TWO63
    ensures DecodePid(NO_PID, EncodePid(p)) == Ok(p) <==> PidWellFormed(p)
  {
    hide DecodePid, EncodePid, PidWellFormed;
    if PidWellFormed(p) {
      PidParsesBack(p);
    }
    if DecodePid(NO_PID, EncodePid(p)) == Ok(p) {
      DecodedPidWellFormed(EncodePid(p), p);
    }
  }

  lemma {:induction false} PidParsesBack(p: Pid)
    requires |EncodePid(p)| < TWO63 && PidWellFormed(p)
    ensures DecodePid(NO_PID, EncodePid(p)) == Ok(p)
  {
    hide Scan, FoldPid, EncodeFields, PidFields, AllRaw, AllFit, Unknown;
    PidFieldsFold(p);
    ScanPrinted(PidSchema, PidFields(p), p.unknown);
    var raw := Scan(PidSchema, p.unknown, 0).fields;
    FoldPidAppend(NO_PID, PidFields(p), raw);
    FoldPidUnknown(p.(unknown := []), raw);
    UnknownOfBlock(PidSchema, p.unknown, 0);
    assert [] + p.unknown == p.unknown;
  }

  lemma {:induction false} ApplyPidSize(p: Pid, f: Field)
    ensures |EncodePid(ApplyPid(p, f))| <= |EncodePid(p)| + |EncodeField(f)|
  {
    var q := ApplyPid(p, f);
    PidSizeParts(p);
    PidSizeParts(q);
    if f.LenField? {
      SmallTag(10);
      SmallTag(18);
    }
  }

  lemma {:induction false} PidSizeParts(p: Pid)
    ensures |EncodePid(p)|
         == (if p.address == [] then 0 else |EncodeField(LenField(1, p.address))|)
          + (if p.id == [] then 0 else |EncodeField(LenField(2, p.id))|) + |p.unknown|
  {
    hide EncodeField;
    var a := if p.address == [] then [] else [LenField(1, p.address)];
    var b := if p.id == [] then [] else [LenField(2, p.id)];
    EncodeFieldsAppend(a, b);
    EncodeFieldsCons(LenField(1, p.address), []);
    EncodeFieldsCons(LenField(2, p.id), []);
    assert [LenField(1, p.address)] + [] == [LenField(1, p.address)];
    assert [LenField(2, p.id)] + [] == [LenField(2, p.id)];
  }

  lemma {:induction false} FoldPidSize(p: Pid, fs: seq<Field>)
    ensures |EncodePid(FoldPid(p, fs))| <= |EncodePid(p)| + |EncodeFields(fs)|
    decreases fs
  {
    hide EncodePid, ApplyPid, EncodeField;
    if fs != [] {
      ApplyPidSize(p, fs[0]);
      FoldPidSize(ApplyPid(p, fs[0]), fs[1..]);
    }
  }

  /**
   Re-encoding stability: a PID decoded from any bytes prints to no more bytes than those, and
   what it prints decodes to the same PID, unknown fields included.
   */
  lemma {:induction false} PidStable(s: seq<byte>, p: Pid)
    requires |s| < TWO63 && DecodePid(NO_PID, s) == Ok(p)
    ensures |EncodePid(p)| <= |s|
    ensures DecodePid(NO_PID, EncodePid(p)) == Ok(p)
  {
    hide Scan, FoldPid, EncodeFields, PidWellFormed;
    ScanShrinks(PidSchema, s, 0);
    FoldPidSize(NO_PID, Scan(PidSchema, s, 0).fields);
    EncodeFieldsCons(RawField([]), []);
    DecodedPidWellFormed(s, p);
    PidRoundTrip(p);
  }

  // ---------------------------------------------------------------- Message

  datatype Message = Message(
    data: seq<byte>,
    targetIndex: int32,
    senderIndex: int32,
    typeNameIndex: int32,
    priority: bool,
    unknown: seq<byte>)

  const NO_MESSAGE := Message([], 0, 0, 0, false, [])

  function IndexField(num: nat, v: int32): seq<Field> {
    if v == 0 then [] else [VarintField(num, Int32ToUint64(v))]
  }

  function MessageFields(m: Message): seq<Field> {
    (if m.data == [] then [] else [LenField(1, m.data)])
    + (IndexField(2, m.targetIndex)
       + (IndexField(3, m.senderIndex)
          + (IndexField(4, m.typeNameIndex)
             + (if m.priority then [VarintField(5, 1)] else []))))
  }

  function EncodeMessage(m: Message): seq<byte> {
    EncodeFields(MessageFields(m)) + m.unknown
  }

  function ApplyMessage(m: Message, f: Field): Message {
    match f
    case LenField(_, b) => m.(data := b)
    case RawField(b) => m.(unknown := m.unknown + b)
    case VarintField(num, v) =>
      if num == 2 then m.(targetIndex := ToInt32(v))
      else if num == 3 then m.(senderIndex := ToInt32(v))
      else if num == 4 then m.(typeNameIndex := ToInt32(v))
      else m.(priority := v != 0)
  }

  function FoldMessage(m: Message, fs: seq<Field>): Message
    decreases fs
  {
    if fs == [] then m else FoldMessage(ApplyMessage(m, fs[0]), fs[1..])
  }

  /** UnmarshalVT into an existing Message. */
  function DecodeMessage(m: Message, s: seq<byte>): Result<Message>
    requires |s| < TWO63
  {
    var scanned := Scan(MessageSchema, s, 0);
    if scanned.err.Some? then Err(scanned.err.value) else Ok(FoldMessage(m, scanned.fields))
  }

  predicate MessageWellFormed(m: Message) {
    IsUnknownBlock(MessageSchema, m.unknown)
  }

  lemma {:induction false} FoldMessageUnknown(m: Message, fs: seq<Field>)
    ensures FoldMessage(m, fs).unknown == m.unknown + Unknown(fs)
    ensures AllRaw(fs) ==> FoldMessage(m, fs) == m.(unknown := m.unknown + Unknown(fs))
    decreases fs
  {
    if fs != [] {
      FoldMessageUnknown(ApplyMessage(m, fs[0]), fs[1..]);
      var head := if fs[0].RawField? then fs[0].bytes else [];
      ConcatAssoc(m.unknown, head, Unknown(fs[1..]));
    }
  }

  lemma {:induction false} FoldMessageAppend(m: Message, a: seq<Field>, b: seq<Field>)
    ensures FoldMessage(m, a + b) == FoldMessage(FoldMessage(m, a), b)
    decreases a
  {
    if a == [] {
      assert a + b == b;
    } else {
      assert (a + b)[1..] == a[1..] + b;
      FoldMessageAppend(ApplyMessage(m, a[0]), a[1..], b);
    }
  }

  lemma {:induction false} MessageFieldsFit(m: Message)
    ensures AllFit(MessageSchema, MessageFields(m))
  {
    var a := if m.data == [] then [] else [LenField(1, m.data)];
    var b, c, d := IndexField(2, m.targetIndex), IndexField(3, m.senderIndex), IndexField(4, m.typeNameIndex);
    var e := if m.priority then [VarintField(5, 1)] else [];
    AllFitAppend(MessageSchema, d, e);
    AllFitAppend(MessageSchema, c, d + e);
    AllFitAppend(MessageSchema, b, c + (d + e));
    AllFitAppend(MessageSchema, a, b + (c + (d + e)));
  }

  /** One printed index, folded: it is set, if it was zero before. */
  lemma {:induction false} IndexFold(m: Message, num: nat, v: int32)
    ensures num == 2 && m.targetIndex == 0 ==> FoldMessage(m, IndexField(2, v)) == m.(targetIndex := v)
    ensures num == 3 && m.senderIndex == 0 ==> FoldMessage(m, IndexField(3, v)) == m.(senderIndex := v)
    ensures num == 4 && m.typeNameIndex == 0 ==> FoldMessage(m, IndexField(4, v)) == m.(typeNameIndex := v)
  {
    hide ToInt32, Int32ToUint64;
    Int32ThroughUint64(v);
  }

  lemma {:induction false} MessageFieldsFold(m: Message)
    ensures AllFit(MessageSchema, MessageFields(m))
    ensures FoldMessage(NO_MESSAGE, MessageFields(m)) == m.(unknown := [])
  {
    hide AllFit, IndexField, ToInt32;
    MessageFieldsFit(m);
    var a := if m.data == [] then [] else [LenField(1, m.data)];
    var b, c, d := IndexField(2, m.targetIndex), IndexField(3, m.senderIndex), IndexField(4, m.typeNameIndex);
    var e := if m.priority then [VarintField(5, 1)] else [];
    var m1 := NO_MESSAGE.(data := m.data);
    var m2 := m1.(targetIndex := m.targetIndex);
    var m3 := m2.(senderIndex := m.senderIndex);
    var m4 := m3.(typeNameIndex := m.typeNameIndex);
    FoldMessageAppend(NO_MESSAGE, a, b + (c + (d + e)));
    FoldMessageAppend(m1, b, c + (d + e));
    FoldMessageAppend(m2, c, d + e);
    FoldMessageAppend(m3, d, e);
    assert FoldMessage(NO_MESSAGE, a) == m1;
    IndexFold(m1, 2, m.targetIndex);
    IndexFold(m2, 3, m.senderIndex);
    IndexFold(m3, 4, m.typeNameIndex);
    assert FoldMessage(m4, e) == m.(unknown := []);
  }

  lemma {:induction false} DecodedMessageWellFormed(s: seq<byte>, m: Message)
    requires |s| < TWO63 && DecodeMessage(NO_MESSAGE, s) == Ok(m)
    ensures MessageWellFormed(m)
  {
    hide Scan, Unknown, FoldMessage, IsUnknownBlock;
    var fields := Scan(MessageSchema, s, 0).fields;
    FoldMessageUnknown(NO_MESSAGE, fields);
    UnknownIsBlock(MessageSchema, s, 0);
    assert m.unknown == [] + Unknown(fields) == Unknown(fields);
  }

  /** Printing and parsing a Message gives it back, negative indices included, exactly when it is well formed. */
  lemma {:induction false} MessageRoundTrip(m: Message)
    requires |EncodeMessage(m)| < TWO63
    ensures DecodeMessage(NO_MESSAGE, EncodeMessage(m)) == Ok(m) <==> MessageWellFormed(m)
  {
    hide DecodeMessage, EncodeMessage, MessageWellFormed;
    if MessageWellFormed(m) {
      MessageParsesBack(m);
    }
    if DecodeMessage(NO_MESSAGE, EncodeMessage(m)) == Ok(m) {
      DecodedMessageWellFormed(EncodeMessage(m), m);
    }
  }

  lemma {:induction false} MessageParsesBack(m: Message)
    requires |EncodeMessage(m)| < TWO63 && MessageWellFormed(m)
    ensures DecodeMessage(NO_MESSAGE, EncodeMessage(m)) == Ok(m)
  {
    hide Scan, FoldMessage, EncodeFields, MessageFields, AllRaw, AllFit, Unknown;
    MessageFieldsFold(m);
    ScanPrinted(MessageSchema, MessageFields(m), m.unknown);
    var raw := Scan(MessageSchema, m.unknown, 0).fields;
    FoldMessageAppend(NO_MESSAGE, MessageFields(m), raw);
    FoldMessageUnknown(m.(unknown := []), raw);
    UnknownOfBlock(MessageSchema, m.unknown, 0);
    assert [] + m.unknown == m.unknown;
  }

  // ---------------------------------------------------------------- Envelope

  /** A batch on the wire. A message slot that was never filled is nil and prints as an empty message. */
  datatype Envelope = Envelope(
    typeNames: seq<seq<byte>>,
    targets: seq<Pid>,
    senders: seq<Pid>,
    messages: seq<Option<Message>>,
    unknown: seq<byte>)

  const NO_ENVELOPE := Envelope([], [], [], [], [])

  /** One length-delimited field per element of a repeated field. */
  function Repeated(num: nat, contents: seq<seq<byte>>): seq<Field> {
    if contents == [] then [] else [LenField(num, contents[0])] + Repeated(num, contents[1..])
  }

  function EncodePids(pids: seq<Pid>): (r: seq<seq<byte>>)
    ensures |r| == |pids| && forall i | 0 <= i < |pids| :: r[i] == EncodePid(pids[i])
  {
    if pids == [] then [] else [EncodePid(pids[0])] + EncodePids(pids[1..])
  }

  function EncodeSlot(m: Option<Message>): seq<byte> {
    if m.None? then [] else EncodeMessage(m.value)
  }

  function EncodeSlots(ms: seq<Option<Message>>): (r: seq<seq<byte>>)
    ensures |r| == |ms| && forall i | 0 <= i < |ms| :: r[i] == EncodeSlot(ms[i])
  {
    if ms == [] then [] else [EncodeSlot(ms[0])] + EncodeSlots(ms[1..])
  }

  function EnvelopeFields(e: Envelope): seq<Field> {
    Repeated(1, e.typeNames)
    + (Repeated(2, EncodePids(e.targets)) + (Repeated(3, EncodePids(e.senders)) + Repeated(4, EncodeSlots(e.messages))))
  }

  function EncodeEnvelope(e: Envelope): seq<byte> {
    EncodeFields(EnvelopeFields(e)) + e.unknown
  }

  function ApplyEnvelope(e: Envelope, f: Field): Result<Envelope> {
    match f
    case LenField(num, b) =>
      if |b| >= TWO63 then Err(InvalidLength) // no Go slice is this long
      else if num == 1 then Ok(e.(typeNames := e.typeNames + [b]))
      else if num == 2 then
        var p :- DecodePid(NO_PID, b);
        Ok(e.(targets := e.targets + [p]))
      else if num == 3 then
        var p :- DecodePid(NO_PID, b);
        Ok(e.(senders := e.senders + [p]))
      else
        var m :- DecodeMessage(NO_MESSAGE, b);
        Ok(e.(messages := e.messages + [Some(m)]))
    case RawField(b) => Ok(e.(unknown := e.unknown + b))
    case VarintField(_, _) => Ok(e)
  }

  function FoldEnvelope(e: Envelope, fs: seq<Field>): Result<Envelope>
    decreases fs
  {
    if fs == [] then Ok(e)
    else
      var next :- ApplyEnvelope(e, fs[0]);
      FoldEnvelope(next, fs[1..])
  }

  /** UnmarshalVT into an existing Envelope: the error of a nested message comes before later ones. */
  function DecodeEnvelope(e: Envelope, s: seq<byte>): Result<Envelope>
    requires |s| < TWO63
  {
    var scanned := Scan(EnvelopeSchema, s, 0);
    var result :- FoldEnvelope(e, scanned.fields);
    if scanned.err.Some? then Err(scanned.err.value) else Ok(result)
  }

  predicate PidsWellFormed(ps: seq<Pid>) {
    forall i | 0 <= i < |ps| :: PidWellFormed(ps[i])
  }

  predicate SlotsWellFormed(ms: seq<Option<Message>>) {
    forall i | 0 <= i < |ms| :: ms[i].Some? ==> MessageWellFormed(ms[i].value)
  }

  predicate EnvelopeWellFormed(e: Envelope) {
    && PidsWellFormed(e.targets)
    && PidsWellFormed(e.senders)
    && SlotsWellFormed(e.messages)
    && IsUnknownBlock(EnvelopeSchema, e.unknown)
  }

  /** A slot after the wire: nil has become the zero message. */
  function FilledSlot(m: Option<Message>): Message {
    if m.None? then NO_MESSAGE else m.value
  }

  function FilledSlots(ms: seq<Option<Message>>): (r: seq<Option<Message>>)
    ensures |r| == |ms| && forall i | 0 <= i < |ms| :: r[i] == Some(FilledSlot(ms[i]))
  {
    if ms == [] then [] else [Some(FilledSlot(ms[0]))] + FilledSlots(ms[1..])
  }

  function Filled(e: Envelope): Envelope {
    e.(messages := FilledSlots(e.messages))
  }

  lemma {:induction false} FoldEnvelopeAppend(e: Envelope, a: seq<Field>, b: seq<Field>, mid: Envelope)
    requires FoldEnvelope(e, a) == Ok(mid)
    ensures FoldEnvelope(e, a + b) == FoldEnvelope(mid, b)
    decreases a
  {
    hide ApplyEnvelope;
    if a == [] {
      assert a + b == b;
    } else {
      assert (a + b)[1..] == a[1..] + b;
      FoldEnvelopeAppend(ApplyEnvelope(e, a[0]).value, a[1..], b, mid);
    }
  }

  lemma {:induction false} FoldEnvelopeRaw(e: Envelope, fs: seq<Field>)
    requires AllRaw(fs)
    ensures FoldEnvelope(e, fs) == Ok(e.(unknown := e.unknown + Unknown(fs)))
    decreases fs
  {
    if fs != [] {
      var next := e.(unknown := e.unknown + fs[0].bytes);
      assert ApplyEnvelope(e, fs[0]) == Ok(next);
      FoldEnvelopeRaw(next, fs[1..]);
      assert FoldEnvelope(e, fs) == FoldEnvelope(next, fs[1..]);
      ConcatAssoc(e.unknown, fs[0].bytes, Unknown(fs[1..]));
    } else {
      assert e.unknown + Unknown(fs) == e.unknown;
    }
  }

  // Each repeated field, printed and folded, is appended to what is there.

  lemma {:induction false} FoldNames(e: Envelope, names: seq<seq<byte>>)
    requires |EncodeFields(Repeated(1, names))| < TWO63
    ensures AllFit(EnvelopeSchema, Repeated(1, names))
    ensures FoldEnvelope(e, Repeated(1, names)) == Ok(e.(typeNames := e.typeNames + names))
    decreases names
  {
    hide DecodePid, DecodeMessage, EncodeField;
    if names != [] {
      var fs := Repeated(1, names);
      assert fs[1..] == Repeated(1, names[1..]);
      var next := e.(typeNames := e.typeNames + [names[0]]);
      NameFits(names[0], EncodeFields(fs[1..]));
      assert ApplyEnvelope(e, fs[0]) == Ok(next);
      FoldNames(next, names[1..]);
      assert FoldEnvelope(e, fs) == FoldEnvelope(next, fs[1..]);
      ConcatAssoc(e.typeNames, [names[0]], names[1..]);
      assert [names[0]] + names[1..] == names;
    } else {
      assert e.typeNames + names == e.typeNames;
    }
  }

  lemma {:induction false} NameFits(name: seq<byte>, rest: seq<byte>)
    ensures |name| <= |EncodeField(LenField(1, name)) + rest|
  {
  }

  lemma {:induction false} FoldTargets(e: Envelope, pids: seq<Pid>)
    requires |EncodeFields(Repeated(2, EncodePids(pids)))| < TWO63 && PidsWellFormed(pids)
    ensures AllFit(EnvelopeSchema, Repeated(2, EncodePids(pids)))
    ensures FoldEnvelope(e, Repeated(2, EncodePids(pids))) == Ok(e.(targets := e.targets + pids))
    decreases pids
  {
    hide DecodePid, EncodePid, PidWellFormed;
    if pids != [] {
      var fs := Repeated(2, EncodePids(pids));
      assert EncodePids(pids)[1..] == EncodePids(pids[1..]) && fs[1..] == Repeated(2, EncodePids(pids[1..]));
      PidRoundTrip(pids[0]);
      var next := e.(targets := e.targets + [pids[0]]);
      assert ApplyEnvelope(e, fs[0]) == Ok(next);
      FoldTargets(next, pids[1..]);
      assert FoldEnvelope(e, fs) == FoldEnvelope(next, fs[1..]);
      ConcatAssoc(e.targets, [pids[0]], pids[1..]);
      assert [pids[0]] + pids[1..] == pids;
    } else {
      assert e.targets + pids == e.targets;
    }
  }

  lemma {:induction false} FoldSenders(e: Envelope, pids: seq<Pid>)
    requires |EncodeFields(Repeated(3, EncodePids(pids)))| < TWO63 && PidsWellFormed(pids)
    ensures AllFit(EnvelopeSchema, Repeated(3, EncodePids(pids)))
    ensures FoldEnvelope(e, Repeated(3, EncodePids(pids))) == Ok(e.(senders := e.senders + pids))
    decreases pids
  {
    hide DecodePid, EncodePid, PidWellFormed;
    if pids != [] {
      var fs := Repeated(3, EncodePids(pids));
      assert EncodePids(pids)[1..] == EncodePids(pids[1..]) && fs[1..] == Repeated(3, EncodePids(pids[1..]));
      PidRoundTrip(pids[0]);
      var next := e.(senders := e.senders + [pids[0]]);
      assert ApplyEnvelope(e, fs[0]) == Ok(next);
      FoldSenders(next, pids[1..]);
      assert FoldEnvelope(e, fs) == FoldEnvelope(next, fs[1..]);
      ConcatAssoc(e.senders, [pids[0]], pids[1..]);
      assert [pids[0]] + pids[1..] == pids;
    } else {
      assert e.senders + pids == e.senders;
    }
  }

  lemma {:induction false} SlotRoundTrip(m: Option<Message>)
    requires |EncodeSlot(m)| < TWO63 && (m.Some? ==> MessageWellFormed(m.value))
    ensures DecodeMessage(NO_MESSAGE, EncodeSlot(m)) == Ok(FilledSlot(m))
  {
    if m.Some? {
      MessageRoundTrip(m.value);
    }
  }

  lemma {:induction false} FoldSlots(e: Envelope, ms: seq<Option<Message>>)
    requires |EncodeFields(Repeated(4, EncodeSlots(ms)))| < TWO63 && SlotsWellFormed(ms)
    ensures AllFit(EnvelopeSchema, Repeated(4, EncodeSlots(ms)))
    ensures FoldEnvelope(e, Repeated(4, EncodeSlots(ms))) == Ok(e.(messages := e.messages + FilledSlots(ms)))
    decreases ms
  {
    hide DecodeMessage, EncodeSlot, MessageWellFormed, FilledSlot;
    if ms != [] {
      var fs := Repeated(4, EncodeSlots(ms));
      assert EncodeSlots(ms)[1..] == EncodeSlots(ms[1..]) && fs[1..] == Repeated(4, EncodeSlots(ms[1..]));
      SlotRoundTrip(ms[0]);
      var head := Some(FilledSlot(ms[0]));
      var next := e.(messages := e.messages + [head]);
      assert ApplyEnvelope(e, fs[0]) == Ok(next);
      FoldSlots(next, ms[1..]);
      assert FoldEnvelope(e, fs) == FoldEnvelope(next, fs[1..]);
      ConcatAssoc(e.messages, [head], FilledSlots(ms[1..]));
    } else {
      assert e.messages + FilledSlots(ms) == e.messages;
    }
  }

  lemma {:induction false} EnvelopeFieldsSize(e: Envelope)
    ensures |EncodeFields(Repeated(1, e.typeNames))| + |EncodeFields(Repeated(2, EncodePids(e.targets)))|
          + |EncodeFields(Repeated(3, EncodePids(e.senders)))| + |EncodeFields(Repeated(4, EncodeSlots(e.messages)))|
         == |EncodeFields(EnvelopeFields(e))|
  {
    var a, b := Repeated(1, e.typeNames), Repeated(2, EncodePids(e.targets));
    var c, d := Repeated(3, EncodePids(e.senders)), Repeated(4, EncodeSlots(e.messages));
    EncodeFieldsAppend(c, d);
    EncodeFieldsAppend(b, c + d);
    EncodeFieldsAppend(a, b + (c + d));
  }

  lemma {:induction false} EnvelopeFieldsFold(e: Envelope)
    requires EnvelopeWellFormed(e) && |EncodeFields(EnvelopeFields(e))| < TWO63
    ensures AllFit(EnvelopeSchema, EnvelopeFields(e))
    ensures FoldEnvelope(NO_ENVELOPE, EnvelopeFields(e)) == Ok(Filled(e).(unknown := []))
  {
    hide FoldEnvelope, AllFit, EncodeFields, Repeated, EncodePids, EncodeSlots, PidWellFormed, MessageWellFormed;
    hide FilledSlot, FilledSlots, IsUnknownBlock;
    var a, b := Repeated(1, e.typeNames), Repeated(2, EncodePids(e.targets));
    var c, d := Repeated(3, EncodePids(e.senders)), Repeated(4, EncodeSlots(e.messages));
    EnvelopeFieldsSize(e);
    var e1 := Envelope(e.typeNames, [], [], [], []);
    var e2 := e1.(targets := e.targets);
    var e3 := e2.(senders := e.senders);
    FoldNames(NO_ENVELOPE, e.typeNames);
    FoldTargets(e1, e.targets);
    FoldSenders(e2, e.senders);
    FoldSlots(e3, e.messages);
    assert [] + e.typeNames == e.typeNames && [] + e.targets == e.targets;
    assert [] + e.senders == e.senders && [] + FilledSlots(e.messages) == FilledSlots(e.messages);
    FoldEnvelopeAppend(NO_ENVELOPE, a, b + (c + d), e1);
    FoldEnvelopeAppend(e1, b, c + d, e2);
    FoldEnvelopeAppend(e2, c, d, e3);
    AllFitAppend(EnvelopeSchema, c, d);
    AllFitAppend(EnvelopeSchema, b, c + d);
    AllFitAppend(EnvelopeSchema, a, b + (c + d));
  }

  /** Decoding only ever adds well-formed parts. */
  lemma {:induction false} FoldEnvelopeParts(e: Envelope, fs: seq<Field>)
    requires FoldEnvelope(e, fs).Ok?
    requires PidsWellFormed(e.targets) && PidsWellFormed(e.senders) && SlotsWellFormed(e.messages)
    ensures var r := FoldEnvelope(e, fs).value;
      && PidsWellFormed(r.targets) && PidsWellFormed(r.senders) && SlotsWellFormed(r.messages)
      && r.unknown == e.unknown + Unknown(fs)
    decreases fs
  {
    if fs != [] {
      var next := ApplyEnvelope(e, fs[0]).value;
      ApplyEnvelopeParts(e, fs[0]);
      FoldEnvelopeParts(next, fs[1..]);
      var head := if fs[0].RawField? then fs[0].bytes else [];
      ConcatAssoc(e.unknown, head, Unknown(fs[1..]));
    }
  }

  lemma {:induction false} ApplyEnvelopeParts(e: Envelope, f: Field)
    requires ApplyEnvelope(e, f).Ok?
    requires PidsWellFormed(e.targets) && PidsWellFormed(e.senders) && SlotsWellFormed(e.messages)
    ensures var r := ApplyEnvelope(e, f).value;
      && PidsWellFormed(r.targets) && PidsWellFormed(r.senders) && SlotsWellFormed(r.messages)
      && r.unknown == e.unknown + (if f.RawField? then f.bytes else [])
  {
    hide DecodePid, DecodeMessage, PidWellFormed, MessageWellFormed;
    if f.LenField? && (f.num == 2 || f.num == 3) {
      DecodedPidWellFormed(f.bytes, DecodePid(NO_PID, f.bytes).value);
    } else if f.LenField? && f.num != 1 {
      DecodedMessageWellFormed(f.bytes, DecodeMessage(NO_MESSAGE, f.bytes).value);
    }
  }

  lemma {:induction false} DecodedEnvelopeWellFormed(s: seq<byte>, e: Envelope)
    requires |s| < TWO63 && DecodeEnvelope(NO_ENVELOPE, s) == Ok(e)
    ensures EnvelopeWellFormed(e)
  {
    hide Scan, Unknown, FoldEnvelope, IsUnknownBlock, PidWellFormed, MessageWellFormed;
    var fields := Scan(EnvelopeSchema, s, 0).fields;
    FoldEnvelopeParts(NO_ENVELOPE, fields);
    UnknownIsBlock(EnvelopeSchema, s, 0);
    assert e.unknown == [] + Unknown(fields) == Unknown(fields);
  }

  lemma {:induction false} EnvelopeParsesBack(e: Envelope)
    requires |EncodeEnvelope(e)| < TWO63 && EnvelopeWellFormed(e)
    ensures DecodeEnvelope(NO_ENVELOPE, EncodeEnvelope(e)) == Ok(Filled(e))
  {
    hide Scan, FoldEnvelope, EncodeFields, EnvelopeFields, AllRaw, AllFit, PidWellFormed, MessageWellFormed;
    var bare := Filled(e).(unknown := []);
    var raw := Scan(EnvelopeSchema, e.unknown, 0).fields;
    EnvelopeFieldsFold(e);
    ScanPrinted(EnvelopeSchema, EnvelopeFields(e), e.unknown);
    FoldEnvelopeAppend(NO_ENVELOPE, EnvelopeFields(e), raw, bare);
    FoldEnvelopeRaw(bare, raw);
    UnknownOfBlock(EnvelopeSchema, e.unknown, 0);
    assert [] + e.unknown == e.unknown;
  }

  lemma {:induction false} FilledWellFormed(e: Envelope)
    requires EnvelopeWellFormed(Filled(e))
    ensures EnvelopeWellFormed(e)
  {
    hide PidWellFormed, MessageWellFormed, IsUnknownBlock;
    assert forall i | 0 <= i < |e.messages| :: Filled(e).messages[i] == Some(FilledSlot(e.messages[i]));
  }

  /** Printing and parsing an Envelope gives it back, nil slots filled, exactly when all its parts are well formed. */
  lemma {:induction false} EnvelopeRoundTrip(e: Envelope)
    requires |EncodeEnvelope(e)| < TWO63
    ensures DecodeEnvelope(NO_ENVELOPE, EncodeEnvelope(e)) == Ok(Filled(e)) <==> EnvelopeWellFormed(e)
  {
    hide DecodeEnvelope, EnvelopeWellFormed, EncodeEnvelope, Filled;
    if EnvelopeWellFormed(e) {
      EnvelopeParsesBack(e);
    }
    if DecodeEnvelope(NO_ENVELOPE, EncodeEnvelope(e)) == Ok(Filled(e)) {
      DecodedEnvelopeWellFormed(EncodeEnvelope(e), Filled(e));
      FilledWellFormed(e);
    }
  }
}
