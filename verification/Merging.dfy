/**
 Decoding into a value that holds something already. A field that is sent replaces a single one and adds to a
 repeated one, so that two encodings, one after the other, decode to the two values merged.
 */
module Merging {
  import opened Machine
  import opened Wire
  import opened Codec

  // ---------------------------------------------------------------- PID

  /** `p` with everything that `x` has set. */
  function MergePid(p: Pid, x: Pid): Pid {
    Pid(if x.address == [] then p.address else x.address, if x.id == [] then p.id else x.id, p.unknown + x.unknown)
  }

  lemma {:induction false} PidFieldsMerge(p: Pid, x: Pid)
    ensures FoldPid(p, PidFields(x)) == MergePid(p, x.(unknown := []))
  {
    var a := if x.address == [] then [] else [LenField(1, x.address)];
    var b := if x.id == [] then [] else [LenField(2, x.id)];
    FoldPidAppend(p, a, b);
  }

  lemma {:induction false} PidMerges(p: Pid, x: Pid)
    requires |EncodePid(x)| < TWO63 && PidWellFormed(x)
    ensures DecodePid(p, EncodePid(x)) == Ok(MergePid(p, x))
  {
    hide Scan, FoldPid, EncodeFields, PidFields, AllRaw, AllFit, Unknown;
    PidFieldsFold(x);
    PidFieldsMerge(p, x);
    ScanPrinted(PidSchema, PidFields(x), x.unknown);
    var raw := Scan(PidSchema, x.unknown, 0).fields;
    FoldPidAppend(p, PidFields(x), raw);
    FoldPidUnknown(MergePid(p, x.(unknown := [])), raw);
    UnknownOfBlock(PidSchema, x.unknown, 0);
    assert p.unknown + [] == p.unknown;
  }

  /** Two accepted inputs, one after the other, decode like the second into the result of the first. */
  lemma {:induction false} PidConcat(p: Pid, a: seq<byte>, b: seq<byte>, q: Pid)
    requires |a| + |b| < TWO63 && DecodePid(p, a) == Ok(q) && DecodePid(q, b).Ok?
    ensures DecodePid(p, a + b) == DecodePid(q, b)
  {
    hide Scan, FoldPid;
    ScanMove(PidSchema, b, 0, |a|);
    ScanAppend(PidSchema, a, 0, b, 0);
    FoldPidAppend(p, Scan(PidSchema, a, 0).fields, Scan(PidSchema, b, 0).fields);
  }

  // ---------------------------------------------------------------- Message

  function MergeIndex(v: int32, x: int32): int32 {
    if x == 0 then v else x
  }

  function MergeMessage(m: Message, x: Message): Message {
    Message(
      if x.data == [] then m.data else x.data,
      MergeIndex(m.targetIndex, x.targetIndex),
      MergeIndex(m.senderIndex, x.senderIndex),
      MergeIndex(m.typeNameIndex, x.typeNameIndex),
      m.priority || x.priority,
      m.unknown + x.unknown)
  }

  lemma {:induction false} IndexMerges(m: Message, v: int32)
    ensures FoldMessage(m, IndexField(2, v)) == m.(targetIndex := MergeIndex(m.targetIndex, v))
    ensures FoldMessage(m, IndexField(3, v)) == m.(senderIndex := MergeIndex(m.senderIndex, v))
    ensures FoldMessage(m, IndexField(4, v)) == m.(typeNameIndex := MergeIndex(m.typeNameIndex, v))
  {
    hide ToInt32, Int32ToUint64;
    Int32ThroughUint64(v);
  }

  lemma {:induction false} MessageFieldsMerge(m: Message, x: Message)
    ensures FoldMessage(m, MessageFields(x)) == MergeMessage(m, x.(unknown := []))
  {
    hide IndexField, MergeIndex;
    var a := if x.data == [] then [] else [LenField(1, x.data)];
    var b, c, d := IndexField(2, x.targetIndex), IndexField(3, x.senderIndex), IndexField(4, x.typeNameIndex);
    var e := if x.priority then [VarintField(5, 1)] else [];
    var m1 := m.(data := if x.data == [] then m.data else x.data);
    var m2 := m1.(targetIndex := MergeIndex(m.targetIndex, x.targetIndex));
    var m3 := m2.(senderIndex := MergeIndex(m.senderIndex, x.senderIndex));
    var m4 := m3.(typeNameIndex := MergeIndex(m.typeNameIndex, x.typeNameIndex));
    FoldMessageAppend(m, a, b + (c + (d + e)));
    FoldMessageAppend(m1, b, c + (d + e));
    FoldMessageAppend(m2, c, d + e);
    FoldMessageAppend(m3, d, e);
    DataMerges(m, x.data);
    IndexMerges(m1, x.targetIndex);
    IndexMerges(m2, x.senderIndex);
    IndexMerges(m3, x.typeNameIndex);
    PriorityMerges(m4, x.priority);
    assert m.unknown + [] == m.unknown;
  }

  lemma {:induction false} DataMerges(m: Message, data: seq<byte>)
    ensures FoldMessage(m, if data == [] then [] else [LenField(1, data)]) == m.(data := if data == [] then m.data else data)
  {
  }

  lemma {:induction false} PriorityMerges(m: Message, priority: bool)
    ensures FoldMessage(m, if priority then [VarintField(5, 1)] else []) == m.(priority := m.priority || priority)
  {
  }

  lemma {:induction false} MessageMerges(m: Message, x: Message)
    requires |EncodeMessage(x)| < TWO63 && MessageWellFormed(x)
    ensures DecodeMessage(m, EncodeMessage(x)) == Ok(MergeMessage(m, x))
  {
    hide Scan, FoldMessage, EncodeFields, MessageFields, AllRaw, AllFit, Unknown, MergeIndex;
    MessageFieldsFit(x);
    MessageFieldsMerge(m, x);
    ScanPrinted(MessageSchema, MessageFields(x), x.unknown);
    var raw := Scan(MessageSchema, x.unknown, 0).fields;
    FoldMessageAppend(m, MessageFields(x), raw);
    FoldMessageUnknown(MergeMessage(m, x.(unknown := [])), raw);
    UnknownOfBlock(MessageSchema, x.unknown, 0);
    assert m.unknown + [] == m.unknown;
  }

  lemma {:induction false} MessageConcat(m: Message, a: seq<byte>, b: seq<byte>, q: Message)
    requires |a| + |b| < TWO63 && DecodeMessage(m, a) == Ok(q) && DecodeMessage(q, b).Ok?
    ensures DecodeMessage(m, a + b) == DecodeMessage(q, b)
  {
    hide Scan, FoldMessage;
    ScanMove(MessageSchema, b, 0, |a|);
    ScanAppend(MessageSchema, a, 0, b, 0);
    FoldMessageAppend(m, Scan(MessageSchema, a, 0).fields, Scan(MessageSchema, b, 0).fields);
  }

  // ---------------------------------------------------------------- Envelope

  function MergeEnvelope(e: Envelope, x: Envelope): Envelope {
    Envelope(
      e.typeNames + x.typeNames, e.targets + x.targets, e.senders + x.senders, e.messages + x.messages,
      e.unknown + x.unknown)
  }

  lemma {:induction false} EnvelopeFieldsMerge(e: Envelope, x: Envelope)
    requires EnvelopeWellFormed(x) && |EncodeFields(EnvelopeFields(x))| < TWO63
    ensures FoldEnvelope(e, EnvelopeFields(x)) == Ok(MergeEnvelope(e, Filled(x).(unknown := [])))
  {
    hide FoldEnvelope, AllFit, EncodeFields, Repeated, EncodePids, EncodeSlots, PidWellFormed, MessageWellFormed;
    hide FilledSlot, FilledSlots, IsUnknownBlock;
    var a, b := Repeated(1, x.typeNames), Repeated(2, EncodePids(x.targets));
    var c, d := Repeated(3, EncodePids(x.senders)), Repeated(4, EncodeSlots(x.messages));
    EnvelopeFieldsSize(x);
    var e1 := e.(typeNames := e.typeNames + x.typeNames);
    var e2 := e1.(targets := e.targets + x.targets);
    var e3 := e2.(senders := e.senders + x.senders);
    FoldNames(e, x.typeNames);
    FoldTargets(e1, x.targets);
    FoldSenders(e2, x.senders);
    FoldSlots(e3, x.messages);
    FoldEnvelopeAppend(e, a, b + (c + d), e1);
    FoldEnvelopeAppend(e1, b, c + d, e2);
    FoldEnvelopeAppend(e2, c, d, e3);
    assert e.unknown + [] == e.unknown;
  }

  lemma {:induction false} EnvelopeMerges(e: Envelope, x: Envelope)
    requires |EncodeEnvelope(x)| < TWO63 && EnvelopeWellFormed(x)
    ensures DecodeEnvelope(e, EncodeEnvelope(x)) == Ok(MergeEnvelope(e, Filled(x)))
  {
    hide Scan, FoldEnvelope, EncodeFields, EnvelopeFields, AllRaw, AllFit, Unknown, PidsWellFormed, SlotsWellFormed, FilledSlots;
    EnvelopeFieldsFold(x);
    EnvelopeFieldsMerge(e, x);
    ScanPrinted(EnvelopeSchema, EnvelopeFields(x), x.unknown);
    var raw := Scan(EnvelopeSchema, x.unknown, 0).fields;
    var mid := MergeEnvelope(e, Filled(x).(unknown := []));
    FoldEnvelopeAppend(e, EnvelopeFields(x), raw, mid);
    FoldEnvelopeRaw(mid, raw);
    UnknownOfBlock(EnvelopeSchema, x.unknown, 0);
    assert e.unknown + [] == e.unknown;
  }

  lemma {:induction false} EnvelopeConcat(e: Envelope, a: seq<byte>, b: seq<byte>, q: Envelope)
    requires |a| + |b| < TWO63 && DecodeEnvelope(e, a) == Ok(q) && DecodeEnvelope(q, b).Ok?
    ensures DecodeEnvelope(e, a + b) == DecodeEnvelope(q, b)
  {
    hide Scan, FoldEnvelope;
    ScanMove(EnvelopeSchema, b, 0, |a|);
    ScanAppend(EnvelopeSchema, a, 0, b, 0);
    FoldEnvelopeAppend(e, Scan(EnvelopeSchema, a, 0).fields, Scan(EnvelopeSchema, b, 0).fields, q);
  }
}
