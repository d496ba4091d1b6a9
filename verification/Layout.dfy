/** The bytes on the wire, tag by tag, as any other implementation of these messages has to write them. */
module Layout {
  import opened Machine
  import opened Wire
  import opened Codec
  import Varint

  /** A length-delimited field. */
  function Delimited(tag: byte, content: seq<byte>): seq<byte> {
    [tag] + Varint.Encode(|content|) + content
  }

  /** One that is left out when it is empty. */
  function Optional(tag: byte, content: seq<byte>): seq<byte> {
    if content == [] then [] else Delimited(tag, content)
  }

  /** An index, left out when it is zero; a negative one takes ten bytes after the tag. */
  function Index(tag: byte, v: int32): seq<byte> {
    if v == 0 then [] else [tag] + Varint.Encode(if v < 0 then v + TWO64 else v)
  }

  function Each(tag: byte, contents: seq<seq<byte>>): seq<byte> {
    if contents == [] then [] else Delimited(tag, contents[0]) + Each(tag, contents[1..])
  }

  lemma {:induction false} LenFieldBytes(num: nat, content: seq<byte>)
    requires 1 <= num <= 15
    ensures EncodeField(LenField(num, content)) == Delimited(num * 8 + 2, content)
    ensures EncodeFields([LenField(num, content)]) == Delimited(num * 8 + 2, content)
  {
    var f := LenField(num, content);
    ConcatAssoc([num * 8 + 2], Varint.Encode(|content|), content);
    assert [f][1..] == [] && EncodeField(f) + [] == EncodeField(f);
  }

  lemma {:induction false} OptionalBytes(num: nat, content: seq<byte>)
    requires 1 <= num <= 15
    ensures EncodeFields(if content == [] then [] else [LenField(num, content)]) == Optional(num * 8 + 2, content)
  {
    LenFieldBytes(num, content);
  }

  lemma {:induction false} IndexBytes(num: nat, v: int32)
    requires 1 <= num <= 15
    ensures EncodeFields(IndexField(num, v)) == Index(num * 8, v)
  {
    if v != 0 {
      var f := VarintField(num, Int32ToUint64(v));
      assert [f][1..] == [] && EncodeField(f) + [] == EncodeField(f);
    }
  }

  lemma {:induction false} EachBytes(num: nat, contents: seq<seq<byte>>)
    requires 1 <= num <= 15
    ensures EncodeFields(Repeated(num, contents)) == Each(num * 8 + 2, contents)
    decreases |contents|
  {
    hide EncodeField, Delimited;
    if contents != [] {
      LenFieldBytes(num, contents[0]);
      EachBytes(num, contents[1..]);
      EncodeFieldsCons(LenField(num, contents[0]), Repeated(num, contents[1..]));
    }
  }

  lemma {:induction false} PidLayout(p: Pid)
    ensures EncodePid(p) == Optional(0x0a, p.address) + Optional(0x12, p.id) + p.unknown
  {
    hide EncodeFields, Optional;
    OptionalBytes(1, p.address);
    OptionalBytes(2, p.id);
    EncodeFieldsAppend(if p.address == [] then [] else [LenField(1, p.address)], if p.id == [] then [] else [LenField(2, p.id)]);
  }

  /** A PID as it usually is: two strings of up to 127 bytes. */
  lemma {:induction false} ShortPid(p: Pid)
    requires 1 <= |p.address| < 128 && 1 <= |p.id| < 128
    ensures EncodePid(p) == [0x0a, |p.address|] + p.address + ([0x12, |p.id|] + p.id) + p.unknown
  {
    hide EncodePid;
    PidLayout(p);
    assert Varint.Encode(|p.address|) == [|p.address|] && Varint.Encode(|p.id|) == [|p.id|];
  }

  lemma {:induction false} MessageLayout(m: Message)
    ensures EncodeMessage(m)
         == Optional(0x0a, m.data)
          + (Index(0x10, m.targetIndex) + (Index(0x18, m.senderIndex) + (Index(0x20, m.typeNameIndex)
          + (if m.priority then [0x28, 1] else []))))
          + m.unknown
  {
    hide EncodeFields, Optional, Index, IndexField;
    var b, c, d := IndexField(2, m.targetIndex), IndexField(3, m.senderIndex), IndexField(4, m.typeNameIndex);
    var e := if m.priority then [VarintField(5, 1)] else [];
    OptionalBytes(1, m.data);
    IndexBytes(2, m.targetIndex);
    IndexBytes(3, m.senderIndex);
    IndexBytes(4, m.typeNameIndex);
    PriorityBytes(m.priority);
    EncodeFieldsAppend(d, e);
    EncodeFieldsAppend(c, d + e);
    EncodeFieldsAppend(b, c + (d + e));
    EncodeFieldsAppend(if m.data == [] then [] else [LenField(1, m.data)], b + (c + (d + e)));
  }

  lemma {:induction false} PriorityBytes(priority: bool)
    ensures EncodeFields(if priority then [VarintField(5, 1)] else []) == if priority then [0x28, 1] else []
  {
    assert [VarintField(5, 1)][1..] == [];
    assert Varint.Encode(40) == [40] && Varint.Encode(1) == [1];
  }

  lemma {:induction false} EnvelopeLayout(e: Envelope)
    ensures EncodeEnvelope(e)
         == Each(0x0a, e.typeNames)
          + (Each(0x12, EncodePids(e.targets)) + (Each(0x1a, EncodePids(e.senders)) + Each(0x22, EncodeSlots(e.messages))))
          + e.unknown
  {
    hide EncodeFields, Each, Repeated, EncodePids, EncodeSlots;
    var (b, c, d) := (Repeated(2, EncodePids(e.targets)), Repeated(3, EncodePids(e.senders)), Repeated(4, EncodeSlots(e.messages)));
    EachBytes(1, e.typeNames);
    EachBytes(2, EncodePids(e.targets));
    EachBytes(3, EncodePids(e.senders));
    EachBytes(4, EncodeSlots(e.messages));
    EncodeFieldsAppend(c, d);
    EncodeFieldsAppend(b, c + d);
    EncodeFieldsAppend(Repeated(1, e.typeNames), b + (c + d));
  }
}
