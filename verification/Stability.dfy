/**
 Re-encoding what was decoded. A PID never grows. A Message can, because a five-byte index that
 truncates to a negative int32 is written back as ten bytes; this is bounded, and so is an Envelope.
 */
module Stability {
  import opened Machine
  import opened Wire
  import opened Codec
  import Marshal
  import Varint

  // ---------------------------------------------------------------- lengths of varints

  lemma {:induction false} EncodeMonotone(a: nat, b: nat)
    requires a <= b
    ensures |Varint.Encode(a)| <= |Varint.Encode(b)|
    decreases b
  {
    if a >= 128 {
      EncodeMonotone(a / 128, b / 128);
    }
  }

  lemma {:induction false} EncodeLonger(v: nat, k: nat)
    requires v >= Varint.Pow128(k)
    ensures |Varint.Encode(v)| > k
    decreases k
  {
    if k != 0 {
      assert v >= 128 * Varint.Pow128(k - 1);
      AtLeastQuotient(v, Varint.Pow128(k - 1));
      Pow128Positive(k - 1);
      EncodeLonger(v / 128, k - 1);
    }
  }

  lemma {:induction false} AtLeastQuotient(v: nat, q: nat)
    requires v >= 128 * q
    ensures v / 128 >= q
  {
  }

  lemma {:induction false} Pow128Positive(k: nat)
    ensures Varint.Pow128(k) >= 1
  {
    if k != 0 {
      Pow128Positive(k - 1);
    }
  }

  lemma {:induction false} EncodeShorter(v: nat, k: nat)
    requires v < Varint.Pow128(k) && k >= 1
    ensures |Varint.Encode(v)| <= k
    decreases k
  {
    if v >= 128 {
      EncodeShorter(v / 128, k - 1);
    }
  }

  /** A word whose low half is negative takes at least five digits; a negative int32 is written with ten. */
  lemma {:induction false} NegativeLengths(v: uint64)
    requires ToInt32(v) < 0
    ensures |Varint.Encode(v)| >= 5 && |Varint.Encode(Int32ToUint64(ToInt32(v)))| == 10
  {
    hide ToInt32;
    LowHalf(v);
    var w := Int32ToUint64(ToInt32(v));
    assert Varint.Pow128(4) == 0x1000_0000;
    assert Varint.Pow128(9) == 0x8000_0000_0000_0000;
    EncodeLonger(v, 4);
    EncodeLonger(w, 9);
    assert Varint.Pow128(10) == 128 * Varint.Pow128(9);
    EncodeShorter(w, 10);
  }

  lemma {:induction false} LowHalf(v: uint64)
    ensures ToInt32(v) < 0 ==> v >= TWO31
    ensures ToInt32(v) >= 0 ==> ToInt32(v) <= v
  {
  }

  lemma {:induction false} LongerContent(num: nat, a: seq<byte>, b: seq<byte>)
    requires |a| <= |b|
    ensures |EncodeField(LenField(num, a))| <= |EncodeField(LenField(num, b))|
  {
    EncodeMonotone(|a|, |b|);
  }

  lemma {:induction false} SmallField(num: nat, content: seq<byte>)
    requires 1 <= num < 16 && |content| < 128
    ensures |EncodeField(LenField(num, content))| == |content| + 2
  {
    SmallTag(num * 8 + 2);
    SmallTag(|content|);
  }

  // ---------------------------------------------------------------- Message

  /** What an index costs if a negative one is counted with five digits. */
  function IndexCost(v: int32): nat {
    if v == 0 then 0 else if v < 0 then 6 else 1 + |Varint.Encode(v)|
  }

  function Negative(v: int32): nat {
    if v < 0 then 1 else 0
  }

  function Negatives(m: Message): nat {
    Negative(m.targetIndex) + Negative(m.senderIndex) + Negative(m.typeNameIndex)
  }

  function DataCost(data: seq<byte>): nat {
    if data == [] then 0 else |EncodeField(LenField(1, data))|
  }

  function Cost(m: Message): nat {
    DataCost(m.data) + IndexCost(m.targetIndex) + IndexCost(m.senderIndex) + IndexCost(m.typeNameIndex)
    + (if m.priority then 2 else 0) + |m.unknown|
  }

  lemma {:induction false} IndexCostIs(num: nat, v: int32)
    requires 1 <= num < 16
    ensures |EncodeFields(IndexField(num, v))| == IndexCost(v) + 5 * Negative(v)
  {
    hide EncodeField, Varint.Encode, ToInt32;
    if v != 0 {
      var f := VarintField(num, Int32ToUint64(v));
      EncodeFieldsCons(f, []);
      assert [f] + [] == [f];
      VarintFieldSize(num, Int32ToUint64(v));
      if v < 0 {
        Int32ThroughUint64(v);
        NegativeLengths(Int32ToUint64(v));
      }
    }
  }

  lemma {:induction false} VarintFieldSize(num: nat, v: uint64)
    requires 1 <= num < 16
    ensures |EncodeField(VarintField(num, v))| == 1 + |Varint.Encode(v)|
  {
    SmallTag(num * 8);
  }

  lemma {:induction false} CostIs(m: Message)
    ensures |EncodeMessage(m)| == Cost(m) + 5 * Negatives(m)
  {
    hide EncodeField, IndexField, IndexCost, Negative;
    IndexCostIs(2, m.targetIndex);
    IndexCostIs(3, m.senderIndex);
    IndexCostIs(4, m.typeNameIndex);
    var a := if m.data == [] then [] else [LenField(1, m.data)];
    var b, c, d := IndexField(2, m.targetIndex), IndexField(3, m.senderIndex), IndexField(4, m.typeNameIndex);
    var e := if m.priority then [VarintField(5, 1)] else [];
    EncodeFieldsAppend(d, e);
    EncodeFieldsAppend(c, d + e);
    EncodeFieldsAppend(b, c + (d + e));
    EncodeFieldsAppend(a, b + (c + (d + e)));
    EncodeFieldsCons(LenField(1, m.data), []);
    EncodeFieldsCons(VarintField(5, 1), []);
    assert [LenField(1, m.data)] + [] == [LenField(1, m.data)] && [VarintField(5, 1)] + [] == [VarintField(5, 1)];
    VarintFieldSize(5, 1);
    SmallTag(1);
  }

  /** An index field costs no more than the field it came from. */
  lemma {:induction false} IndexShrinks(num: nat, v: uint64)
    ensures IndexCost(ToInt32(v)) <= |EncodeField(VarintField(num, v))|
  {
    hide ToInt32;
    LowHalf(v);
    if ToInt32(v) < 0 {
      NegativeLengths(v);
    } else {
      EncodeMonotone(ToInt32(v), v);
    }
  }

  lemma {:induction false} ApplyCost(m: Message, f: Field)
    ensures Cost(ApplyMessage(m, f)) <= Cost(m) + |EncodeField(f)|
  {
    hide ToInt32, IndexCost;
    match f
    case LenField(num, b) => TagsAreEqual(num, b);
    case RawField(b) =>
    case VarintField(num, v) => IndexShrinks(num, v);
  }

  lemma {:induction false} TagsAreEqual(num: nat, b: seq<byte>)
    ensures |EncodeField(LenField(1, b))| <= |EncodeField(LenField(num, b))|
  {
    SmallTag(10);
  }

  lemma {:induction false} FoldCost(m: Message, fs: seq<Field>)
    ensures Cost(FoldMessage(m, fs)) <= Cost(m) + |EncodeFields(fs)|
    decreases |fs|
  {
    hide Cost, ApplyMessage, EncodeField;
    if fs != [] {
      ApplyCost(m, fs[0]);
      FoldCost(ApplyMessage(m, fs[0]), fs[1..]);
    }
  }

  /** A decoded Message prints to at most five bytes more than it was decoded from for each negative index. */
  lemma {:induction false} MessageGrowth(s: seq<byte>, m: Message)
    requires |s| < TWO63 && DecodeMessage(NO_MESSAGE, s) == Ok(m)
    ensures |EncodeMessage(m)| <= |s| + 5 * Negatives(m) <= |s| + 15
  {
    hide Scan, FoldMessage, EncodeFields, EncodeMessage;
    ScanShrinks(MessageSchema, s, 0);
    FoldCost(NO_MESSAGE, Scan(MessageSchema, s, 0).fields);
    CostIs(m);
  }

  /** Re-encoding stability of Message. */
  lemma {:induction false} MessageStable(s: seq<byte>, m: Message)
    requires |s| + 15 < TWO63 && DecodeMessage(NO_MESSAGE, s) == Ok(m)
    ensures |EncodeMessage(m)| < TWO63
    ensures DecodeMessage(NO_MESSAGE, EncodeMessage(m)) == Ok(m)
  {
    hide DecodeMessage, EncodeMessage, MessageWellFormed;
    MessageGrowth(s, m);
    DecodedMessageWellFormed(s, m);
    MessageRoundTrip(m);
  }

  /** The bound is met: six bytes that decode to a Message which prints to eleven. */
  lemma {:induction false} MessageGrows()
    ensures var (s, m) := ([16, 128, 128, 128, 128, 8], NO_MESSAGE.(targetIndex := -TWO31));
      DecodeMessage(NO_MESSAGE, s) == Ok(m) && |EncodeMessage(m)| == 11 == |s| + 5 * Negatives(m)
  {
    hide Scan;
    var (s, m) := ([16, 128, 128, 128, 128, 8], NO_MESSAGE.(targetIndex := -TWO31));
    var f := VarintField(2, TWO31);
    assert Varint.Encode(16) == [16];
    TwoTo31Printed();
    assert EncodeField(f) == s;
    ScanEncodeField(MessageSchema, f, 0);
    assert ToInt32(TWO31) == -TWO31;
    assert FoldMessage(NO_MESSAGE, [f]) == m;
    CostIs(m);
  }

  lemma {:induction false} TwoTo31Printed()
    ensures Varint.Encode(TWO31) == [128, 128, 128, 128, 8]
  {
    assert Varint.Encode(8) == [8];
    assert Varint.Encode(0x400) == [128, 8];
    assert Varint.Encode(0x2_0000) == [128, 128, 8];
    assert Varint.Encode(0x100_0000) == [128, 128, 128, 8];
  }

  // ---------------------------------------------------------------- Envelope

  predicate AllFilled(ms: seq<Option<Message>>) {
    forall i | 0 <= i < |ms| :: ms[i].Some?
  }

  lemma {:induction false} FilledAlready(e: Envelope)
    requires AllFilled(e.messages)
    ensures Filled(e) == e
  {
    assert forall i | 0 <= i < |e.messages| :: FilledSlots(e.messages)[i] == Some(FilledSlot(e.messages[i])) == e.messages[i];
  }

  lemma {:induction false} FoldFills(e: Envelope, fs: seq<Field>)
    requires FoldEnvelope(e, fs).Ok? && AllFilled(e.messages)
    ensures AllFilled(FoldEnvelope(e, fs).value.messages)
    decreases |fs|
  {
    hide DecodePid, DecodeMessage;
    if fs != [] {
      FoldFills(ApplyEnvelope(e, fs[0]).value, fs[1..]);
    }
  }

  lemma {:induction false} RepeatedGrows(num: nat, contents: seq<seq<byte>>, content: seq<byte>)
    ensures |EncodeFields(Repeated(num, contents + [content]))|
         == |EncodeFields(Repeated(num, contents))| + |EncodeField(LenField(num, content))|
  {
    hide EncodeField;
    var all := contents + [content];
    Marshal.RepeatedSplit(num, all, |contents|);
    assert all[..|contents|] == contents && all[|contents|..] == [content];
    assert [content][1..] == [];
    assert Repeated(num, [content]) == [LenField(num, content)] + Repeated(num, []);
    EncodeFieldsCons(LenField(num, content), []);
  }

  /** The length of an Envelope, part by part. */
  lemma {:induction false} EnvelopeSizeIs(e: Envelope)
    ensures |EncodeEnvelope(e)|
         == |EncodeFields(Repeated(1, e.typeNames))| + |EncodeFields(Repeated(2, EncodePids(e.targets)))|
          + |EncodeFields(Repeated(3, EncodePids(e.senders)))| + |EncodeFields(Repeated(4, EncodeSlots(e.messages)))|
          + |e.unknown|
  {
    hide EncodeFields, Repeated, EncodePids, EncodeSlots;
    EnvelopeFieldsSize(e);
  }

  /** A Message re-encoded in its place takes at most sixteen bytes more: fifteen, and a longer length prefix. */
  lemma {:induction false} SlotGrowth(b: seq<byte>, m: Message)
    requires |b| < TWO63 && DecodeMessage(NO_MESSAGE, b) == Ok(m)
    ensures |EncodeField(LenField(4, EncodeMessage(m)))| <= |EncodeField(LenField(4, b))| + 16
  {
    hide DecodeMessage, EncodeMessage, Varint.Encode, Negatives;
    MessageGrowth(b, m);
    OneMoreDigit(|b|, |EncodeMessage(m)|);
  }

  lemma {:induction false} OneMoreDigit(n: nat, k: nat)
    requires k <= n + 15
    ensures |Varint.Encode(k)| <= |Varint.Encode(n)| + 1
  {
    EncodeMonotone(k, n + 15);
    if n + 15 >= 128 {
      if n < 128 {
        assert (n + 15) / 128 == 1;
      } else {
        EncodeMonotone((n + 15) / 128, n);
      }
    }
  }

  lemma {:induction false} ApplyEnvelopeSize(e: Envelope, f: Field)
    requires ApplyEnvelope(e, f).Ok?
    ensures var r := ApplyEnvelope(e, f).value;
      && |EncodeEnvelope(r)| + 16 * |e.messages| <= |EncodeEnvelope(e)| + |EncodeField(f)| + 16 * |r.messages|
      && 2 * |r.messages| <= 2 * |e.messages| + |EncodeField(f)|
  {
    hide EncodeFields, EncodeField, Repeated, EncodePids, EncodeSlots, EncodeEnvelope, DecodePid, DecodeMessage, EncodeMessage;
    var r := ApplyEnvelope(e, f).value;
    EnvelopeSizeIs(e);
    EnvelopeSizeIs(r);
    match f
    case VarintField(_, _) =>
    case RawField(b) => RawSize(b);
    case LenField(num, b) =>
      FieldIsTwoBytes(num, b);
      if num == 1 {
        RepeatedGrows(1, e.typeNames, b);
      } else if num == 2 || num == 3 {
        var p := DecodePid(NO_PID, b).value;
        PidStable(b, p);
        LongerContent(num, EncodePid(p), b);
        if num == 2 {
          PidsGrow(e.targets, p);
          RepeatedGrows(2, EncodePids(e.targets), EncodePid(p));
        } else {
          PidsGrow(e.senders, p);
          RepeatedGrows(3, EncodePids(e.senders), EncodePid(p));
        }
      } else {
        var m := DecodeMessage(NO_MESSAGE, b).value;
        SlotGrowth(b, m);
        SlotsGrow(e.messages, m);
        RepeatedGrows(4, EncodeSlots(e.messages), EncodeMessage(m));
        LowestTag(num, b);
      }
  }

  lemma {:induction false} RawSize(b: seq<byte>)
    ensures |EncodeField(RawField(b))| == |b|
  {
  }

  lemma {:induction false} FieldIsTwoBytes(num: nat, b: seq<byte>)
    ensures |EncodeField(LenField(num, b))| >= 2
  {
  }

  lemma {:induction false} LowestTag(num: nat, b: seq<byte>)
    ensures |EncodeField(LenField(4, b))| <= |EncodeField(LenField(num, b))|
  {
    SmallTag(34);
  }

  lemma {:induction false} PidsGrow(pids: seq<Pid>, p: Pid)
    ensures EncodePids(pids + [p]) == EncodePids(pids) + [EncodePid(p)]
  {
    hide EncodePid;
  }

  lemma {:induction false} SlotsGrow(ms: seq<Option<Message>>, m: Message)
    ensures EncodeSlots(ms + [Some(m)]) == EncodeSlots(ms) + [EncodeMessage(m)]
  {
    hide EncodeMessage;
  }

  lemma {:induction false} FoldEnvelopeSize(e: Envelope, fs: seq<Field>)
    requires FoldEnvelope(e, fs).Ok?
    ensures var r := FoldEnvelope(e, fs).value;
      && |EncodeEnvelope(r)| + 16 * |e.messages| <= |EncodeEnvelope(e)| + |EncodeFields(fs)| + 16 * |r.messages|
      && 2 * |r.messages| <= 2 * |e.messages| + |EncodeFields(fs)|
    decreases |fs|
  {
    hide ApplyEnvelope, EncodeEnvelope, EncodeField;
    if fs != [] {
      ApplyEnvelopeSize(e, fs[0]);
      FoldEnvelopeSize(ApplyEnvelope(e, fs[0]).value, fs[1..]);
    }
  }

  /** A decoded Envelope prints to at most sixteen bytes more for each message, and so to less than ten times its input. */
  lemma {:induction false} EnvelopeGrowth(s: seq<byte>, e: Envelope)
    requires |s| < TWO63 && DecodeEnvelope(NO_ENVELOPE, s) == Ok(e)
    ensures |EncodeEnvelope(e)| <= |s| + 16 * |e.messages| && 2 * |e.messages| <= |s|
  {
    hide Scan, FoldEnvelope, EncodeFields, EncodeEnvelope;
    ScanShrinks(EnvelopeSchema, s, 0);
    FoldEnvelopeSize(NO_ENVELOPE, Scan(EnvelopeSchema, s, 0).fields);
    NothingPrinted();
  }

  lemma {:induction false} NothingPrinted()
    ensures EncodeEnvelope(NO_ENVELOPE) == []
  {
  }

  /** Re-encoding stability of Envelope. */
  lemma {:induction false} EnvelopeStable(s: seq<byte>, e: Envelope)
    requires |s| < TWO63 && DecodeEnvelope(NO_ENVELOPE, s) == Ok(e) && |s| + 16 * |e.messages| < TWO63
    ensures |EncodeEnvelope(e)| < TWO63
    ensures DecodeEnvelope(NO_ENVELOPE, EncodeEnvelope(e)) == Ok(e)
  {
    hide Scan, FoldEnvelope, EncodeEnvelope, EnvelopeWellFormed, Filled;
    EnvelopeGrowth(s, e);
    FoldFills(NO_ENVELOPE, Scan(EnvelopeSchema, s, 0).fields);
    FilledAlready(e);
    DecodedEnvelopeWellFormed(s, e);
    EnvelopeRoundTrip(e);
  }
}
