/**
 The generated marshallers: they fill a buffer of the computed size from its end towards its
 front. A slice dAtA[:end] is the buffer together with its end. Every method says what the whole
 buffer holds afterwards, so nothing outside the printed bytes is touched.
 */
module Marshal {
  import opened Machine
  import opened Wire
  import opened Codec
  import Varint

  /** `b` with the bytes `w` written at index `at`. */
  function Put(b: seq<byte>, at: nat, w: seq<byte>): (r: seq<byte>)
    requires at + |w| <= |b|
    ensures |r| == |b|
  {
    b[..at] + w + b[at + |w|..]
  }

  /** Writing just in front of what was written is writing both at once. */
  lemma {:induction false} PutBefore(b: seq<byte>, at: nat, w: seq<byte>, v: seq<byte>)
    requires at + |w| + |v| <= |b|
    ensures Put(Put(b, at + |w|, v), at, w) == Put(b, at, w + v)
  {
    var c := Put(b, at + |w|, v);
    assert c[..at] == b[..at];
    assert c[at + |w|..] == v + b[at + |w| + |v|..];
  }

  method EncodeVarint(buf: array<byte>, end: nat, v: uint64) returns (base: nat)
    requires |Varint.Encode(v)| <= end <= buf.Length
    modifies buf
    ensures base == end - |Varint.Encode(v)|
    ensures buf[..] == Put(old(buf[..]), base, Varint.Encode(v))
  {
    Varint.SovIsLength(v);
    base := end - Varint.Sov(v);
    var offset, rest := base, v;
    ghost var done: seq<byte> := [];
    while rest >= 128
      invariant base <= offset && offset + |Varint.Encode(rest)| == end
      invariant |done| == offset - base && done + Varint.Encode(rest) == Varint.Encode(v)
      invariant buf[..] == Put(old(buf[..]), base, done)
      decreases rest
    {
      var digit: byte := rest % 128 + 128;
      WriteNext(old(buf[..]), base, done, digit);
      ConcatAssoc(done, [digit], Varint.Encode(rest / 128));
      buf[offset] := digit;
      done := done + [digit];
      rest := rest / 128;
      offset := offset + 1;
    }
    WriteNext(old(buf[..]), base, done, rest);
    buf[offset] := rest;
  }

  lemma {:induction false} WriteNext(b: seq<byte>, at: nat, done: seq<byte>, x: byte)
    requires at + |done| < |b|
    ensures Put(b, at, done)[at + |done| := x] == Put(b, at, done + [x])
  {
  }

  /** copy(dAtA[at:], bytes) */
  method Copy(buf: array<byte>, at: nat, bytes: seq<byte>)
    requires at + |bytes| <= buf.Length
    modifies buf
    ensures buf[..] == Put(old(buf[..]), at, bytes)
  {
    for k := 0 to |bytes|
      invariant buf[..] == Put(old(buf[..]), at, bytes[..k])
    {
      WriteNext(old(buf[..]), at, bytes[..k], bytes[k]);
      buf[at + k] := bytes[k];
      assert bytes[..k] + [bytes[k]] == bytes[..k + 1];
    }
    assert bytes[..|bytes|] == bytes;
  }

  method PutTag(buf: array<byte>, end: nat, tag: byte) returns (i: nat)
    requires 1 <= end <= buf.Length
    modifies buf
    ensures i == end - 1 && buf[..] == Put(old(buf[..]), i, [tag])
  {
    i := end - 1;
    buf[i] := tag;
    assert buf[..] == old(buf[..])[i := tag];
  }

  /** What stands in front of a length-delimited content. */
  function Header(num: nat, size: nat): seq<byte>
    requires 1 <= num < 16
  {
    [num * 8 + 2] + Varint.Encode(size)
  }

  lemma {:induction false} HeaderField(num: nat, content: seq<byte>)
    requires 1 <= num < 16
    ensures Header(num, |content|) + content == EncodeField(LenField(num, content))
  {
    assert Varint.Encode(num * 8 + 2) == [num * 8 + 2];
    ConcatAssoc([num * 8 + 2], Varint.Encode(|content|), content);
  }

  /** The length prefix and the tag, in front of a content that is already in place. */
  method PutHeader(buf: array<byte>, end: nat, num: nat, size: nat) returns (i: nat)
    requires 1 <= num < 16 && size < TWO64 && |Header(num, size)| <= end <= buf.Length
    modifies buf
    ensures i == end - |Header(num, size)|
    ensures buf[..] == Put(old(buf[..]), i, Header(num, size))
  {
    i := EncodeVarint(buf, end, size);
    i := PutTag(buf, i, num * 8 + 2);
    PutBefore(old(buf[..]), i, [num * 8 + 2], Varint.Encode(size));
  }

  /** A whole length-delimited field in front of `end`. */
  method PutBytes(buf: array<byte>, end: nat, num: nat, content: seq<byte>) returns (i: nat)
    requires 1 <= num < 16 && |content| < TWO64 && |EncodeField(LenField(num, content))| <= end <= buf.Length
    modifies buf
    ensures i == end - |EncodeField(LenField(num, content))|
    ensures buf[..] == Put(old(buf[..]), i, EncodeField(LenField(num, content)))
  {
    hide Put, Header, EncodeField;
    HeaderField(num, content);
    Copy(buf, end - |content|, content);
    i := PutHeader(buf, end - |content|, num, |content|);
    PutBefore(old(buf[..]), i, Header(num, |content|), content);
  }

  /** A length-delimited field that is left out when it is empty. */
  method PutOptionalBytes(buf: array<byte>, end: nat, num: nat, content: seq<byte>) returns (i: nat)
    requires 1 <= num < 16 && |content| < TWO64
    requires |EncodeFields(if content == [] then [] else [LenField(num, content)])| <= end <= buf.Length
    modifies buf
    ensures i == end - |EncodeFields(if content == [] then [] else [LenField(num, content)])|
    ensures buf[..] == Put(old(buf[..]), i, EncodeFields(if content == [] then [] else [LenField(num, content)]))
  {
    if |content| > 0 {
      SingleField(LenField(num, content));
      i := PutBytes(buf, end, num, content);
    } else {
      i := end;
    }
  }

  lemma {:induction false} SingleField(f: Field)
    ensures EncodeFields([f]) == EncodeField(f)
  {
    assert EncodeField(f) + [] == EncodeField(f);
  }

  /** A whole varint field in front of `end`. */
  method PutVarint(buf: array<byte>, end: nat, num: nat, v: uint64) returns (i: nat)
    requires 1 <= num < 16 && |EncodeField(VarintField(num, v))| <= end <= buf.Length
    modifies buf
    ensures i == end - |EncodeField(VarintField(num, v))|
    ensures buf[..] == Put(old(buf[..]), i, EncodeField(VarintField(num, v)))
  {
    assert Varint.Encode(num * 8 + 0) == [num * 8];
    i := EncodeVarint(buf, end, v);
    i := PutTag(buf, i, num * 8);
    PutBefore(old(buf[..]), i, [num * 8], Varint.Encode(v));
  }

  /** An int32 field, converted to uint64 and left out when it is zero. */
  method PutIndex(buf: array<byte>, end: nat, num: nat, v: int32) returns (i: nat)
    requires 1 <= num < 16 && |EncodeFields(IndexField(num, v))| <= end <= buf.Length
    modifies buf
    ensures i == end - |EncodeFields(IndexField(num, v))|
    ensures buf[..] == Put(old(buf[..]), i, EncodeFields(IndexField(num, v)))
  {
    if v != 0 {
      SingleField(VarintField(num, Int32ToUint64(v)));
      i := PutVarint(buf, end, num, Int32ToUint64(v));
    } else {
      i := end;
    }
  }

  // ---------------------------------------------------------------- PID

  /** SizeVT of a PID. */
  function PidSize(p: Pid): nat
    requires |p.address| < TWO64 && |p.id| < TWO64
  {
    (if |p.address| > 0 then 1 + |p.address| + Varint.Sov(|p.address|) else 0)
    + (if |p.id| > 0 then 1 + |p.id| + Varint.Sov(|p.id|) else 0)
    + |p.unknown|
  }

  lemma {:induction false} LenFieldSize(num: nat, content: seq<byte>)
    requires 1 <= num < 16 && |content| < TWO64
    ensures |EncodeFields([LenField(num, content)])| == 1 + |content| + Varint.Sov(|content|)
  {
    SingleField(LenField(num, content));
    HeaderField(num, content);
    Varint.SovIsLength(|content|);
  }

  /** SizeVT is exactly the number of bytes MarshalVT prints. */
  lemma {:induction false} PidSizeExact(p: Pid)
    requires |p.address| < TWO64 && |p.id| < TWO64
    ensures PidSize(p) == |EncodePid(p)|
  {
    hide EncodeField, Varint.Sov;
    LenFieldSize(1, p.address);
    LenFieldSize(2, p.id);
    var a := if p.address == [] then [] else [LenField(1, p.address)];
    var b := if p.id == [] then [] else [LenField(2, p.id)];
    EncodeFieldsAppend(a, b);
  }

  /** MarshalToSizedBufferVT of a PID into the slice buf[..end]. */
  method MarshalPid(p: Pid, buf: array<byte>, end: nat) returns (n: nat)
    requires |EncodePid(p)| <= end <= buf.Length < TWO63
    modifies buf
    ensures n == |EncodePid(p)|
    ensures buf[..] == Put(old(buf[..]), end - n, EncodePid(p))
  {
    hide Put, EncodeFields;
    ghost var b := buf[..];
    ghost var first := if p.address == [] then [] else [LenField(1, p.address)];
    ghost var second := if p.id == [] then [] else [LenField(2, p.id)];
    EncodeFieldsAppend(first, second);
    ConcatAssoc(EncodeFields(first), EncodeFields(second), p.unknown);
    OptionalFieldLength(1, p.address);
    OptionalFieldLength(2, p.id);

    var i := end - |p.unknown|;
    Copy(buf, i, p.unknown);
    i := PutOptionalBytes(buf, i, 2, p.id);
    PutBefore(b, i, EncodeFields(second), p.unknown);
    i := PutOptionalBytes(buf, i, 1, p.address);
    PutBefore(b, i, EncodeFields(first), EncodeFields(second) + p.unknown);
    n := end - i;
  }

  lemma {:induction false} OptionalFieldLength(num: nat, content: seq<byte>)
    requires 1 <= num < 16
    ensures |content| <= |EncodeFields(if content == [] then [] else [LenField(num, content)])|
  {
    SingleField(LenField(num, content));
    HeaderField(num, content);
  }

  // ---------------------------------------------------------------- Message

  function IndexSize(v: int32): nat {
    if v != 0 then 1 + Varint.Sov(Int32ToUint64(v)) else 0
  }

  /** SizeVT of a Message, zero for nil. */
  function SlotSize(slot: Option<Message>): nat
    requires slot.Some? ==> |slot.value.data| < TWO64
  {
    if slot.None? then 0
    else
      var m := slot.value;
      (if |m.data| > 0 then 1 + |m.data| + Varint.Sov(|m.data|) else 0)
      + IndexSize(m.targetIndex) + IndexSize(m.senderIndex) + IndexSize(m.typeNameIndex)
      + (if m.priority then 2 else 0)
      + |m.unknown|
  }

  lemma {:induction false} IndexFieldSize(num: nat, v: int32)
    requires 1 <= num < 16
    ensures |EncodeFields(IndexField(num, v))| == IndexSize(v)
  {
    SingleField(VarintField(num, Int32ToUint64(v)));
    assert Varint.Encode(num * 8 + 0) == [num * 8];
    Varint.SovIsLength(Int32ToUint64(v));
  }

  function PriorityField(m: Message): seq<Field> {
    if m.priority then [VarintField(5, 1)] else []
  }

  function DataField(m: Message): seq<Field> {
    if m.data == [] then [] else [LenField(1, m.data)]
  }

  /** The printed fields of a Message, one after the other. */
  lemma {:induction false} EncodeMessageParts(m: Message)
    ensures EncodeMessage(m)
         == EncodeFields(DataField(m)) + (EncodeFields(IndexField(2, m.targetIndex))
          + (EncodeFields(IndexField(3, m.senderIndex)) + (EncodeFields(IndexField(4, m.typeNameIndex))
          + (EncodeFields(PriorityField(m)) + m.unknown))))
  {
    hide EncodeFields, IndexField;
    var a, e := DataField(m), PriorityField(m);
    var b, c, d := IndexField(2, m.targetIndex), IndexField(3, m.senderIndex), IndexField(4, m.typeNameIndex);
    EncodeFieldsAppend(d, e);
    EncodeFieldsAppend(c, d + e);
    EncodeFieldsAppend(b, c + (d + e));
    EncodeFieldsAppend(a, b + (c + (d + e)));
    ConcatAssoc(EncodeFields(d), EncodeFields(e), m.unknown);
    ConcatAssoc(EncodeFields(c), EncodeFields(d + e), m.unknown);
    ConcatAssoc(EncodeFields(b), EncodeFields(c + (d + e)), m.unknown);
    ConcatAssoc(EncodeFields(a), EncodeFields(b + (c + (d + e))), m.unknown);
  }

  lemma {:induction false} SlotSizeExact(slot: Option<Message>)
    requires slot.Some? ==> |slot.value.data| < TWO64
    ensures SlotSize(slot) == |EncodeSlot(slot)|
  {
    hide EncodeField, IndexField, IndexSize, EncodeMessage, Varint.Sov;
    if slot.Some? {
      var m := slot.value;
      EncodeMessageParts(m);
      LenFieldSize(1, m.data);
      IndexFieldSize(2, m.targetIndex);
      IndexFieldSize(3, m.senderIndex);
      IndexFieldSize(4, m.typeNameIndex);
      PriorityBytes(m);
    }
  }

  lemma {:induction false} PriorityBytes(m: Message)
    ensures EncodeFields(PriorityField(m)) == if m.priority then [0x28, 1] else []
  {
    SingleField(VarintField(5, 1));
    assert Varint.Encode(5 * 8 + 0) == [0x28] && Varint.Encode(1) == [1];
  }

  /** MarshalToSizedBufferVT of a Message, or of nil, into the slice buf[..end]. */
  method MarshalSlot(slot: Option<Message>, buf: array<byte>, end: nat) returns (n: nat)
    requires |EncodeSlot(slot)| <= end <= buf.Length < TWO63
    modifies buf
    ensures n == |EncodeSlot(slot)|
    ensures buf[..] == Put(old(buf[..]), end - n, EncodeSlot(slot))
  {
    hide EncodeFields, IndexField, EncodeMessage;
    if slot.None? {
      return 0;
    }
    var m := slot.value;
    n := MarshalMessage(m, buf, end);
  }

  method MarshalMessage(m: Message, buf: array<byte>, end: nat) returns (n: nat)
    requires |EncodeMessage(m)| <= end <= buf.Length < TWO63
    modifies buf
    ensures n == |EncodeMessage(m)|
    ensures buf[..] == Put(old(buf[..]), end - n, EncodeMessage(m))
  {
    hide Put, EncodeFields, IndexField, EncodeMessage;
    EncodeMessageParts(m);
    PriorityBytes(m);
    OptionalFieldLength(1, m.data);
    ghost var b := buf[..];

    var i := end - |m.unknown|;
    Copy(buf, i, m.unknown);
    ghost var done := m.unknown;
    if m.priority {
      i := PutTag(buf, i, 1);
      i := PutTag(buf, i, 0x28);
      PutBefore(b, i + 1, [1], done);
      PutBefore(b, i, [0x28], [1] + done);
      ConcatAssoc([0x28], [1], done);
    }
    done := EncodeFields(PriorityField(m)) + done;
    assert buf[..] == Put(b, i, done) by {
      assert [] + m.unknown == m.unknown;
      assert [0x28] + [1] == [0x28, 1];
    }
    i := PutIndex(buf, i, 4, m.typeNameIndex);
    PutBefore(b, i, EncodeFields(IndexField(4, m.typeNameIndex)), done);
    done := EncodeFields(IndexField(4, m.typeNameIndex)) + done;
    i := PutIndex(buf, i, 3, m.senderIndex);
    PutBefore(b, i, EncodeFields(IndexField(3, m.senderIndex)), done);
    done := EncodeFields(IndexField(3, m.senderIndex)) + done;
    i := PutIndex(buf, i, 2, m.targetIndex);
    PutBefore(b, i, EncodeFields(IndexField(2, m.targetIndex)), done);
    done := EncodeFields(IndexField(2, m.targetIndex)) + done;
    i := PutOptionalBytes(buf, i, 1, m.data);
    PutBefore(b, i, EncodeFields(DataField(m)), done);
    n := end - i;
  }

  // ---------------------------------------------------------------- Envelope

  /** A repeated field, cut anywhere. */
  lemma {:induction false} RepeatedSplit(num: nat, contents: seq<seq<byte>>, k: nat)
    requires k <= |contents|
    ensures EncodeFields(Repeated(num, contents))
         == EncodeFields(Repeated(num, contents[..k])) + EncodeFields(Repeated(num, contents[k..]))
    decreases k
  {
    hide EncodeField, EncodeFields, Repeated;
    if k == 0 {
      RepeatedEmpty(num, [], 0);
      assert contents[0..] == contents && contents[..0] == [];
      assert [] + EncodeFields(Repeated(num, contents)) == EncodeFields(Repeated(num, contents));
    } else {
      RepeatedFirst(num, contents);
      RepeatedFirst(num, contents[..k]);
      RepeatedSplit(num, contents[1..], k - 1);
      SliceShift(contents, k);
      ConcatAssoc(EncodeField(LenField(num, contents[0])),
                  EncodeFields(Repeated(num, contents[..k][1..])), EncodeFields(Repeated(num, contents[k..])));
    }
  }

  lemma {:induction false} SliceShift<T>(s: seq<T>, k: nat)
    requires 1 <= k <= |s|
    ensures s[..k][1..] == s[1..][..k - 1] && s[1..][k - 1..] == s[k..]
  {
  }

  lemma {:induction false} RepeatedFirst(num: nat, contents: seq<seq<byte>>)
    requires contents != []
    ensures EncodeFields(Repeated(num, contents))
         == EncodeField(LenField(num, contents[0])) + EncodeFields(Repeated(num, contents[1..]))
  {
    var fs := Repeated(num, contents);
    assert fs[0] == LenField(num, contents[0]) && fs[1..] == Repeated(num, contents[1..]);
  }

  /** The printed suffix from `k` on, one element longer, still fits in front of `end`. */
  lemma {:induction false} RepeatedRoom(num: nat, contents: seq<seq<byte>>, k: nat)
    requires k < |contents|
    ensures EncodeFields(Repeated(num, contents[k..]))
         == EncodeField(LenField(num, contents[k])) + EncodeFields(Repeated(num, contents[k + 1..]))
    ensures |EncodeFields(Repeated(num, contents[k..]))| <= |EncodeFields(Repeated(num, contents))|
  {
    hide EncodeField, EncodeFields, Repeated;
    RepeatedSplit(num, contents, k);
    RepeatedFirst(num, contents[k..]);
    assert contents[k..][1..] == contents[k + 1..];
  }

  method PutNames(names: seq<seq<byte>>, buf: array<byte>, end: nat) returns (i: nat)
    requires |EncodeFields(Repeated(1, names))| <= end <= buf.Length < TWO63
    modifies buf
    ensures i == end - |EncodeFields(Repeated(1, names))|
    ensures buf[..] == Put(old(buf[..]), i, EncodeFields(Repeated(1, names)))
  {
    hide EncodeField, EncodeFields, Repeated, Put, Header;
    RepeatedEmpty(1, old(buf[..]), end);
    i := end;
    var k := |names|;
    assert names[k..] == [];
    while k > 0
      invariant 0 <= k <= |names|
      invariant i == end - |EncodeFields(Repeated(1, names[k..]))|
      invariant buf[..] == Put(old(buf[..]), i, EncodeFields(Repeated(1, names[k..])))
    {
      k := k - 1;
      RepeatedRoom(1, names, k);
      ContentFits(1, names[k]);
      i := PutBytes(buf, i, 1, names[k]);
      PutBefore(old(buf[..]), i, EncodeField(LenField(1, names[k])), EncodeFields(Repeated(1, names[k + 1..])));
    }
    assert names[0..] == names;
  }

  lemma {:induction false} RepeatedEmpty(num: nat, b: seq<byte>, end: nat)
    requires end <= |b|
    ensures EncodeFields(Repeated(num, [])) == [] && Put(b, end, []) == b
  {
  }

  lemma {:induction false} ContentFits(num: nat, content: seq<byte>)
    requires 1 <= num < 16
    ensures |Header(num, |content|)| + |content| == |EncodeField(LenField(num, content))|
  {
    HeaderField(num, content);
  }

  method PutPids(num: nat, pids: seq<Pid>, buf: array<byte>, end: nat) returns (i: nat)
    requires 1 <= num < 16 && |EncodeFields(Repeated(num, EncodePids(pids)))| <= end <= buf.Length < TWO63
    modifies buf
    ensures i == end - |EncodeFields(Repeated(num, EncodePids(pids)))|
    ensures buf[..] == Put(old(buf[..]), i, EncodeFields(Repeated(num, EncodePids(pids))))
  {
    hide EncodeField, EncodeFields, Repeated, Put, Header, EncodePid, EncodePids;
    ghost var contents := EncodePids(pids);
    ghost var b := buf[..];
    RepeatedEmpty(num, b, end);
    i := end;
    var k := |pids|;
    assert contents[k..] == [];
    while k > 0
      invariant 0 <= k <= |pids|
      invariant i == end - |EncodeFields(Repeated(num, contents[k..]))|
      invariant buf[..] == Put(b, i, EncodeFields(Repeated(num, contents[k..])))
    {
      k := k - 1;
      RepeatedRoom(num, contents, k);
      ContentFits(num, contents[k]);
      ghost var before, at := buf[..], i;
      var size := MarshalPid(pids[k], buf, i);
      i := PutHeader(buf, i - size, num, size);
      FieldInPlace(before, at, num, contents[k], buf[..]);
      PutBefore(b, i, EncodeField(LenField(num, contents[k])), EncodeFields(Repeated(num, contents[k + 1..])));
    }
    assert contents[0..] == contents;
  }

  /** A content and then its header, written in front of `end`, make the field. */
  lemma {:induction false} FieldInPlace(b: seq<byte>, end: nat, num: nat, content: seq<byte>, after: seq<byte>)
    requires 1 <= num < 16 && |EncodeField(LenField(num, content))| <= end <= |b|
    requires |Header(num, |content|)| + |content| == |EncodeField(LenField(num, content))|
    requires var i := end - |EncodeField(LenField(num, content))|;
      after == Put(Put(b, end - |content|, content), i, Header(num, |content|))
    ensures after == Put(b, end - |EncodeField(LenField(num, content))|, EncodeField(LenField(num, content)))
  {
    hide Put, EncodeField, Header;
    HeaderField(num, content);
    PutBefore(b, end - |EncodeField(LenField(num, content))|, Header(num, |content|), content);
  }

  method PutSlots(ms: seq<Option<Message>>, buf: array<byte>, end: nat) returns (i: nat)
    requires |EncodeFields(Repeated(4, EncodeSlots(ms)))| <= end <= buf.Length < TWO63
    modifies buf
    ensures i == end - |EncodeFields(Repeated(4, EncodeSlots(ms)))|
    ensures buf[..] == Put(old(buf[..]), i, EncodeFields(Repeated(4, EncodeSlots(ms))))
  {
    hide EncodeField, EncodeFields, Repeated, Put, Header, EncodeSlot, EncodeSlots;
    ghost var contents := EncodeSlots(ms);
    ghost var b := buf[..];
    RepeatedEmpty(4, b, end);
    i := end;
    var k := |ms|;
    assert contents[k..] == [];
    while k > 0
      invariant 0 <= k <= |ms|
      invariant i == end - |EncodeFields(Repeated(4, contents[k..]))|
      invariant buf[..] == Put(b, i, EncodeFields(Repeated(4, contents[k..])))
    {
      k := k - 1;
      RepeatedRoom(4, contents, k);
      ContentFits(4, contents[k]);
      ghost var before, at := buf[..], i;
      var size := MarshalSlot(ms[k], buf, i);
      i := PutHeader(buf, i - size, 4, size);
      FieldInPlace(before, at, 4, contents[k], buf[..]);
      PutBefore(b, i, EncodeField(LenField(4, contents[k])), EncodeFields(Repeated(4, contents[k + 1..])));
    }
    assert contents[0..] == contents;
  }

  lemma {:induction false} EncodeEnvelopeParts(e: Envelope)
    ensures EncodeEnvelope(e)
         == EncodeFields(Repeated(1, e.typeNames)) + (EncodeFields(Repeated(2, EncodePids(e.targets)))
          + (EncodeFields(Repeated(3, EncodePids(e.senders)))
          + (EncodeFields(Repeated(4, EncodeSlots(e.messages))) + e.unknown)))
  {
    hide EncodeFields, Repeated, EncodePids, EncodeSlots;
    var a, b := Repeated(1, e.typeNames), Repeated(2, EncodePids(e.targets));
    var c, d := Repeated(3, EncodePids(e.senders)), Repeated(4, EncodeSlots(e.messages));
    EncodeFieldsAppend(c, d);
    EncodeFieldsAppend(b, c + d);
    EncodeFieldsAppend(a, b + (c + d));
    ConcatAssoc(EncodeFields(c), EncodeFields(d), e.unknown);
    ConcatAssoc(EncodeFields(b), EncodeFields(c + d), e.unknown);
    ConcatAssoc(EncodeFields(a), EncodeFields(b + (c + d)), e.unknown);
  }

  /** MarshalToSizedBufferVT of an Envelope into the slice buf[..end]. */
  method MarshalEnvelope(e: Envelope, buf: array<byte>, end: nat) returns (n: nat)
    requires |EncodeEnvelope(e)| <= end <= buf.Length < TWO63
    modifies buf
    ensures n == |EncodeEnvelope(e)|
    ensures buf[..] == Put(old(buf[..]), end - n, EncodeEnvelope(e))
  {
    hide *;
    EncodeEnvelopeParts(e);
    ghost var b := buf[..];
    var i := end - |e.unknown|;
    Copy(buf, i, e.unknown);
    ghost var done := e.unknown;
    i := PutSlots(e.messages, buf, i);
    PutBefore(b, i, EncodeFields(Repeated(4, EncodeSlots(e.messages))), done);
    done := EncodeFields(Repeated(4, EncodeSlots(e.messages))) + done;
    i := PutPids(3, e.senders, buf, i);
    PutBefore(b, i, EncodeFields(Repeated(3, EncodePids(e.senders))), done);
    done := EncodeFields(Repeated(3, EncodePids(e.senders))) + done;
    i := PutPids(2, e.targets, buf, i);
    PutBefore(b, i, EncodeFields(Repeated(2, EncodePids(e.targets))), done);
    done := EncodeFields(Repeated(2, EncodePids(e.targets))) + done;
    i := PutNames(e.typeNames, buf, i);
    PutBefore(b, i, EncodeFields(Repeated(1, e.typeNames)), done);
    n := end - i;
  }

  /** The printed prefix up to `k`, one element longer. */
  lemma {:induction false} RepeatedGrow(num: nat, contents: seq<seq<byte>>, k: nat)
    requires 1 <= num < 16 && k < |contents| && |contents[k]| < TWO64
    ensures |EncodeFields(Repeated(num, contents[..k + 1]))|
         == |EncodeFields(Repeated(num, contents[..k]))| + 1 + |contents[k]| + Varint.Sov(|contents[k]|)
  {
    hide EncodeFields, Varint.Sov;
    var front := contents[..k + 1];
    RepeatedSplit(num, front, k);
    assert front[..k] == contents[..k] && front[k..] == [contents[k]];
    assert Repeated(num, [contents[k]]) == [LenField(num, contents[k])];
    LenFieldSize(num, contents[k]);
  }

  /** SizeVT of an Envelope is exactly the number of bytes its marshaller prints. */
  method EnvelopeSize(e: Envelope) returns (n: nat)
    requires |EncodeEnvelope(e)| < TWO63
    ensures n == |EncodeEnvelope(e)|
  {
    hide EncodeFields, Repeated, EncodePids, EncodeSlots, EncodeEnvelope, PidSize, SlotSize, EncodePid, EncodeSlot, Varint.Sov;
    EncodeEnvelopeParts(e);
    n := 0;
    assert e.typeNames[..0] == [];
    RepeatedEmpty(1, [], 0);
    for k := 0 to |e.typeNames|
      invariant n == |EncodeFields(Repeated(1, e.typeNames[..k]))|
    {
      ElementBound(1, e.typeNames, k);
      RepeatedGrow(1, e.typeNames, k);
      var l := |e.typeNames[k]|;
      n := n + (1 + l + Varint.Sov(l));
    }
    assert e.typeNames[..|e.typeNames|] == e.typeNames;
    n := AddPids(2, e.targets, n);
    n := AddPids(3, e.senders, n);
    ghost var contents := EncodeSlots(e.messages);
    ghost var n0 := n;
    assert contents[..0] == [];
    RepeatedEmpty(4, [], 0);
    for k := 0 to |e.messages|
      invariant n == n0 + |EncodeFields(Repeated(4, contents[..k]))|
    {
      ElementBound(4, contents, k);
      RepeatedGrow(4, contents, k);
      SlotBound(e.messages[k]);
      SlotSizeExact(e.messages[k]);
      var l := SlotSize(e.messages[k]);
      n := n + (1 + l + Varint.Sov(l));
    }
    assert contents[..|e.messages|] == contents;
    n := n + |e.unknown|;
  }

  lemma {:induction false} SlotBound(slot: Option<Message>)
    ensures slot.Some? ==> |slot.value.data| <= |EncodeSlot(slot)|
  {
    hide EncodeFields, EncodeMessage, IndexField;
    if slot.Some? {
      EncodeMessageParts(slot.value);
      OptionalFieldLength(1, slot.value.data);
    }
  }

  lemma {:induction false} PidBound(p: Pid)
    ensures |p.address| <= |EncodePid(p)| && |p.id| <= |EncodePid(p)|
  {
    hide EncodeFields;
    var a := if p.address == [] then [] else [LenField(1, p.address)];
    var b := if p.id == [] then [] else [LenField(2, p.id)];
    EncodeFieldsAppend(a, b);
    OptionalFieldLength(1, p.address);
    OptionalFieldLength(2, p.id);
  }

  lemma {:induction false} ElementBound(num: nat, contents: seq<seq<byte>>, k: nat)
    requires 1 <= num < 16 && k < |contents|
    ensures |contents[k]| <= |EncodeFields(Repeated(num, contents))|
  {
    hide EncodeFields, Repeated, Header, EncodeField;
    RepeatedRoom(num, contents, k);
    ContentFits(num, contents[k]);
  }

  method AddPids(num: nat, pids: seq<Pid>, start: nat) returns (n: nat)
    requires 1 <= num < 16 && |EncodeFields(Repeated(num, EncodePids(pids)))| < TWO63
    ensures n == start + |EncodeFields(Repeated(num, EncodePids(pids)))|
  {
    hide EncodeFields, Repeated, EncodePids, PidSize, EncodePid, Varint.Sov;
    ghost var contents := EncodePids(pids);
    n := start;
    assert contents[..0] == [];
    RepeatedEmpty(num, [], 0);
    for k := 0 to |pids|
      invariant n == start + |EncodeFields(Repeated(num, contents[..k]))|
    {
      ElementBound(num, contents, k);
      RepeatedGrow(num, contents, k);
      PidBound(pids[k]);
      PidSizeExact(pids[k]);
      var l := PidSize(pids[k]);
      n := n + (1 + l + Varint.Sov(l));
    }
    assert contents[..|pids|] == contents;
  }

  /** MarshalVT: a buffer of the computed size is filled exactly, with nothing left over. */
  method MarshalVT(e: Envelope) returns (bytes: seq<byte>)
    requires |EncodeEnvelope(e)| < TWO63
    ensures bytes == EncodeEnvelope(e)
  {
    hide EncodeEnvelope;
    var size := EnvelopeSize(e);
    var buf := new byte[size];
    var n := MarshalEnvelope(e, buf, size);
    bytes := buf[..n];
  }
}
