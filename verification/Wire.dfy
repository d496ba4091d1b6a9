/**
 The field level of the wire format: one iteration of a generated UnmarshalVT loop, the
 group-aware `skip`, and the scan of a whole buffer into the fields the loop meets. The three
 generated decoders differ only in which field numbers they know and in what they do with a
 field, so the loop is stated once, over a schema.

 A function here looks at the unread part `s` of a buffer; `base` is the index of its first byte
 in that buffer, which matters only to the signed 64-bit overflow tests.
 */
module Wire {
  import opened Machine
  import Varint

  datatype Kind = VarintKind | LenKind

  /** The known fields of a message: the wire kind of each field number, if it is known. */
  datatype Schema = PidSchema | MessageSchema | EnvelopeSchema {
    function Kind(num: int): Option<Kind> {
      match this
      case PidSchema => if 1 <= num <= 2 then Some(LenKind) else None
      case MessageSchema =>
        if num == 1 then Some(LenKind) else if 2 <= num <= 5 then Some(VarintKind) else None
      case EnvelopeSchema => if 1 <= num <= 4 then Some(LenKind) else None
    }
  }

  function WireType(kind: Kind): nat {
    match kind
    case VarintKind => 0
    case LenKind => 2
  }

  /** A decoded field: known with its content, or unknown with all its bytes, tag included. */
  datatype Field =
    | VarintField(num: nat, value: uint64)
    | LenField(num: nat, bytes: seq<byte>)
    | RawField(bytes: seq<byte>)

  // ---------------------------------------------------------------- skip

  /**
   One `skip` iteration after its tag: the number of bytes taken and the new group depth.
   Indices are relative to `base`; a wrapped, negative index is reported as InvalidLength.
   */
  function SkipBody(wireType: nat, s: seq<byte>, base: nat, depth: nat): (r: Result<(nat, nat)>)
    requires base + |s| < TWO63
    ensures r.Ok? ==> base + r.value.0 < TWO63
  {
    match wireType
    case 0 =>
      var (_, n) :- Varint.ReadDigits(s, 0);
      Ok((n, depth))
    case 1 => if ToInt64(base + 8) < 0 then Err(InvalidLength) else Ok((8, depth))
    case 2 =>
      var (v, n) :- Varint.Read(s);
      if ToInt64(v) < 0 || ToInt64(base + n + ToInt64(v)) < 0 then Err(InvalidLength)
      else Ok((n + v, depth))
    case 3 => Ok((0, depth + 1))
    case 4 => if depth == 0 then Err(UnexpectedEndOfGroup) else Ok((0, depth - 1))
    case 5 => if ToInt64(base + 4) < 0 then Err(InvalidLength) else Ok((4, depth))
    case _ => Err(IllegalWireType(wireType))
  }

  /** The `skip` loop inside `depth` open groups: the number of bytes taken, perhaps more than |s|. */
  function SkipFrom(s: seq<byte>, base: nat, depth: nat): (r: Result<nat>)
    requires base + |s| < TWO63
    ensures r.Ok? ==> 0 < r.value && base + r.value < TWO63
    decreases |s|
  {
    if s == [] then Err(UnexpectedEOF)
    else
      var (wire, n) :- Varint.Read(s);
      var (m, d) :- SkipBody(wire % 8, s[n..], base + n, depth);
      if d == 0 then Ok(n + m)
      else if n + m > |s| then Err(UnexpectedEOF)
      else
        var more :- SkipFrom(s[n + m..], base + n + m, d);
        Ok(n + m + more)
  }

  /** The number of bytes of the field at the front of `s`. */
  function Skip(s: seq<byte>): (r: Result<nat>)
    requires |s| < TWO63
    ensures r.Ok? ==> 0 < r.value < TWO63
  {
    SkipFrom(s, 0, 0)
  }

  // ---------------------------------------------------------------- one iteration of a decoder

  /** A length-delimited content from its length prefix on, and the number of bytes taken. */
  function ReadBytes(s: seq<byte>, base: nat): (r: Result<(seq<byte>, nat)>)
    requires base + |s| < TWO63
    ensures r.Ok? ==> 0 < r.value.1 <= |s|
  {
    var (v, n) :- Varint.Read(s);
    if ToInt64(v) < 0 || ToInt64(base + n + ToInt64(v)) < 0 then Err(InvalidLength)
    else if n + v > |s| then Err(UnexpectedEOF)
    else Ok((s[n..n + v], n + v))
  }

  /** The content of a known field after its tag. */
  function ReadKnown(kind: Kind, num: nat, s: seq<byte>, base: nat): (r: Result<(Field, nat)>)
    requires base + |s| < TWO63
    ensures r.Ok? ==> 0 < r.value.1 <= |s|
  {
    match kind
    case VarintKind =>
      var (v, n) :- Varint.Read(s);
      Ok((VarintField(num, v), n))
    case LenKind =>
      var (bytes, n) :- ReadBytes(s, base);
      Ok((LenField(num, bytes), n))
  }

  /** An unknown field, tag included. */
  function ReadUnknown(s: seq<byte>, base: nat): (r: Result<(Field, nat)>)
    requires base + |s| < TWO63
    ensures r.Ok? ==> 0 < r.value.1 <= |s| && r.value.0 == RawField(s[..r.value.1])
  {
    var n :- Skip(s);
    if ToInt64(base + n) < 0 then Err(InvalidLength)
    else if n > |s| then Err(UnexpectedEOF)
    else Ok((RawField(s[..n]), n))
  }

  /** The field at the front of `s` and the number of bytes it takes. */
  function Step(schema: Schema, s: seq<byte>, base: nat): (r: Result<(Field, nat)>)
    requires base + |s| < TWO63
    ensures r.Ok? ==> 0 < r.value.1 <= |s|
    ensures r.Ok? && r.value.0.RawField? ==> r.value.0.bytes == s[..r.value.1]
  {
    var (wire, n) :- Varint.Read(s);
    var num, wireType := ToInt32(wire / 8), wire % 8;
    if wireType == 4 then Err(EndGroupForNonGroup)
    else if num <= 0 then Err(IllegalTag(num, wire))
    else
      match schema.Kind(num)
      case None => ReadUnknown(s, base)
      case Some(kind) =>
        if wireType != WireType(kind) then Err(WrongWireType(num, wireType))
        else
          var (f, m) :- ReadKnown(kind, num, s[n..], base + n);
          Ok((f, n + m))
  }

  /** The fields a decoder loop meets, and the error that ends it, if any. */
  datatype Scanned = Scanned(fields: seq<Field>, err: Option<Error>)

  function Scan(schema: Schema, s: seq<byte>, base: nat): Scanned
    requires base + |s| < TWO63
    decreases |s|
  {
    if s == [] then Scanned([], None)
    else
      match Step(schema, s, base)
      case Err(e) => Scanned([], Some(e))
      case Ok((f, n)) =>
        var rest := Scan(schema, s[n..], base + n);
        Scanned([f] + rest.fields, rest.err)
  }

  // ---------------------------------------------------------------- sequences

  lemma {:induction false} SplitAppend<T>(a: seq<T>, n: nat, b: seq<T>)
    requires n <= |a|
    ensures a[..n] + (a[n..] + b) == a + b
    ensures (a + b)[n..] == a[n..] + b
  {
  }

  lemma {:induction false} CutTail<T>(s: seq<T>, n: nat, total: nat, rest: seq<T>)
    requires n <= total <= |s|
    ensures (s[..total] + rest)[n..] == s[n..][..total - n] + rest
  {
  }

  // ---------------------------------------------------------------- locality

  lemma {:induction false} SkipBodyLocal(wireType: nat, s: seq<byte>, base: nat, depth: nat, n: nat, rest: seq<byte>, base': nat)
    requires base + |s| < TWO63 && n <= |s| && base' + n + |rest| < TWO63
    requires SkipBody(wireType, s, base, depth).Ok? && SkipBody(wireType, s, base, depth).value.0 <= n
    ensures SkipBody(wireType, s[..n] + rest, base', depth) == SkipBody(wireType, s, base, depth)
  {
    if wireType == 0 || wireType == 2 {
      Varint.ReadLocal(s, n, rest);
    }
  }

  /** `skip` decides from the bytes of the field alone: what follows it does not matter. */
  lemma {:induction false} SkipLocal(s: seq<byte>, base: nat, depth: nat, rest: seq<byte>, base': nat)
    requires base + |s| < TWO63
    requires SkipFrom(s, base, depth).Ok? && SkipFrom(s, base, depth).value <= |s|
    requires base' + SkipFrom(s, base, depth).value + |rest| < TWO63
    ensures SkipFrom(s[..SkipFrom(s, base, depth).value] + rest, base', depth) == SkipFrom(s, base, depth)
    decreases |s|
  {
    hide SkipBody, SkipFrom, Varint.Read;
    var total := SkipFrom(s, base, depth).value;
    SkipFromOk(s, base, depth);
    var (wire, n) := Varint.Read(s).value;
    var (m, d) := SkipBody(wire % 8, s[n..], base + n, depth).value;
    SkipFromIs(s, base, depth);
    SkipIterationLocal(s, base, depth, total, rest, base');
    SkipFromIs(s[..total] + rest, base', depth);
    CutTail(s, n + m, total, rest);
    if d != 0 {
      SkipLocal(s[n + m..], base + n + m, d, rest, base' + n + m);
    }
  }

  /** A successful skip got through its first round. */
  lemma {:induction false} SkipFromOk(s: seq<byte>, base: nat, depth: nat)
    requires base + |s| < TWO63 && SkipFrom(s, base, depth).Ok?
    ensures s != [] && Varint.Read(s).Ok?
    ensures var (wire, n) := Varint.Read(s).value;
      && SkipBody(wire % 8, s[n..], base + n, depth).Ok?
      && n + SkipBody(wire % 8, s[n..], base + n, depth).value.0 <= SkipFrom(s, base, depth).value
  {
    hide SkipBody, Varint.Read;
  }

  /** The first round of a skip and the rest of it. */
  lemma {:induction false} SkipFromIs(s: seq<byte>, base: nat, depth: nat)
    requires base + |s| < TWO63 && s != [] && Varint.Read(s).Ok?
    requires var (wire, n) := Varint.Read(s).value; SkipBody(wire % 8, s[n..], base + n, depth).Ok?
    ensures var (wire, n) := Varint.Read(s).value;
      var (m, d) := SkipBody(wire % 8, s[n..], base + n, depth).value;
      SkipFrom(s, base, depth) ==
        if d == 0 then Ok(n + m)
        else if n + m > |s| then Err(UnexpectedEOF)
        else match SkipFrom(s[n + m..], base + n + m, d)
          case Ok(more) => Ok(n + m + more)
          case Err(e) => Err(e)
  {
    hide SkipBody, Varint.Read;
  }

  lemma {:induction false} SkipIterationLocal(s: seq<byte>, base: nat, depth: nat, total: nat, rest: seq<byte>, base': nat)
    requires base + |s| < TWO63 && total <= |s| && base' + total + |rest| < TWO63
    requires Varint.Read(s).Ok?
    requires var (wire, n) := Varint.Read(s).value;
      && SkipBody(wire % 8, s[n..], base + n, depth).Ok?
      && n + SkipBody(wire % 8, s[n..], base + n, depth).value.0 <= total
    ensures Varint.Read(s[..total] + rest) == Varint.Read(s)
    ensures var (wire, n) := Varint.Read(s).value;
      SkipBody(wire % 8, (s[..total] + rest)[n..], base' + n, depth) == SkipBody(wire % 8, s[n..], base + n, depth)
  {
    hide *;
    var (wire, n) := Varint.Read(s).value;
    Varint.ReadLocal(s, total, rest);
    CutTail(s, n, total, rest);
    SkipBodyLocal(wire % 8, s[n..], base + n, depth, total - n, rest, base' + n);
  }

  lemma {:induction false} ReadKnownLocal(kind: Kind, num: nat, s: seq<byte>, base: nat, rest: seq<byte>, base': nat)
    requires base + |s| < TWO63 && ReadKnown(kind, num, s, base).Ok?
    requires base' + ReadKnown(kind, num, s, base).value.1 + |rest| < TWO63
    ensures ReadKnown(kind, num, s[..ReadKnown(kind, num, s, base).value.1] + rest, base') == ReadKnown(kind, num, s, base)
  {
    var n := ReadKnown(kind, num, s, base).value.1;
    Varint.ReadLocal(s, n, rest);
    var k := Varint.Read(s).value.1;
    assert (s[..n] + rest)[k..n] == s[k..n];
  }

  lemma {:induction false} ReadUnknownLocal(s: seq<byte>, base: nat, rest: seq<byte>, base': nat)
    requires base + |s| < TWO63 && ReadUnknown(s, base).Ok?
    requires base' + ReadUnknown(s, base).value.1 + |rest| < TWO63
    ensures ReadUnknown(s[..ReadUnknown(s, base).value.1] + rest, base') == ReadUnknown(s, base)
  {
    var n := ReadUnknown(s, base).value.1;
    SkipLocal(s, 0, 0, rest, 0);
    assert (s[..n] + rest)[..n] == s[..n];
  }

  /** The tag of an unknown field lies inside the field. */
  lemma {:induction false} TagWithinField(s: seq<byte>, base: nat)
    requires base + |s| < TWO63 && ReadUnknown(s, base).Ok?
    ensures Varint.Read(s).Ok? && Varint.Read(s).value.1 <= ReadUnknown(s, base).value.1
  {
  }

  /** A decoder iteration depends only on the bytes of the field it consumes. */
  lemma {:induction false} StepLocal(schema: Schema, s: seq<byte>, base: nat, rest: seq<byte>, base': nat)
    requires base + |s| < TWO63 && Step(schema, s, base).Ok?
    requires base' + Step(schema, s, base).value.1 + |rest| < TWO63
    ensures Step(schema, s[..Step(schema, s, base).value.1] + rest, base') == Step(schema, s, base)
  {
    hide Varint.Read, ReadKnown, ReadUnknown, ToInt32;
    var total := Step(schema, s, base).value.1;
    var (wire, n) := Varint.Read(s).value;
    var num := ToInt32(wire / 8);
    assert num > 0;
    match schema.Kind(num)
    case None =>
      TagWithinField(s, base);
      Varint.ReadLocal(s, total, rest);
      ReadUnknownLocal(s, base, rest, base');
    case Some(kind) =>
      Varint.ReadLocal(s, total, rest);
      CutTail(s, n, total, rest);
      ReadKnownLocal(kind, num, s[n..], base + n, rest, base' + n);
  }

  // ---------------------------------------------------------------- concatenation

  lemma {:induction false} ScanEmpty(schema: Schema, base: nat)
    requires base < TWO63
    ensures Scan(schema, [], base) == Scanned([], None)
    ensures Unknown([]) == [] && IsUnknownBlock(schema, [])
  {
  }

  lemma {:induction false} ScanStep(schema: Schema, s: seq<byte>, base: nat, f: Field, n: nat)
    requires base + |s| < TWO63 && s != [] && Step(schema, s, base) == Ok((f, n))
    ensures Scan(schema, s, base)
         == Scanned([f] + Scan(schema, s[n..], base + n).fields, Scan(schema, s[n..], base + n).err)
  {
    hide Step;
  }

  /** An accepted non-empty buffer has a first field, and what follows it is accepted too. */
  lemma {:induction false} ScanFirst(schema: Schema, s: seq<byte>, base: nat)
    requires base + |s| < TWO63 && s != [] && Scan(schema, s, base).err.None?
    ensures Step(schema, s, base).Ok?
    ensures var n := Step(schema, s, base).value.1; Scan(schema, s[n..], base + n).err.None?
  {
    hide Step;
  }

  /** Scanning one accepted buffer after another is scanning their concatenation. */
  lemma {:induction false} ScanAppend(schema: Schema, a: seq<byte>, base: nat, b: seq<byte>, base': nat)
    requires base + |a| < TWO63 && base' + |a| + |b| < TWO63
    requires Scan(schema, a, base).err.None? && Scan(schema, b, base' + |a|).err.None?
    ensures Scan(schema, a + b, base')
         == Scanned(Scan(schema, a, base).fields + Scan(schema, b, base' + |a|).fields, None)
    decreases |a|
  {
    hide *;
    if a == [] {
      ScanEmpty(schema, base);
      assert a + b == b && [] + Scan(schema, b, base').fields == Scan(schema, b, base').fields;
    } else {
      ScanFirst(schema, a, base);
      var (f, n) := Step(schema, a, base).value;
      SplitAppend(a, n, b);
      StepLocal(schema, a, base, a[n..] + b, base');
      ScanAppend(schema, a[n..], base + n, b, base' + n);
      ScanStep(schema, a, base, f, n);
      ScanStep(schema, a + b, base', f, n);
      ConcatAssoc([f], Scan(schema, a[n..], base + n).fields, Scan(schema, b, base' + |a|).fields);
    }
  }

  /** The position of an accepted buffer does not matter. */
  lemma {:induction false} ScanMove(schema: Schema, a: seq<byte>, base: nat, base': nat)
    requires base + |a| < TWO63 && base' + |a| < TWO63 && Scan(schema, a, base).err.None?
    ensures Scan(schema, a, base') == Scan(schema, a, base)
  {
    ScanAppend(schema, a, base, [], base');
    assert a + [] == a;
  }

  // ---------------------------------------------------------------- printing known fields

  function EncodeField(f: Field): seq<byte> {
    match f
    case VarintField(num, v) => Varint.Encode(num * 8 + WireType(VarintKind)) + Varint.Encode(v)
    case LenField(num, bytes) => Varint.Encode(num * 8 + WireType(LenKind)) + (Varint.Encode(|bytes|) + bytes)
    case RawField(bytes) => bytes
  }

  function EncodeFields(fs: seq<Field>): seq<byte> {
    if fs == [] then [] else EncodeField(fs[0]) + EncodeFields(fs[1..])
  }

  predicate Fits(schema: Schema, f: Field) {
    match f
    case VarintField(num, _) => schema.Kind(num) == Some(VarintKind)
    case LenField(num, _) => schema.Kind(num) == Some(LenKind)
    case RawField(_) => false
  }

  predicate AllFit(schema: Schema, fs: seq<Field>) {
    fs == [] || (Fits(schema, fs[0]) && AllFit(schema, fs[1..]))
  }

  lemma {:induction false} ReadBytesEncoded(bytes: seq<byte>, base: nat)
    requires base + |Varint.Encode(|bytes|) + bytes| < TWO63
    ensures ReadBytes(Varint.Encode(|bytes|) + bytes, base) == Ok((bytes, |Varint.Encode(|bytes|) + bytes|))
  {
    hide Varint.Read, Varint.Encode;
    var l := Varint.Encode(|bytes|);
    Varint.ReadEncode(|bytes|, bytes);
    assert (l + bytes)[|l|..|l| + |bytes|] == bytes;
  }

  /** A printed content is read back. */
  lemma {:induction false} ReadKnownEncoded(schema: Schema, f: Field, base: nat)
    requires Fits(schema, f) && base + |EncodeField(f)| <= TWO63
    ensures |EncodeField(f)| >= 1
    ensures ReadKnown(schema.Kind(f.num).value, f.num, EncodeField(f)[1..], base) == Ok((f, |EncodeField(f)| - 1))
  {
    hide Varint.Read, ReadBytes;
    match f
    case VarintField(num, v) =>
      assert EncodeField(f)[1..] == Varint.Encode(v) + [] == Varint.Encode(v);
      Varint.ReadEncode(v, []);
    case LenField(num, bytes) =>
      assert EncodeField(f)[1..] == Varint.Encode(|bytes|) + bytes;
      ReadBytesEncoded(bytes, base);
  }

  /** The tag of a printed known field: one byte, holding number and wire type. */
  lemma {:induction false} TagOfField(schema: Schema, f: Field)
    requires Fits(schema, f)
    ensures var tag := f.num * 8 + WireType(schema.Kind(f.num).value);
      && tag < 128 && tag % 8 == WireType(schema.Kind(f.num).value) != 4 && 0 < f.num == ToInt32(tag / 8)
      && EncodeField(f) != [] && Varint.Read(EncodeField(f)) == Ok((tag, 1))
  {
    hide Varint.Read;
    var s := EncodeField(f);
    var tag := f.num * 8 + WireType(schema.Kind(f.num).value);
    assert Varint.Encode(tag) == [tag];
    assert s == Varint.Encode(tag) + s[1..];
    Varint.ReadEncode(tag, s[1..]);
  }

  /** A printed known field is read back as that field. */
  lemma {:induction false} StepEncodeField(schema: Schema, f: Field, base: nat)
    requires Fits(schema, f) && base + |EncodeField(f)| < TWO63
    ensures EncodeField(f) != [] && Step(schema, EncodeField(f), base) == Ok((f, |EncodeField(f)|))
  {
    hide ReadKnown, ReadUnknown, Varint.Read, EncodeField, WireType, ToInt32;
    TagOfField(schema, f);
    ReadKnownEncoded(schema, f, base + 1);
  }

  lemma {:induction false} ScanEncodeField(schema: Schema, f: Field, base: nat)
    requires Fits(schema, f) && base + |EncodeField(f)| < TWO63
    ensures Scan(schema, EncodeField(f), base) == Scanned([f], None)
  {
    hide Step, EncodeField;
    var s := EncodeField(f);
    StepEncodeField(schema, f, base);
    assert s[|s|..] == [];
  }

  lemma {:induction false} ScanEncodeFields(schema: Schema, fs: seq<Field>, base: nat)
    requires AllFit(schema, fs) && base + |EncodeFields(fs)| < TWO63
    ensures Scan(schema, EncodeFields(fs), base) == Scanned(fs, None)
    decreases fs
  {
    hide Step, EncodeField;
    if fs != [] {
      ScanEncodeField(schema, fs[0], base);
      ScanEncodeFields(schema, fs[1..], base + |EncodeField(fs[0])|);
      ScanAppend(schema, EncodeField(fs[0]), base, EncodeFields(fs[1..]), base);
    }
  }

  lemma {:induction false} EncodeFieldsAppend(a: seq<Field>, b: seq<Field>)
    ensures EncodeFields(a + b) == EncodeFields(a) + EncodeFields(b)
  {
    if a == [] {
      assert a + b == b;
    } else {
      assert (a + b)[1..] == a[1..] + b;
      EncodeFieldsAppend(a[1..], b);
    }
  }

  lemma {:induction false} AllFitAppend(schema: Schema, a: seq<Field>, b: seq<Field>)
    requires AllFit(schema, a) && AllFit(schema, b)
    ensures AllFit(schema, a + b)
  {
    if a == [] {
      assert a + b == b;
    } else {
      assert (a + b)[1..] == a[1..] + b;
      AllFitAppend(schema, a[1..], b);
    }
  }

  // ---------------------------------------------------------------- unknown fields

  /** The bytes that a decoder keeps aside: every unknown field, in order, verbatim. */
  function Unknown(fs: seq<Field>): seq<byte> {
    if fs == [] then []
    else (if fs[0].RawField? then fs[0].bytes else []) + Unknown(fs[1..])
  }

  predicate AllRaw(fs: seq<Field>) {
    fs == [] || (fs[0].RawField? && AllRaw(fs[1..]))
  }

  /** Bytes that a decoder for `schema` accepts and keeps verbatim as unknown fields. */
  predicate IsUnknownBlock(schema: Schema, u: seq<byte>) {
    |u| < TWO63 && Scan(schema, u, 0).err.None? && AllRaw(Scan(schema, u, 0).fields)
  }

  /** An unknown field, cut out of the input, is on its own that unknown field again. */
  lemma {:induction false} ScanRawAlone(schema: Schema, s: seq<byte>, base: nat)
    requires base + |s| < TWO63 && Step(schema, s, base).Ok? && Step(schema, s, base).value.0.RawField?
    ensures Scan(schema, Step(schema, s, base).value.0.bytes, 0) == Scanned([Step(schema, s, base).value.0], None)
  {
    var (f, n) := Step(schema, s, base).value;
    StepLocal(schema, s, base, [], 0);
    assert f.bytes == s[..n] && s[..n] + [] == s[..n];
  }

  lemma {:induction false} UnknownCons(f: Field, rest: seq<Field>)
    ensures Unknown([f] + rest) == (if f.RawField? then f.bytes else []) + Unknown(rest)
    ensures AllRaw([f] + rest) <==> f.RawField? && AllRaw(rest)
  {
    assert ([f] + rest)[1..] == rest;
  }

  /** An unknown field put in front of an unknown block makes an unknown block. */
  lemma {:induction false} BlockCons(schema: Schema, s: seq<byte>, base: nat, u: seq<byte>)
    requires base + |s| < TWO63 && Step(schema, s, base).Ok? && Step(schema, s, base).value.0.RawField?
    requires IsUnknownBlock(schema, u) && Step(schema, s, base).value.1 + |u| < TWO63
    ensures IsUnknownBlock(schema, Step(schema, s, base).value.0.bytes + u)
  {
    hide Step, Scan, AllRaw;
    var f := Step(schema, s, base).value.0;
    ScanRawAlone(schema, s, base);
    ScanMove(schema, u, 0, |f.bytes|);
    ScanAppend(schema, f.bytes, 0, u, 0);
    UnknownCons(f, Scan(schema, u, 0).fields);
  }

  /** The unknown bytes collected from any accepted input form an unknown block. */
  lemma {:induction false} UnknownIsBlock(schema: Schema, s: seq<byte>, base: nat)
    requires base + |s| < TWO63 && Scan(schema, s, base).err.None?
    ensures |Unknown(Scan(schema, s, base).fields)| <= |s|
    ensures IsUnknownBlock(schema, Unknown(Scan(schema, s, base).fields))
    decreases |s|
  {
    hide *;
    if s == [] {
      ScanEmpty(schema, base);
    } else {
      ScanFirst(schema, s, base);
      var (f, n) := Step(schema, s, base).value;
      var rest := Scan(schema, s[n..], base + n).fields;
      ScanStep(schema, s, base, f, n);
      UnknownCons(f, rest);
      UnknownIsBlock(schema, s[n..], base + n);
      if f.RawField? {
        BlockCons(schema, s, base, Unknown(rest));
      } else {
        assert [] + Unknown(rest) == Unknown(rest);
      }
    }
  }

  /** Scanning a block of unknown fields keeps exactly the bytes of the block. */
  lemma {:induction false} UnknownOfBlock(schema: Schema, u: seq<byte>, base: nat)
    requires base + |u| < TWO63 && Scan(schema, u, base).err.None? && AllRaw(Scan(schema, u, base).fields)
    ensures Unknown(Scan(schema, u, base).fields) == u
    decreases |u|
  {
    hide *;
    if u == [] {
      ScanEmpty(schema, base);
    } else {
      ScanFirst(schema, u, base);
      var (f, n) := Step(schema, u, base).value;
      ScanStep(schema, u, base, f, n);
      UnknownCons(f, Scan(schema, u[n..], base + n).fields);
      UnknownOfBlock(schema, u[n..], base + n);
      assert u[..n] + u[n..] == u;
    }
  }

  /** Known fields followed by an unknown block are scanned back as just that. */
  lemma {:induction false} ScanPrinted(schema: Schema, fs: seq<Field>, u: seq<byte>)
    requires AllFit(schema, fs) && IsUnknownBlock(schema, u) && |EncodeFields(fs)| + |u| < TWO63
    ensures Scan(schema, EncodeFields(fs) + u, 0) == Scanned(fs + Scan(schema, u, 0).fields, None)
  {
    hide Scan, AllRaw, AllFit, EncodeFields;
    ScanEncodeFields(schema, fs, 0);
    ScanMove(schema, u, 0, |EncodeFields(fs)|);
    ScanAppend(schema, EncodeFields(fs), 0, u, 0);
  }

  // ---------------------------------------------------------------- sizes

  /** A field printed again takes no more bytes than it was read from. */
  lemma {:induction false} StepShrinks(schema: Schema, s: seq<byte>, base: nat)
    requires base + |s| < TWO63 && Step(schema, s, base).Ok?
    ensures |EncodeField(Step(schema, s, base).value.0)| <= Step(schema, s, base).value.1
  {
    hide ReadUnknown, Varint.ReadDigits, Varint.Encode;
    var (f, total) := Step(schema, s, base).value;
    var (wire, n) := Varint.Read(s).value;
    if !f.RawField? {
      var tag := f.num * 8 + WireType(schema.Kind(f.num).value);
      SmallTag(tag);
      ReadKnownShrinks(schema.Kind(f.num).value, f.num, s[n..], base + n);
    }
  }

  lemma {:induction false} SmallTag(tag: nat)
    requires tag < 128
    ensures |Varint.Encode(tag)| == 1
  {
  }

  lemma {:induction false} ReadKnownShrinks(kind: Kind, num: nat, s: seq<byte>, base: nat)
    requires base + |s| < TWO63 && ReadKnown(kind, num, s, base).Ok?
    ensures match ReadKnown(kind, num, s, base).value {
      case (VarintField(_, v), n) => kind == VarintKind && |Varint.Encode(v)| <= n
      case (LenField(_, bytes), n) => kind == LenKind && |Varint.Encode(|bytes|)| + |bytes| <= n
      case (RawField(_), _) => false
    }
  {
    hide Varint.ReadDigits, Varint.Encode;
    var (v, k) := Varint.ReadDigits(s, 0).value;
    Varint.EncodeIsShortest(s, 0, v % TWO64);
  }

  lemma {:induction false} ScanShrinks(schema: Schema, s: seq<byte>, base: nat)
    requires base + |s| < TWO63 && Scan(schema, s, base).err.None?
    ensures |EncodeFields(Scan(schema, s, base).fields)| <= |s|
    decreases |s|
  {
    hide Step, Scan, EncodeField, EncodeFields;
    if s == [] {
      ScanEmpty(schema, base);
      EncodeFieldsCons(RawField([]), []);
    } else {
      ScanFirst(schema, s, base);
      var (f, n) := Step(schema, s, base).value;
      ScanStep(schema, s, base, f, n);
      StepShrinks(schema, s, base);
      ScanShrinks(schema, s[n..], base + n);
      EncodeFieldsCons(f, Scan(schema, s[n..], base + n).fields);
    }
  }

  lemma {:induction false} EncodeFieldsCons(f: Field, fs: seq<Field>)
    ensures EncodeFields([]) == []
    ensures EncodeFields([f] + fs) == EncodeField(f) + EncodeFields(fs)
  {
    assert ([f] + fs)[1..] == fs;
  }
}
