/**
 The grammar of fields on the wire, as trees, with a printer. `skip` accepts exactly what the printer
 prints and takes exactly its bytes, so that a decoder keeps exactly the fields of newer versions.
 */
module Grammar {
  import opened Machine
  import opened Wire
  import Varint

  /** A field of any wire type. Tags and lengths are kept as the digits that were sent, shortest or not. */
  datatype Item =
    | VarintItem(tag: seq<byte>, digits: seq<byte>)
    | Fixed64Item(tag: seq<byte>, bytes: seq<byte>)
    | LenItem(tag: seq<byte>, length: seq<byte>, bytes: seq<byte>)
    | GroupItem(tag: seq<byte>, items: seq<Item>, end: seq<byte>)
    | Fixed32Item(tag: seq<byte>, bytes: seq<byte>)

  /** Bytes that are one varint, all of them. */
  predicate IsVarint(b: seq<byte>) {
    Varint.Read(b).Ok? && Varint.Read(b).value.1 == |b|
  }

  predicate IsTag(b: seq<byte>, wireType: nat) {
    IsVarint(b) && Varint.Read(b).value.0 % 8 == wireType
  }

  predicate Valid(u: Item) {
    match u
    case VarintItem(tag, digits) => IsTag(tag, 0) && IsVarint(digits)
    case Fixed64Item(tag, bytes) => IsTag(tag, 1) && |bytes| == 8
    case LenItem(tag, length, bytes) => IsTag(tag, 2) && IsVarint(length) && Varint.Read(length).value.0 == |bytes|
    case GroupItem(tag, items, end) => IsTag(tag, 3) && ValidAll(items) && IsTag(end, 4)
    case Fixed32Item(tag, bytes) => IsTag(tag, 5) && |bytes| == 4
  }

  predicate ValidAll(us: seq<Item>) {
    us == [] || (Valid(us[0]) && ValidAll(us[1..]))
  }

  function Content(u: Item): seq<byte>
    decreases u, 0
  {
    match u
    case VarintItem(_, digits) => digits
    case Fixed64Item(_, bytes) => bytes
    case LenItem(_, length, bytes) => length + bytes
    case GroupItem(_, items, end) => PrintAll(items) + end
    case Fixed32Item(_, bytes) => bytes
  }

  function Print(u: Item): seq<byte>
    decreases u, 1
  {
    u.tag + Content(u)
  }

  function PrintAll(us: seq<Item>): seq<byte>
    decreases us, 0
  {
    if us == [] then [] else Print(us[0]) + PrintAll(us[1..])
  }

  // ---------------------------------------------------------------- skip takes what is printed

  /** `n` bytes were taken inside `depth` groups: the rest of the skip. */
  function Resume(n: nat, rest: seq<byte>, base: nat, depth: nat): Result<nat>
    requires base + n + |rest| < TWO63
  {
    if depth == 0 then Ok(n)
    else
      match SkipFrom(rest, base + n, depth)
      case Ok(more) => Ok(n + more)
      case Err(e) => Err(e)
  }

  lemma {:induction false} ReadFront(b: seq<byte>, rest: seq<byte>)
    requires IsVarint(b)
    ensures Varint.Read(b + rest) == Varint.Read(b) && (b + rest)[|b|..] == rest
    ensures Varint.ReadDigits(b, 0).Ok? && Varint.ReadDigits(b + rest, 0) == Varint.ReadDigits(b, 0)
    ensures Varint.ReadDigits(b, 0).value.1 == |b|
  {
    Varint.ReadLocal(b, |b|, rest);
    assert b[..|b|] == b;
  }

  /** The switch of skip takes the content of a field that is not a group, as many bytes as it has. */
  lemma {:induction false} SkipsContent(u: Item, rest: seq<byte>, base: nat, depth: nat)
    requires Valid(u) && !u.GroupItem? && base + |Content(u)| + |rest| < TWO63
    ensures SkipBody(Varint.Read(u.tag).value.0 % 8, Content(u) + rest, base, depth) == Ok((|Content(u)|, depth))
  {
    hide Varint.Read, Varint.ReadDigits;
    match u
    case VarintItem(_, digits) => ReadFront(digits, rest);
    case LenItem(_, length, bytes) =>
      ReadFront(length, bytes + rest);
      ConcatAssoc(length, bytes, rest);
    case _ =>
  }

  /** One round of skip, after a tag. */
  lemma {:induction false} SkipRound(tag: seq<byte>, s: seq<byte>, base: nat, depth: nat, m: nat, d: nat)
    requires IsVarint(tag) && base + |tag| + |s| < TWO63 && m <= |s|
    requires SkipBody(Varint.Read(tag).value.0 % 8, s, base + |tag|, depth) == Ok((m, d))
    ensures SkipFrom(tag + s, base, depth) == Resume(|tag| + m, s[m..], base, d)
  {
    hide SkipBody, SkipFrom, Varint.Read;
    ReadFront(tag, s);
    NotEmpty(tag);
    SkipFromIs(tag + s, base, depth);
    assert (tag + s)[|tag| + m..] == s[m..];
  }

  lemma {:induction false} NotEmpty(b: seq<byte>)
    requires IsVarint(b)
    ensures b != []
  {
  }

  lemma {:induction false} SkipsItem(u: Item, rest: seq<byte>, base: nat, depth: nat)
    requires Valid(u) && base + |Print(u)| + |rest| < TWO63
    ensures SkipFrom(Print(u) + rest, base, depth) == Resume(|Print(u)|, rest, base, depth)
    decreases u
  {
    hide SkipFrom, SkipBody, IsVarint;
    ConcatAssoc(u.tag, Content(u), rest);
    if u.GroupItem? {
      SkipsGroup(u, rest, base, depth);
    } else {
      SkipsContent(u, rest, base + |u.tag|, depth);
      SkipRound(u.tag, Content(u) + rest, base, depth, |Content(u)|, depth);
      assert (Content(u) + rest)[|Content(u)|..] == rest;
    }
  }

  /** A group: one level down at its start, through its items, and up again at its end. */
  lemma {:induction false} SkipsGroup(u: Item, rest: seq<byte>, base: nat, depth: nat)
    requires Valid(u) && u.GroupItem? && base + |Print(u)| + |rest| < TWO63
    ensures SkipFrom(u.tag + (Content(u) + rest), base, depth) == Resume(|Print(u)|, rest, base, depth)
    decreases u, 0
  {
    hide SkipFrom, IsVarint, PrintAll, ValidAll;
    var (tag, inner, end) := (u.tag, PrintAll(u.items), u.end);
    var s := Content(u) + rest;
    SkipRound(tag, s, base, depth, 0, depth + 1);
    assert s[0..] == s;
    ConcatAssoc(inner, end, rest);
    SkipsItems(u.items, end + rest, base + |tag|, depth + 1);
    SkipRound(end, rest, base + |tag| + |inner|, depth + 1, 0, depth);
    assert rest[0..] == rest;
  }

  lemma {:induction false} SkipsItems(us: seq<Item>, rest: seq<byte>, base: nat, depth: nat)
    requires ValidAll(us) && depth > 0 && base + |PrintAll(us)| + |rest| < TWO63
    ensures SkipFrom(PrintAll(us) + rest, base, depth) == Resume(|PrintAll(us)|, rest, base, depth)
    decreases us
  {
    hide SkipFrom, SkipBody, Valid, Print;
    if us == [] {
      assert PrintAll(us) + rest == rest;
    } else {
      ConcatAssoc(Print(us[0]), PrintAll(us[1..]), rest);
      SkipsItem(us[0], PrintAll(us[1..]) + rest, base, depth);
      SkipsItems(us[1..], rest, base + |Print(us[0])|, depth);
    }
  }

  /** Whatever follows it, a printed field is skipped, nested groups included, and it alone. */
  lemma {:induction false} SkipInvertsPrint(u: Item, rest: seq<byte>)
    requires Valid(u) && |Print(u)| + |rest| < TWO63
    ensures Skip(Print(u) + rest) == Ok(|Print(u)|)
  {
    hide SkipFrom, Valid;
    SkipsItem(u, rest, 0, 0);
  }

  // ---------------------------------------------------------------- and nothing else

  lemma {:induction false} VarintAtFront(s: seq<byte>)
    requires Varint.Read(s).Ok?
    ensures var n := Varint.Read(s).value.1; IsVarint(s[..n]) && Varint.Read(s[..n]) == Varint.Read(s)
  {
    var n := Varint.Read(s).value.1;
    Varint.ReadLocal(s, n, []);
    assert s[..n] + [] == s[..n];
  }

  /** What one round of skip took, other than the start or the end of a group, is a field. */
  lemma {:induction false} ContentParses(tag: seq<byte>, s: seq<byte>, base: nat, depth: nat) returns (u: Item)
    requires IsVarint(tag) && base + |s| < TWO63
    requires var w := Varint.Read(tag).value.0 % 8;
      w != 3 && w != 4 && SkipBody(w, s, base, depth).Ok? && SkipBody(w, s, base, depth).value.0 <= |s|
    ensures Valid(u) && Print(u) == tag + s[..SkipBody(Varint.Read(tag).value.0 % 8, s, base, depth).value.0]
    ensures SkipBody(Varint.Read(tag).value.0 % 8, s, base, depth).value.1 == depth
  {
    var w := Varint.Read(tag).value.0 % 8;
    hide Varint.Read, Varint.ReadDigits;
    var m := SkipBody(w, s, base, depth).value.0;
    if w == 1 {
      u := Fixed64Item(tag, s[..8]);
    } else if w == 5 {
      u := Fixed32Item(tag, s[..4]);
    } else if w == 0 {
      u := DigitsParse(tag, s);
    } else {
      u := LengthParses(tag, s, base, depth);
    }
  }

  lemma {:induction false} DigitsParse(tag: seq<byte>, s: seq<byte>) returns (u: Item)
    requires IsTag(tag, 0) && Varint.ReadDigits(s, 0).Ok?
    ensures Valid(u) && Print(u) == tag + s[..Varint.ReadDigits(s, 0).value.1]
  {
    VarintAtFront(s);
    u := VarintItem(tag, s[..Varint.ReadDigits(s, 0).value.1]);
  }

  lemma {:induction false} LengthParses(tag: seq<byte>, s: seq<byte>, base: nat, depth: nat) returns (u: Item)
    requires IsTag(tag, 2) && base + |s| < TWO63 && SkipBody(2, s, base, depth).Ok? && SkipBody(2, s, base, depth).value.0 <= |s|
    ensures Valid(u) && Print(u) == tag + s[..SkipBody(2, s, base, depth).value.0]
  {
    hide Varint.Read;
    VarintAtFront(s);
    var (v, n) := Varint.Read(s).value;
    u := LenItem(tag, s[..n], s[n..n + v]);
    assert s[..n] + s[n..n + v] == s[..n + v];
  }

  /** What remains of a group that is open: its items, and the tag that ends it. */
  datatype Level = Level(items: seq<Item>, end: seq<byte>)

  predicate Closes(levels: seq<Level>) {
    levels == [] || (ValidAll(levels[0].items) && IsTag(levels[0].end, 4) && Closes(levels[1..]))
  }

  function PrintLevels(levels: seq<Level>): seq<byte> {
    if levels == [] then [] else PrintAll(levels[0].items) + levels[0].end + PrintLevels(levels[1..])
  }

  /** A field in front of what remains of the innermost group. */
  lemma {:induction false} ItemInFront(u: Item, levels: seq<Level>) returns (more: seq<Level>)
    requires Valid(u) && levels != [] && Closes(levels)
    ensures |more| == |levels| && Closes(more) && PrintLevels(more) == Print(u) + PrintLevels(levels)
  {
    hide Valid, Print, IsTag;
    var (first, rest) := (levels[0], levels[1..]);
    more := [Level([u] + first.items, first.end)] + rest;
    assert more[1..] == rest && ([u] + first.items)[1..] == first.items;
    ConcatAssoc(Print(u), PrintAll(first.items), first.end);
    ConcatAssoc(Print(u), PrintAll(first.items) + first.end, PrintLevels(rest));
  }

  /** The end of the innermost group. */
  lemma {:induction false} EndInFront(end: seq<byte>, levels: seq<Level>) returns (more: seq<Level>)
    requires IsTag(end, 4) && Closes(levels)
    ensures |more| == |levels| + 1 && Closes(more) && PrintLevels(more) == end + PrintLevels(levels)
  {
    hide IsTag;
    more := [Level([], end)] + levels;
    assert more[1..] == levels;
    assert PrintAll([]) + end == end;
  }

  /** The start of a group, in front of what remains of it and of those around it. */
  lemma {:induction false} GroupInFront(tag: seq<byte>, levels: seq<Level>) returns (u: Item)
    requires IsTag(tag, 3) && levels != [] && Closes(levels)
    ensures Valid(u) && Print(u) + PrintLevels(levels[1..]) == tag + PrintLevels(levels)
  {
    hide IsTag, PrintAll, ValidAll;
    u := GroupItem(tag, levels[0].items, levels[0].end);
    ConcatAssoc(tag, Content(u), PrintLevels(levels[1..]));
  }

  /** What skip takes inside open groups closes them all. */
  lemma {:induction false} LevelsParse(s: seq<byte>, base: nat, depth: nat) returns (levels: seq<Level>)
    requires base + |s| < TWO63 && depth > 0 && SkipFrom(s, base, depth).Ok? && SkipFrom(s, base, depth).value <= |s|
    ensures |levels| == depth && Closes(levels) && PrintLevels(levels) == s[..SkipFrom(s, base, depth).value]
    decreases |s|
  {
    hide SkipBody, SkipFrom, Varint.Read, Valid, Print, PrintLevels, Closes, IsVarint;
    var total := SkipFrom(s, base, depth).value;
    SkipFromOk(s, base, depth);
    SkipFromIs(s, base, depth);
    VarintAtFront(s);
    var (wire, n) := Varint.Read(s).value;
    var (m, d) := SkipBody(wire % 8, s[n..], base + n, depth).value;
    var tag := s[..n];
    var inner: seq<Level> := [];
    if d == 0 {
      NoLevels();
    } else {
      inner := LevelsParse(s[n + m..], base + n + m, d);
    }
    assert s[..total] == s[..n + m] + s[n + m..][..total - n - m];
    GroupBounds(wire % 8, s[n..], base + n, depth);
    if wire % 8 == 4 {
      levels := EndInFront(tag, inner);
    } else if wire % 8 == 3 {
      var u := GroupInFront(tag, inner);
      OuterLevels(inner);
      levels := ItemInFront(u, inner[1..]);
    } else {
      var u := ContentParses(tag, s[n..], base + n, depth);
      assert tag + s[n..][..m] == s[..n + m];
      levels := ItemInFront(u, inner);
    }
  }

  lemma {:induction false} NoLevels()
    ensures Closes([]) && PrintLevels([]) == []
  {
  }

  lemma {:induction false} OuterLevels(levels: seq<Level>)
    requires levels != [] && Closes(levels)
    ensures Closes(levels[1..])
  {
  }

  lemma {:induction false} GroupBounds(wireType: nat, s: seq<byte>, base: nat, depth: nat)
    requires base + |s| < TWO63 && SkipBody(wireType, s, base, depth).Ok?
    ensures wireType == 3 ==> SkipBody(wireType, s, base, depth).value == (0, depth + 1)
    ensures wireType == 4 ==> depth > 0 && SkipBody(wireType, s, base, depth).value == (0, depth - 1)
  {
  }

  /** Whatever skip takes is a printed field. */
  lemma {:induction false} SkippedIsPrinted(s: seq<byte>) returns (u: Item)
    requires |s| < TWO63 && Skip(s).Ok? && Skip(s).value <= |s|
    ensures Valid(u) && Print(u) == s[..Skip(s).value]
  {
    hide SkipBody, SkipFrom, Varint.Read, Valid, Print, PrintLevels, Closes, IsVarint;
    SkipFromOk(s, 0, 0);
    SkipFromIs(s, 0, 0);
    VarintAtFront(s);
    var (wire, n) := Varint.Read(s).value;
    var (m, d) := SkipBody(wire % 8, s[n..], n, 0).value;
    GroupBounds(wire % 8, s[n..], n, 0);
    if wire % 8 == 3 {
      var levels := LevelsParse(s[n..], n, 1);
      u := GroupInFront(s[..n], levels);
      LastLevel(levels);
      assert s[..n] + s[n..][..Skip(s).value - n] == s[..Skip(s).value];
      assert Print(u) + [] == Print(u);
    } else {
      u := ContentParses(s[..n], s[n..], n, 0);
      assert s[..n] + s[n..][..m] == s[..n + m];
    }
  }

  lemma {:induction false} LastLevel(levels: seq<Level>)
    requires |levels| == 1
    ensures PrintLevels(levels[1..]) == []
  {
  }

  /** So bytes are skipped whole if and only if they are a printed field. */
  lemma {:induction false} SkipExact(s: seq<byte>)
    requires |s| < TWO63
    ensures Skip(s) == Ok(|s|) <==> exists u :: Valid(u) && Print(u) == s
  {
    hide Skip, Valid, Print;
    if Skip(s) == Ok(|s|) {
      var u := SkippedIsPrinted(s);
      assert s[..|s|] == s;
    }
    if u :| Valid(u) && Print(u) == s {
      SkipInvertsPrint(u, []);
      assert s + [] == s;
    }
  }

  // ---------------------------------------------------------------- what a decoder accepts

  function Number(u: Item): int
    requires Varint.Read(u.tag).Ok?
  {
    ToInt32(Varint.Read(u.tag).value.0 / 8)
  }

  /** A field that a decoder accepts: with a positive number, and of the wire type it has in the schema if it is there. */
  predicate Accepts(schema: Schema, u: Item) {
    && Valid(u) && Varint.Read(u.tag).Ok? && Number(u) > 0
    && match schema.Kind(Number(u))
       case None => true
       case Some(VarintKind) => u.VarintItem?
       case Some(LenKind) => u.LenItem?
  }

  /** What it is to the decoder. A field of a newer version is kept as its bytes. */
  function Meaning(schema: Schema, u: Item): Field
    requires Accepts(schema, u)
  {
    match schema.Kind(Number(u))
    case None => RawField(Print(u))
    case Some(VarintKind) => VarintField(Number(u), Varint.Read(u.digits).value.0)
    case Some(LenKind) => LenField(Number(u), u.bytes)
  }

  /** The fields of the three messages by number; what has a higher number is of a newer version, and of any wire type. */
  lemma {:induction false} FieldNumbers(u: Item)
    requires Valid(u) && Varint.Read(u.tag).Ok? && Number(u) > 0
    ensures Accepts(PidSchema, u) <==> (Number(u) <= 2 ==> u.LenItem?)
    ensures Accepts(MessageSchema, u) <==> (Number(u) == 1 ==> u.LenItem?) && (2 <= Number(u) <= 5 ==> u.VarintItem?)
    ensures Accepts(EnvelopeSchema, u) <==> (Number(u) <= 4 ==> u.LenItem?)
    ensures Accepts(PidSchema, u) ==> (Meaning(PidSchema, u) == RawField(Print(u)) <==> Number(u) >= 3)
    ensures Accepts(MessageSchema, u) ==> (Meaning(MessageSchema, u) == RawField(Print(u)) <==> Number(u) >= 6)
    ensures Accepts(EnvelopeSchema, u) ==> (Meaning(EnvelopeSchema, u) == RawField(Print(u)) <==> Number(u) >= 5)
  {
    hide Valid, Number, Print, Varint.Read;
  }

  predicate AllAccepted(schema: Schema, us: seq<Item>) {
    us == [] || (Accepts(schema, us[0]) && AllAccepted(schema, us[1..]))
  }

  function Meanings(schema: Schema, us: seq<Item>): seq<Field>
    requires AllAccepted(schema, us)
  {
    if us == [] then [] else [Meaning(schema, us[0])] + Meanings(schema, us[1..])
  }

  lemma {:induction false} TagOfItem(u: Item)
    requires Valid(u)
    ensures IsVarint(u.tag) && Varint.Read(u.tag).value.0 % 8 != 4
    ensures u.VarintItem? <==> Varint.Read(u.tag).value.0 % 8 == 0
    ensures u.LenItem? <==> Varint.Read(u.tag).value.0 % 8 == 2
  {
    hide Varint.Read;
  }

  lemma {:induction false} ReadsKnown(schema: Schema, u: Item, rest: seq<byte>, base: nat)
    requires Accepts(schema, u) && schema.Kind(Number(u)).Some? && base + |Content(u)| + |rest| < TWO63
    ensures ReadKnown(schema.Kind(Number(u)).value, Number(u), Content(u) + rest, base) == Ok((Meaning(schema, u), |Content(u)|))
  {
    hide Varint.Read, Varint.ReadDigits, Number;
    match schema.Kind(Number(u)).value
    case VarintKind => ReadFront(u.digits, rest);
    case LenKind =>
      ReadFront(u.length, u.bytes + rest);
      ConcatAssoc(u.length, u.bytes, rest);
      assert (u.length + (u.bytes + rest))[|u.length|..|u.length| + |u.bytes|] == u.bytes;
  }

  /** One round of a decoder takes such a field, whatever follows it. */
  lemma {:induction false} StepAccepts(schema: Schema, u: Item, rest: seq<byte>, base: nat)
    requires Accepts(schema, u) && base + |Print(u)| + |rest| < TWO63
    ensures Step(schema, Print(u) + rest, base) == Ok((Meaning(schema, u), |Print(u)|))
  {
    hide Skip, Varint.Read, Content, ToInt32, ReadKnown, Valid;
    TagOfItem(u);
    ConcatAssoc(u.tag, Content(u), rest);
    ReadFront(u.tag, Content(u) + rest);
    if schema.Kind(Number(u)).None? {
      SkipInvertsPrint(u, rest);
      assert (Print(u) + rest)[..|Print(u)|] == Print(u);
    } else {
      ReadsKnown(schema, u, rest, base + |u.tag|);
    }
  }

  /** And every round takes such a field. */
  lemma {:induction false} StepParses(schema: Schema, s: seq<byte>, base: nat) returns (u: Item)
    requires base + |s| < TWO63 && Step(schema, s, base).Ok?
    ensures Accepts(schema, u) && (Meaning(schema, u), |Print(u)|) == Step(schema, s, base).value
    ensures Print(u) == s[..|Print(u)|]
  {
    hide Skip, Varint.Read, Content, ToInt32, ReadKnown, Valid, IsVarint;
    var (wire, n) := Varint.Read(s).value;
    var total := Step(schema, s, base).value.1;
    VarintAtFront(s);
    var num := ToInt32(wire / 8);
    if schema.Kind(num).None? {
      u := SkippedIsPrinted(s);
      TagOfItem(u);
      ReadFront(u.tag, Content(u) + s[total..]);
      ConcatAssoc(u.tag, Content(u), s[total..]);
      assert s == Print(u) + s[total..];
    } else {
      u := KnownParses(schema.Kind(num).value, num, s[..n], s[n..], base + n);
      assert s[..n] + s[n..][..total - n] == s[..total];
    }
  }

  lemma {:induction false} KnownParses(kind: Kind, num: nat, tag: seq<byte>, s: seq<byte>, base: nat) returns (u: Item)
    requires IsTag(tag, WireType(kind)) && base + |s| < TWO63 && ReadKnown(kind, num, s, base).Ok?
    ensures Valid(u) && u.tag == tag && Print(u) == tag + s[..ReadKnown(kind, num, s, base).value.1]
    ensures match kind
      case VarintKind => u.VarintItem? && ReadKnown(kind, num, s, base).value.0 == VarintField(num, Varint.Read(u.digits).value.0)
      case LenKind => u.LenItem? && ReadKnown(kind, num, s, base).value.0 == LenField(num, u.bytes)
  {
    hide Varint.Read;
    VarintAtFront(s);
    var (v, n) := Varint.Read(s).value;
    match kind
    case VarintKind => u := VarintItem(tag, s[..n]);
    case LenKind =>
      u := LenItem(tag, s[..n], s[n..n + v]);
      assert s[..n] + s[n..n + v] == s[..n + v];
  }

  lemma {:induction false} ScanAccepts(schema: Schema, us: seq<Item>, base: nat)
    requires AllAccepted(schema, us) && base + |PrintAll(us)| < TWO63
    ensures Scan(schema, PrintAll(us), base) == Scanned(Meanings(schema, us), None)
    decreases |us|
  {
    hide Accepts, Meaning, Print, Step, Scan;
    if us == [] {
      ScanEmpty(schema, base);
    } else {
      var (first, rest) := (Print(us[0]), PrintAll(us[1..]));
      StepAccepts(schema, us[0], rest, base);
      ScanAccepts(schema, us[1..], base + |first|);
      PrintedIsSomething(us[0], schema);
      assert (first + rest)[|first|..] == rest;
      ScanStep(schema, first + rest, base, Meaning(schema, us[0]), |first|);
    }
  }

  lemma {:induction false} PrintedIsSomething(u: Item, schema: Schema)
    requires Accepts(schema, u)
    ensures Print(u) != []
  {
    TagOfItem(u);
    NotEmpty(u.tag);
  }

  lemma {:induction false} ScanParses(schema: Schema, s: seq<byte>, base: nat) returns (us: seq<Item>)
    requires base + |s| < TWO63 && Scan(schema, s, base).err.None?
    ensures AllAccepted(schema, us) && PrintAll(us) == s && Meanings(schema, us) == Scan(schema, s, base).fields
    decreases |s|
  {
    hide Accepts, Meaning, Print, Step, Scan;
    if s == [] {
      us := [];
      ScanEmpty(schema, base);
    } else {
      ScanFirst(schema, s, base);
      var (f, n) := Step(schema, s, base).value;
      ScanStep(schema, s, base, f, n);
      var u := StepParses(schema, s, base);
      var more := ScanParses(schema, s[n..], base + n);
      us := [u] + more;
      assert us[1..] == more && s[..n] + s[n..] == s;
    }
  }

  /** `fs` is what some fields mean that print as `s`. */
  ghost predicate Spells(schema: Schema, s: seq<byte>, fs: seq<Field>) {
    exists us :: AllAccepted(schema, us) && PrintAll(us) == s && Meanings(schema, us) == fs
  }

  /** A decoder accepts exactly the printed sequences of such fields, and takes them for what they mean. */
  lemma {:induction false} ScanExact(schema: Schema, s: seq<byte>, fs: seq<Field>)
    requires |s| < TWO63
    ensures Scan(schema, s, 0) == Scanned(fs, None) <==> Spells(schema, s, fs)
  {
    hide AllAccepted, PrintAll, Meanings, Scan;
    if Scan(schema, s, 0) == Scanned(fs, None) {
      var us := ScanParses(schema, s, 0);
    }
    if us :| AllAccepted(schema, us) && PrintAll(us) == s && Meanings(schema, us) == fs {
      ScanAccepts(schema, us, 0);
    }
  }

  /** The bytes it keeps aside are exactly the printed fields of newer versions. */
  lemma {:induction false} BlockExact(schema: Schema, s: seq<byte>)
    requires |s| < TWO63
    ensures IsUnknownBlock(schema, s) <==>
      exists us :: AllAccepted(schema, us) && PrintAll(us) == s && AllRaw(Meanings(schema, us))
  {
    hide AllAccepted, PrintAll, Meanings, Scan, AllRaw;
    if IsUnknownBlock(schema, s) {
      var us := ScanParses(schema, s, 0);
    }
    if us :| AllAccepted(schema, us) && PrintAll(us) == s && AllRaw(Meanings(schema, us)) {
      ScanAccepts(schema, us, 0);
    }
  }
}
