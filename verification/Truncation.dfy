/**
 Input that a decoder rejects. When it was cut short, the decoder meets the fields that are whole, and then either
 the cut was between two fields or it reports an unexpected end of input: nothing is misread, and no other error is
 reported. A field that is malformed is reported for what is wrong with it, whatever follows.
 */
module Truncation {
  import opened Machine
  import opened Wire
  import opened Grammar
  import Varint

  lemma {:induction false} DigitsCut(b: seq<byte>, k: nat, n: nat)
    requires k <= 10 && Varint.ReadDigits(b, k).Ok? && Varint.ReadDigits(b, k).value.1 == |b| && n < |b|
    ensures Varint.ReadDigits(b[..n], k) == Err(UnexpectedEOF)
    decreases |b|
  {
    if n > 0 {
      assert b[..n][1..] == b[1..][..n - 1];
      DigitsCut(b[1..], k + 1, n - 1);
    }
  }

  lemma {:induction false} VarintCut(b: seq<byte>, n: nat)
    requires IsVarint(b) && n < |b|
    ensures Varint.ReadDigits(b[..n], 0) == Err(UnexpectedEOF) && Varint.Read(b[..n]) == Err(UnexpectedEOF)
  {
    DigitsCut(b, 0, n);
  }

  /** An unexpected end, or a length that reaches beyond what is there. */
  predicate Short(r: Result<nat>, whole: nat) {
    r == Err(UnexpectedEOF) || r == Ok(whole)
  }

  lemma {:induction false} ContentCut(u: Item, n: nat, base: nat, depth: nat)
    requires Valid(u) && !u.GroupItem? && base + |Content(u)| < TWO63 && n < |Content(u)|
    ensures var r := SkipBody(Varint.Read(u.tag).value.0 % 8, Content(u)[..n], base, depth);
      r == Err(UnexpectedEOF) || r == Ok((|Content(u)|, depth))
  {
    hide Varint.Read, Varint.ReadDigits;
    match u
    case VarintItem(_, digits) => VarintCut(digits, n);
    case LenItem(_, length, bytes) =>
      if n < |length| {
        assert (length + bytes)[..n] == length[..n];
        VarintCut(length, n);
      } else {
        assert (length + bytes)[..n] == length + bytes[..n - |length|];
        ReadFront(length, bytes[..n - |length|]);
      }
    case _ =>
  }

  /** A tag, and a content of which skip has seen the end or the lack of it. */
  lemma {:induction false} RoundCut(tag: seq<byte>, s: seq<byte>, base: nat, depth: nat, m: nat)
    requires IsVarint(tag) && base + |tag| + |s| < TWO63 && m > |s|
    requires var r := SkipBody(Varint.Read(tag).value.0 % 8, s, base + |tag|, depth); r == Err(UnexpectedEOF) || r == Ok((m, depth))
    ensures Short(SkipFrom(tag + s, base, depth), |tag| + m)
    ensures depth > 0 ==> SkipFrom(tag + s, base, depth) == Err(UnexpectedEOF)
  {
    hide SkipBody, Varint.Read;
    ReadFront(tag, s);
    NotEmpty(tag);
  }

  lemma {:induction false} TagCut(tag: seq<byte>, n: nat, base: nat, depth: nat)
    requires IsVarint(tag) && n < |tag| && base + n < TWO63
    ensures SkipFrom(tag[..n], base, depth) == Err(UnexpectedEOF)
  {
    VarintCut(tag, n);
  }

  lemma {:induction false} ItemCut(u: Item, n: nat, base: nat, depth: nat)
    requires Valid(u) && base + |Print(u)| < TWO63 && n < |Print(u)|
    ensures Short(SkipFrom(Print(u)[..n], base, depth), |Print(u)|)
    ensures depth > 0 ==> SkipFrom(Print(u)[..n], base, depth) == Err(UnexpectedEOF)
    decreases u
  {
    hide SkipFrom, SkipBody, IsVarint, Content, Valid;
    TagOfItem(u);
    if n < |u.tag| {
      assert Print(u)[..n] == u.tag[..n];
      TagCut(u.tag, n, base, depth);
    } else {
      var s := Content(u)[..n - |u.tag|];
      assert Print(u)[..n] == u.tag + s;
      if u.GroupItem? {
        GroupCut(u, n - |u.tag|, base, depth);
      } else {
        ContentCut(u, n - |u.tag|, base + |u.tag|, depth);
        RoundCut(u.tag, s, base, depth, |Content(u)|);
      }
    }
  }

  lemma {:induction false} GroupCut(u: Item, n: nat, base: nat, depth: nat)
    requires Valid(u) && u.GroupItem? && base + |Print(u)| < TWO63 && n < |Content(u)|
    ensures SkipFrom(u.tag + Content(u)[..n], base, depth) == Err(UnexpectedEOF)
    decreases u, 0
  {
    hide SkipFrom, IsVarint, PrintAll, ValidAll;
    var s := Content(u)[..n];
    SkipRound(u.tag, s, base, depth, 0, depth + 1);
    assert s[0..] == s;
    ItemsCut(u.items, u.end, n, base + |u.tag|, depth + 1);
  }

  /** The rest of an open group, cut short. */
  lemma {:induction false} ItemsCut(us: seq<Item>, end: seq<byte>, n: nat, base: nat, depth: nat)
    requires ValidAll(us) && IsTag(end, 4) && depth > 0
    requires base + |PrintAll(us)| + |end| < TWO63 && n < |PrintAll(us)| + |end|
    ensures SkipFrom((PrintAll(us) + end)[..n], base, depth) == Err(UnexpectedEOF)
    decreases us
  {
    hide SkipFrom, IsVarint, Print, Valid;
    if us == [] {
      assert PrintAll(us) + end == end;
      TagCut(end, n, base, depth);
    } else {
      var (first, rest) := (Print(us[0]), PrintAll(us[1..]));
      ConcatAssoc(first, rest, end);
      if n < |first| {
        assert (first + (rest + end))[..n] == first[..n];
        ItemCut(us[0], n, base, depth);
      } else {
        var s := (rest + end)[..n - |first|];
        assert (first + (rest + end))[..n] == first + s;
        ItemsCut(us[1..], end, n - |first|, base + |first|, depth);
        SkipsItem(us[0], s, base, depth);
      }
    }
  }

  lemma {:induction false} KnownCut(schema: Schema, u: Item, n: nat, base: nat)
    requires Accepts(schema, u) && schema.Kind(Number(u)).Some? && base + |Content(u)| < TWO63 && n < |Content(u)|
    ensures ReadKnown(schema.Kind(Number(u)).value, Number(u), Content(u)[..n], base) == Err(UnexpectedEOF)
  {
    hide Varint.Read, Varint.ReadDigits, Number;
    match schema.Kind(Number(u)).value
    case VarintKind => VarintCut(u.digits, n);
    case LenKind =>
      if n < |u.length| {
        assert (u.length + u.bytes)[..n] == u.length[..n];
        VarintCut(u.length, n);
      } else {
        assert (u.length + u.bytes)[..n] == u.length + u.bytes[..n - |u.length|];
        ReadFront(u.length, u.bytes[..n - |u.length|]);
      }
  }

  /** A field that is cut short is an unexpected end of input, whatever it is and wherever it is cut. */
  lemma {:induction false} FieldCut(schema: Schema, u: Item, n: nat, base: nat)
    requires Accepts(schema, u) && base + |Print(u)| < TWO63 && n < |Print(u)|
    ensures Step(schema, Print(u)[..n], base) == Err(UnexpectedEOF)
  {
    hide SkipFrom, Varint.Read, Content, ToInt32, ReadKnown, Valid;
    TagOfItem(u);
    if n < |u.tag| {
      assert Print(u)[..n] == u.tag[..n];
      VarintCut(u.tag, n);
    } else {
      var s := Content(u)[..n - |u.tag|];
      assert Print(u)[..n] == u.tag + s;
      ReadFront(u.tag, s);
      if schema.Kind(Number(u)).None? {
        ItemCut(u, n, 0, 0);
      } else {
        KnownCut(schema, u, n - |u.tag|, base + |u.tag|);
      }
    }
  }

  lemma {:induction false} ItemsTruncated(schema: Schema, us: seq<Item>, n: nat, base: nat)
    requires AllAccepted(schema, us) && base + |PrintAll(us)| < TWO63 && n <= |PrintAll(us)|
    ensures var r := Scan(schema, PrintAll(us)[..n], base);
      && r.fields <= Meanings(schema, us) && (r.err.None? || r.err == Some(UnexpectedEOF))
      && (r.err.None? <==> exists k | 0 <= k <= |us| :: PrintAll(us[..k]) == PrintAll(us)[..n])
    decreases |us|
  {
    hide Accepts, Meaning, Print, Step, Scan;
    var s := PrintAll(us)[..n];
    if n == 0 {
      ScanEmpty(schema, base);
      assert us[..0] == [] && PrintAll([]) == s;
    } else {
      var (u, first, rest) := (us[0], Print(us[0]), PrintAll(us[1..]));
      if n < |first| {
        assert s == first[..n];
        FieldCut(schema, u, n, base);
        ScanFails(schema, s, base);
        forall k | 0 <= k <= |us|
          ensures PrintAll(us[..k]) != s
        {
          WholeFields(us, k);
        }
      } else {
        var t := rest[..n - |first|];
        assert s == first + t && s[|first|..] == t;
        StepAccepts(schema, u, t, base);
        ScanStep(schema, s, base, Meaning(schema, u), |first|);
        ItemsTruncated(schema, us[1..], n - |first|, base + |first|);
        PrintedIsSomething(u, schema);
        BoundaryShift(us, t);
      }
    }
  }

  lemma {:induction false} ScanFails(schema: Schema, s: seq<byte>, base: nat)
    requires base + |s| < TWO63 && s != [] && Step(schema, s, base) == Err(UnexpectedEOF)
    ensures Scan(schema, s, base) == Scanned([], Some(UnexpectedEOF))
  {
    hide Step;
  }

  /** Some of the fields print to nothing, or to the first and more. */
  lemma {:induction false} WholeFields(us: seq<Item>, k: nat)
    requires us != [] && k <= |us|
    ensures PrintAll(us[..k]) == if k == 0 then [] else Print(us[0]) + PrintAll(us[1..][..k - 1])
  {
    if k > 0 {
      assert us[..k][1..] == us[1..][..k - 1];
    }
  }

  /** A cut behind the first field is between two fields exactly when it is so in the rest. */
  lemma {:induction false} BoundaryShift(us: seq<Item>, t: seq<byte>)
    requires us != [] && Print(us[0]) != []
    ensures (exists k | 0 <= k <= |us| :: PrintAll(us[..k]) == Print(us[0]) + t)
       <==> (exists k | 0 <= k <= |us[1..]| :: PrintAll(us[1..][..k]) == t)
  {
    hide Print, PrintAll;
    if k :| 0 <= k <= |us| && PrintAll(us[..k]) == Print(us[0]) + t {
      WholeFields(us, k);
      SameTail(Print(us[0]), PrintAll(us[1..][..if k == 0 then 0 else k - 1]), t);
    }
    if k :| 0 <= k <= |us[1..]| && PrintAll(us[1..][..k]) == t {
      WholeFields(us, k + 1);
    }
  }

  lemma {:induction false} SameTail(a: seq<byte>, b: seq<byte>, c: seq<byte>)
    ensures a + b == a + c ==> b == c
  {
    if a + b == a + c {
      assert (a + b)[|a|..] == b && (a + c)[|a|..] == c;
    }
  }

  /** Any accepted input, cut anywhere: the whole fields in front of the cut, and at most an unexpected end of input. */
  lemma {:induction false} CutShort(schema: Schema, s: seq<byte>, n: nat)
    requires |s| < TWO63 && Scan(schema, s, 0).err.None? && n <= |s|
    ensures var r := Scan(schema, s[..n], 0);
      r.fields <= Scan(schema, s, 0).fields && (r.err.None? || r.err == Some(UnexpectedEOF))
  {
    hide Scan, AllAccepted, Meanings, PrintAll;
    var us := ScanParses(schema, s, 0);
    ItemsTruncated(schema, us, n, 0);
  }

  // ---------------------------------------------------------------- malformed fields

  lemma {:induction false} DigitsOverflow(s: seq<byte>, k: nat)
    requires k <= 10 && |s| >= 10 - k && forall i | 0 <= i < 10 - k :: s[i] >= 128
    ensures Varint.ReadDigits(s, k) == Err(IntOverflow)
    decreases |s|
  {
    if k < 10 {
      DigitsOverflow(s[1..], k + 1);
    }
  }

  /** Ten digits that all announce another one: too long for a tag, wherever it stands. */
  lemma {:induction false} TagTooLong(schema: Schema, s: seq<byte>, base: nat, depth: nat)
    requires base + |s| < TWO63 && |s| >= 10 && forall i | 0 <= i < 10 :: s[i] >= 128
    ensures Step(schema, s, base) == Err(IntOverflow) && SkipFrom(s, base, depth) == Err(IntOverflow)
  {
    DigitsOverflow(s, 0);
  }

  /** A tag that cannot stand in front of a field. */
  lemma {:induction false} TagIsWrong(schema: Schema, tag: seq<byte>, rest: seq<byte>, base: nat)
    requires IsVarint(tag) && base + |tag| + |rest| < TWO63
    ensures var wire := Varint.Read(tag).value.0;
      var (num, w, r) := (ToInt32(wire / 8), wire % 8, Step(schema, tag + rest, base));
      && (w == 4 ==> r == Err(EndGroupForNonGroup))
      && (w != 4 && num <= 0 ==> r == Err(IllegalTag(num, wire)))
      && (w != 4 && num > 0 && schema.Kind(num) == Some(VarintKind) && w != 0 ==> r == Err(WrongWireType(num, w)))
      && (w != 4 && num > 0 && schema.Kind(num) == Some(LenKind) && w != 2 ==> r == Err(WrongWireType(num, w)))
      && (w > 5 && num > 0 && schema.Kind(num).None? ==> r == Err(IllegalWireType(w)))
  {
    hide Varint.Read, ToInt32, ReadKnown;
    ReadFront(tag, rest);
    NotEmpty(tag);
  }

  /** A length that is negative as a signed 64-bit number. */
  lemma {:induction false} LengthIsNegative(schema: Schema, tag: seq<byte>, length: seq<byte>, rest: seq<byte>, base: nat)
    requires IsTag(tag, 2) && IsVarint(length) && Varint.Read(length).value.0 >= TWO63
    requires base + |tag| + |length| + |rest| < TWO63
    requires ToInt32(Varint.Read(tag).value.0 / 8) > 0 && schema.Kind(ToInt32(Varint.Read(tag).value.0 / 8)) != Some(VarintKind)
    ensures Step(schema, tag + (length + rest), base) == Err(InvalidLength)
  {
    hide Varint.Read, ToInt32;
    ReadFront(tag, length + rest);
    ReadFront(length, rest);
    NotEmpty(tag);
  }
}
