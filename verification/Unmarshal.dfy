/**
 The generated decoders, as loops over an index into the buffer. Each is proved to compute what
 the value-level decoder computes, error included, on every buffer a Go slice can hold; that the
 methods verify at all is the statement that no loop reads outside the buffer or runs forever.
 */
module Unmarshal {
  import opened Machine
  import opened Wire
  import opened Codec
  import Grammar
  import Varint

  /** A result about an unread part, as a result about the whole buffer. */
  function At<T>(start: nat, r: Result<(T, nat)>): Result<(T, nat)> {
    match r
    case Ok((v, n)) => Ok((v, start + n))
    case Err(e) => Err(e)
  }

  // ---------------------------------------------------------------- the varint loop

  /** uint64(b & 0x7F) << shift, before truncation to the word. */
  function Digit(b: byte, shift: nat): nat {
    b % 128 * Pow2(shift)
  }

  /** Bitwise or. */
  function Or(a: nat, b: nat): nat
    decreases a
  {
    if a == 0 then b
    else if b == 0 then a
    else (if a % 2 == 1 || b % 2 == 1 then 1 else 0) + 2 * Or(a / 2, b / 2)
  }

  /** Or-ing a number whose bits lie above those of another is adding it. */
  lemma {:induction false} OrIsPlus(a: nat, d: nat, k: nat)
    requires a < Pow2(k)
    ensures Or(a, d * Pow2(k)) == a + d * Pow2(k)
  {
    if a != 0 && d != 0 {
      var b := d * Pow2(k - 1);
      assert d * Pow2(k) == 2 * b;
      assert b >= 1 && (2 * b) / 2 == b && (2 * b) % 2 == 0;
      OrIsPlus(a / 2, d, k - 1);
    }
  }

  /** `word |= digit` in a word of so many bits: those of the digit that do not fit are lost. */
  function Join(bits: nat, word: nat, digit: nat): nat {
    Pow2Positive(bits);
    Or(word, digit % Pow2(bits))
  }

  lemma {:induction false} Pow2Plus(m: nat, n: nat)
    ensures Pow2(m + n) == Pow2(m) * Pow2(n)
  {
    if m != 0 {
      Pow2Plus(m - 1, n);
      assert Pow2(m) * Pow2(n) == 2 * (Pow2(m - 1) * Pow2(n));
    }
  }

  lemma {:induction false} Pow2Byte()
    ensures Pow2(8) == 256
  {
  }

  lemma {:induction false} Pow2Words()
    ensures Pow2(32) == TWO32 && Pow2(64) == TWO64
  {
    hide Pow2;
    Pow2Byte();
    Pow2Plus(8, 8);
    Pow2Plus(16, 16);
    Pow2Plus(32, 32);
  }

  lemma {:induction false} DivideBy(d: nat, rest: nat, p: nat) returns (q: nat, r: nat)
    requires rest >= 1
    ensures d * p == q * (rest * p) + r * p && (r + 1) * p <= rest * p
  {
    q, r := Quotient(d, rest);
    Expand(q, rest, r, p);
    AtMostTimes(r + 1, rest, p);
  }

  lemma {:induction false} Quotient(d: nat, rest: nat) returns (q: nat, r: nat)
    requires rest >= 1
    ensures d == q * rest + r && r < rest
  {
    q, r := d / rest, d % rest;
  }

  lemma {:induction false} AtMostTimes(a: nat, b: nat, p: nat)
    requires a <= b
    ensures a * p <= b * p
  {
  }

  lemma {:induction false} Expand(a: nat, b: nat, c: nat, p: nat)
    ensures (a * b + c) * p == a * (b * p) + c * p
  {
  }

  /** What is left of a digit in the word is a multiple of its place. */
  lemma {:induction false} DigitInWord(bits: nat, d: nat, shift: nat) returns (q: nat, r: nat)
    requires shift < bits
    ensures d * Pow2(shift) == q * Pow2(bits) + r * Pow2(shift)
    ensures (r + 1) * Pow2(shift) <= Pow2(bits)
  {
    hide Pow2;
    Pow2Plus(bits - shift, shift);
    Pow2Positive(bits - shift);
    q, r := DivideBy(d, Pow2(bits - shift), Pow2(shift));
  }

  lemma {:induction false} Pow2Positive(n: nat)
    ensures Pow2(n) >= 1
  {
    if n != 0 {
      Pow2Positive(n - 1);
    }
  }

  lemma {:induction false} SameRemainder(q: nat, r: nat, q': nat, r': nat, w: nat)
    requires r < w && r' < w && q * w + r == q' * w + r' && q <= q'
    ensures r == r'
  {
    assert q' * w == q * w + (q' - q) * w by {
      Expand(1, q, q' - q, w);
    }
    if q < q' {
      AtMostTimes(1, q' - q, w);
    }
  }

  lemma {:induction false} Modulo(q: nat, r: nat, w: nat)
    requires r < w
    ensures (q * w + r) % w == r
  {
    var q', r' := Quotient(q * w + r, w);
    var x := q * w + r;
    assert x == (x / w) * w + x % w;
    if q <= x / w {
      SameRemainder(q, r, x / w, x % w, w);
    } else {
      SameRemainder(x / w, x % w, q, r, w);
    }
  }

  /** The digit lies above what the word holds, and what it has in the word is added. */
  lemma {:induction false} JoinInside(bits: nat, acc: nat, d: nat, shift: nat)
    requires shift < bits && acc < Pow2(shift)
    ensures acc < Pow2(bits) && Join(bits, acc, d * Pow2(shift)) == (acc + d * Pow2(shift)) % Pow2(bits)
  {
    hide Pow2, Or;
    var q, r := DigitInWord(bits, d, shift);
    var p := Pow2(shift);
    assert (r + 1) * p == r * p + p;
    Modulo(q, r * p, Pow2(bits));
    Modulo(q, acc + r * p, Pow2(bits));
    OrIsPlus(acc, r, shift);
  }

  lemma {:induction false} MultiplesVanish(acc: nat, k: nat, w: nat)
    requires w >= 1
    ensures k * w % w == 0 && (acc + k * w) % w == acc % w
  {
    Modulo(k, 0, w);
    var a, r := Quotient(acc, w);
    Modulo(a, r, w);
    Expand(1, a, k, w);
    Modulo(a + k, r, w);
  }

  /** A digit above the word is lost altogether. */
  lemma {:induction false} JoinOutside(bits: nat, acc: nat, d: nat, shift: nat)
    requires shift >= bits
    ensures Pow2(bits) >= 1
    ensures Join(bits, acc % Pow2(bits), d * Pow2(shift)) == (acc + d * Pow2(shift)) % Pow2(bits)
  {
    hide Pow2, Or;
    var w := Pow2(bits);
    Pow2Positive(bits);
    Pow2Plus(shift - bits, bits);
    Expand(d, Pow2(shift - bits), 0, w);
    MultiplesVanish(acc, d * Pow2(shift - bits), w);
    OrNothing(acc % w);
  }

  lemma {:induction false} OrNothing(a: nat)
    ensures Or(a, 0) == a
  {
  }

  /** Digits read so far, `acc`, and the digits still to read, `next`, scaled by the current shift. */
  function Scaled(acc: nat, shift: nat, read: nat, next: Result<(nat, nat)>): Result<(nat, nat)> {
    match next
    case Ok((v, n)) => Ok((acc + Pow2(shift) * v, read + n))
    case Err(e) => Err(e)
  }

  lemma {:induction false} Pow2Seven(n: nat)
    ensures Pow2(n + 7) == 128 * Pow2(n)
  {
    var p := Pow2(n);
    assert Pow2(n + 1) == 2 * p;
    assert Pow2(n + 2) == 4 * p;
    assert Pow2(n + 3) == 8 * p;
    assert Pow2(n + 4) == 16 * p;
    assert Pow2(n + 5) == 32 * p;
    assert Pow2(n + 6) == 64 * p;
  }

  /** One round of the loop: the word holds the sum of the digits read so far, modulo its size. */
  lemma {:induction false} JoinDigit(bits: nat, acc: nat, b: byte, shift: nat)
    requires acc < Pow2(shift)
    ensures Pow2(bits) >= 1
    ensures Join(bits, acc % Pow2(bits), Digit(b, shift)) == (acc + Digit(b, shift)) % Pow2(bits)
    ensures acc + Digit(b, shift) < Pow2(shift + 7)
  {
    hide Pow2, Join;
    Pow2Positive(bits);
    if shift < bits {
      JoinInside(bits, acc, b % 128, shift);
      Modulo(0, acc, Pow2(bits));
    } else {
      JoinOutside(bits, acc, b % 128, shift);
    }
    DigitFits(acc, b % 128, shift);
  }

  lemma {:induction false} DigitFits(acc: nat, d: nat, shift: nat)
    requires acc < Pow2(shift) && d < 128
    ensures acc + d * Pow2(shift) < Pow2(shift + 7)
  {
    hide Pow2;
    Pow2Seven(shift);
    AtMostTimes(d, 127, Pow2(shift));
  }

  /** One digit moves from what is still to read to what has been read. */
  lemma {:induction false} ScaledStep(acc: nat, shift: nat, read: nat, s: seq<byte>, i: nat, k: nat)
    requires i < |s| && k < 10
    ensures var whole := Scaled(acc, shift, read, Varint.ReadDigits(s[i..], k));
      if s[i] < 128 then whole == Ok((acc + Digit(s[i], shift), read + 1))
      else whole == Scaled(acc + Digit(s[i], shift), shift + 7, read + 1, Varint.ReadDigits(s[i + 1..], k + 1))
  {
    var d, p := s[i] % 128, Pow2(shift);
    if s[i] >= 128 {
      assert s[i..][1..] == s[i + 1..] && d == s[i] - 128;
      Pow2Seven(shift);
      match Varint.ReadDigits(s[i + 1..], k + 1)
      case Ok((v, n)) =>
        assert p * (d + 128 * v) == d * p + 128 * p * v;
      case Err(_) =>
    } else {
      assert p * d == d * p;
    }
  }

  lemma {:induction false} ScaledStart(digits: Result<(nat, nat)>)
    ensures Scaled(0, 0, 0, digits) == digits
  {
  }

  lemma {:induction false} ScaledStops(acc: nat, shift: nat, read: nat, s: seq<byte>, i: nat, k: nat)
    requires i <= |s| && k <= 10
    ensures k == 10 ==> Scaled(acc, shift, read, Varint.ReadDigits(s[i..], k)) == Err(IntOverflow)
    ensures k < 10 && i == |s| ==> Scaled(acc, shift, read, Varint.ReadDigits(s[i..], k)) == Err(UnexpectedEOF)
  {
  }

  /** A reading of whole numbers, as a word of so many bits holds it. */
  function InWord(bits: nat, r: Result<(nat, nat)>): Result<(nat, nat)> {
    match r
    case Ok((v, n)) =>
      Pow2Positive(bits);
      Ok((v % Pow2(bits), n))
    case Err(e) => Err(e)
  }

  /** The varint loop, inlined many times in the source, with an accumulator of so many bits. */
  method ReadWord(bits: nat, s: seq<byte>, start: nat) returns (r: Result<(nat, nat)>)
    requires start <= |s|
    ensures r == At(start, InWord(bits, Varint.ReadDigits(s[start..], 0)))
  {
    hide Varint.ReadDigits, Scaled, Digit, Join, Pow2;
    Pow2Positive(0);
    Pow2Positive(bits);
    Modulo(0, 0, Pow2(bits));
    var word, shift, i := 0, 0, start;
    ghost var acc: nat, k: nat := 0, 0;
    ghost var whole := Varint.ReadDigits(s[start..], 0);
    ScaledStart(whole);
    while shift < 64
      invariant start <= i <= |s| && k <= 10 && shift == 7 * k
      invariant acc < Pow2(shift) && word == acc % Pow2(bits)
      invariant whole == Scaled(acc, shift, i - start, Varint.ReadDigits(s[i..], k))
      decreases 70 - shift
    {
      ScaledStops(acc, shift, i - start, s, i, k);
      if i >= |s| {
        return Err(UnexpectedEOF);
      }
      ScaledStep(acc, shift, i - start, s, i, k);
      JoinDigit(bits, acc, s[i], shift);
      var b := s[i];
      i := i + 1;
      word := Join(bits, word, Digit(b, shift));
      acc := acc + Digit(b, shift);
      if b < 128 {
        return Ok((word, i));
      }
      shift, k := shift + 7, k + 1;
    }
    ScaledStops(acc, shift, i - start, s, i, k);
    return Err(IntOverflow);
  }

  /** With a uint64. */
  method ReadVarint(s: seq<byte>, start: nat) returns (r: Result<(uint64, nat)>)
    requires start <= |s|
    ensures r == At(start, Varint.Read(s[start..]))
  {
    hide Varint.ReadDigits, Pow2;
    Pow2Words();
    var word := ReadWord(64, s, start);
    match word
    case Ok((v, i)) => r := Ok((v, i));
    case Err(e) => r := Err(e);
  }

  function Signed(r: Result<(uint64, nat)>): Result<(int32, nat)> {
    match r
    case Ok((v, n)) => Ok((ToInt32(v), n))
    case Err(e) => Err(e)
  }

  /** With an int32, as the indices of a Message are read: what it holds is the uint64, truncated. */
  method ReadIndex(s: seq<byte>, start: nat) returns (r: Result<(int32, nat)>)
    requires start <= |s|
    ensures r == At(start, Signed(Varint.Read(s[start..])))
  {
    hide Varint.ReadDigits, Pow2;
    Pow2Words();
    var word := ReadWord(32, s, start);
    match word
    case Ok((v, i)) =>
      ghost var whole := Varint.ReadDigits(s[start..], 0).value.0;
      LowWord(whole);
      r := Ok((if v < TWO31 then v else v - TWO32, i));
    case Err(e) => r := Err(e);
  }

  /** The low 32 bits of the low 64 bits are the low 32 bits. */
  lemma {:induction false} LowWord(x: nat)
    ensures x % TWO64 % TWO32 == x % TWO32
  {
    var q, r := Quotient(x, TWO64);
    var q', r' := Quotient(r, TWO32);
    assert TWO64 == TWO32 * TWO32;
    Modulo(q, r, TWO64);
    Modulo(q', r', TWO32);
    assert x == (q * TWO32 + q') * TWO32 + r' by {
      Expand(q, TWO32, q', TWO32);
    }
    Modulo(q * TWO32 + q', r', TWO32);
  }

  // ---------------------------------------------------------------- skip and fields

  function Shifted(start: nat, r: Result<nat>): Result<nat> {
    match r
    case Ok(n) => Ok(start + n)
    case Err(e) => Err(e)
  }

  /** One iteration of the skip loop, read off its definition. */
  lemma {:induction false} SkipCases(s: seq<byte>, i: nat, depth: nat, wire: uint64, j: nat)
    requires i < j <= |s| < TWO63 && Varint.Read(s[i..]) == Ok((wire, j - i))
    ensures match SkipBody(wire % 8, s[j..], j, depth) {
      case Err(e) => SkipFrom(s[i..], i, depth) == Err(e)
      case Ok((m, d)) =>
        if d == 0 then SkipFrom(s[i..], i, depth) == Ok(j + m - i)
        else if j + m > |s| then SkipFrom(s[i..], i, depth) == Err(UnexpectedEOF)
        else SkipFrom(s[i..], i, depth) == Shifted(j + m - i, SkipFrom(s[j + m..], j + m, d))
    }
  {
    hide SkipBody, Varint.Read;
    assert s[i..][j - i..] == s[j..];
    match SkipBody(wire % 8, s[j..], j, depth) {
      case Err(_) =>
      case Ok((m, d)) =>
        if j + m <= |s| {
          assert s[i..][j - i + m..] == s[j + m..];
        }
    }
  }

  lemma {:induction false} SkipAtEnd(s: seq<byte>, depth: nat)
    requires |s| < TWO63
    ensures s[0..] == s && SkipFrom(s[|s|..], |s|, depth) == Err(UnexpectedEOF)
  {
  }

  /** skip: the end of one field, over nested groups. */
  method SkipField(s: seq<byte>) returns (r: Result<nat>)
    requires |s| < TWO63
    ensures r == Skip(s)
    ensures r == Ok(|s|) <==> exists u :: Grammar.Valid(u) && Grammar.Print(u) == s
  {
    hide Varint.Read, SkipFrom, SkipBody, Grammar.Valid, Grammar.Print;
    var i, depth := 0, 0;
    Grammar.SkipExact(s);
    SkipAtEnd(s, 0);
    while i < |s|
      invariant 0 <= i <= |s|
      invariant Skip(s) == Shifted(i, SkipFrom(s[i..], i, depth))
    {
      var tag := ReadVarint(s, i);
      if tag.Err? {
        SkipTagError(s, i, depth);
        return Err(tag.error);
      }
      var wire, j := tag.value.0, tag.value.1;
      SkipCases(s, i, depth, wire, j);
      var body := SkipContent(s, j, wire % 8, depth);
      if body.Err? {
        return Err(body.error);
      }
      if body.value.1 == 0 {
        return Ok(body.value.0);
      }
      if body.value.0 > |s| {
        return Err(UnexpectedEOF);
      }
      i, depth := body.value.0, body.value.1;
    }
    SkipAtEnd(s, depth);
    return Err(UnexpectedEOF);
  }

  lemma {:induction false} SkipTagError(s: seq<byte>, i: nat, depth: nat)
    requires i < |s| < TWO63 && Varint.Read(s[i..]).Err?
    ensures SkipFrom(s[i..], i, depth) == Err(Varint.Read(s[i..]).error)
  {
    hide Varint.Read;
  }

  /** The switch of skip on the wire type: the next index and the group depth. */
  method SkipContent(s: seq<byte>, j: nat, wireType: nat, depth: nat) returns (r: Result<(nat, nat)>)
    requires j <= |s| < TWO63
    ensures SkipBody(wireType, s[j..], j, depth).Err? ==> r == Err(SkipBody(wireType, s[j..], j, depth).error)
    ensures SkipBody(wireType, s[j..], j, depth).Ok? ==>
      r == Ok((j + SkipBody(wireType, s[j..], j, depth).value.0, SkipBody(wireType, s[j..], j, depth).value.1))
  {
    hide Varint.ReadDigits;
    var next, d := j, depth;
    match wireType {
      case 0 =>
        var v := ReadVarint(s, j);
        if v.Err? {
          return Err(v.error);
        }
        next := v.value.1;
      case 1 => next := ToInt64(j + 8);
      case 2 =>
        var v := ReadVarint(s, j);
        if v.Err? {
          return Err(v.error);
        }
        if ToInt64(v.value.0) < 0 {
          return Err(InvalidLength);
        }
        next := ToInt64(v.value.1 + ToInt64(v.value.0));
      case 3 => d := depth + 1;
      case 4 =>
        if depth == 0 {
          return Err(UnexpectedEndOfGroup);
        }
        d := depth - 1;
      case 5 => next := ToInt64(j + 4);
      case _ => return Err(IllegalWireType(wireType));
    }
    if next < 0 {
      return Err(InvalidLength);
    }
    return Ok((next, d));
  }

  /** A length-delimited content whose length prefix starts at `j`. */
  method ReadContent(s: seq<byte>, j: nat) returns (r: Result<(seq<byte>, nat)>)
    requires j <= |s| < TWO63
    ensures r == At(j, ReadBytes(s[j..], j))
  {
    hide Varint.ReadDigits, Varint.Read;
    var prefix := ReadVarint(s, j);
    if prefix.Err? {
      return Err(prefix.error);
    }
    var length, k := ToInt64(prefix.value.0), prefix.value.1;
    if length < 0 {
      return Err(InvalidLength);
    }
    var post := ToInt64(k + length);
    if post < 0 {
      return Err(InvalidLength);
    }
    if post > |s| {
      return Err(UnexpectedEOF);
    }
    assert s[j..][k - j..post - j] == s[k..post];
    return Ok((s[k..post], post));
  }

  /** One iteration of a decoder loop. */
  method NextField(schema: Schema, s: seq<byte>, i: nat) returns (r: Result<(Field, nat)>)
    requires i < |s| < TWO63
    ensures r == At(i, Step(schema, s[i..], i))
  {
    hide Varint.Read, ReadBytes, Skip;
    var tag := ReadVarint(s, i);
    if tag.Err? {
      return Err(tag.error);
    }
    var wire, j := tag.value.0, tag.value.1;
    var num, wireType := ToInt32(wire / 8), wire % 8;
    if wireType == 4 {
      return Err(EndGroupForNonGroup);
    }
    if num <= 0 {
      return Err(IllegalTag(num, wire));
    }
    var kind := schema.Kind(num);
    if kind.None? {
      var skipped := SkipField(s[i..]);
      if skipped.Err? {
        return Err(skipped.error);
      }
      var post := ToInt64(i + skipped.value);
      if post < 0 {
        return Err(InvalidLength);
      }
      if post > |s| {
        return Err(UnexpectedEOF);
      }
      assert s[i..][..post - i] == s[i..post];
      return Ok((RawField(s[i..post]), post));
    }
    assert s[i..][j - i..] == s[j..];
    if wireType != WireType(kind.value) {
      return Err(WrongWireType(num, wireType));
    }
    if kind.value == VarintKind {
      var v := ReadVarint(s, j);
      if v.Err? {
        return Err(v.error);
      }
      return Ok((VarintField(num, v.value.0), v.value.1));
    }
    var content := ReadContent(s, j);
    if content.Err? {
      return Err(content.error);
    }
    return Ok((LenField(num, content.value.0), content.value.1));
  }

  lemma {:induction false} ScanNext(schema: Schema, s: seq<byte>, i: nat)
    requires i < |s| < TWO63
    ensures Step(schema, s[i..], i).Err? ==> Scan(schema, s[i..], i) == Scanned([], Some(Step(schema, s[i..], i).error))
    ensures Step(schema, s[i..], i).Ok? ==>
      var (f, n) := Step(schema, s[i..], i).value;
      && Scan(schema, s[i..], i).fields == [f] + Scan(schema, s[i + n..], i + n).fields
      && Scan(schema, s[i..], i).fields[0] == f
      && Scan(schema, s[i..], i).fields[1..] == Scan(schema, s[i + n..], i + n).fields
      && Scan(schema, s[i..], i).err == Scan(schema, s[i + n..], i + n).err
  {
    hide Step;
    if Step(schema, s[i..], i).Ok? {
      var (f, n) := Step(schema, s[i..], i).value;
      assert s[i..][n..] == s[i + n..];
      ScanStep(schema, s[i..], i, f, n);
    }
  }

  lemma {:induction false} ScanEnds(schema: Schema, s: seq<byte>)
    requires |s| < TWO63
    ensures s[0..] == s
    ensures Scan(schema, s[|s|..], |s|) == Scanned([], None)
  {
  }

  /** UnmarshalVT of a PID. */
  method UnmarshalPid(p0: Pid, s: seq<byte>) returns (r: Result<Pid>)
    requires |s| < TWO63
    ensures r == DecodePid(p0, s)
  {
    hide Step, Scan, ApplyPid;
    var p, i := p0, 0;
    ScanEnds(PidSchema, s);
    while i < |s|
      invariant 0 <= i <= |s|
      invariant Scan(PidSchema, s, 0).err == Scan(PidSchema, s[i..], i).err
      invariant FoldPid(p0, Scan(PidSchema, s, 0).fields) == FoldPid(p, Scan(PidSchema, s[i..], i).fields)
    {
      ScanNext(PidSchema, s, i);
      var field := NextField(PidSchema, s, i);
      if field.Err? {
        return Err(field.error);
      }
      p := ApplyPid(p, field.value.0);
      i := field.value.1;
    }
    return Ok(p);
  }

  /** UnmarshalVT of a Message. */
  method UnmarshalMessage(m0: Message, s: seq<byte>) returns (r: Result<Message>)
    requires |s| < TWO63
    ensures r == DecodeMessage(m0, s)
  {
    hide Step, Scan, ApplyMessage;
    var m, i := m0, 0;
    ScanEnds(MessageSchema, s);
    while i < |s|
      invariant 0 <= i <= |s|
      invariant Scan(MessageSchema, s, 0).err == Scan(MessageSchema, s[i..], i).err
      invariant FoldMessage(m0, Scan(MessageSchema, s, 0).fields) == FoldMessage(m, Scan(MessageSchema, s[i..], i).fields)
    {
      ScanNext(MessageSchema, s, i);
      var field := NextField(MessageSchema, s, i);
      if field.Err? {
        return Err(field.error);
      }
      m := ApplyMessage(m, field.value.0);
      i := field.value.1;
    }
    return Ok(m);
  }

  /** What an Envelope decoder does with one field, nested decoders included. */
  method AddField(e: Envelope, f: Field) returns (r: Result<Envelope>)
    ensures r == ApplyEnvelope(e, f)
  {
    hide DecodePid, DecodeMessage;
    if !f.LenField? {
      return Ok(if f.RawField? then e.(unknown := e.unknown + f.bytes) else e);
    }
    if |f.bytes| >= TWO63 {
      return Err(InvalidLength);
    }
    if f.num == 1 {
      return Ok(e.(typeNames := e.typeNames + [f.bytes]));
    } else if f.num == 2 || f.num == 3 {
      var p := UnmarshalPid(NO_PID, f.bytes);
      if p.Err? {
        return Err(p.error);
      }
      return Ok(if f.num == 2 then e.(targets := e.targets + [p.value]) else e.(senders := e.senders + [p.value]));
    }
    var m := UnmarshalMessage(NO_MESSAGE, f.bytes);
    if m.Err? {
      return Err(m.error);
    }
    return Ok(e.(messages := e.messages + [Some(m.value)]));
  }

  /** UnmarshalVT of an Envelope. */
  method UnmarshalEnvelope(e0: Envelope, s: seq<byte>) returns (r: Result<Envelope>)
    requires |s| < TWO63
    ensures r == DecodeEnvelope(e0, s)
  {
    hide Step, Scan, ApplyEnvelope;
    var e, i := e0, 0;
    ScanEnds(EnvelopeSchema, s);
    while i < |s|
      invariant 0 <= i <= |s|
      invariant Scan(EnvelopeSchema, s, 0).err == Scan(EnvelopeSchema, s[i..], i).err
      invariant FoldEnvelope(e0, Scan(EnvelopeSchema, s, 0).fields) == FoldEnvelope(e, Scan(EnvelopeSchema, s[i..], i).fields)
    {
      ScanNext(EnvelopeSchema, s, i);
      var field := NextField(EnvelopeSchema, s, i);
      if field.Err? {
        return Err(field.error);
      }
      var next := AddField(e, field.value.0);
      if next.Err? {
        return Err(next.error);
      }
      e := next.value;
      i := field.value.1;
    }
    return Ok(e);
  }
}
