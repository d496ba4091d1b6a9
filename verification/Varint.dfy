/**
 Base 128 varints: the canonical encoding, the decoder with its ten-byte limit,
 and the size formula used by the generated code.
 */
module Varint {
  import opened Machine

  /** bits.Len64: the number of binary digits of `x`, zero for zero. */
  function BitLen(x: nat): nat {
    if x == 0 then 0 else 1 + BitLen(x / 2)
  }

  /** The size formula of the generated code: (bits.Len64(x|1) + 6) / 7. */
  function Sov(x: uint64): nat {
    (BitLen(if x % 2 == 0 then x + 1 else x) + 6) / 7
  }

  /** Little-endian base 128 digits, the high bit set on all but the last. */
  function Encode(v: nat): (bytes: seq<byte>)
    ensures |bytes| >= 1
  {
    if v < 128 then [v] else [v % 128 + 128] + Encode(v / 128)
  }

  /**
   Reads digits from the front of `s`, when `k` of them have been read already: the value, not
   truncated, and the number of bytes consumed. The overflow test comes before the end-of-input
   test, as in the decoder loops.
   */
  function ReadDigits(s: seq<byte>, k: nat): (r: Result<(nat, nat)>)
    requires k <= 10
    ensures r.Ok? ==> 0 < r.value.1 <= |s| && r.value.1 <= 10 - k
    decreases |s|
  {
    if k == 10 then Err(IntOverflow)
    else if s == [] then Err(UnexpectedEOF)
    else if s[0] < 128 then Ok((s[0], 1))
    else
      var (v, n) :- ReadDigits(s[1..], k + 1);
      Ok((s[0] - 128 + 128 * v, n + 1))
  }

  /** A varint accumulated in a 64-bit word, and the number of bytes consumed. */
  function Read(s: seq<byte>): (r: Result<(uint64, nat)>)
    ensures r.Ok? ==> 0 < r.value.1 <= |s|
  {
    var (v, n) :- ReadDigits(s, 0);
    Ok((v % TWO64, n))
  }

  lemma {:induction false} BitLenSeven(x: nat)
    requires x >= 128
    ensures BitLen(x) == 7 + BitLen(x / 128)
  {
    var a, b := x / 2, x / 4;
    var c, d := x / 8, x / 16;
    var e, f := x / 32, x / 64;
    assert a / 2 == b && b / 2 == c && c / 2 == d && d / 2 == e && e / 2 == f && f / 2 == x / 128;
    assert BitLen(x) == 1 + BitLen(a) && BitLen(a) == 1 + BitLen(b);
    assert BitLen(b) == 1 + BitLen(c) && BitLen(c) == 1 + BitLen(d);
    assert BitLen(d) == 1 + BitLen(e) && BitLen(e) == 1 + BitLen(f);
  }

  lemma {:induction false} BitLenAtMost(x: nat, n: nat)
    requires x < Pow2(n)
    ensures BitLen(x) <= n
  {
    if x != 0 {
      BitLenAtMost(x / 2, n - 1);
    }
  }

  lemma {:induction false} SovDigit(v: uint64)
    requires v < 128
    ensures Sov(v) == 1
  {
    var odd := if v % 2 == 0 then v + 1 else v;
    assert Pow2(7) == 128;
    BitLenAtMost(odd, 7);
    assert BitLen(odd) >= 1;
  }

  lemma {:induction false} SovStep(v: uint64)
    requires v >= 128
    ensures Sov(v) == 1 + Sov(v / 128)
  {
    var odd := if v % 2 == 0 then v + 1 else v;
    BitLenSeven(odd);
    BitLenOrOne(v / 128);
    assert odd / 128 == v / 128;
  }

  /** The size formula counts base 128 digits exactly. */
  lemma {:induction false} SovIsLength(v: uint64)
    ensures Sov(v) == |Encode(v)|
  {
    hide Sov;
    if v < 128 {
      SovDigit(v);
    } else {
      SovStep(v);
      SovIsLength(v / 128);
    }
  }

  /** Setting the low bit of a non-zero number does not change its length. */
  lemma {:induction false} BitLenOrOne(x: nat)
    requires x >= 1
    ensures BitLen(if x % 2 == 0 then x + 1 else x) == BitLen(x)
  {
    assert (x + 1) / 2 == x / 2 || x % 2 == 1;
  }

  /** The decoder reads back a canonical encoding, whatever follows it. */
  lemma {:induction false} ReadDigitsEncode(v: nat, rest: seq<byte>, k: nat)
    requires k < 10 && v < Pow128(10 - k)
    ensures ReadDigits(Encode(v) + rest, k) == Ok((v, |Encode(v)|))
    decreases 10 - k
  {
    if v >= 128 {
      assert (Encode(v) + rest)[1..] == Encode(v / 128) + rest;
      ReadDigitsEncode(v / 128, rest, k + 1);
    }
  }

  function Pow128(n: nat): nat {
    if n == 0 then 1 else 128 * Pow128(n - 1)
  }

  lemma {:induction false} ReadEncode(v: uint64, rest: seq<byte>)
    ensures Read(Encode(v) + rest) == Ok((v, |Encode(v)|))
  {
    assert Pow128(10) == 0x40_0000_0000_0000_0000;
    ReadDigitsEncode(v, rest, 0);
  }

  /** A successful read depends only on the bytes it consumed. */
  lemma {:induction false} ReadDigitsLocal(s: seq<byte>, k: nat, rest: seq<byte>)
    requires k <= 10 && ReadDigits(s, k).Ok?
    ensures ReadDigits(s[..ReadDigits(s, k).value.1] + rest, k) == ReadDigits(s, k)
    decreases |s|
  {
    var n := ReadDigits(s, k).value.1;
    if s[0] >= 128 {
      assert (s[..n] + rest)[1..] == s[1..][..n - 1] + rest;
      ReadDigitsLocal(s[1..], k + 1, rest);
    }
  }

  /** The same, for any cut at or after the end of the varint. */
  lemma {:induction false} ReadLocal(s: seq<byte>, n: nat, rest: seq<byte>)
    requires Read(s).Ok? && Read(s).value.1 <= n <= |s|
    ensures ReadDigits(s[..n] + rest, 0) == ReadDigits(s, 0)
    ensures Read(s[..n] + rest) == Read(s)
  {
    var m := ReadDigits(s, 0).value.1;
    assert s[..m] + (s[m..n] + rest) == s[..n] + rest;
    ReadDigitsLocal(s, 0, s[m..n] + rest);
  }

  /** No encoding of a value is shorter than the canonical one. */
  lemma {:induction false} EncodeIsShortest(s: seq<byte>, k: nat, w: nat)
    requires k <= 10 && ReadDigits(s, k).Ok? && w <= ReadDigits(s, k).value.0
    ensures |Encode(w)| <= ReadDigits(s, k).value.1
    decreases |s|
  {
    if s[0] >= 128 && w >= 128 {
      EncodeIsShortest(s[1..], k + 1, w / 128);
    }
  }
}
