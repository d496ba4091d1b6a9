/**
 Machine integers as the Go code sees them on a 64-bit platform, and the result
 type shared by the wire modules. Every place where the source wraps, truncates
 or reinterprets an integer is written with `ToInt32` or `ToInt64`.
 */
module Machine {

  type byte = x: int | 0 <= x < 256

  const TWO31: int := 0x8000_0000
  const TWO32: int := 0x1_0000_0000
  const TWO63: int := 0x8000_0000_0000_0000
  const TWO64: int := 0x1_0000_0000_0000_0000

  type uint64 = x: int | 0 <= x < TWO64
  type int32 = x: int | -TWO31 <= x < TWO31

  /** The signed reading of a 64-bit word. */
  function ToInt64(x: uint64): int {
    if x < TWO63 then x else x - TWO64
  }

  /** The signed 32-bit value with the same low 32 bits as `x`. */
  function ToInt32(x: int): int32 {
    var low := x % TWO32;
    if low < TWO31 then low else low - TWO32
  }

  /** The conversion uint64(v) of a signed 32-bit value. */
  function Int32ToUint64(v: int32): uint64 {
    if v < 0 then v + TWO64 else v
  }

  /** Sign extension to 64 bits and truncation back to 32 bits cancel out. */
  lemma {:induction false} Int32ThroughUint64(v: int32)
    ensures ToInt32(Int32ToUint64(v)) == v
  {
    if v < 0 {
      assert v + TWO64 == (v + TWO32) + TWO32 * (TWO32 - 1);
    }
  }

  datatype Option<+T> = None | Some(value: T)

  datatype Error =
    | IntOverflow
    | UnexpectedEOF
    | InvalidLength
    | UnexpectedEndOfGroup
    | EndGroupForNonGroup
    | IllegalTag(num: int, wire: int)
    | WrongWireType(num: int, wireType: int)
    | IllegalWireType(wireType: int)

  datatype Result<+T> = Ok(value: T) | Err(error: Error) {
    predicate IsFailure() {
      Err?
    }

    function PropagateFailure<U>(): Result<U>
      requires Err?
    {
      Err(error)
    }

    function Extract(): T
      requires Ok?
    {
      value
    }
  }

  function Pow2(n: nat): nat {
    if n == 0 then 1 else 2 * Pow2(n - 1)
  }

  lemma {:induction false} ConcatAssoc<T>(a: seq<T>, b: seq<T>, c: seq<T>)
    ensures a + (b + c) == (a + b) + c
  {
  }
}
