/**
 The growable circular buffer behind an inbox. One slot, at `head`, is always empty; the live
 window starts just after it. `Contents` is the deque the buffer stands for.
 */
module RingBuffer {
  import opened Machine

  /** The index `i` positions after `head`, going round: (head + i) % mod, for i < mod. */
  function Slot(head: nat, i: nat, mod: nat): (k: nat)
    requires head < mod && i <= mod
    ensures k < mod
  {
    if head + i < mod then head + i else head + i - mod
  }

  lemma {:induction false} Quotient(x: nat, q: nat, r: nat, mod: nat)
    requires x == q * mod + r && r < mod && x < 2 * mod
    ensures q == 0 || q == 1
  {
    if q >= 2 {
      AtLeastTwice(q, mod);
    }
  }

  lemma {:induction false} AtLeastTwice(q: nat, mod: nat)
    requires q >= 2
    ensures q * mod >= 2 * mod
  {
    assert q * mod == 2 * mod + (q - 2) * mod;
  }

  /** The modulus of the source, for an index that goes round at most once. */
  lemma {:induction false} WrapAround(head: nat, i: nat, mod: nat)
    requires head < mod && i <= mod
    ensures (head + i) % mod == Slot(head, i, mod)
  {
    var x := head + i;
    Quotient(x, x / mod, x % mod, mod);
  }

  /** The `len` live elements of a circular array, in order. */
  function Window<T>(items: seq<T>, head: nat, len: nat): (r: seq<T>)
    requires head < |items| && len < |items|
    ensures |r| == len && forall i | 0 <= i < len :: r[i] == items[Slot(head, i + 1, |items|)]
  {
    seq(len, i requires 0 <= i < len => items[Slot(head, i + 1, |items|)])
  }

  /** Every slot outside the live window holds the zero value. */
  ghost predicate Blank<T>(items: seq<T>, head: nat, len: nat, zero: T)
    requires head < |items| && len < |items|
  {
    && items[head] == zero
    && forall i | len < i < |items| :: items[Slot(head, i, |items|)] == zero
  }

  // ---------------------------------------------------------------- what the operations do

  /** Negative counts are not among the operations of a run: PopN panics on them. */
  datatype Op<T> = Push(item: T) | PushFront(item: T) | Pop | PopN(n: nat) | Clear

  /** The deque, the capacity, and what it took: pushes, the longest length, slots copied by growing. */
  datatype Account<T> = Account(contents: seq<T>, mod: nat, pushes: nat, peak: nat, copied: nat)

  function Pushed<T>(a: Account<T>, contents: seq<T>, copies: nat): Account<T> {
    var full := |a.contents| + 1 == a.mod;
    Account(
      contents,
      if full then 2 * a.mod else a.mod,
      a.pushes + 1,
      if |contents| > a.peak then |contents| else a.peak,
      a.copied + if full then copies else 0)
  }

  function Least(n: nat, len: nat): nat {
    if n >= len then len else n
  }

  /** A full buffer doubles: Push copies every slot, PushFront every element. */
  function Do<T>(a: Account<T>, op: Op<T>): Account<T> {
    match op
    case Push(item) => Pushed(a, a.contents + [item], a.mod)
    case PushFront(item) => Pushed(a, [item] + a.contents, |a.contents|)
    case Pop => a.(contents := a.contents[Least(1, |a.contents|)..])
    case PopN(n) => a.(contents := a.contents[Least(n, |a.contents|)..])
    case Clear => a.(contents := [])
  }

  function Run<T>(a: Account<T>, ops: seq<Op<T>>): Account<T>
    decreases |ops|
  {
    if ops == [] then a else Run(Do(a, ops[0]), ops[1..])
  }

  /**
   The capacity is the initial size doubled some number of times, and growth has copied as many slots as were
   added, up to one less for each time.
   */
  ghost predicate Doubled(size: nat, mod: nat, copied: nat) {
    exists d: nat :: mod == size * Pow2(d) && mod - size - d <= copied <= mod - size
  }

  ghost predicate Bounded<T>(size: nat, a: Account<T>) {
    && Doubled(size, a.mod, a.copied)
    && |a.contents| < a.mod && |a.contents| <= a.peak <= a.pushes
    && (a.mod == size || a.mod <= 2 * a.peak)
  }

  lemma {:induction false} DoubledAgain(size: nat, mod: nat, copied: nat, copies: nat)
    requires Doubled(size, mod, copied) && mod - 1 <= copies <= mod
    ensures Doubled(size, 2 * mod, copied + copies)
  {
    var d: nat :| mod == size * Pow2(d) && mod - size - d <= copied <= mod - size;
    assert size * Pow2(d + 1) == 2 * (size * Pow2(d));
  }

  lemma {:induction false} DoKeepsBounds<T>(size: nat, a: Account<T>, op: Op<T>)
    requires size >= 1 && Bounded(size, a)
    ensures Bounded(size, Do(a, op))
  {
    hide Doubled;
    if |a.contents| + 1 == a.mod {
      DoubledAgain(size, a.mod, a.copied, a.mod);
      DoubledAgain(size, a.mod, a.copied, |a.contents|);
    }
  }

  lemma {:induction false} RunKeepsBounds<T>(size: nat, a: Account<T>, ops: seq<Op<T>>)
    requires size >= 1 && Bounded(size, a)
    ensures Bounded(size, Run(a, ops))
    decreases |ops|
  {
    hide Bounded, Do;
    if ops != [] {
      DoKeepsBounds(size, a, ops[0]);
      RunKeepsBounds(size, Do(a, ops[0]), ops[1..]);
    }
  }

  function New<T>(size: nat): Account<T> {
    Account([], size, 0, 0, 0)
  }

  /**
   After every sequence of operations on a new buffer: the capacity is the size times a power of two
   and at most the size or twice the longest length, and growing has copied what it added, up to one slot
   each time, which is fewer than two slots a push.
   */
  lemma {:induction false} GrowthBounds<T>(size: nat, ops: seq<Op<T>>)
    requires size >= 1
    ensures var a := Run(New(size), ops);
      && Doubled(size, a.mod, a.copied)
      && a.mod <= (if 2 * a.peak > size then 2 * a.peak else size)
      && a.peak <= a.pushes && a.copied <= 2 * a.pushes && (a.pushes > 0 ==> a.copied < 2 * a.pushes)
      && a.pushes == Pushes(ops)
      && (forall k | 0 <= k <= |ops| :: |Run(New<T>(size), ops[..k]).contents| <= a.peak)
      && (exists k | 0 <= k <= |ops| :: |Run(New<T>(size), ops[..k]).contents| == a.peak)
  {
    hide Do;
    var a := New<T>(size);
    assert size == size * Pow2(0) && Doubled(size, size, 0);
    RunKeepsBounds(size, a, ops);
    RunCounts(a, ops);
    forall k | 0 <= k <= |ops|
      ensures |Run(a, ops[..k]).contents| <= Run(a, ops).peak
    {
      PeakIsHigh(a, ops, k);
    }
    var k := PeakIsReached(a, ops);
  }

  function Pushes<T>(ops: seq<Op<T>>): nat {
    if ops == [] then 0 else (if ops[0].Push? || ops[0].PushFront? then 1 else 0) + Pushes(ops[1..])
  }

  lemma {:induction false} RunCounts<T>(a: Account<T>, ops: seq<Op<T>>)
    ensures Run(a, ops).pushes == a.pushes + Pushes(ops) && Run(a, ops).peak >= a.peak
    decreases |ops|
  {
    if ops != [] {
      RunCounts(Do(a, ops[0]), ops[1..]);
    }
  }

  lemma {:induction false} PeakStep<T>(a: Account<T>, op: Op<T>)
    requires |a.contents| <= a.peak
    ensures var b := Do(a, op); |b.contents| <= b.peak && (b.peak == a.peak || b.peak == |b.contents|)
  {
  }

  lemma {:induction false} PeakIsHigh<T>(a: Account<T>, ops: seq<Op<T>>, k: nat)
    requires k <= |ops| && |a.contents| <= a.peak
    ensures |Run(a, ops[..k]).contents| <= Run(a, ops).peak
    decreases |ops|
  {
    hide Do;
    RunCounts(a, ops);
    if k > 0 {
      PeakStep(a, ops[0]);
      assert ops[..k][1..] == ops[1..][..k - 1];
      PeakIsHigh(Do(a, ops[0]), ops[1..], k - 1);
    }
  }

  lemma {:induction false} PeakIsReached<T>(a: Account<T>, ops: seq<Op<T>>) returns (k: nat)
    requires |a.contents| <= a.peak
    ensures k <= |ops|
    ensures |Run(a, ops[..k]).contents| == Run(a, ops).peak || (k == 0 && Run(a, ops).peak == a.peak)
    decreases |ops|
  {
    hide Do;
    k := 0;
    if ops != [] {
      PeakStep(a, ops[0]);
      var b := Do(a, ops[0]);
      var j := PeakIsReached(b, ops[1..]);
      if |Run(b, ops[1..][..j]).contents| == Run(b, ops[1..]).peak {
        k := j + 1;
        assert ops[..k][1..] == ops[1..][..j];
      }
    }
  }

  // ---------------------------------------------------------------- windows

  lemma {:induction false} SlotsDiffer(head: nat, i: nat, j: nat, mod: nat)
    requires head < mod && 1 <= i < j <= mod
    ensures Slot(head, i, mod) != Slot(head, j, mod)
  {
  }

  lemma {:induction false} SlotPlus(head: nat, n: nat, i: nat, mod: nat)
    requires head < mod && n + i <= mod
    ensures Slot(Slot(head, n, mod), i, mod) == Slot(head, n + i, mod)
  {
  }

  /** Every slot is some number of positions after `head`. */
  lemma {:induction false} SlotOnto(head: nat, k: nat, mod: nat) returns (i: nat)
    requires head < mod && k < mod
    ensures 1 <= i <= mod && Slot(head, i, mod) == k
  {
    i := if k > head then k - head else k + mod - head;
  }

  lemma {:induction false} PushWindow<T>(items: seq<T>, head: nat, len: nat, x: T, zero: T)
    requires head < |items| && len + 1 < |items|
    ensures Window(items[Slot(head, len + 1, |items|) := x], head, len + 1) == Window(items, head, len) + [x]
    ensures Blank(items, head, len, zero) ==> Blank(items[Slot(head, len + 1, |items|) := x], head, len + 1, zero)
  {
    var mod := |items|;
    forall i | 1 <= i <= mod && i != len + 1
      ensures Slot(head, i, mod) != Slot(head, len + 1, mod)
    {
      if i < len + 1 {
        SlotsDiffer(head, i, len + 1, mod);
      } else {
        SlotsDiffer(head, len + 1, i, mod);
      }
    }
    assert Slot(head, mod, mod) == head;
  }

  lemma {:induction false} PushFrontWindow<T>(items: seq<T>, head: nat, len: nat, x: T, zero: T)
    requires head < |items| && len + 1 < |items|
    ensures var head' := Slot(head, |items| - 1, |items|);
      && Window(items[head := x], head', len + 1) == [x] + Window(items, head, len)
      && (Blank(items, head, len, zero) ==> Blank(items[head := x], head', len + 1, zero))
      && Slot(head', len + 1, |items|) == Slot(head, len, |items|)
  {
    var mod := |items|;
    var head' := Slot(head, mod - 1, mod);
    forall i | 0 <= i <= mod - 1
      ensures Slot(head', i + 1, mod) == Slot(head, i, mod)
    {
    }
    forall i | 1 <= i < mod
      ensures Slot(head, i, mod) != head
    {
      SlotsDiffer(head, i, mod, mod);
    }
    if Blank(items, head, len, zero) {
      forall i | len + 1 < i <= mod
        ensures items[head := x][Slot(head', i, mod)] == zero
      {
        assert Slot(head', i - 1 + 1, mod) == Slot(head, i - 1, mod);
      }
      assert Slot(head', mod, mod) == head';
    }
    var w := Window(items[head := x], head', len + 1);
    forall i | 0 <= i < len + 1
      ensures w[i] == ([x] + Window(items, head, len))[i]
    {
      assert w[i] == items[head := x][Slot(head, i, mod)];
    }
  }

  /** The same elements at the front of a larger array, everything else blank. */
  lemma {:induction false} GrownWindow<T>(items: seq<T>, head: nat, len: nat, bigger: seq<T>, zero: T)
    requires head < |items| && len < |items| && len < |bigger|
    requires forall i | 1 <= i <= len :: bigger[i] == items[Slot(head, i, |items|)]
    ensures Window(bigger, 0, len) == Window(items, head, len)
    ensures bigger[0] == zero && (forall i | len < i < |bigger| :: bigger[i] == zero) ==> Blank(bigger, 0, len, zero)
  {
    assert forall i | 0 <= i < |bigger| :: Slot(0, i, |bigger|) == i;
    var w, v := Window(bigger, 0, len), Window(items, head, len);
    forall i | 0 <= i < len
      ensures w[i] == v[i]
    {
      assert w[i] == bigger[Slot(0, i + 1, |bigger|)] && Slot(0, i + 1, |bigger|) == i + 1;
    }
  }

  /** The window after the first `n` live slots have been blanked and passed over. */
  lemma {:induction false} PoppedWindow<T>(items: seq<T>, head: nat, len: nat, n: nat, after: seq<T>, zero: T)
    requires head < |items| == |after| && n <= len < |items|
    requires forall i | 1 <= i <= n :: after[Slot(head, i, |items|)] == zero
    requires forall i | n < i <= |items| :: after[Slot(head, i, |items|)] == items[Slot(head, i, |items|)]
    ensures var head' := Slot(head, n, |items|);
      && Window(after, head', len - n) == Window(items, head, len)[n..]
      && (Blank(items, head, len, zero) ==> Blank(after, head', len - n, zero))
      && Slot(head', len - n, |items|) == Slot(head, len, |items|)
  {
    var mod := |items|;
    var head' := Slot(head, n, mod);
    SlotPlus(head, n, len - n, mod);
    var w, v := Window(after, head', len - n), Window(items, head, len)[n..];
    forall i | 0 <= i < len - n
      ensures w[i] == v[i]
    {
      SlotPlus(head, n, i + 1, mod);
    }
    if Blank(items, head, len, zero) {
      assert Slot(head, mod, mod) == head;
      forall i | len - n < i < mod
        ensures after[Slot(head', i, mod)] == zero
      {
        if n + i <= mod {
          SlotPlus(head, n, i, mod);
        } else {
          assert Slot(head', i, mod) == Slot(head, n + i - mod, mod);
        }
      }
    }
  }

  /**
   The copy loops of both growth paths: the slots from `at` positions after `head` on, going
   round, each to the index of its position, in an array twice as long.
   */
  method CopyRing<T>(items: array<T>, head: nat, at: nat, count: nat, zero: T)
    returns (newBuff: array<T>, ghost copies: nat)
    requires head < items.Length && at + count <= items.Length
    ensures fresh(newBuff) && newBuff.Length == 2 * items.Length && copies == count
    ensures forall k | at <= k < at + count :: newBuff[k] == items[Slot(head, k, items.Length)]
    ensures forall k | 0 <= k < newBuff.Length && !(at <= k < at + count) :: newBuff[k] == zero
  {
    newBuff := new T[2 * items.Length](i => zero);
    copies := 0;
    for i := 0 to count
      invariant copies == i
      invariant forall k | at <= k < at + i :: newBuff[k] == items[Slot(head, k, items.Length)]
      invariant forall k | 0 <= k < newBuff.Length && !(at <= k < at + i) :: newBuff[k] == zero
    {
      WrapAround(head, at + i, items.Length);
      newBuff[at + i] := items[(head + (at + i)) % items.Length];
      copies := copies + 1;
    }
  }

  class RingBuffer<T> {
    const zero: T
    var items: array<T>
    var head: nat
    var tail: nat
    var mod: nat
    var len: nat

    // History, for the growth bounds: pushes, longest length, slots copied.
    ghost var pushes: nat
    ghost var peak: nat
    ghost var copied: nat

    ghost predicate Valid()
      reads this
    {
      && 1 <= mod == items.Length
      && head < mod && len < mod
      && tail == Slot(head, len, mod)
    }

    /** The deque this buffer stands for. */
    ghost function Contents(): seq<T>
      requires Valid()
      reads this, items
    {
      Window(items[..], head, len)
    }

    ghost function State(): Account<T>
      requires Valid()
      reads this, items
    {
      Account(Contents(), mod, pushes, peak, copied)
    }

    ghost predicate Blanked()
      requires Valid()
      reads this, items
    {
      Blank(items[..], head, len, zero)
    }

    constructor (size: nat, zero: T)
      requires size >= 1
      ensures Valid() && fresh(items) && State() == New(size) && Blanked() && this.zero == zero
    {
      this.zero := zero;
      items := new T[size](i => zero);
      head, tail, mod, len := 0, 0, size, 0;
      pushes, peak, copied := 0, 0, 0;
    }

    /**
     Double a full buffer, its empty slot first. Push copies all slots (at = 0) and leaves the tail
     past the last element; PushFront copies the live ones (at = 1) and leaves it on the last.
     */
    method Grow(at: nat)
      requires at <= 1 && 1 <= mod == items.Length && head < mod && len == mod - 1
      modifies this
      ensures fresh(items) && items.Length == mod == 2 * old(mod)
      ensures head == 0 && len == old(len) && tail == len + 1 - at && pushes == old(pushes) && peak == old(peak)
      ensures copied == old(copied) + old(mod) - at
      ensures Window(items[..], 0, len) == old(Window(items[..], head, len))
      ensures old(Blank(items[..], head, len, zero)) ==> Blank(items[..], 0, len, zero)
    {
      hide Window;
      var newBuff;
      ghost var copies;
      newBuff, copies := CopyRing(items, head, at, mod - at, zero);
      assert Slot(head, 0, mod) == head;
      GrownWindow(items[..], head, len, newBuff[..], zero);
      copied := copied + copies;
      items, head, tail, mod := newBuff, 0, mod - at, 2 * mod;
    }

    /** Write the tail slot. */
    method WriteLast(item: T)
      requires 1 <= mod == items.Length && head < mod && len + 1 < mod && tail == Slot(head, len + 1, mod)
      modifies items, `len, `pushes, `peak
      ensures Valid() && len == old(len) + 1
      ensures pushes == old(pushes) + 1 && peak == (if len > old(peak) then len else old(peak))
      ensures Contents() == old(Window(items[..], head, len)) + [item]
      ensures old(Blank(items[..], head, len, zero)) ==> Blanked()
    {
      hide Window, Blank;
      ghost var before := items[..];
      PushWindow(before, head, len, item, zero);
      len := len + 1;
      pushes, peak := pushes + 1, if len > peak then len else peak;
      items[tail] := item;
      assert items[..] == before[tail := item];
    }

    /** Append; a full buffer doubles first. */
    method Push(item: T)
      requires Valid()
      modifies this, items
      ensures Valid() && (items == old(items) || fresh(items))
      ensures State() == Do(old(State()), Op.Push(item)) && Contents() == old(Contents()) + [item]
      ensures old(Blanked()) ==> Blanked()
    {
      hide Window, Blank;
      WrapAround(tail, 1, mod);
      SlotPlus(head, len, 1, mod);
      tail := (tail + 1) % mod;
      if tail == head {
        FullWhenWrapped(head, len, mod);
        Grow(0);
      } else {
        NotFull(head, len, mod);
      }
      WriteLast(item);
    }

    /** Write the empty slot and make the one before it the empty one. */
    method WriteFirst(item: T)
      requires Valid() && len + 1 < mod
      modifies items, `head, `len, `pushes, `peak
      ensures Valid() && len == old(len) + 1
      ensures pushes == old(pushes) + 1 && peak == (if len > old(peak) then len else old(peak))
      ensures Contents() == [item] + old(Contents())
      ensures old(Blanked()) ==> Blanked()
    {
      hide Window, Blank;
      ghost var before := items[..];
      PushFrontWindow(before, head, len, item, zero);
      items[head] := item;
      assert items[..] == before[head := item];
      WrapAround(head, mod - 1, mod);
      head := (head + (mod - 1)) % mod;
      len := len + 1;
      pushes, peak := pushes + 1, if len > peak then len else peak;
    }

    /** Prepend; a full buffer doubles first. */
    method PushFront(item: T)
      requires Valid()
      modifies this, items
      ensures Valid() && (items == old(items) || fresh(items))
      ensures State() == Do(old(State()), Op.PushFront(item)) && Contents() == [item] + old(Contents())
      ensures old(Blanked()) ==> Blanked()
    {
      hide Window, Blank;
      if len >= mod - 1 {
        Grow(1);
      }
      WriteFirst(item);
    }

    method Len() returns (n: nat)
      requires Valid()
      ensures n == |Contents()|
    {
      n := len;
    }

    /** Take the first element, if there is one. */
    method Pop() returns (item: T, ok: bool)
      requires Valid()
      modifies this, items
      ensures Valid() && items == old(items) && State() == Do(old(State()), Op.Pop)
      ensures ok <==> old(Contents()) != []
      ensures old(Contents()) == (if ok then [item] else []) + Contents() && (!ok ==> item == zero)
      ensures old(Blanked()) ==> Blanked()
    {
      hide Window, Blank;
      if len == 0 {
        return zero, false;
      }
      ghost var before := items[..];
      WrapAround(head, 1, mod);
      var pos := (head + 1) % mod;
      item := items[pos];
      OnlySlot(head, mod);
      PoppedWindow(before, head, len, 1, before[pos := zero], zero);
      assert Window(before, head, len)[0] == item;
      items[pos] := zero;
      assert items[..] == before[pos := zero];
      head := pos;
      len := len - 1;
      return item, true;
    }

    /**
     Take up to `n` first elements. A negative count panics when there is anything to take: the length
     has been raised by then, and no slot is touched.
     */
    method PopN(n: int) returns (taken: seq<T>, ok: bool, panicked: bool)
      requires Valid()
      modifies this, items
      ensures panicked <==> n < 0 && old(Contents()) != []
      ensures panicked ==> len == old(len) - n && items[..] == old(items[..])
      ensures panicked ==> items == old(items) && head == old(head) && tail == old(tail) && mod == old(mod)
      ensures !panicked ==> Valid() && items == old(items)
      ensures !panicked ==> State() == if n < 0 then old(State()) else Do(old(State()), Op.PopN(n))
      ensures !panicked ==> (ok <==> old(Contents()) != [])
      ensures !panicked ==> old(Contents()) == taken + Contents()
      ensures !panicked ==> |taken| == if n < 0 then 0 else if n < |old(Contents())| then n else |old(Contents())|
      ensures !panicked && old(Blanked()) ==> Blanked()
    {
      if len == 0 {
        return [], false, false;
      }
      if n < 0 {
        len := len - n;
        return [], false, true;
      }
      taken := TakeFirst(if n >= len then len else n);
      return taken, true, false;
    }

    method TakeFirst(k: nat) returns (taken: seq<T>)
      requires Valid() && k <= len
      modifies items, `head, `len
      ensures Valid() && len == old(len) - k
      ensures taken == old(Contents())[..k] && Contents() == old(Contents())[k..]
      ensures old(Blanked()) ==> Blanked()
    {
      hide Window, Blank;
      ghost var before := items[..];
      taken := TakeSlots(k);
      PoppedWindow(before, head, len, k, items[..], zero);
      TakenWindow(before, head, len, taken);
      WrapAround(head, k, mod);
      head := (head + k) % mod;
      len := len - k;
    }

    /** The copy loop of PopN: read the first `k` live slots and blank them. */
    method TakeSlots(k: nat) returns (taken: seq<T>)
      requires Valid() && k <= len
      modifies items
      ensures |taken| == k && forall j | 0 <= j < k :: taken[j] == old(items[Slot(head, j + 1, mod)])
      ensures forall j | 1 <= j <= k :: items[Slot(head, j, mod)] == zero
      ensures forall j | k < j <= mod :: items[Slot(head, j, mod)] == old(items[Slot(head, j, mod)])
    {
      taken := [];
      for i := 0 to k
        invariant |taken| == i && forall j | 0 <= j < i :: taken[j] == old(items[Slot(head, j + 1, mod)])
        invariant forall j | 1 <= j <= i :: items[Slot(head, j, mod)] == zero
        invariant forall j | i < j <= mod :: items[Slot(head, j, mod)] == old(items[Slot(head, j, mod)])
      {
        WrapAround(head, 1 + i, mod);
        var pos := (head + (1 + i)) % mod;
        forall j | 1 <= j <= mod && j != i + 1
          ensures Slot(head, j, mod) != pos
        {
          if j < i + 1 {
            SlotsDiffer(head, j, i + 1, mod);
          } else {
            SlotsDiffer(head, i + 1, j, mod);
          }
        }
        taken := taken + [items[pos]];
        items[pos] := zero;
      }
    }

    /** Forget everything. The slots keep their values, so only an all-zero buffer is blank afterwards. */
    method Clear()
      requires Valid()
      modifies this
      ensures Valid() && items == old(items) && State() == Do(old(State()), Op.Clear) && Contents() == []
      ensures Blanked() <==> old(Blanked()) && forall i | 0 <= i < old(len) :: old(Contents())[i] == zero
    {
      ghost var contents := Contents();
      ClearedWindow(items[..], head, len, zero);
      head, tail, len := 0, 0, 0;
      assert Blanked() <==> old(Blanked()) && forall i | 0 <= i < |contents| :: contents[i] == zero;
    }
  }

  lemma {:induction false} TakenWindow<T>(items: seq<T>, head: nat, len: nat, taken: seq<T>)
    requires head < |items| && |taken| <= len < |items|
    requires forall j | 0 <= j < |taken| :: taken[j] == items[Slot(head, j + 1, |items|)]
    ensures taken == Window(items, head, len)[..|taken|]
  {
  }

  lemma {:induction false} OnlySlot(head: nat, mod: nat)
    requires head < mod
    ensures forall i | 1 < i <= mod :: Slot(head, i, mod) != Slot(head, 1, mod)
  {
    forall i | 1 < i <= mod
      ensures Slot(head, i, mod) != Slot(head, 1, mod)
    {
      SlotsDiffer(head, 1, i, mod);
    }
  }

  lemma {:induction false} FullWhenWrapped(head: nat, len: nat, mod: nat)
    requires head < mod && len < mod && Slot(head, len + 1, mod) == head
    ensures len == mod - 1
  {
  }

  lemma {:induction false} NotFull(head: nat, len: nat, mod: nat)
    requires head < mod && len < mod && Slot(head, len + 1, mod) != head
    ensures len + 1 < mod
  {
  }

  lemma {:induction false} ClearedWindow<T>(items: seq<T>, head: nat, len: nat, zero: T)
    requires head < |items| && len < |items|
    ensures Blank(items, 0, 0, zero)
        <==> Blank(items, head, len, zero) && forall i | 0 <= i < len :: Window(items, head, len)[i] == zero
  {
    var mod := |items|;
    assert forall i | 0 <= i < mod :: Slot(0, i, mod) == i;
    if Blank(items, 0, 0, zero) {
      forall k | 0 <= k < mod
        ensures items[k] == zero
      {
        assert items[k] == items[Slot(0, k, mod)];
      }
    }
    if Blank(items, head, len, zero) && forall i | 0 <= i < len :: Window(items, head, len)[i] == zero {
      forall k | 0 <= k < mod
        ensures items[k] == zero
      {
        var i := SlotOnto(head, k, mod);
        if i <= len {
          assert Window(items, head, len)[i - 1] == items[Slot(head, i, mod)];
        } else if i == mod {
          assert Slot(head, mod, mod) == head;
        }
      }
    }
  }
}
