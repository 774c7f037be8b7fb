/** The ring buffers of the hosted runtime.

    Every queue of the emitted program is the same piece of code over a pair of
    64-bit counters and a flat buffer: the slot is the low bits of a counter,
    `tail - head` is the number of elements, and counters are never reduced.
    `RingBank` is a bank of `count` such rings of `cap` slots each, laid out one
    after the other in one buffer. */
module Rings {

  const TWO64: nat := 0x1_0000_0000_0000_0000

  /** A machine word, read as an unsigned number. */
  type U64 = x: nat | x < TWO64

  /** `add r, 1` on a counter. */
  function Inc(c: U64): U64 {
    if c + 1 == TWO64 then 0 else c + 1
  }

  /** `sub tail, head`, with the borrow discarded. */
  function Used(head: U64, tail: U64): U64 {
    if head <= tail then tail - head else tail + TWO64 - head
  }

  /** The masks of the emitted code are 7, 15 and 63. */
  predicate IsCap(cap: nat) {
    cap == 8 || cap == 16 || cap == 64
  }

  /** `and r, cap - 1`. */
  function Mask(x: nat, cap: nat): (m: nat)
    requires IsCap(cap)
    ensures m < cap
  {
    if cap == 8 then x % 8 else if cap == 16 then x % 16 else x % 64
  }

  /** The slot of the k-th element of a ring. */
  function Slot(head: U64, k: nat, cap: nat): (m: nat)
    requires IsCap(cap)
    ensures m < cap
  {
    Mask(head + k, cap)
  }

  /** Where ring `i` starts: `shl` by 3, 4 or 6. */
  function Base(i: nat, cap: nat): nat
    requires IsCap(cap)
  {
    if cap == 8 then i * 8 else if cap == 16 then i * 16 else i * 64
  }

  lemma MaskIgnoresOneTurn(x: nat, cap: nat)
    requires IsCap(cap)
    ensures Mask(x + cap, cap) == Mask(x, cap)
  {
    if cap == 8 {
      assert (x + 8) % 8 == x % 8;
    } else if cap == 16 {
      assert (x + 16) % 16 == x % 16;
    } else {
      assert (x + 64) % 64 == x % 64;
    }
  }

  lemma {:induction false} MaskIgnoresTurns(x: nat, cap: nat, k: nat)
    requires IsCap(cap)
    ensures Mask(x + Base(k, cap), cap) == Mask(x, cap)
  {
    if k > 0 {
      MaskIgnoresTurns(x, cap, k - 1);
      MaskIgnoresOneTurn(x + Base(k - 1, cap), cap);
      assert Base(k, cap) == Base(k - 1, cap) + cap;
    }
  }

  lemma MaskIgnoresWrap(x: nat, cap: nat)
    requires IsCap(cap)
    ensures Mask(x + TWO64, cap) == Mask(x, cap)
  {
    MaskIgnoresTurns(x, cap, if cap == 8 then 0x2000_0000_0000_0000 else if cap == 16 then 0x1000_0000_0000_0000 else 0x400_0000_0000_0000);
  }

  lemma SlotsDiffer(x: nat, y: nat, cap: nat)
    requires IsCap(cap) && x < y < x + cap
    ensures Mask(x, cap) != Mask(y, cap)
  {
  }

  /** The queue a ring holds, oldest element first. */
  function Queue(buf: seq<U64>, base: nat, cap: nat, head: U64, tail: U64): (q: seq<U64>)
    requires IsCap(cap) && base + cap <= |buf|
    ensures |q| == Used(head, tail)
  {
    seq(Used(head, tail), k requires 0 <= k => buf[base + Slot(head, k, cap)])
  }

  lemma QueuePush(buf: seq<U64>, base: nat, cap: nat, head: U64, tail: U64, x: U64)
    requires IsCap(cap) && base + cap <= |buf| && Used(head, tail) < cap
    ensures Queue(buf[base + Mask(tail, cap) := x], base, cap, head, Inc(tail)) == Queue(buf, base, cap, head, tail) + [x]
  {
    var used := Used(head, tail);
    assert Slot(head, used, cap) == Mask(tail, cap) by {
      if tail < head {
        MaskIgnoresWrap(tail, cap);
      }
    }
    forall k: nat | k < used
      ensures Slot(head, k, cap) != Mask(tail, cap)
    {
      SlotsDiffer(head + k, head + used, cap);
    }
    var before := Queue(buf, base, cap, head, tail);
    var after := Queue(buf[base + Mask(tail, cap) := x], base, cap, head, Inc(tail));
    assert |after| == used + 1;
    assert after[used] == x;
    assert forall k :: 0 <= k < used ==> after[k] == before[k];
  }

  lemma QueuePop(buf: seq<U64>, base: nat, cap: nat, head: U64, tail: U64)
    requires IsCap(cap) && base + cap <= |buf| && 0 < Used(head, tail)
    ensures Queue(buf, base, cap, head, tail)[0] == buf[base + Mask(head, cap)]
    ensures Queue(buf, base, cap, Inc(head), tail) == Queue(buf, base, cap, head, tail)[1..]
  {
    forall k: nat
      ensures Slot(Inc(head), k, cap) == Slot(head, k + 1, cap)
    {
      if head + 1 == TWO64 {
        MaskIgnoresWrap(k, cap);
      }
    }
    var before := Queue(buf, base, cap, head, tail);
    var after := Queue(buf, base, cap, Inc(head), tail);
    assert |after| + 1 == |before|;
    assert forall k :: 0 <= k < |after| ==> after[k] == before[1..][k];
  }

  /** Writing outside a ring's own stretch of the buffer leaves it alone. */
  lemma QueueFrame(buf: seq<U64>, base: nat, cap: nat, head: U64, tail: U64, at: nat, x: U64)
    requires IsCap(cap) && base + cap <= |buf| && at < |buf|
    requires at < base || base + cap <= at
    ensures Queue(buf[at := x], base, cap, head, tail) == Queue(buf, base, cap, head, tail)
  {
    var before := Queue(buf, base, cap, head, tail);
    var after := Queue(buf[at := x], base, cap, head, tail);
    assert forall k :: 0 <= k < |after| ==> after[k] == before[k];
  }

  /** A bank of rings. `queues` is what the rings hold. */
  class RingBank {
    const count: nat
    const cap: nat
    const head: array<U64>
    const tail: array<U64>
    const buf: array<U64>
    ghost const repr: set<object>
    ghost var queues: seq<seq<U64>>

    ghost predicate Valid()
      reads this, repr
    {
      && repr == {this, head, tail, buf}
      && IsCap(cap)
      && head.Length == tail.Length == count
      && buf.Length == Base(count, cap)
      && head != tail && head != buf && tail != buf
      && |queues| == count
      && forall i {:trigger head[i]} :: 0 <= i < count ==>
           && |queues[i]| <= cap
           && queues[i] == Queue(buf[..], Base(i, cap), cap, head[i], tail[i])
    }

    constructor (count: nat, cap: nat)
      requires IsCap(cap)
      ensures Valid() && fresh(repr)
      ensures this.count == count && this.cap == cap
      ensures forall i :: 0 <= i < count ==> queues[i] == []
    {
      this.count := count;
      this.cap := cap;
      head := new U64[count](_ => 0);
      tail := new U64[count](_ => 0);
      buf := new U64[Base(count, cap)](_ => 0);
      queues := seq(count, _ => []);
      repr := {this, head, tail, buf};
    }

    method Length(i: nat) returns (n: nat)
      requires Valid() && i < count
      ensures n == |queues[i]|
    {
      n := Used(head[i], tail[i]);
    }

    /** The ring-by-ring reading of `queues`, for every ring mentioned. */
    lemma Rings()
      requires Valid()
      ensures forall i :: 0 <= i < count ==> queues[i] == Queue(buf[..], Base(i, cap), cap, head[i], tail[i])
    {
    }

    method Push(i: nat, x: U64)
      requires Valid() && i < count && |queues[i]| < cap
      modifies repr
      ensures Valid() && queues == old(queues)[i := old(queues)[i] + [x]]
    {
      Rings();
      ghost var was := buf[..];
      QueuePush(was, Base(i, cap), cap, head[i], tail[i], x);
      var at := Base(i, cap) + Mask(tail[i], cap);
      forall j: nat | j < count && j != i
        ensures Queue(was[at := x], Base(j, cap), cap, head[j], tail[j]) == queues[j]
      {
        QueueFrame(was, Base(j, cap), cap, head[j], tail[j], at, x);
      }
      buf[at] := x;
      tail[i] := Inc(tail[i]);
      queues := queues[i := queues[i] + [x]];
      assert buf[..] == was[at := x];
    }

    method Pop(i: nat) returns (x: U64)
      requires Valid() && i < count && queues[i] != []
      modifies repr
      ensures Valid() && queues == old(queues)[i := old(queues)[i][1..]]
      ensures x == old(queues)[i][0]
    {
      Rings();
      QueuePop(buf[..], Base(i, cap), cap, head[i], tail[i]);
      x := buf[Base(i, cap) + Mask(head[i], cap)];
      head[i] := Inc(head[i]);
      queues := queues[i := queues[i][1..]];
    }

    /** The zeroing of both counters when a channel is made. */
    method Clear(i: nat)
      requires Valid() && i < count
      modifies repr
      ensures Valid() && queues == old(queues)[i := []]
    {
      Rings();
      head[i], tail[i] := 0, 0;
      queues := queues[i := []];
    }
  }
}
