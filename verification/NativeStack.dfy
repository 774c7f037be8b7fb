/** The native data stack as it runs: a stack pointer that moves over memory, a
    limit it is checked against, and the highest value it has had. */
module NativeStack {
  import opened Rings
  import opened Ir
  import opened Words
  import opened StackBounds
  import opened StackTheorems

  predicate IsBinary(op: Op) {
    op.Arith? || op.Cmp? || op.AndBool? || op.OrBool?
  }

  function Combined(op: Op, x: U64, y: U64): U64
    requires IsBinary(op)
  {
    match op
    case Arith(k) => ArithWord(k, x, y)
    case Cmp(_, k) => Flag(Compare(k, x, y))
    case AndBool => Flag(AndWord(x, y) != 0)
    case OrBool => Flag(OrWord(x, y) != 0)
  }

  /** The operations on two operands put their result where the lower one was. */
  lemma PerformBinary(g: Geometry, op: Op, d: Ds, guard: bool)
    requires IsBinary(op) && |d.stack| >= 2
    ensures
      var n := |d.stack|;
      Perform(g, op, d, guard) == PutBack(g, d, n - 2, Combined(op, d.stack[n - 2], d.stack[n - 1]), op.Arith? || op.Cmp?)
  {
  }

  /** What an operation on `x` below `y` leaves in their place: the sum, difference or
      product modulo 2^64; 1 or 0 as the condition of a comparison says after `x` has
      been compared with `y`; 1 or 0 as the operands have a bit in common, or a bit at
      all. */
  ghost predicate Leaves(op: Op, x: U64, y: U64, r: U64) {
    match op
    case Arith(k) => r == (match k case Add => x + y case Sub => x - y case Mul => x * y) % TWO64
    case Cmp(_, k) => r == if SetOn(k, CompareWords(x, y)) then 1 else 0
    case AndBool => r == if exists i: nat :: i < 64 && Bit(x, i) && Bit(y, i) then 1 else 0
    case OrBool => r == if exists i: nat :: i < 64 && (Bit(x, i) || Bit(y, i)) then 1 else 0
    case _ => false
  }

  lemma CombinedLeaves(op: Op, x: U64, y: U64)
    requires IsBinary(op)
    ensures Leaves(op, x, y, Combined(op, x, y))
  {
    hide AndWord;
    hide OrWord;
    match op
    case Arith(k) => ArithIs(k, x, y);
    case Cmp(_, k) => CompareIs(k, x, y);
    case AndBool =>
      Pow2Word();
      SomeBit(AndWord(x, y), 64);
      forall i: nat | i < 64 ensures Bit(AndWord(x, y), i) <==> Bit(x, i) && Bit(y, i) {
        BitwiseIs(x, y, i);
      }
      if AndWord(x, y) != 0 {
        var i: nat :| i < 64 && Bit(AndWord(x, y), i);
        assert i < 64 && Bit(x, i) && Bit(y, i);
      }
      if i: nat :| i < 64 && Bit(x, i) && Bit(y, i) {
        assert Bit(AndWord(x, y), i);
      }
    case OrBool =>
      Pow2Word();
      SomeBit(OrWord(x, y), 64);
      forall i: nat | i < 64 ensures Bit(OrWord(x, y), i) <==> Bit(x, i) || Bit(y, i) {
        BitwiseIs(x, y, i);
      }
      if OrWord(x, y) != 0 {
        var i: nat :| i < 64 && Bit(OrWord(x, y), i);
        assert i < 64 && (Bit(x, i) || Bit(y, i));
      }
      if i: nat :| i < 64 && (Bit(x, i) || Bit(y, i)) {
        assert Bit(OrWord(x, y), i);
      }
  }

  /** So the code of such an operation leaves the stack below its operands, and what
      the operation is on top. */
  lemma PerformLeaves(g: Geometry, op: Op, d: Ds, guard: bool)
    requires IsBinary(op) && |d.stack| >= 2
    ensures
      var n, r := |d.stack|, Perform(g, op, d, guard);
      && r.Went? && |r.ds.stack| == n - 1 && r.ds.stack[..n - 2] == d.stack[..n - 2] && r.ds.locals == d.locals
      && Leaves(op, d.stack[n - 2], d.stack[n - 1], r.ds.stack[n - 2])
  {
    hide Leaves;
    hide Combined;
    PerformBinary(g, op, d, guard);
    CombinedLeaves(op, d.stack[|d.stack| - 2], d.stack[|d.stack| - 1]);
  }

  class DataStack {
    const mem: array<U64>
    const geometry: Geometry
    var pointer: nat
    var high: nat
    var locals: map<nat, U64>

    ghost predicate Valid()
      reads this
    {
      && geometry.base <= geometry.limit && Capacity(geometry) <= mem.Length
      && geometry.base <= pointer && (pointer - geometry.base) % 8 == 0 && (pointer - geometry.base) / 8 <= mem.Length
    }

    function Depth(): (n: nat)
      requires Valid()
      reads this
      ensures pointer == Address(geometry, n) && n <= mem.Length
    {
      (pointer - geometry.base) / 8
    }

    ghost function View(): Ds
      requires Valid()
      reads this, mem
    {
      Ds(mem[..Depth()], locals, high)
    }

    constructor (cells: nat, g: Geometry)
      requires g.base <= g.limit && Capacity(g) <= cells
      ensures Valid() && View() == Ds([], map[], 0) && geometry == g && fresh(mem) && mem.Length == cells
    {
      mem := new U64[cells](_ => 0);
      geometry := g;
      pointer := g.base;
      high := 0;
      locals := map[];
    }

    /** `emit_update_ds_high`. */
    method UpdateHigh()
      modifies this`high
      ensures high == Raise(old(high), pointer)
    {
      if pointer > high {
        high := pointer;
      }
    }

    method Pop() returns (v: U64)
      requires Valid() && Depth() > 0
      modifies this`pointer
      ensures Valid() && v == old(View()).stack[old(Depth()) - 1]
      ensures View() == old(View()).(stack := old(View()).stack[..old(Depth()) - 1]) && Depth() == old(Depth()) - 1
    {
      pointer := pointer - 8;
      v := mem[Depth()];
      assert mem[..Depth()] == old(mem[..Depth()])[..Depth()];
    }

    /** The store and the step of the pointer that every result ends with. */
    method Store(v: U64, record: bool)
      requires Valid() && Depth() < mem.Length
      modifies this`pointer, this`high, mem
      ensures Valid() && Depth() == old(Depth()) + 1
      ensures View() == old(View()).(stack := old(View()).stack + [v],
                                     high := if record then Raise(old(high), Address(geometry, old(Depth()) + 1)) else old(high))
    {
      mem[Depth()] := v;
      pointer := pointer + 8;
      assert mem[..Depth()] == old(mem[..Depth()]) + [v];
      if record {
        UpdateHigh();
      }
    }

    /** A guarded push compares the next pointer with the limit before it writes. */
    method PushWord(v: U64, guard: bool) returns (fits: bool)
      requires Valid() && (guard || Depth() < mem.Length)
      modifies this`pointer, this`high, mem
      ensures Valid() && (if fits then Went(View()) else Overflowed) == Push(geometry, old(View()), v, guard)
      ensures !fits ==> View() == old(View())
    {
      if guard && pointer + 8 > geometry.limit {
        return false;
      }
      Room(geometry, Depth());
      Store(v, true);
      return true;
    }

    method Copy(guard: bool) returns (fits: bool)
      requires Valid() && Depth() > 0 && (guard || Depth() < mem.Length)
      modifies this`pointer, this`high, mem
      ensures Valid() && (if fits then Went(View()) else Overflowed) == Perform(geometry, Dup(TY_I64), old(View()), guard)
    {
      fits := PushWord(mem[Depth() - 1], guard);
    }

    method Exchange()
      requires Valid() && Depth() >= 2
      modifies mem
      ensures Valid() && Went(View()) == Perform(geometry, Swap(TY_I64, TY_I64), old(View()), true)
    {
      var n := Depth();
      mem[n - 1], mem[n - 2] := mem[n - 2], mem[n - 1];
      assert mem[..n] == old(mem[..n])[..n - 2] + [old(mem[n - 1]), old(mem[n - 2])];
    }

    /** `emit_binop` and `emit_cmp`: two pops, the operation, an unguarded store. */
    method Combine(op: Op)
      requires Valid() && Depth() >= 2 && IsBinary(op)
      modifies this`pointer, this`high, mem
      ensures Valid() && Went(View()) == Perform(geometry, op, old(View()), true)
      ensures Depth() == old(Depth()) - 1
      ensures Leaves(op, old(mem[Depth() - 2]), old(mem[Depth() - 1]), View().stack[Depth() - 1])
    {
      hide Perform;
      hide Combined;
      ghost var d := View();
      PerformBinary(geometry, op, d, true);
      CombinedLeaves(op, mem[Depth() - 2], mem[Depth() - 1]);
      var y := Pop();
      var x := Pop();
      assert d.stack[..|d.stack| - 1][..|d.stack| - 2] == d.stack[..|d.stack| - 2];
      Store(Combined(op, x, y), op.Arith? || op.Cmp?);
    }

    method StoreLocal(slot: nat)
      requires Valid() && Depth() >= 1
      modifies this`pointer, this`locals
      ensures Valid() && Went(View()) == Perform(geometry, LocalSet(slot, TY_I64), old(View()), true)
    {
      var v := Pop();
      locals := locals[slot := v];
    }

    method LoadLocal(slot: nat, guard: bool) returns (fits: bool)
      requires Valid() && (guard || Depth() < mem.Length)
      modifies this`pointer, this`high, mem
      ensures Valid() && (if fits then Went(View()) else Overflowed) == Perform(geometry, LocalGet(slot, TY_I64), old(View()), guard)
    {
      fits := PushWord(LocalWord(locals, slot), guard);
    }
  }
}
