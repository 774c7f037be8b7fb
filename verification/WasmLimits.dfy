/** Where the lowering stops preserving meaning: for each of its conditions, the
    exact set of cases in which the emitted code still does what the stack
    machine does. */
module WasmLimits {
  import opened Rings
  import opened Ir
  import opened Words
  import W = Wasm
  import opened IrMachine
  import opened WasmEmit
  import opened WasmOps
  import opened WasmLadder
  import opened WasmSteps

  // ---- the order of several results ----

  /** The stores after a call put the results into the slots in their order. */
  ghost predicate InOrder(from: nat, outs: seq<U64>, wl: seq<U64>)
    requires from + |outs| <= |wl|
  {
    var e := W.Exec(Sets(from, |outs|), outs, wl);
    e.Plain? && |e.locals| == |wl| && e.locals[from..from + |outs|] == outs
  }

  /** The stores reverse the results: the last one goes to the lowest slot. */
  lemma {:induction false} StoresReverse(from: nat, outs: seq<U64>, wl: seq<U64>)
    requires from + |outs| <= |wl|
    ensures
      var e := W.Exec(Sets(from, |outs|), outs, wl);
      && e.Plain? && e.ops == [] && |e.locals| == |wl|
      && (forall i :: 0 <= i < |wl| ==>
            e.locals[i] == if from <= i < from + |outs| then outs[|outs| - 1 - (i - from)] else wl[i])
    decreases |outs|
  {
    var n := |outs|;
    if n > 0 {
      var below := outs[..n - 1];
      assert Sets(from, n) == [W.LocalSet(from)] + Sets(from + 1, n - 1);
      Turn(W.LocalSet(from), Sets(from + 1, n - 1), outs, wl);
      StoresReverse(from + 1, below, wl[from := outs[n - 1]]);
    }
  }

  /** A call's results come out right exactly when they read the same backwards. */
  lemma OrderKeptWhen(from: nat, outs: seq<U64>, wl: seq<U64>)
    requires from + |outs| <= |wl|
    ensures InOrder(from, outs, wl) <==> forall i :: 0 <= i < |outs| ==> outs[i] == outs[|outs| - 1 - i]
  {
    StoresReverse(from, outs, wl);
    var l := W.Exec(Sets(from, |outs|), outs, wl).locals;
    var part := l[from..from + |outs|];
    forall i | 0 <= i < |outs| ensures part[i] == outs[|outs| - 1 - i] {
      assert part[i] == l[from + i];
    }
  }

  /** Whatever the values, exactly for at most one result. */
  lemma AnyResultsKept(n: nat, from: nat, wl: seq<U64>)
    requires from + n <= |wl|
    ensures (forall outs: seq<U64> :: |outs| == n ==> InOrder(from, outs, wl)) <==> n <= 1
  {
    forall outs: seq<U64> | |outs| == n
      ensures n <= 1 ==> InOrder(from, outs, wl)
    {
      OrderKeptWhen(from, outs, wl);
    }
    if n > 1 {
      var outs: seq<U64> := seq(n, i => if i == 0 then 1 else 0);
      OrderKeptWhen(from, outs, wl);
      assert outs[0] != outs[n - 1 - 0];
    }
  }

  // ---- branch conditions ----

  /** The cursor gets the block the stack machine goes to exactly when the low 32
      bits of the condition are zero only if all of it is, or both targets are
      the same. */
  lemma ConditionReadRight(x: U64, t: nat, e: nat)
    ensures Chosen(x, t, e) == (if x != 0 then t else e) <==> (t == e || x == 0 || x % W.TWO32 != 0)
  {
  }

  /** A condition of 0 or 1 is always read right; 2^32 is not. */
  lemma FlagsAreReadRight(b: bool, t: nat, e: nat)
    ensures Chosen(Flag(b), t, e) == if b then t else e
    ensures t != e ==> Chosen(W.TWO32, t, e) != if W.TWO32 != 0 then t else e
  {
  }

  // ---- IR locals below the arity ----

  lemma LowSlotCode(w: Word, k: nat, slot: nat, ty: TypeId, seg: seq<Val>, wl: seq<U64>)
    requires slot < Arity(w) <= |wl| && 1 <= |seg| <= |wl| && wl[|seg| - 1] == seg[|seg| - 1].bits
    ensures W.Exec(EmitOp(w, k, LocalSet(slot, ty), |seg|), [], wl) == W.Plain([], wl[slot := seg[|seg| - 1].bits])
  {
    hide W.Exec;
    hide Copy;
    ExecCopy(|seg| - 1, slot, wl);
  }

  /** A store to an IR local whose number is below the arity lands in the data
      stack: it is harmless exactly if the slot is not in use any more or holds
      the stored word already. */
  lemma LowSlotOverwrites(w: Word, k: nat, slot: nat, ty: TypeId, locals: map<nat, U64>, seg: seq<Val>, wl: seq<U64>)
    requires LocalsMatch(w, locals, seg, wl) && slot < Arity(w) && 1 <= |seg| < Cursor(w)
    ensures
      var e, own := W.Exec(EmitOp(w, k, LocalSet(slot, ty), |seg|), [], wl), seg[..|seg| - 1];
      && e == W.Plain([], wl[slot := seg[|seg| - 1].bits])
      && (LocalsMatch(w, locals[slot := seg[|seg| - 1].bits], own, e.locals) <==>
            slot >= |own| || own[slot].bits == seg[|seg| - 1].bits)
  {
    hide W.Exec;
    hide EmitOp;
    LowSlotCode(w, k, slot, ty, seg, wl);
    var x := seg[|seg| - 1].bits;
    var wl' := wl[slot := x];
    forall s | Arity(w) <= s < SlotEnd(w)
      ensures wl'[DeclaredLocal(w, s)] == Local(locals[slot := x], s)
    {
      assert wl'[DeclaredLocal(w, s)] == wl[DeclaredLocal(w, s)];
    }
  }

  // ---- words of one block ----

  /** A word of one block has no dispatch loop: a branch in it, even to itself,
      names a label that is not there. */
  lemma OneBlockCannotLoop(fs: seq<W.Func>, w: Word, func: nat, wl: seq<U64>, rest: seq<W.Instr>, below: seq<W.Activation>)
    requires |w.blocks| == 1
    ensures W.Step(fs, [At(func, wl, [W.Br(LoopDepth(w, 0))] + rest, [])] + below) == W.Wrong
  {
  }
}
