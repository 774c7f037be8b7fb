/** The compile-time height of the emitter is the height of the verifier's
    stack, so a verified word over the lowered operations always has code, and
    the code from any operation on is determined by where it stands. */
module WasmHeights {
  import opened Rings
  import opened Ir
  import opened Words
  import W = Wasm
  import opened Verifier
  import opened IrMachine
  import opened VerifierSoundness
  import opened FrameTheorem
  import opened WasmEmit

  ghost predicate LoweredAt(w: Word, k: nat, pc: nat)
    requires k < |w.blocks| && pc < |w.blocks[k].ops|
  {
    Lowered(w.blocks[k].ops[pc])
  }

  ghost predicate AllLowered(w: Word) {
    forall k, pc {:trigger LoweredAt(w, k, pc)} :: 0 <= k < |w.blocks| && 0 <= pc < |w.blocks[k].ops| ==> LoweredAt(w, k, pc)
  }

  lemma LocalHeight(w: Word, op: Op, st: seq<TypeId>)
    requires IsLocalOp(op) && Lowered(op) && CheckOp(w, op, st).Goes?
    ensures Reaches(w, op, |st|) && HeightAfter(w, op, |st|) == |CheckOp(w, op, st).stack|
  {
    CheckedEffect(w, op, st);
  }

  /** An operation of a verified word reads slots that exist, and the height
      after it is the height of the stack the verifier goes on with. */
  lemma PointHeight(w: Word, k: nat, pc: nat)
    requires WellTyped(w) && k < |w.blocks| && pc < |w.blocks[k].ops| && LoweredAt(w, k, pc)
    ensures Reaches(w, w.blocks[k].ops[pc], |StackAt(w, k, pc)|)
    ensures pc + 1 < |w.blocks[k].ops| ==>
      HeightAfter(w, w.blocks[k].ops[pc], |StackAt(w, k, pc)|) == |StackAt(w, k, pc + 1)|
  {
    var op, st := w.blocks[k].ops[pc], StackAt(w, k, pc);
    assert PointOk(w, k, pc);
    if op.Call? {
      CallInWord(w, k, pc);
    } else if op.BrIf? {
      BrIfInWord(w, k, pc);
    } else if op.Ret? {
      RetInWord(w, k, pc);
    } else if IsLocalOp(op) {
      OnlyControlEnds(w, op, st);
      LocalHeight(w, op, st);
      NextPoint(w, k, pc);
    }
  }

  lemma PointTargets(w: Word, k: nat, pc: nat)
    requires WellTyped(w) && k < |w.blocks| && pc < |w.blocks[k].ops|
    ensures TargetsExist(w, w.blocks[k].ops[pc])
  {
    if w.blocks[k].ops[pc].Br? {
      BrInWord(w, k, pc);
    } else if w.blocks[k].ops[pc].BrIf? {
      BrIfInWord(w, k, pc);
    }
  }

  lemma {:induction false} PointEmits(w: Word, k: nat, pc: nat)
    requires WellTyped(w) && AllLowered(w) && k < |w.blocks| && pc < |w.blocks[k].ops|
    ensures EmitFrom(w, k, pc, |StackAt(w, k, pc)|).Some?
    decreases |w.blocks[k].ops| - pc
  {
    assert LoweredAt(w, k, pc);
    PointHeight(w, k, pc);
    PointTargets(w, k, pc);
    if pc + 1 < |w.blocks[k].ops| {
      PointEmits(w, k, pc + 1);
    }
  }

  /** The code of block `k` of a verified word from operation `pc` on. */
  ghost function CodeFrom(w: Word, k: nat, pc: nat): seq<W.Instr>
    requires WellTyped(w) && AllLowered(w) && k < |w.blocks| && pc < |w.blocks[k].ops|
  {
    PointEmits(w, k, pc);
    EmitFrom(w, k, pc, |StackAt(w, k, pc)|).value
  }

  /** The code from an operation on is the operation's code at the verifier's
      height, and then the code from the next one on, if there is a next one. */
  lemma CodeUnfolds(w: Word, k: nat, pc: nat)
    requires WellTyped(w) && AllLowered(w) && k < |w.blocks| && pc < |w.blocks[k].ops|
    ensures Lowered(w.blocks[k].ops[pc]) && Reaches(w, w.blocks[k].ops[pc], |StackAt(w, k, pc)|)
    ensures CodeFrom(w, k, pc) == EmitOp(w, k, w.blocks[k].ops[pc], |StackAt(w, k, pc)|) +
      (if pc + 1 < |w.blocks[k].ops| then CodeFrom(w, k, pc + 1) else [])
  {
    assert LoweredAt(w, k, pc);
    PointHeight(w, k, pc);
    PointTargets(w, k, pc);
    PointEmits(w, k, pc);
  }

  lemma {:induction false} BlocksEmit(w: Word, n: nat)
    requires WellTyped(w) && AllLowered(w) && n <= |w.blocks|
    ensures EmitBlocks(w, n).Some?
    ensures forall k :: 0 <= k < n ==> NotEmpty(w, k) && EmitBlocks(w, n).value[k] == CodeFrom(w, k, 0)
  {
    if n > 0 {
      BlocksEmit(w, n - 1);
      assert NotEmpty(w, n - 1);
      PointEmits(w, n - 1, 0);
    }
  }

  /** The codes of the blocks of a verified word. */
  ghost function CodesOf(w: Word): (codes: seq<seq<W.Instr>>)
    requires WellTyped(w) && AllLowered(w)
    ensures |codes| == |w.blocks|
    ensures forall k :: 0 <= k < |codes| ==> NotEmpty(w, k) && codes[k] == CodeFrom(w, k, 0)
  {
    BlocksEmit(w, |w.blocks|);
    EmitBlocks(w, |w.blocks|).value
  }

  /** The emitter fails on no verified word over the lowered operations. */
  lemma VerifiedWordsCompile(w: Word)
    requires CheckWord(w) == Ends && AllLowered(w)
    ensures w.blocks != [] && WordBody(w).Some?
  {
    AcceptedExactly(w);
    EntryInWord(w);
    BlocksEmit(w, |w.blocks|);
  }
}
