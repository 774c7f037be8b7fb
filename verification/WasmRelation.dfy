/** The compiled module, and the relation between a state of the stack machine
    and a stack of activations. */
module WasmRelation {
  import opened Rings
  import opened Ir
  import opened Words
  import W = Wasm
  import opened Verifier
  import opened IrMachine
  import opened VerifierSoundness
  import opened FrameTheorem
  import opened WasmEmit
  import opened WasmOps
  import opened WasmHeights
  import opened WasmLadder

  // ---- the words the lowering is right for ----

  const TRAP_CODES: nat := 256
  const BLOCKS_MAX: nat := 16

  /** Positions go into the code as signed 32-bit constants. */
  const SPAN_MAX: nat := 0x8000_0000

  /** IR locals do not share a local with the data stack, calls name words of the
      module and have at most one result, and what a trap reports fits. */
  ghost predicate Regular(m: Module, w: Word, op: Op) {
    && Lowered(op) && OwnSlot(w, op)
    && (op.Call? ==> FindWord(m, op.name).Some? && |op.sig.outputs| <= 1)
    && (op.TrapIfFalse? ==> op.code < TRAP_CODES && op.at.start <= op.at.end < SPAN_MAX)
    && (|w.blocks| == 1 ==> !op.Br? && !op.BrIf?)
  }

  /** The stack stays below the local that holds the cursor. */
  ghost predicate BelowCursor(w: Word, k: nat, pc: nat)
    requires k < |w.blocks| && pc < |w.blocks[k].ops|
  {
    |StackAt(w, k, pc)| < Cursor(w)
  }

  ghost predicate RegularWord(m: Module, w: Word) {
    && |w.blocks| <= BLOCKS_MAX
    && (forall k, pc {:trigger Regular(m, w, w.blocks[k].ops[pc])} ::
          0 <= k < |w.blocks| && 0 <= pc < |w.blocks[k].ops| ==> Regular(m, w, w.blocks[k].ops[pc]))
    && (forall k, pc {:trigger BelowCursor(w, k, pc)} ::
          0 <= k < |w.blocks| && 0 <= pc < |w.blocks[k].ops| ==> BelowCursor(w, k, pc))
  }

  ghost predicate Ready(m: Module, w: Word) {
    WordSound(m, w) && AllLowered(w) && RegularWord(m, w)
  }

  ghost predicate ReadyModule(m: Module) {
    forall i {:trigger Ready(m, m[i])} :: 0 <= i < |m| ==> Ready(m, m[i])
  }

  /** The declared growth bounds the heights the verifier sees; without one the
      verifier's own bound does. */
  ghost predicate GrowthHolds(w: Word) {
    w.high.Slots? ==>
      forall k, pc {:trigger StackAt(w, k, pc)} ::
        0 <= k < |w.blocks| && 0 <= pc < |w.blocks[k].ops| ==> |StackAt(w, k, pc)| <= Arity(w) + w.high.extra
  }

  /** Then the data stack never reaches the local of the cursor. */
  lemma GrowthKeepsBelowCursor(w: Word, k: nat, pc: nat)
    requires WithinCaps(w) && WellTyped(w) && GrowthHolds(w) && k < |w.blocks| && pc < |w.blocks[k].ops|
    ensures BelowCursor(w, k, pc)
  {
    HeightBound(w, k, pc);
  }

  lemma ReadyIsSound(m: Module)
    requires ReadyModule(m)
    ensures ModuleSound(m)
  {
    forall i: nat | i < |m| ensures WordSound(m, m[i]) {
      assert Ready(m, m[i]);
    }
  }

  // ---- the compiled module ----

  ghost function BodyOf(w: Word): (body: seq<W.Instr>)
    requires WellTyped(w) && AllLowered(w)
  {
    Prologue(w) + (if |w.blocks| == 1 then CodesOf(w)[0] else Ladder(CodesOf(w), Cursor(w)))
  }

  ghost function FuncOf(w: Word): W.Func
    requires WellTyped(w) && AllLowered(w)
  {
    EntryInWord(w);
    W.Func(w.name, Arity(w), |w.sig.outputs|, ExtraLocals(w), BodyOf(w))
  }

  /** The body is the one the emitter makes. */
  lemma BodyIsEmitted(w: Word)
    requires WellTyped(w) && AllLowered(w)
    ensures w.blocks != [] && WordBody(w) == Some(BodyOf(w))
  {
    EntryInWord(w);
    BlocksEmit(w, |w.blocks|);
  }

  ghost function Compiled(m: Module): (fs: seq<W.Func>)
    requires ReadyModule(m)
    ensures |fs| == |m|
    ensures forall i :: 0 <= i < |m| ==> Ready(m, m[i]) && fs[i] == FuncOf(m[i])
  {
    assert forall i :: 0 <= i < |m| ==> Ready(m, m[i]);
    seq(|m|, i requires 0 <= i < |m| => FuncOf(m[i]))
  }

  /** A name is the same function as it is a word. */
  lemma {:induction false} SameNames(m: Module, fs: seq<W.Func>, name: nat)
    requires |fs| == |m| && forall i :: 0 <= i < |m| ==> fs[i].name == m[i].name
    ensures W.FindFunc(fs, name) == FindWord(m, name)
    decreases |m|
  {
    if m != [] {
      SameNames(m[1..], fs[1..], name);
    }
  }

  // ---- the relation ----

  ghost function LabelsOf(w: Word, k: nat): seq<W.Label>
    requires WellTyped(w) && AllLowered(w) && k < |w.blocks|
  {
    if |w.blocks| == 1 then [] else Labels(CodesOf(w), LoopLabel(CodesOf(w), Cursor(w)), k)
  }

  /** `a` is an activation of the word of `f`, in the same block, with `seg` in
      its first locals, about to run `code`. */
  ghost predicate Mirrors(m: Module, f: Frame, seg: seq<Val>, a: W.Activation, code: seq<W.Instr>)
    requires Inside(m, f) && WellTyped(m[f.word]) && AllLowered(m[f.word])
  {
    && LocalsMatch(m[f.word], f.locals, seg, a.locals)
    && a == At(f.word, a.locals, code, LabelsOf(m[f.word], f.block))
  }

  ghost predicate RunningMatch(m: Module, f: Frame, seg: seq<Val>, a: W.Activation)
    requires ReadyModule(m) && Inside(m, f)
  {
    assert Ready(m, m[f.word]);
    Mirrors(m, f, seg, a, CodeFrom(m[f.word], f.block, f.pc))
  }

  /** A caller waits with its call's stores still to run. */
  ghost predicate WaitingMatch(m: Module, f: Frame, seg: seq<Val>, a: W.Activation)
    requires ReadyModule(m)
  {
    && Inside(m, f) && OpAt(m, f).Call? && Inside(m, f.(pc := f.pc + 1))
    && (assert Ready(m, m[f.word]);
        Mirrors(m, f, seg, a, Sets(|seg|, |OpAt(m, f).sig.outputs|) + CodeFrom(m[f.word], f.block, f.pc + 1)))
  }

  ghost predicate WaitingMatchAt(m: Module, frames: seq<Frame>, segs: seq<seq<Val>>, acts: seq<W.Activation>, i: nat)
    requires ReadyModule(m) && i < |frames| && i < |segs| && i < |acts|
  {
    WaitingMatch(m, frames[i], segs[i], acts[i])
  }

  ghost predicate CallersMatch(m: Module, frames: seq<Frame>, segs: seq<seq<Val>>, acts: seq<W.Activation>)
    requires ReadyModule(m)
  {
    && |frames| == |segs| == |acts|
    && forall i {:trigger WaitingMatchAt(m, frames, segs, acts, i)} :: 0 <= i < |acts| ==> WaitingMatchAt(m, frames, segs, acts, i)
  }

  /** Locals `0 ..` of each activation are its word's part of the data stack. */
  ghost predicate Matches(m: Module, frames: seq<Frame>, segs: seq<seq<Val>>, acts: seq<W.Activation>)
    requires ReadyModule(m)
  {
    && |frames| == |segs| == |acts| && acts != []
    && Inside(m, frames[0]) && RunningMatch(m, frames[0], segs[0], acts[0])
    && CallersMatch(m, frames[1..], segs[1..], acts[1..])
  }

  lemma CallersPush(m: Module, f: Frame, seg: seq<Val>, a: W.Activation, frames: seq<Frame>, segs: seq<seq<Val>>, acts: seq<W.Activation>)
    requires ReadyModule(m) && WaitingMatch(m, f, seg, a) && CallersMatch(m, frames, segs, acts)
    ensures CallersMatch(m, [f] + frames, [seg] + segs, [a] + acts)
  {
    hide WaitingMatch;
    forall i: nat | i < |acts| + 1
      ensures WaitingMatchAt(m, [f] + frames, [seg] + segs, [a] + acts, i)
    {
      if i > 0 {
        assert WaitingMatchAt(m, frames, segs, acts, i - 1);
      }
    }
  }

  lemma CallersPop(m: Module, frames: seq<Frame>, segs: seq<seq<Val>>, acts: seq<W.Activation>)
    requires ReadyModule(m) && CallersMatch(m, frames, segs, acts) && acts != []
    ensures WaitingMatch(m, frames[0], segs[0], acts[0])
    ensures CallersMatch(m, frames[1..], segs[1..], acts[1..])
  {
    hide WaitingMatch;
    assert WaitingMatchAt(m, frames, segs, acts, 0);
    forall i: nat | i < |acts| - 1
      ensures WaitingMatchAt(m, frames[1..], segs[1..], acts[1..], i)
    {
      assert WaitingMatchAt(m, frames, segs, acts, i + 1);
    }
  }

  /** The parts of a match put together. */
  lemma MakeMatch(m: Module, f: Frame, seg: seq<Val>, a: W.Activation, frames: seq<Frame>, segs: seq<seq<Val>>, acts: seq<W.Activation>)
    requires ReadyModule(m) && Inside(m, f) && RunningMatch(m, f, seg, a) && CallersMatch(m, frames, segs, acts)
    ensures Matches(m, [f] + frames, [seg] + segs, [a] + acts)
  {
    assert ([f] + frames)[1..] == frames && ([seg] + segs)[1..] == segs && ([a] + acts)[1..] == acts;
  }
}
