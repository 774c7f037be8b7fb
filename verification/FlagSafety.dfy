/** A rule on types alone under which every branch condition is 0 or 1, so that
    the lowering needs no condition on the runs. */
module FlagSafety {
  import opened Rings
  import opened Ir
  import opened Words
  import W = Wasm
  import opened Verifier
  import opened IrMachine
  import opened VerifierSoundness
  import opened FrameTheorem
  import opened WasmEmit
  import opened WasmOps
  import opened WasmHeights
  import opened WasmRelation
  import opened WasmSteps
  import opened WasmSimulation
  import opened WasmTheorem

  // ---- the rule ----

  /** The type of booleans and its subtypes. */
  predicate Flaggy(w: Word, t: TypeId) {
    t == TY_BOOL || (t < |w.bases| && w.bases[t] == TY_BOOL)
  }

  ghost predicate ReadsFlag(w: Word, k: nat, pc: nat, slot: nat)
    requires k < |w.blocks| && pc < |w.blocks[k].ops|
  {
    w.blocks[k].ops[pc].LocalGet? && w.blocks[k].ops[pc].slot == slot && Flaggy(w, w.blocks[k].ops[pc].ty)
  }

  /** The word reads booleans from the slot. */
  ghost predicate FlagSlot(w: Word, slot: nat) {
    exists k, pc {:trigger ReadsFlag(w, k, pc, slot)} ::
      0 <= k < |w.blocks| && 0 <= pc < |w.blocks[k].ops| && ReadsFlag(w, k, pc, slot)
  }

  /** Only booleans become booleans: through a retag, through a local, or through
      the types of a call. */
  ghost predicate FlagOp(m: Module, w: Word, op: Op) {
    match op
    case PtrAddConst(ty, _) => !Flaggy(w, ty)
    case Bitcast(from, to) => Flaggy(w, to) ==> Flaggy(w, from)
    case LocalSet(slot, ty) => FlagSlot(w, slot) ==> Flaggy(w, ty)
    case Call(name, sig) =>
      (match FindWord(m, name)
       case None => false
       case Some(c) =>
         && |sig.inputs| == |m[c].sig.inputs| && |sig.outputs| == |m[c].sig.outputs|
         && (forall i :: 0 <= i < |sig.inputs| ==> (Flaggy(m[c], m[c].sig.inputs[i]) ==> Flaggy(w, sig.inputs[i])))
         && (forall i :: 0 <= i < |sig.outputs| ==> (Flaggy(w, sig.outputs[i]) ==> Flaggy(m[c], m[c].sig.outputs[i]))))
    case _ => true
  }

  ghost predicate FlagWord(m: Module, w: Word) {
    && !Flaggy(w, TY_I64)
    && (forall t :: 0 <= t < |w.bases| && Flaggy(w, w.bases[t]) ==> w.bases[t] == TY_BOOL)
    && (forall k, pc {:trigger FlagOp(m, w, w.blocks[k].ops[pc])} ::
          0 <= k < |w.blocks| && 0 <= pc < |w.blocks[k].ops| ==> FlagOp(m, w, w.blocks[k].ops[pc]))
  }

  ghost predicate FlagModule(m: Module) {
    forall i {:trigger FlagWord(m, m[i])} :: 0 <= i < |m| ==> FlagWord(m, m[i])
  }

  // ---- the invariant ----

  ghost predicate IsFlag(w: Word, v: Val) {
    Flaggy(w, v.tag) ==> v.bits <= 1
  }

  ghost predicate Flags(w: Word, seg: seq<Val>) {
    forall i :: 0 <= i < |seg| ==> IsFlag(w, seg[i])
  }

  ghost predicate FlagLocals(w: Word, locals: map<nat, U64>) {
    forall slot {:trigger FlagSlot(w, slot)} :: FlagSlot(w, slot) ==> Local(locals, slot) <= 1
  }

  ghost predicate FrameFlags(m: Module, f: Frame, seg: seq<Val>) {
    f.word < |m| && Flags(m[f.word], seg) && FlagLocals(m[f.word], f.locals)
  }

  ghost predicate AllFlags(m: Module, frames: seq<Frame>, segs: seq<seq<Val>>) {
    |frames| == |segs| && forall i {:trigger FrameFlags(m, frames[i], segs[i])} :: 0 <= i < |frames| ==> FrameFlags(m, frames[i], segs[i])
  }

  lemma FlagsConcat(w: Word, a: seq<Val>, b: seq<Val>)
    requires Flags(w, a) && Flags(w, b)
    ensures Flags(w, a + b)
  {
  }

  lemma FlagsPart(w: Word, a: seq<Val>, i: nat, j: nat)
    requires Flags(w, a) && i <= j <= |a|
    ensures Flags(w, a[i..j])
  {
  }

  lemma SubtypeIsFlag(w: Word, got: TypeId, want: TypeId)
    requires (forall t :: 0 <= t < |w.bases| && Flaggy(w, w.bases[t]) ==> w.bases[t] == TY_BOOL)
    requires TypeOk(w, got, want) && Flaggy(w, want)
    ensures Flaggy(w, got)
  {
  }

  lemma SetFlag(w: Word, locals: map<nat, U64>, slot: nat, x: U64)
    requires FlagLocals(w, locals) && (FlagSlot(w, slot) ==> x <= 1)
    ensures FlagLocals(w, locals[slot := x])
  {
    forall s | FlagSlot(w, s) ensures Local(locals[slot := x], s) <= 1 {
      assert Local(locals, s) <= 1;
    }
  }

  /** One operation on operands that are flags where their types say so. */
  lemma ActKeepsFlags(m: Module, w: Word, op: Op, xs: seq<Val>, locals: map<nat, U64>, input: seq<U64>, k: nat, pc: nat)
    requires FlagWord(m, w) && FlagOp(m, w, op) && IsLocalOp(op) && Lowered(op) && |xs| == Pops(op)
    requires k < |w.blocks| && pc < |w.blocks[k].ops| && op == w.blocks[k].ops[pc]
    requires Flags(w, xs) && FlagLocals(w, locals)
    ensures match Act(w, op, xs, locals, input) case Then(outs, after) => Flags(w, outs) && FlagLocals(w, after) case _ => true
  {
    hide ArithWord;
    hide AndWord;
    hide OrWord;
    hide Compare;
    if op.LocalGet? && Flaggy(w, op.ty) {
      assert ReadsFlag(w, k, pc, op.slot);
      assert FlagSlot(w, op.slot);
    } else if op.LocalSet? {
      if TypeOk(w, xs[0].tag, op.ty) {
        if FlagSlot(w, op.slot) {
          SubtypeIsFlag(w, xs[0].tag, op.ty);
          assert IsFlag(w, xs[0]);
        }
        SetFlag(w, locals, op.slot, xs[0].bits);
      }
    } else if |xs| > 0 {
      assert IsFlag(w, xs[0]);
      if |xs| > 1 {
        assert IsFlag(w, xs[1]);
      }
    }
  }

  lemma ComputeKeepsFlags(m: Module, f: Frame, seg: seq<Val>, input: seq<U64>, e: Effect)
    requires Inside(m, f) && FlagWord(m, m[f.word]) && IsLocalOp(OpAt(m, f)) && Lowered(OpAt(m, f)) && FrameFlags(m, f, seg)
    requires e == Compute(m[f.word], OpAt(m, f), seg, f.locals, input) && e.Then?
    ensures FrameFlags(m, f.(pc := f.pc + 1, locals := e.locals), e.data)
  {
    hide Act;
    hide FlagOp;
    var w, op := m[f.word], OpAt(m, f);
    assert FlagOp(m, w, w.blocks[f.block].ops[f.pc]);
    var k := |seg| - Pops(op);
    FlagsPart(w, seg, k, |seg|);
    FlagsPart(w, seg, 0, k);
    assert seg[k..|seg|] == seg[k..] && seg[0..k] == seg[..k];
    ActKeepsFlags(m, w, op, seg[k..], f.locals, input, f.block, f.pc);
    FlagsConcat(w, seg[..k], Act(w, op, seg[k..], f.locals, input).data);
  }

  lemma FlagsPush(m: Module, f: Frame, seg: seq<Val>, frames: seq<Frame>, segs: seq<seq<Val>>)
    requires FrameFlags(m, f, seg) && AllFlags(m, frames, segs)
    ensures AllFlags(m, [f] + frames, [seg] + segs)
  {
    hide FrameFlags;
    forall i | 0 <= i < |frames| + 1
      ensures FrameFlags(m, ([f] + frames)[i], ([seg] + segs)[i])
    {
      if i > 0 {
        assert FrameFlags(m, frames[i - 1], segs[i - 1]);
      }
    }
  }

  lemma FlagsDrop(m: Module, frames: seq<Frame>, segs: seq<seq<Val>>)
    requires AllFlags(m, frames, segs) && frames != []
    ensures FrameFlags(m, frames[0], segs[0]) && AllFlags(m, frames[1..], segs[1..])
  {
    hide FrameFlags;
    forall i | 0 <= i < |frames| - 1
      ensures FrameFlags(m, frames[1..][i], segs[1..][i])
    {
      assert FrameFlags(m, frames[i + 1], segs[i + 1]);
    }
  }

  /** The state has parts of the stack in which booleans are 0 or 1. */
  ghost predicate FlagState(m: Module, s: State, rest: seq<Val>, segs: seq<seq<Val>>) {
    ReadyModule(m) && FlagModule(m) && Running(m, s, rest, segs) && AllFlags(m, s.frames, segs)
  }

  lemma StateFacts(m: Module, s: State, rest: seq<Val>, segs: seq<seq<Val>>)
    requires FlagState(m, s, rest, segs)
    ensures ModuleSound(m) && s.frames != [] && |segs| == |s.frames| && Inside(m, s.frames[0]) && Running(m, s, rest, segs)
    ensures Tags(segs[0]) == TypesAt(m, s.frames[0])
    ensures FlagWord(m, m[s.frames[0].word]) && FlagOp(m, m[s.frames[0].word], OpAt(m, s.frames[0]))
    ensures FrameFlags(m, s.frames[0], segs[0]) && AllFlags(m, s.frames[1..], segs[1..])
    ensures Lowered(OpAt(m, s.frames[0])) && Ready(m, m[s.frames[0].word])
  {
    hide FlagOp;
    hide FrameFlags;
    hide StackAt;
    ReadyIsSound(m);
    var f := s.frames[0];
    assert Ready(m, m[f.word]);
    assert FlagWord(m, m[f.word]);
    assert FlagOp(m, m[f.word], m[f.word].blocks[f.block].ops[f.pc]);
    assert LoweredAt(m[f.word], f.block, f.pc);
    FlagsDrop(m, s.frames, segs);
  }

  lemma Rejoin(m: Module, after: State, rest: seq<Val>, f: Frame, seg: seq<Val>, frames: seq<Frame>, segs: seq<seq<Val>>)
    requires ReadyModule(m) && FlagModule(m) && after.frames == [f] + frames && Running(m, after, rest, [seg] + segs)
    requires FrameFlags(m, f, seg) && AllFlags(m, frames, segs)
    ensures FlagState(m, after, rest, [seg] + segs)
  {
    hide FrameFlags;
    hide Running;
    FlagsPush(m, f, seg, frames, segs);
  }

  // ---- every step keeps it ----

  lemma LocalKeepsFlags(m: Module, s: State, rest: seq<Val>, segs: seq<seq<Val>>, input: seq<U64>)
    requires FlagState(m, s, rest, segs) && IsLocalOp(OpAt(m, s.frames[0])) && Step(m, s, input).Next?
    ensures exists more :: FlagState(m, Step(m, s, input).state, rest, more)
  {
    hide Step;
    hide Compute;
    hide Running;
    hide FrameFlags;
    hide FlagOp;
    hide StackAt;
    StateFacts(m, s, rest, segs);
    var f := s.frames[0];
    LocalStep(m, s, rest, segs, input);
    var e := Compute(m[f.word], OpAt(m, f), segs[0], f.locals, input);
    ComputeKeepsFlags(m, f, segs[0], input, e);
    Rejoin(m, Advanced(s, rest, segs, e.data, e.locals), rest, f.(pc := f.pc + 1, locals := e.locals), e.data, s.frames[1..], segs[1..]);
  }

  lemma BranchKeepsFlags(m: Module, s: State, rest: seq<Val>, segs: seq<seq<Val>>, input: seq<U64>)
    requires FlagState(m, s, rest, segs) && (OpAt(m, s.frames[0]).Br? || OpAt(m, s.frames[0]).BrIf?)
    ensures Step(m, s, input).Next? && exists more :: FlagState(m, Step(m, s, input).state, rest, more)
  {
    hide Step;
    hide Running;
    hide FlagOp;
    hide StackAt;
    hide Accepts;
    hide JumpTarget;
    hide FlagLocals;
    StateFacts(m, s, rest, segs);
    BranchStep(m, s, rest, segs, input);
    var seg := segs[0];
    var own := if OpAt(m, s.frames[0]).Br? then seg else seg[..|seg| - 1];
    FlagsPart(m[s.frames[0].word], seg, 0, |own|);
    assert seg[0..|own|] == own;
    var after := Step(m, s, input).state;
    Rejoin(m, after, rest, after.frames[0], own, s.frames[1..], segs[1..]);
  }

  lemma RetaggedFlags(w: Word, c: Word, vs: seq<Val>, declared: seq<TypeId>, ts: seq<TypeId>)
    requires |vs| == |declared| == |ts| && Flags(w, vs) && AllOk(w, Tags(vs), declared)
    requires (forall t :: 0 <= t < |w.bases| && Flaggy(w, w.bases[t]) ==> w.bases[t] == TY_BOOL)
    requires forall i :: 0 <= i < |ts| ==> (Flaggy(c, ts[i]) ==> Flaggy(w, declared[i]))
    ensures Flags(c, Retag(vs, ts))
  {
    var r := Retag(vs, ts);
    forall i | 0 <= i < |r| ensures IsFlag(c, r[i]) {
      assert r[i].tag == Tags(r)[i] == ts[i] && r[i].bits == vs[i].bits;
      assert TypeOk(w, Tags(vs)[i], declared[i]);
      if Flaggy(c, ts[i]) {
        SubtypeIsFlag(w, vs[i].tag, declared[i]);
        assert IsFlag(w, vs[i]);
      }
    }
  }

  lemma CallKeepsFlags(m: Module, s: State, rest: seq<Val>, segs: seq<seq<Val>>, input: seq<U64>)
    requires FlagState(m, s, rest, segs) && OpAt(m, s.frames[0]).Call?
    ensures Step(m, s, input).Next? && exists more :: FlagState(m, Step(m, s, input).state, rest, more)
  {
    hide Step;
    hide Running;
    hide StackAt;
    hide Accepts;
    hide FlagLocals;
    StateFacts(m, s, rest, segs);
    var f, op, seg := s.frames[0], OpAt(m, s.frames[0]), segs[0];
    var w := m[f.word];
    EnterStep(m, s, rest, segs, input);
    var k, keep := FindWord(m, op.name).value, |seg| - |op.sig.inputs|;
    CallTypes(m, f, seg, Outside(op.sig, input));
    FlagsPart(w, seg, 0, keep);
    FlagsPart(w, seg, keep, |seg|);
    assert seg[0..keep] == seg[..keep] && seg[keep..|seg|] == seg[keep..];
    var args := Retag(seg[keep..], m[k].sig.inputs);
    RetaggedFlags(w, m[k], seg[keep..], op.sig.inputs, m[k].sig.inputs);
    NoLocals(m[k]);
    FlagsPush(m, f, seg[..keep], s.frames[1..], segs[1..]);
    assert [f] + s.frames[1..] == s.frames;
    assert [args] + ([seg[..keep]] + segs[1..]) == [args, seg[..keep]] + segs[1..];
    var after := Step(m, s, input).state;
    Rejoin(m, after, rest, after.frames[0], args, s.frames, [seg[..keep]] + segs[1..]);
  }

  lemma NoLocals(w: Word)
    ensures FlagLocals(w, map[])
  {
  }

  lemma RetKeepsFlags(m: Module, s: State, rest: seq<Val>, segs: seq<seq<Val>>, input: seq<U64>)
    requires FlagState(m, s, rest, segs) && OpAt(m, s.frames[0]).Ret? && Step(m, s, input).Next?
    ensures exists more :: FlagState(m, Step(m, s, input).state, rest, more)
  {
    hide Step;
    hide Running;
    hide StackAt;
    hide FlagLocals;
    StateFacts(m, s, rest, segs);
    if |s.frames| == 1 {
      FinishStep(m, s, rest, segs, input);
    } else {
      ReturnStep(m, s, rest, segs, input);
      var f, caller := s.frames[0], s.frames[1];
      var outs := Retag(segs[0], OpAt(m, caller).sig.outputs);
      RetPoint(m, f);
      CallerFlags(m, s, rest, segs);
      RetaggedFlags(m[f.word], m[caller.word], segs[0], m[f.word].sig.outputs, OpAt(m, caller).sig.outputs);
      FlagsConcat(m[caller.word], segs[1], outs);
      var after := Step(m, s, input).state;
      Rejoin(m, after, rest, after.frames[0], segs[1] + outs, s.frames[2..], segs[2..]);
    }
  }

  /** What holds of the caller that waits for the running word. */
  lemma CallerFlags(m: Module, s: State, rest: seq<Val>, segs: seq<seq<Val>>)
    requires FlagState(m, s, rest, segs) && |s.frames| > 1
    ensures |segs| == |s.frames| && Inside(m, s.frames[0])
    ensures FrameFlags(m, s.frames[1], segs[1]) && AllFlags(m, s.frames[2..], segs[2..])
    ensures Inside(m, s.frames[1]) && OpAt(m, s.frames[1]).Call?
    ensures
      var sig, c := OpAt(m, s.frames[1]).sig, m[s.frames[0].word];
      && |sig.outputs| == |c.sig.outputs|
      && forall i :: 0 <= i < |sig.outputs| ==> (Flaggy(m[s.frames[1].word], sig.outputs[i]) ==> Flaggy(c, c.sig.outputs[i]))
  {
    hide FrameFlags;
    hide StackAt;
    ReadyIsSound(m);
    FlagsDrop(m, s.frames, segs);
    FlagsDrop(m, s.frames[1..], segs[1..]);
    TailOfTail(s.frames);
    TailOfTail(segs);
    var g := s.frames[1];
    assert CallsAt(m, g, s.frames[0].word, Tags(segs[1]));
    assert FlagWord(m, m[g.word]);
    assert FlagOp(m, m[g.word], m[g.word].blocks[g.block].ops[g.pc]);
  }

  lemma StepKeepsFlags(m: Module, s: State, rest: seq<Val>, segs: seq<seq<Val>>, input: seq<U64>)
    requires FlagState(m, s, rest, segs) && Step(m, s, input).Next?
    ensures exists more :: FlagState(m, Step(m, s, input).state, rest, more)
  {
    hide Step;
    hide FlagState;
    StateFacts(m, s, rest, segs);
    match OpAt(m, s.frames[0])
    case Br(_) => BranchKeepsFlags(m, s, rest, segs, input);
    case BrIf(_, _) => BranchKeepsFlags(m, s, rest, segs, input);
    case Ret => RetKeepsFlags(m, s, rest, segs, input);
    case Call(_, _) => CallKeepsFlags(m, s, rest, segs, input);
    case _ => LocalKeepsFlags(m, s, rest, segs, input);
  }

  /** A condition that is 0 or 1 is clean. */
  lemma FlagsAreClean(m: Module, s: State, rest: seq<Val>, segs: seq<seq<Val>>)
    requires FlagState(m, s, rest, segs)
    ensures CleanHere(m, s)
  {
    hide StackAt;
    StateFacts(m, s, rest, segs);
    if OpAt(m, s.frames[0]).BrIf? && s.data != [] {
      BranchPoint(m, s.frames[0]);
      var seg := segs[0];
      assert s.data[|s.data| - 1] == seg[|seg| - 1];
      assert seg[|seg| - 1].tag == Tags(seg)[|seg| - 1] == TY_BOOL;
      assert IsFlag(m[s.frames[0].word], seg[|seg| - 1]);
    }
  }

  lemma {:induction false} RunsAreClean(m: Module, s: State, rest: seq<Val>, segs: seq<seq<Val>>, inputs: seq<seq<U64>>)
    requires FlagState(m, s, rest, segs)
    ensures CleanRun(m, s, inputs)
    decreases |inputs|
  {
    hide Step;
    hide FlagState;
    hide CleanHere;
    FlagsAreClean(m, s, rest, segs);
    if inputs != [] && Step(m, s, inputs[0]).Next? {
      StepKeepsFlags(m, s, rest, segs, inputs[0]);
      var more :| FlagState(m, Step(m, s, inputs[0]).state, rest, more);
      RunsAreClean(m, Step(m, s, inputs[0]).state, rest, more, inputs[1..]);
    }
  }

  lemma StartHasFlags(m: Module, s: State, word: nat, rest: seq<Val>, args: seq<Val>)
    requires ReadyModule(m) && FlagModule(m) && Starts(m, s, word, rest, args) && Flags(m[word], args)
    ensures FlagState(m, s, rest, [args])
  {
    ReadyIsSound(m);
    EntryRunning(m, s, word, rest, args);
    NoLocals(m[word]);
    assert FrameFlags(m, s.frames[0], args);
  }

  /** For a module whose types keep booleans apart, with nothing asked of its runs:
      called on the same words, the compiled code comes to a related state, the
      same trap at the same place, or the same results. */
  lemma LoweringPreservesMeaning(m: Module, s: State, word: nat, rest: seq<Val>, args: seq<Val>, inputs: seq<seq<U64>>) returns (n: nat)
    requires ReadyModule(m) && FlagModule(m) && Starts(m, s, word, rest, args) && Flags(m[word], args)
    ensures Agree(m, Run(m, s, inputs), rest, W.Steps(Compiled(m), [W.Activate(Compiled(m), word, Bits(args))], n))
  {
    hide W.Steps;
    hide W.Activate;
    hide Step;
    hide FlagState;
    StartHasFlags(m, s, word, rest, args);
    RunsAreClean(m, s, rest, [args], inputs);
    n := CompiledWordsAgree(m, s, word, rest, args, inputs);
  }

  ghost predicate CompiledEnds(m: Module, word: nat, args: seq<Val>, k: nat)
    requires ReadyModule(m) && word < |m| && |args| == |m[word].sig.inputs|
  {
    !W.Steps(Compiled(m), [W.Activate(Compiled(m), word, Bits(args))], k).Next?
  }

  ghost predicate WordEnds(m: Module, s: State, inputs: seq<seq<U64>>) {
    !Run(m, s, inputs).Next?
  }

  ghost function Silence(n: nat): (inputs: seq<seq<U64>>)
    ensures |inputs| == n
  {
    seq(n, i => [])
  }

  lemma EndsWithCompiled(m: Module, s: State, word: nat, rest: seq<Val>, args: seq<Val>, k: nat) returns (inputs: seq<seq<U64>>)
    requires ReadyModule(m) && FlagModule(m) && Starts(m, s, word, rest, args) && Flags(m[word], args)
    requires CompiledEnds(m, word, args, k)
    ensures WordEnds(m, s, inputs)
  {
    hide W.Steps;
    hide W.Activate;
    hide Step;
    hide FlagState;
    hide CleanRun;
    hide LongestBlock;
    hide Flags;
    hide FlagModule;
    hide Running;
    hide Budget;
    hide Silence;
    hide ReadyModule;
    hide Run;
    var longest := BlocksAreFinite(m);
    inputs := Silence(Budget(k, longest));
    StartHasFlags(m, s, word, rest, args);
    RunsAreClean(m, s, rest, [args], inputs);
    CompiledWordsEndInTime(m, s, word, rest, args, inputs, longest, k);
  }

  /** Termination is preserved: the compiled function ends if and only if the word
      does, which leaves those that never end with compiled code that never ends. */
  lemma LoweringPreservesTermination(m: Module, s: State, word: nat, rest: seq<Val>, args: seq<Val>)
    requires ReadyModule(m) && FlagModule(m) && Starts(m, s, word, rest, args) && Flags(m[word], args)
    ensures (exists k: nat :: CompiledEnds(m, word, args, k)) <==> (exists inputs :: WordEnds(m, s, inputs))
  {
    hide W.Steps;
    hide W.Activate;
    hide Step;
    hide FlagState;
    hide ReadyModule;
    hide FlagModule;
    if k: nat :| CompiledEnds(m, word, args, k) {
      var inputs := EndsWithCompiled(m, s, word, rest, args, k);
      assert WordEnds(m, s, inputs);
    }
    if inputs :| WordEnds(m, s, inputs) {
      var n := LoweringPreservesMeaning(m, s, word, rest, args, inputs);
      assert CompiledEnds(m, word, args, n);
    }
  }
}
