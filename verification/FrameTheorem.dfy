/** Whole runs of a module of verified words. */
module FrameTheorem {
  import opened Rings
  import opened Ir
  import opened Verifier
  import opened IrMachine
  import opened VerifierSoundness

  /** A call and the word it names agree on how many values go each way. Type
      ids are private to a word, so their counts are all that can be compared. */
  ghost predicate CallAgrees(m: Module, op: Op) {
    op.Call? ==>
      match FindWord(m, op.name)
      case None => true
      case Some(k) => |m[k].sig.inputs| == |op.sig.inputs| && |m[k].sig.outputs| == |op.sig.outputs|
  }

  ghost predicate WordSound(m: Module, w: Word) {
    && WithinCaps(w) && WellTyped(w)
    && forall k, pc {:trigger CallAgrees(m, w.blocks[k].ops[pc])} ::
         0 <= k < |w.blocks| && 0 <= pc < |w.blocks[k].ops| ==> CallAgrees(m, w.blocks[k].ops[pc])
  }

  ghost predicate ModuleSound(m: Module) {
    forall i {:trigger WordSound(m, m[i])} :: 0 <= i < |m| ==> WordSound(m, m[i])
  }

  /** What the compiler checks: `verify_word` accepts every word, and calls agree
      with their callees. */
  lemma VerifiedModuleIsSound(m: Module)
    requires forall i :: 0 <= i < |m| ==> CheckWord(m[i]) == Ends && WithinCaps(m[i])
    requires forall i, k, pc {:trigger CallAgrees(m, m[i].blocks[k].ops[pc])} ::
      0 <= i < |m| && 0 <= k < |m[i].blocks| && 0 <= pc < |m[i].blocks[k].ops| ==> CallAgrees(m, m[i].blocks[k].ops[pc])
    ensures ModuleSound(m)
  {
    hide CheckWord;
    hide WellTyped;
    forall i: nat | i < |m| ensures WordSound(m, m[i]) {
      AcceptedExactly(m[i]);
    }
  }

  ghost function TypesAt(m: Module, f: Frame): seq<TypeId>
    requires Inside(m, f)
  {
    StackAt(m[f.word], f.block, f.pc)
  }

  /** A frame stands at a call of `callee`, with `below` under the arguments. */
  ghost predicate CallsAt(m: Module, f: Frame, callee: nat, below: seq<TypeId>)
    requires Inside(m, f)
  {
    var op, st := OpAt(m, f), TypesAt(m, f);
    && op.Call? && FindWord(m, op.name) == Some(callee)
    && |op.sig.inputs| <= |st| && below == st[..|st| - |op.sig.inputs|]
  }

  /** `frames[0]` waits at a call of `callee`, and its part of the stack is what
      the verifier says lies below the arguments; and so on down. */
  ghost predicate Waiting(m: Module, frames: seq<Frame>, segs: seq<seq<Val>>, callee: nat)
    decreases |frames|
  {
    && |frames| == |segs| && callee < |m|
    && (frames != [] ==>
          && Inside(m, frames[0])
          && CallsAt(m, frames[0], callee, Tags(segs[0]))
          && Waiting(m, frames[1..], segs[1..], frames[0].word))
  }

  /** The stack made of what lies below and each frame's own part, the running
      one on top. */
  ghost function Pile(rest: seq<Val>, segs: seq<seq<Val>>): seq<Val> {
    if segs == [] then rest else Pile(rest, segs[1..]) + segs[0]
  }

  /** The running word stands at an operation, with exactly the types the
      verifier computed for it, on top of its suspended callers and `rest`. */
  ghost predicate Running(m: Module, s: State, rest: seq<Val>, segs: seq<seq<Val>>) {
    && s.frames != [] && Inside(m, s.frames[0])
    && |segs| == |s.frames|
    && Tags(segs[0]) == TypesAt(m, s.frames[0])
    && Waiting(m, s.frames[1..], segs[1..], s.frames[0].word)
    && s.data == Pile(rest, segs)
  }

  lemma {:induction false} RestIsBelow(rest: seq<Val>, segs: seq<seq<Val>>)
    ensures rest <= Pile(rest, segs)
  {
    if segs != [] {
      RestIsBelow(rest, segs[1..]);
    }
  }

  /** The next operation of the running word, which has `seg` of its own now. */
  ghost function Advanced(s: State, rest: seq<Val>, segs: seq<seq<Val>>, seg: seq<Val>, locals: map<nat, U64>): State
    requires s.frames != [] && segs != []
  {
    var f := s.frames[0];
    State(Pile(rest, segs[1..]) + seg, [f.(pc := f.pc + 1, locals := locals)] + s.frames[1..])
  }

  lemma OnlyControlEnds(w: Word, op: Op, st: seq<TypeId>)
    requires IsLocalOp(op)
    ensures CheckOp(w, op, st) != Ends
  {
    if op.PtrAddIndex? && |st| >= 2 { NoEnd(st[..|st| - 1][..|st| - 2], [op.ty]); }
    if |st| >= 1 {
      NoEnd(st[..|st| - 1], Pushes(op));
    }
    if |st| >= 2 {
      NoEnd(st[..|st| - 2], Pushes(op));
    }
  }

  lemma {:induction false} NoEnd(st: seq<TypeId>, ts: seq<TypeId>)
    ensures PushAll(st, ts) != Ends
    decreases |ts|
  {
    if ts != [] {
      NoEnd(st + [ts[0]], ts[1..]);
    }
  }

  /** After an operation that goes on there is another one. */
  lemma NextPoint(w: Word, k: nat, pc: nat)
    requires WellTyped(w) && k < |w.blocks| && pc < |w.blocks[k].ops|
    requires CheckOp(w, w.blocks[k].ops[pc], StackAt(w, k, pc)).Goes?
    ensures pc + 1 < |w.blocks[k].ops|
    ensures StackAt(w, k, pc + 1) == CheckOp(w, w.blocks[k].ops[pc], StackAt(w, k, pc)).stack
  {
    assert PointOk(w, k, pc);
  }

  // ---- what acceptance says at a call and at a terminator ----

  lemma CallInWord(w: Word, k: nat, pc: nat)
    requires WellTyped(w) && k < |w.blocks| && pc < |w.blocks[k].ops| && w.blocks[k].ops[pc].Call?
    ensures
      var sig, st := w.blocks[k].ops[pc].sig, StackAt(w, k, pc);
      && |sig.inputs| <= |st| && AllOk(w, st[|st| - |sig.inputs|..], sig.inputs)
      && pc + 1 < |w.blocks[k].ops|
      && StackAt(w, k, pc + 1) == st[..|st| - |sig.inputs|] + sig.outputs
  {
    var op, st := w.blocks[k].ops[pc], StackAt(w, k, pc);
    assert PointOk(w, k, pc);
    if |op.sig.inputs| <= |st| {
      NoEnd(st[..|st| - |op.sig.inputs|], op.sig.outputs);
      if PushAll(st[..|st| - |op.sig.inputs|], op.sig.outputs).Goes? {
        PushAllBound(st[..|st| - |op.sig.inputs|], op.sig.outputs);
      }
    }
    NextPoint(w, k, pc);
  }

  /** A block a branch may go to from the stack `st`. */
  ghost predicate Accepts(w: Word, id: nat, st: seq<TypeId>) {
    match FindBlock(w.blocks, id)
    case None => false
    case Some(k) => |w.blocks[k].ops| > 0 && StackAt(w, k, 0) == w.blocks[k].entry == st
  }

  lemma TargetMatches(w: Word, id: nat, st: seq<TypeId>, missing: nat, depth: nat, content: nat)
    requires CheckTarget(w, id, st, missing, depth, content) == Ends && WellTyped(w)
    ensures Accepts(w, id, st)
  {
    assert NotEmpty(w, FindBlock(w.blocks, id).value);
  }

  lemma BrInWord(w: Word, k: nat, pc: nat)
    requires WellTyped(w) && k < |w.blocks| && pc < |w.blocks[k].ops| && w.blocks[k].ops[pc].Br?
    ensures Accepts(w, w.blocks[k].ops[pc].target, StackAt(w, k, pc))
  {
    assert PointOk(w, k, pc);
    TargetMatches(w, w.blocks[k].ops[pc].target, StackAt(w, k, pc), BR_TARGET_NOT_FOUND, BR_STACK_DEPTH_MISMATCH, BR_STACK_CONTENT_MISMATCH);
  }

  lemma PointOutcome(w: Word, k: nat, pc: nat)
    requires WellTyped(w) && k < |w.blocks| && pc < |w.blocks[k].ops|
    ensures !CheckOp(w, w.blocks[k].ops[pc], StackAt(w, k, pc)).Bad?
    ensures CheckOp(w, w.blocks[k].ops[pc], StackAt(w, k, pc)).Goes? ==> pc + 1 < |w.blocks[k].ops|
  {
    hide CheckOp;
    assert PointOk(w, k, pc);
  }

  lemma BrIfChecked(w: Word, op: Op, st: seq<TypeId>)
    requires op.BrIf? && !CheckOp(w, op, st).Bad?
    ensures |st| > 0 && st[|st| - 1] == TY_BOOL
    ensures CheckTarget(w, op.thenTarget, st[..|st| - 1], BR_IF_TARGET_NOT_FOUND, BR_IF_STACK_DEPTH_MISMATCH, BR_IF_STACK_CONTENT_MISMATCH) == Ends
    ensures CheckTarget(w, op.elseTarget, st[..|st| - 1], BR_IF_TARGET_NOT_FOUND, BR_IF_STACK_DEPTH_MISMATCH, BR_IF_STACK_CONTENT_MISMATCH) == Ends
  {
  }

  lemma BrIfInWord(w: Word, k: nat, pc: nat)
    requires WellTyped(w) && k < |w.blocks| && pc < |w.blocks[k].ops| && w.blocks[k].ops[pc].BrIf?
    ensures
      var op, st := w.blocks[k].ops[pc], StackAt(w, k, pc);
      && |st| > 0 && st[|st| - 1] == TY_BOOL
      && Accepts(w, op.thenTarget, st[..|st| - 1]) && Accepts(w, op.elseTarget, st[..|st| - 1])
  {
    hide CheckOp;
    hide CheckTarget;
    hide Accepts;
    var op, st := w.blocks[k].ops[pc], StackAt(w, k, pc);
    PointOutcome(w, k, pc);
    BrIfChecked(w, op, st);
    var below := st[..|st| - 1];
    TargetMatches(w, op.thenTarget, below, BR_IF_TARGET_NOT_FOUND, BR_IF_STACK_DEPTH_MISMATCH, BR_IF_STACK_CONTENT_MISMATCH);
    TargetMatches(w, op.elseTarget, below, BR_IF_TARGET_NOT_FOUND, BR_IF_STACK_DEPTH_MISMATCH, BR_IF_STACK_CONTENT_MISMATCH);
  }

  lemma RetInWord(w: Word, k: nat, pc: nat)
    requires WellTyped(w) && k < |w.blocks| && pc < |w.blocks[k].ops| && w.blocks[k].ops[pc].Ret?
    ensures |StackAt(w, k, pc)| == |w.sig.outputs| && AllOk(w, StackAt(w, k, pc), w.sig.outputs)
  {
    assert PointOk(w, k, pc);
  }

  lemma EntryInWord(w: Word)
    requires WellTyped(w)
    ensures Accepts(w, w.entry, w.sig.inputs)
  {
    assert NotEmpty(w, FindBlock(w.blocks, w.entry).value);
  }

  // The same for a frame of a sound module.

  lemma CallPoint(m: Module, f: Frame)
    requires ModuleSound(m) && Inside(m, f) && OpAt(m, f).Call?
    ensures
      var sig, st := OpAt(m, f).sig, TypesAt(m, f);
      && |sig.inputs| <= |st| && AllOk(m[f.word], st[|st| - |sig.inputs|..], sig.inputs)
      && Inside(m, f.(pc := f.pc + 1))
      && TypesAt(m, f.(pc := f.pc + 1)) == st[..|st| - |sig.inputs|] + sig.outputs
    ensures CallAgrees(m, OpAt(m, f))
  {
    assert WordSound(m, m[f.word]);
    CallInWord(m[f.word], f.block, f.pc);
    assert CallAgrees(m, m[f.word].blocks[f.block].ops[f.pc]);
  }

  lemma BranchPoint(m: Module, f: Frame)
    requires ModuleSound(m) && Inside(m, f)
    ensures
      var op, st, w := OpAt(m, f), TypesAt(m, f), m[f.word];
      && (op.Br? ==> Accepts(w, op.target, st))
      && (op.BrIf? ==>
            && |st| > 0 && st[|st| - 1] == TY_BOOL
            && Accepts(w, op.thenTarget, st[..|st| - 1]) && Accepts(w, op.elseTarget, st[..|st| - 1]))
  {
    assert WordSound(m, m[f.word]);
    if OpAt(m, f).Br? {
      BrInWord(m[f.word], f.block, f.pc);
    }
    if OpAt(m, f).BrIf? {
      BrIfInWord(m[f.word], f.block, f.pc);
    }
  }

  lemma RetPoint(m: Module, f: Frame)
    requires ModuleSound(m) && Inside(m, f) && OpAt(m, f).Ret?
    ensures |TypesAt(m, f)| == |m[f.word].sig.outputs| && AllOk(m[f.word], TypesAt(m, f), m[f.word].sig.outputs)
  {
    assert WordSound(m, m[f.word]);
    RetInWord(m[f.word], f.block, f.pc);
  }

  lemma EntryPoint(m: Module, k: nat)
    requires ModuleSound(m) && k < |m|
    ensures Accepts(m[k], m[k].entry, m[k].sig.inputs)
  {
    assert WordSound(m, m[k]);
    EntryInWord(m[k]);
  }

  lemma LocalPoint(m: Module, f: Frame)
    requires ModuleSound(m) && Inside(m, f) && IsLocalOp(OpAt(m, f))
    ensures CheckOp(m[f.word], OpAt(m, f), TypesAt(m, f)).Goes?
    ensures Inside(m, f.(pc := f.pc + 1))
    ensures TypesAt(m, f.(pc := f.pc + 1)) == CheckOp(m[f.word], OpAt(m, f), TypesAt(m, f)).stack
  {
    hide CheckOp;
    assert WordSound(m, m[f.word]);
    assert PointOk(m[f.word], f.block, f.pc);
    OnlyControlEnds(m[f.word], OpAt(m, f), TypesAt(m, f));
    NextPoint(m[f.word], f.block, f.pc);
  }

  /** The running word's own values are the top of the pile. */
  lemma PileTop(rest: seq<Val>, segs: seq<seq<Val>>, k: nat)
    requires segs != [] && k <= |segs[0]|
    ensures
      var data, seg := Pile(rest, segs), segs[0];
      && |data| >= |seg|
      && data[..|data| - k] == Pile(rest, segs[1..]) + seg[..|seg| - k]
      && data[|data| - k..] == seg[|seg| - k..]
      && Tags(seg[..|seg| - k]) == Tags(seg)[..|seg| - k]
      && Tags(seg[|seg| - k..]) == Tags(seg)[|seg| - k..]
  {
  }

  lemma PileWith(rest: seq<Val>, seg: seq<Val>, segs: seq<seq<Val>>)
    ensures ([seg] + segs)[0] == seg && ([seg] + segs)[1..] == segs
    ensures Pile(rest, [seg] + segs) == Pile(rest, segs) + seg
  {
    assert ([seg] + segs)[1..] == segs;
  }

  lemma PileTwo(rest: seq<Val>, segs: seq<seq<Val>>, outs: seq<Val>)
    requires |segs| > 1
    ensures Pile(rest, segs[1..]) + outs == Pile(rest, segs[2..]) + (segs[1] + outs)
  {
    assert segs[1..][1..] == segs[2..] && segs[1..][0] == segs[1];
  }

  /** The parts of a running state put together. */
  lemma MakeRunning(m: Module, f: Frame, frames: seq<Frame>, rest: seq<Val>, seg: seq<Val>, segs: seq<seq<Val>>)
    requires Inside(m, f) && Tags(seg) == TypesAt(m, f) && Waiting(m, frames, segs, f.word)
    ensures Running(m, State(Pile(rest, segs) + seg, [f] + frames), rest, [seg] + segs)
  {
    PileWith(rest, seg, segs);
    assert ([f] + frames)[1..] == frames;
  }

  // ---- the steps ----

  lemma LocalResult(m: Module, s: State, low: seq<Val>, seg: seq<Val>, input: seq<U64>)
    requires s.frames != [] && Inside(m, s.frames[0]) && s.data == low + seg
    requires IsLocalOp(OpAt(m, s.frames[0])) && Pops(OpAt(m, s.frames[0])) <= |seg|
    ensures
      var f := s.frames[0];
      var e := Compute(m[f.word], OpAt(m, f), seg, f.locals, input);
      && (e.Then? ==> Step(m, s, input) == Next(State(low + e.data, [f.(pc := f.pc + 1, locals := e.locals)] + s.frames[1..])))
      && (e.Trap? ==> Step(m, s, input) == Trapped(e.code, e.at))
  {
    ComputeFrame(m[s.frames[0].word], OpAt(m, s.frames[0]), low, seg, s.frames[0].locals, input);
  }

  /** An operation that stays in its block. */
  lemma LocalStep(m: Module, s: State, rest: seq<Val>, segs: seq<seq<Val>>, input: seq<U64>)
    requires ModuleSound(m) && Running(m, s, rest, segs) && IsLocalOp(OpAt(m, s.frames[0]))
    ensures
      var e := Compute(m[s.frames[0].word], OpAt(m, s.frames[0]), segs[0], s.frames[0].locals, input);
      && (e.Then? ==>
            && Step(m, s, input) == Next(Advanced(s, rest, segs, e.data, e.locals))
            && Running(m, Advanced(s, rest, segs, e.data, e.locals), rest, [e.data] + segs[1..]))
      && (e.Trap? ==> Step(m, s, input) == Trapped(e.code, e.at) && OpAt(m, s.frames[0]) == TrapIfFalse(e.code, e.at))
      && e != Wrong
  {
    hide Step;
    hide Compute;
    hide StackAt;
    hide Waiting;
    var f := s.frames[0];
    LocalPoint(m, f);
    ComputeSound(m[f.word], OpAt(m, f), segs[0], f.locals, input);
    LocalResult(m, s, Pile(rest, segs[1..]), segs[0], input);
    var e := Compute(m[f.word], OpAt(m, f), segs[0], f.locals, input);
    if e.Then? {
      var next := f.(pc := f.pc + 1, locals := e.locals);
      assert TypesAt(m, next) == TypesAt(m, f.(pc := f.pc + 1));
      MakeRunning(m, next, s.frames[1..], rest, e.data, segs[1..]);
    }
  }

  lemma Suspend(m: Module, f: Frame, frames: seq<Frame>, below: seq<Val>, segs: seq<seq<Val>>, callee: nat)
    requires Inside(m, f) && callee < |m| && CallsAt(m, f, callee, Tags(below)) && Waiting(m, frames, segs, f.word)
    ensures Waiting(m, [f] + frames, [below] + segs, callee)
  {
    assert ([f] + frames)[1..] == frames && ([below] + segs)[1..] == segs;
  }

  /** What the machine does at a branch when the stack ends in `seg`. */
  lemma BranchResult(m: Module, s: State, low: seq<Val>, seg: seq<Val>, input: seq<U64>)
    requires s.frames != [] && Inside(m, s.frames[0]) && s.data == low + seg
    requires OpAt(m, s.frames[0]).Br? || (OpAt(m, s.frames[0]).BrIf? && seg != [] && seg[|seg| - 1].tag == TY_BOOL)
    requires FindBlock(m[s.frames[0].word].blocks, JumpTarget(OpAt(m, s.frames[0]), seg)).Some?
    ensures
      var f, op := s.frames[0], OpAt(m, s.frames[0]);
      Step(m, s, input) == Next(State(low + (if op.Br? then seg else seg[..|seg| - 1]),
        [f.(block := FindBlock(m[f.word].blocks, JumpTarget(op, seg)).value, pc := 0)] + s.frames[1..]))
  {
    if OpAt(m, s.frames[0]).BrIf? {
      assert s.data[|s.data| - 1] == seg[|seg| - 1];
      assert s.data[..|s.data| - 1] == low + seg[..|seg| - 1];
    }
  }

  /** The types after a call: what lay below the arguments, and the results. */
  lemma CallTypes(m: Module, f: Frame, seg: seq<Val>, outs: seq<Val>)
    requires ModuleSound(m) && Inside(m, f) && OpAt(m, f).Call? && Tags(seg) == TypesAt(m, f)
    requires Tags(outs) == OpAt(m, f).sig.outputs
    ensures |OpAt(m, f).sig.inputs| <= |seg|
    ensures
      var below, args := seg[..|seg| - |OpAt(m, f).sig.inputs|], seg[|seg| - |OpAt(m, f).sig.inputs|..];
      && Tags(below) == TypesAt(m, f)[..|below|] && Tags(args) == TypesAt(m, f)[|below|..]
      && AllOk(m[f.word], Tags(args), OpAt(m, f).sig.inputs)
      && Inside(m, f.(pc := f.pc + 1)) && Tags(below + outs) == TypesAt(m, f.(pc := f.pc + 1))
  {
    CallPoint(m, f);
    TagsConcat(seg[..|seg| - |OpAt(m, f).sig.inputs|], outs);
  }

  /** A call is an entry. */
  lemma StepIsEnter(m: Module, s: State, name: nat, sig: Sig, input: seq<U64>)
    requires s.frames != [] && Inside(m, s.frames[0]) && OpAt(m, s.frames[0]) == Call(name, sig)
    ensures Step(m, s, input) == Enter(m, s, name, sig, input)
  {
    hide Enter;
  }

  lemma OutsideResult(m: Module, s: State, low: seq<Val>, seg: seq<Val>, input: seq<U64>)
    requires s.frames != [] && Inside(m, s.frames[0]) && s.data == low + seg
    requires OpAt(m, s.frames[0]).Call? && FindWord(m, OpAt(m, s.frames[0]).name).None?
    requires
      var sig := OpAt(m, s.frames[0]).sig;
      |sig.inputs| <= |seg| && AllOk(m[s.frames[0].word], Tags(seg[|seg| - |sig.inputs|..]), sig.inputs)
    ensures
      var f, sig := s.frames[0], OpAt(m, s.frames[0]).sig;
      Step(m, s, input) == Next(State(low + (seg[..|seg| - |sig.inputs|] + Outside(sig, input)), [f.(pc := f.pc + 1)] + s.frames[1..]))
  {
    hide AllOk;
    hide FindBlock;
    hide FindWord;
    hide Step;
    var sig := OpAt(m, s.frames[0]).sig;
    var keep := |seg| - |sig.inputs|;
    StepIsEnter(m, s, OpAt(m, s.frames[0]).name, sig, input);
    assert s.data[|s.data| - |sig.inputs|..] == seg[keep..];
    assert s.data[..|s.data| - |sig.inputs|] + Outside(sig, input) == low + (seg[..keep] + Outside(sig, input));
  }

  lemma EnterResult(m: Module, s: State, low: seq<Val>, seg: seq<Val>, input: seq<U64>)
    requires s.frames != [] && Inside(m, s.frames[0]) && s.data == low + seg
    requires OpAt(m, s.frames[0]).Call? && FindWord(m, OpAt(m, s.frames[0]).name).Some?
    requires
      var sig := OpAt(m, s.frames[0]).sig;
      |sig.inputs| <= |seg| && AllOk(m[s.frames[0].word], Tags(seg[|seg| - |sig.inputs|..]), sig.inputs)
    requires
      var k := FindWord(m, OpAt(m, s.frames[0]).name).value;
      |m[k].sig.inputs| == |OpAt(m, s.frames[0]).sig.inputs| && FindBlock(m[k].blocks, m[k].entry).Some?
    ensures
      var op, keep := OpAt(m, s.frames[0]), |seg| - |OpAt(m, s.frames[0]).sig.inputs|;
      var k := FindWord(m, op.name).value;
      Step(m, s, input) == Next(State(low + seg[..keep] + Retag(seg[keep..], m[k].sig.inputs),
        [EntryFrame(m, k)] + s.frames))
  {
    hide AllOk;
    hide FindBlock;
    hide FindWord;
    hide EntryFrame;
    hide Step;
    hide Enter;
    var op := OpAt(m, s.frames[0]);
    var keep := |seg| - |op.sig.inputs|;
    StepIsEnter(m, s, op.name, op.sig, input);
    TopOf(s.data, low, seg, keep);
    EnterIs(m, s, low + seg[..keep], seg[keep..], op.name, op.sig, FindWord(m, op.name).value, input);
  }

  lemma TopOf(data: seq<Val>, low: seq<Val>, seg: seq<Val>, keep: nat)
    requires data == low + seg && keep <= |seg|
    ensures data == (low + seg[..keep]) + seg[keep..]
  {
  }

  /** An entry when the arguments are the top of the stack. */
  lemma EnterIs(m: Module, s: State, below: seq<Val>, args: seq<Val>, name: nat, sig: Sig, k: nat, input: seq<U64>)
    requires s.frames != [] && Inside(m, s.frames[0]) && OpAt(m, s.frames[0]) == Call(name, sig)
    requires s.data == below + args && |args| == |sig.inputs| && AllOk(m[s.frames[0].word], Tags(args), sig.inputs)
    requires FindWord(m, name) == Some(k) && |m[k].sig.inputs| == |args| && FindBlock(m[k].blocks, m[k].entry).Some?
    ensures Enter(m, s, name, sig, input) == Next(State(below + Retag(args, m[k].sig.inputs), [EntryFrame(m, k)] + s.frames))
  {
    hide AllOk;
    hide FindBlock;
    hide FindWord;
    hide EntryFrame;
    hide Retag;
    assert s.data[|s.data| - |args|..] == args && s.data[..|s.data| - |args|] == below;
  }

  lemma ReturnResult(m: Module, s: State, low: seq<Val>, seg: seq<Val>, input: seq<U64>)
    requires |s.frames| > 1 && Inside(m, s.frames[0]) && s.data == low + seg && OpAt(m, s.frames[0]).Ret?
    requires |seg| == |m[s.frames[0].word].sig.outputs| && AllOk(m[s.frames[0].word], Tags(seg), m[s.frames[0].word].sig.outputs)
    requires Inside(m, s.frames[1]) && OpAt(m, s.frames[1]).Call? && |OpAt(m, s.frames[1]).sig.outputs| == |seg|
    ensures
      var caller := s.frames[1];
      Step(m, s, input) == Next(State(low + Retag(seg, OpAt(m, caller).sig.outputs), [caller.(pc := caller.pc + 1)] + s.frames[2..]))
  {
    assert s.data[..|s.data| - |seg|] == low;
    assert s.data[|s.data| - |seg|..] == seg;
  }

  ghost function JumpTarget(op: Op, seg: seq<Val>): nat
    requires op.Br? || (op.BrIf? && seg != [])
  {
    if op.Br? then op.target else if seg[|seg| - 1].bits != 0 then op.thenTarget else op.elseTarget
  }

  /** The block a branch goes to is entered with exactly its declared types. */
  lemma BranchStep(m: Module, s: State, rest: seq<Val>, segs: seq<seq<Val>>, input: seq<U64>)
    requires ModuleSound(m) && Running(m, s, rest, segs)
    requires OpAt(m, s.frames[0]).Br? || OpAt(m, s.frames[0]).BrIf?
    ensures
      var f, op, seg := s.frames[0], OpAt(m, s.frames[0]), segs[0];
      var below := if op.Br? then seg else if seg == [] then [] else seg[..|seg| - 1];
      && (op.BrIf? ==> seg != [])
      && Accepts(m[f.word], JumpTarget(op, seg), Tags(below))
      && Step(m, s, input) == Next(State(Pile(rest, segs[1..]) + below,
           [f.(block := FindBlock(m[f.word].blocks, JumpTarget(op, seg)).value, pc := 0)] + s.frames[1..]))
      && Running(m, Step(m, s, input).state, rest, [below] + segs[1..])
  {
    hide Step;
    hide StackAt;
    hide Waiting;
    var f := s.frames[0];
    var op, seg := OpAt(m, f), segs[0];
    BranchPoint(m, f);
    if op.BrIf? {
      assert Tags(seg)[|seg| - 1] == seg[|seg| - 1].tag;
      assert Tags(seg[..|seg| - 1]) == Tags(seg)[..|seg| - 1];
    }
    var below := if op.Br? then seg else seg[..|seg| - 1];
    BranchResult(m, s, Pile(rest, segs[1..]), seg, input);
    var k := FindBlock(m[f.word].blocks, JumpTarget(op, seg)).value;
    MakeRunning(m, f.(block := k, pc := 0), s.frames[1..], rest, below, segs[1..]);
  }

  /** A word outside the module takes its arguments and leaves its results. */
  lemma OutsideStep(m: Module, s: State, rest: seq<Val>, segs: seq<seq<Val>>, input: seq<U64>)
    requires ModuleSound(m) && Running(m, s, rest, segs)
    requires OpAt(m, s.frames[0]).Call? && FindWord(m, OpAt(m, s.frames[0]).name).None?
    ensures
      var f, sig, seg := s.frames[0], OpAt(m, s.frames[0]).sig, segs[0];
      && |sig.inputs| <= |seg|
      && Step(m, s, input) == Next(State(Pile(rest, segs[1..]) + (seg[..|seg| - |sig.inputs|] + Outside(sig, input)), [f.(pc := f.pc + 1)] + s.frames[1..]))
      && Running(m, Step(m, s, input).state, rest, [seg[..|seg| - |sig.inputs|] + Outside(sig, input)] + segs[1..])
  {
    hide Step;
    hide AllOk;
    hide StackAt;
    hide Waiting;
    hide Outside;
    hide ModuleSound;
    var f := s.frames[0];
    var sig, seg := OpAt(m, f).sig, segs[0];
    var outs := Outside(sig, input);
    var low := Pile(rest, segs[1..]);
    CallTypes(m, f, seg, outs);
    OutsideResult(m, s, low, seg, input);
    MakeRunning(m, f.(pc := f.pc + 1), s.frames[1..], rest, seg[..|seg| - |sig.inputs|] + outs, segs[1..]);
  }

  /** A suspended caller and a callee about to start. */
  lemma EnterRunning(m: Module, f: Frame, frames: seq<Frame>, rest: seq<Val>, below: seq<Val>, args: seq<Val>, segs: seq<seq<Val>>, callee: nat)
    requires Inside(m, f) && callee < |m| && CallsAt(m, f, callee, Tags(below)) && Waiting(m, frames, segs, f.word)
    requires Accepts(m[callee], m[callee].entry, m[callee].sig.inputs) && Tags(args) == m[callee].sig.inputs
    ensures Running(m, State(Pile(rest, segs) + below + args, [EntryFrame(m, callee), f] + frames), rest, [args, below] + segs)
  {
    Suspend(m, f, frames, below, segs, callee);
    PileWith(rest, below, segs);
    MakeRunning(m, EntryFrame(m, callee), [f] + frames, rest, args, [below] + segs);
    assert [args, below] + segs == [args] + ([below] + segs);
    assert [EntryFrame(m, callee), f] + frames == [EntryFrame(m, callee)] + ([f] + frames);
  }

  /** A call: the callee starts with its declared types over the arguments, and
      the caller waits with what lay below them. */
  lemma EnterStep(m: Module, s: State, rest: seq<Val>, segs: seq<seq<Val>>, input: seq<U64>)
    requires ModuleSound(m) && Running(m, s, rest, segs)
    requires OpAt(m, s.frames[0]).Call? && FindWord(m, OpAt(m, s.frames[0]).name).Some?
    ensures
      var op, seg := OpAt(m, s.frames[0]), segs[0];
      var k, keep := FindWord(m, op.name).value, |segs[0]| - |op.sig.inputs|;
      && 0 <= keep && |m[k].sig.inputs| == |op.sig.inputs| && Accepts(m[k], m[k].entry, m[k].sig.inputs)
      && Step(m, s, input).Next?
      && Step(m, s, input).state.frames == [EntryFrame(m, k)] + s.frames
      && Running(m, Step(m, s, input).state, rest, [Retag(seg[keep..], m[k].sig.inputs), seg[..keep]] + segs[1..])
  {
    hide Step;
    hide AllOk;
    hide StackAt;
    hide Waiting;
    hide Accepts;
    hide Retag;
    var f, seg := s.frames[0], segs[0];
    var op, k := OpAt(m, f), FindWord(m, OpAt(m, f).name).value;
    CallPoint(m, f);
    CallTypes(m, f, seg, Outside(op.sig, input));
    EntryPoint(m, k);
    EnterResult(m, s, Pile(rest, segs[1..]), seg, input);
    var keep := |seg| - |op.sig.inputs|;
    EnterRunning(m, f, s.frames[1..], rest, seg[..keep], Retag(seg[keep..], m[k].sig.inputs), segs[1..], k);
    assert [EntryFrame(m, k), f] + s.frames[1..] == [EntryFrame(m, k)] + s.frames;
  }

  /** What a suspended caller knows of the word it waits for. */
  lemma CallerPoint(m: Module, s: State, rest: seq<Val>, segs: seq<seq<Val>>)
    requires ModuleSound(m) && Running(m, s, rest, segs) && |s.frames| > 1
    ensures
      var caller, w := s.frames[1], m[s.frames[0].word];
      && Inside(m, caller) && OpAt(m, caller).Call?
      && |OpAt(m, caller).sig.outputs| == |w.sig.outputs|
      && Inside(m, caller.(pc := caller.pc + 1))
      && TypesAt(m, caller.(pc := caller.pc + 1)) == Tags(segs[1]) + OpAt(m, caller).sig.outputs
      && Waiting(m, s.frames[2..], segs[2..], caller.word)
  {
    var caller := s.frames[1];
    assert caller == s.frames[1..][0] && segs[1] == segs[1..][0];
    assert s.frames[1..][1..] == s.frames[2..] && segs[1..][1..] == segs[2..];
    assert CallsAt(m, caller, s.frames[0].word, Tags(segs[1]));
    CallPoint(m, caller);
  }

  /** A return: exactly the results are left of the callee, above what lay below
      its arguments. */
  lemma ReturnStep(m: Module, s: State, rest: seq<Val>, segs: seq<seq<Val>>, input: seq<U64>)
    requires ModuleSound(m) && Running(m, s, rest, segs) && OpAt(m, s.frames[0]).Ret? && |s.frames| > 1
    ensures Inside(m, s.frames[1]) && OpAt(m, s.frames[1]).Call? && |OpAt(m, s.frames[1]).sig.outputs| == |segs[0]|
    ensures
      var caller := s.frames[1];
      var own := segs[1] + Retag(segs[0], OpAt(m, caller).sig.outputs);
      && Step(m, s, input) == Next(State(Pile(rest, segs[2..]) + own, [caller.(pc := caller.pc + 1)] + s.frames[2..]))
      && Running(m, Step(m, s, input).state, rest, [own] + segs[2..])
  {
    hide Step;
    hide AllOk;
    hide StackAt;
    hide Waiting;
    var f, caller := s.frames[0], s.frames[1];
    RetPoint(m, f);
    CallerPoint(m, s, rest, segs);
    ReturnResult(m, s, Pile(rest, segs[1..]), segs[0], input);
    var outs := Retag(segs[0], OpAt(m, caller).sig.outputs);
    TagsConcat(segs[1], outs);
    PileTwo(rest, segs, outs);
    MakeRunning(m, caller.(pc := caller.pc + 1), s.frames[2..], rest, segs[1] + outs, segs[2..]);
  }

  /** The outermost word leaves exactly its results on `rest`. */
  lemma FinishStep(m: Module, s: State, rest: seq<Val>, segs: seq<seq<Val>>, input: seq<U64>)
    requires ModuleSound(m) && Running(m, s, rest, segs) && OpAt(m, s.frames[0]).Ret? && |s.frames| == 1
    ensures |segs[0]| == |m[s.frames[0].word].sig.outputs|
    ensures Step(m, s, input) == Finished(rest + Retag(segs[0], m[s.frames[0].word].sig.outputs))
  {
    hide AllOk;
    hide StackAt;
    hide Waiting;
    var f, seg := s.frames[0], segs[0];
    RetPoint(m, f);
    PileTop(rest, segs, |seg|);
    assert Pile(rest, segs[1..]) == rest;
    assert s.data[..|s.data| - |seg|] == rest;
    assert s.data[|s.data| - |seg|..] == seg;
  }

  // ---- the theorems ----

  /** The state in which a word is called on its arguments over `rest`. */
  ghost predicate Starts(m: Module, s: State, word: nat, rest: seq<Val>, args: seq<Val>) {
    && word < |m| && Tags(args) == m[word].sig.inputs
    && FindBlock(m[word].blocks, m[word].entry).Some?
    && s == State(rest + args, [EntryFrame(m, word)])
  }

  ghost predicate Safe(m: Module, s: State, word: nat, rest: seq<Val>) {
    && s.frames != [] && s.frames[|s.frames| - 1].word == word
    && exists segs :: Running(m, s, rest, segs)
  }

  lemma StartIsSafe(m: Module, s: State, word: nat, rest: seq<Val>, args: seq<Val>)
    requires ModuleSound(m) && Starts(m, s, word, rest, args)
    ensures Safe(m, s, word, rest)
  {
    assert WordSound(m, m[word]);
    assert NotEmpty(m[word], s.frames[0].block);
    assert Pile(rest, [args]) == rest + args by {
      assert [args][1..] == [];
    }
    assert Running(m, s, rest, [args]);
  }

  /** The result of a step that keeps a run of `word` over `rest` safe. */
  ghost predicate GoesOn(m: Module, r: Result, word: nat, rest: seq<Val>)
    requires word < |m|
  {
    match r
    case Next(after) => Safe(m, after, word, rest)
    case Finished(data) => rest <= data && Tags(data[|rest|..]) == m[word].sig.outputs
    case Trapped(_, _) => true
    case Stuck => false
  }

  lemma StaysSafe(m: Module, s: State, word: nat, rest: seq<Val>, segs: seq<seq<Val>>)
    requires Running(m, s, rest, segs) && s.frames[|s.frames| - 1].word == word
    ensures Safe(m, s, word, rest)
  {
  }

  lemma LocalIsSafe(m: Module, s: State, word: nat, rest: seq<Val>, segs: seq<seq<Val>>, input: seq<U64>)
    requires ModuleSound(m) && Running(m, s, rest, segs) && s.frames[|s.frames| - 1].word == word < |m|
    requires IsLocalOp(OpAt(m, s.frames[0]))
    ensures GoesOn(m, Step(m, s, input), word, rest)
  {
    hide Step;
    hide Compute;
    hide StackAt;
    hide Waiting;
    LocalStep(m, s, rest, segs, input);
    var e := Compute(m[s.frames[0].word], OpAt(m, s.frames[0]), segs[0], s.frames[0].locals, input);
    if e.Then? {
      StaysSafe(m, Advanced(s, rest, segs, e.data, e.locals), word, rest, [e.data] + segs[1..]);
    }
  }

  lemma BranchIsSafe(m: Module, s: State, word: nat, rest: seq<Val>, segs: seq<seq<Val>>, input: seq<U64>)
    requires ModuleSound(m) && Running(m, s, rest, segs) && s.frames[|s.frames| - 1].word == word < |m|
    requires OpAt(m, s.frames[0]).Br? || OpAt(m, s.frames[0]).BrIf?
    ensures GoesOn(m, Step(m, s, input), word, rest)
  {
    BranchStep(m, s, rest, segs, input);
    var seg := segs[0];
    var below := if OpAt(m, s.frames[0]).Br? then seg else seg[..|seg| - 1];
    StaysSafe(m, Step(m, s, input).state, word, rest, [below] + segs[1..]);
  }

  lemma RetIsSafe(m: Module, s: State, word: nat, rest: seq<Val>, segs: seq<seq<Val>>, input: seq<U64>)
    requires ModuleSound(m) && Running(m, s, rest, segs) && s.frames[|s.frames| - 1].word == word < |m|
    requires OpAt(m, s.frames[0]).Ret?
    ensures GoesOn(m, Step(m, s, input), word, rest)
  {
    if |s.frames| == 1 {
      FinishStep(m, s, rest, segs, input);
    } else {
      ReturnStep(m, s, rest, segs, input);
      var own := segs[1] + Retag(segs[0], OpAt(m, s.frames[1]).sig.outputs);
      StaysSafe(m, Step(m, s, input).state, word, rest, [own] + segs[2..]);
    }
  }

  lemma CallIsSafe(m: Module, s: State, word: nat, rest: seq<Val>, segs: seq<seq<Val>>, input: seq<U64>)
    requires ModuleSound(m) && Running(m, s, rest, segs) && s.frames[|s.frames| - 1].word == word < |m|
    requires OpAt(m, s.frames[0]).Call?
    ensures GoesOn(m, Step(m, s, input), word, rest)
  {
    hide Step;
    var op, seg := OpAt(m, s.frames[0]), segs[0];
    if FindWord(m, op.name).None? {
      OutsideStep(m, s, rest, segs, input);
      StaysSafe(m, Step(m, s, input).state, word, rest, [seg[..|seg| - |op.sig.inputs|] + Outside(op.sig, input)] + segs[1..]);
    } else {
      EnterStep(m, s, rest, segs, input);
      var k, keep := FindWord(m, op.name).value, |seg| - |op.sig.inputs|;
      StaysSafe(m, Step(m, s, input).state, word, rest, [Retag(seg[keep..], m[k].sig.inputs), seg[..keep]] + segs[1..]);
    }
  }

  /** A machine that is at a verified point takes a step, to another such point,
      to the trap of a guard, or to the end with exactly the results of the word
      that was called, of the types it declares, over an untouched `rest`. */
  lemma StepIsSafe(m: Module, s: State, word: nat, rest: seq<Val>, input: seq<U64>)
    requires ModuleSound(m) && Safe(m, s, word, rest) && word < |m|
    ensures GoesOn(m, Step(m, s, input), word, rest)
  {
    hide Step;
    hide StackAt;
    hide Waiting;
    var segs :| Running(m, s, rest, segs);
    match OpAt(m, s.frames[0])
    case Br(_) => BranchIsSafe(m, s, word, rest, segs, input);
    case BrIf(_, _) => BranchIsSafe(m, s, word, rest, segs, input);
    case Ret => RetIsSafe(m, s, word, rest, segs, input);
    case Call(_, _) => CallIsSafe(m, s, word, rest, segs, input);
    case _ => LocalIsSafe(m, s, word, rest, segs, input);
  }

  /** The machine after `inputs`, one supply of outside words for each step. */
  ghost function Run(m: Module, s: State, inputs: seq<seq<U64>>): Result
    decreases |inputs|
  {
    if inputs == [] then Next(s)
    else match Step(m, s, inputs[0])
      case Next(after) => Run(m, after, inputs[1..])
      case other => other
  }

  /** A verified word run on `rest + args` never gets stuck, never touches
      `rest`, and if it returns leaves exactly its results above it. */
  lemma {:induction false} WordsAreFramed(m: Module, s: State, word: nat, rest: seq<Val>, inputs: seq<seq<U64>>)
    requires ModuleSound(m) && Safe(m, s, word, rest) && word < |m|
    ensures GoesOn(m, Run(m, s, inputs), word, rest)
    ensures Run(m, s, inputs).Next? ==> rest <= Run(m, s, inputs).state.data
    decreases |inputs|
  {
    if inputs == [] {
      var segs :| Running(m, s, rest, segs);
      RestIsBelow(rest, segs);
    } else {
      StepIsSafe(m, s, word, rest, inputs[0]);
      if Step(m, s, inputs[0]).Next? {
        WordsAreFramed(m, Step(m, s, inputs[0]).state, word, rest, inputs[1..]);
      }
    }
  }

  /** The frame theorem from the call on. */
  lemma CalledWordsAreFramed(m: Module, s: State, word: nat, rest: seq<Val>, args: seq<Val>, inputs: seq<seq<U64>>)
    requires ModuleSound(m) && Starts(m, s, word, rest, args)
    ensures GoesOn(m, Run(m, s, inputs), word, rest)
    ensures Run(m, s, inputs).Next? ==> rest <= Run(m, s, inputs).state.data
  {
    StartIsSafe(m, s, word, rest, args);
    WordsAreFramed(m, s, word, rest, inputs);
  }

  /** At every point of every run the running word has at most 64 values of its
      own, and they are exactly those the verifier computed for the point. */
  lemma OwnStackIsBounded(m: Module, s: State, word: nat, rest: seq<Val>)
    requires ModuleSound(m) && Safe(m, s, word, rest)
    ensures Inside(m, s.frames[0])
    ensures |TypesAt(m, s.frames[0])| <= STACK_MAX
    ensures Holds(s.data, TypesAt(m, s.frames[0]))
  {
    var segs :| Running(m, s, rest, segs);
    var f := s.frames[0];
    assert WordSound(m, m[f.word]);
    HeightBound(m[f.word], f.block, f.pc);
    assert s.data[|s.data| - |segs[0]|..] == segs[0];
  }
}
