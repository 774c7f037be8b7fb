/** Each step of a verified word is matched by the compiled code. */
module WasmSimulation {
  import opened Rings
  import opened Ir
  import opened Words
  import W = Wasm
  import opened Verifier
  import opened IrMachine
  import opened VerifierSoundness
  import opened FrameTheorem
  import opened WasmEmit
  import opened WasmOps
  import opened WasmHeights
  import opened WasmLadder
  import opened WasmRelation
  import opened WasmSteps

  /** A running frame and its activation. */
  ghost predicate Paired(m: Module, f: Frame, seg: seq<Val>, a: W.Activation) {
    ReadyModule(m) && Inside(m, f) && Tags(seg) == TypesAt(m, f) && RunningMatch(m, f, seg, a)
  }

  /** What holds at the operation a pair stands at. */
  lemma PairFacts(m: Module, f: Frame, seg: seq<Val>, a: W.Activation)
    requires Paired(m, f, seg, a)
    ensures Ready(m, m[f.word]) && Regular(m, m[f.word], OpAt(m, f)) && |seg| < Cursor(m[f.word])
    ensures Reaches(m[f.word], OpAt(m, f), |seg|)
    ensures LocalsMatch(m[f.word], f.locals, seg, a.locals) && |m[f.word].blocks| <= BLOCKS_MAX
    ensures Cursor(m[f.word]) < |a.locals| && (seg != [] ==> a.locals[|seg| - 1] == seg[|seg| - 1].bits)
    ensures a == At(f.word, a.locals, a.code, LabelsOf(m[f.word], f.block))
    ensures a.code == EmitOp(m[f.word], f.block, OpAt(m, f), |seg|) +
      (if Inside(m, f.(pc := f.pc + 1)) then CodeFrom(m[f.word], f.block, f.pc + 1) else [])
  {
    hide WellTyped;
    hide AllLowered;
    hide StackAt;
    hide WithinCaps;
    hide EmitOp;
    hide EmitFrom;
    hide CodeFrom;
    hide LabelsOf;
    var w := m[f.word];
    assert Ready(m, w);
    assert Regular(m, w, w.blocks[f.block].ops[f.pc]);
    assert BelowCursor(w, f.block, f.pc);
    CodeUnfolds(w, f.block, f.pc);
  }

  lemma MakeRunningMatch(m: Module, f: Frame, seg: seq<Val>, wl: seq<U64>, a: W.Activation)
    requires ReadyModule(m) && Inside(m, f) && Ready(m, m[f.word]) && LocalsMatch(m[f.word], f.locals, seg, wl)
    requires a == At(f.word, wl, CodeFrom(m[f.word], f.block, f.pc), LabelsOf(m[f.word], f.block))
    ensures RunningMatch(m, f, seg, a)
  {
  }

  lemma MakeWaitingMatch(m: Module, f: Frame, seg: seq<Val>, wl: seq<U64>, a: W.Activation)
    requires ReadyModule(m) && Inside(m, f) && Inside(m, f.(pc := f.pc + 1)) && OpAt(m, f).Call?
    requires Ready(m, m[f.word]) && LocalsMatch(m[f.word], f.locals, seg, wl)
    requires a == At(f.word, wl, Sets(|seg|, |OpAt(m, f).sig.outputs|) + CodeFrom(m[f.word], f.block, f.pc + 1), LabelsOf(m[f.word], f.block))
    ensures WaitingMatch(m, f, seg, a)
  {
  }

  /** Only a retag is no code. */
  lemma HasCode(w: Word, k: nat, op: Op, h: nat)
    requires IsStraight(op) && Reaches(w, op, h)
    ensures |EmitOp(w, k, op, h)| > 0 || op.Bitcast?
  {
  }

  lemma StraightRuns(m: Module, f: Frame, seg: seq<Val>, a: W.Activation, below: seq<W.Activation>, input: seq<U64>, e: Effect) returns (n: nat, b: W.Activation)
    requires Paired(m, f, seg, a) && IsStraight(OpAt(m, f)) && Inside(m, f.(pc := f.pc + 1))
    requires e == Compute(m[f.word], OpAt(m, f), seg, f.locals, input) && e.Then?
    ensures W.Steps(Compiled(m), [a] + below, n) == W.Next([b] + below)
    ensures n > 0 || OpAt(m, f).Bitcast?
    ensures RunningMatch(m, f.(pc := f.pc + 1, locals := e.locals), e.data, b)
  {
    hide FuncOf;
    hide Accepts;
    hide WellTyped;
    hide AllLowered;
    hide RegularWord;
    hide StackAt;
    hide WithinCaps;
    hide EmitOp;
    hide Compute;
    hide W.Steps;
    hide RunningMatch;
    hide LocalsMatch;
    var w, op := m[f.word], OpAt(m, f);
    PairFacts(m, f, seg, a);
    StraightOps(w, f.block, op, seg, f.locals, a.locals, input);
    var code, rest := EmitOp(w, f.block, op, |seg|), CodeFrom(w, f.block, f.pc + 1);
    var wl := W.Exec(code, [], a.locals).locals;
    Runs(Compiled(m), f.word, a.locals, code, rest, LabelsOf(w, f.block), below, wl);
    n, b := |code|, At(f.word, wl, rest, LabelsOf(w, f.block));
    HasCode(w, f.block, op, |seg|);
    MakeRunningMatch(m, f.(pc := f.pc + 1, locals := e.locals), e.data, wl, b);
  }

  // ---- trap_if_false ----

  lemma GuardCode(w: Word, k: nat, op: Op, h: nat)
    requires op.TrapIfFalse? && Lowered(op) && Reaches(w, op, h)
    ensures EmitOp(w, k, op, h) == [W.LocalGet(h - 1), W.I64Eqz, W.If(TrapCode(op.code, op.at))]
  {
    hide TrapCode;
  }

  lemma GuardFacts(m: Module, f: Frame, seg: seq<Val>, a: W.Activation, code: nat, at: Span)
    requires Paired(m, f, seg, a) && OpAt(m, f) == TrapIfFalse(code, at) && seg != [] && Inside(m, f.(pc := f.pc + 1))
    ensures code < TRAP_CODES && at.start <= at.end < W.TWO32
    ensures Ready(m, m[f.word]) && LocalsMatch(m[f.word], f.locals, seg, a.locals)
    ensures |seg| <= |a.locals| && a.locals[|seg| - 1] == seg[|seg| - 1].bits
    ensures a == At(f.word, a.locals,
                    [W.LocalGet(|seg| - 1), W.I64Eqz, W.If(TrapCode(code, at))] + CodeFrom(m[f.word], f.block, f.pc + 1),
                    LabelsOf(m[f.word], f.block))
  {
    hide WellTyped;
    hide AllLowered;
    hide RegularWord;
    hide StackAt;
    hide TrapCode;
    hide LocalsMatch;
    hide LabelsOf;
    hide CodeFrom;
    hide EmitOp;
    PairFacts(m, f, seg, a);
    GuardCode(m[f.word], f.block, OpAt(m, f), |seg|);
  }

  lemma GuardRuns(m: Module, f: Frame, seg: seq<Val>, a: W.Activation, below: seq<W.Activation>) returns (b: W.Activation)
    requires Paired(m, f, seg, a) && OpAt(m, f).TrapIfFalse? && seg != [] && Inside(m, f.(pc := f.pc + 1))
    requires seg[|seg| - 1].bits != 0
    ensures W.Steps(Compiled(m), [a] + below, 3) == W.Next([b] + below)
    ensures RunningMatch(m, f.(pc := f.pc + 1), seg[..|seg| - 1], b)
  {
    hide WellTyped;
    hide AllLowered;
    hide RegularWord;
    hide StackAt;
    hide TrapCode;
    hide LocalsMatch;
    hide LabelsOf;
    hide CodeFrom;
    hide EmitOp;
    hide W.Steps;
    hide RunningMatch;
    var w, op := m[f.word], OpAt(m, f);
    GuardFacts(m, f, seg, a, op.code, op.at);
    var rest := CodeFrom(w, f.block, f.pc + 1);
    GuardPasses(Compiled(m), f.word, |seg| - 1, a.locals, TrapCode(op.code, op.at), rest, LabelsOf(w, f.block), below);
    b := At(f.word, a.locals, rest, LabelsOf(w, f.block));
    Forget(w, f.locals, seg, a.locals, |seg| - 1);
    MakeRunningMatch(m, f.(pc := f.pc + 1), seg[..|seg| - 1], a.locals, b);
  }

  lemma GuardStops(m: Module, f: Frame, seg: seq<Val>, a: W.Activation, below: seq<W.Activation>, code: nat, at: Span)
    requires Paired(m, f, seg, a) && OpAt(m, f) == TrapIfFalse(code, at) && seg != [] && Inside(m, f.(pc := f.pc + 1))
    requires seg[|seg| - 1].bits == 0
    ensures code < TRAP_CODES && at.start <= at.end < W.TWO32
    ensures W.Steps(Compiled(m), [a] + below, 7) == Report(code, at)
  {
    hide WellTyped;
    hide AllLowered;
    hide RegularWord;
    hide StackAt;
    hide TrapCode;
    hide LocalsMatch;
    hide LabelsOf;
    hide CodeFrom;
    hide EmitOp;
    hide W.Steps;
    hide Report;
    GuardFacts(m, f, seg, a, code, at);
    GuardTraps(Compiled(m), f.word, |seg| - 1, a.locals, code, at, CodeFrom(m[f.word], f.block, f.pc + 1), LabelsOf(m[f.word], f.block), below);
  }

  // ---- branches ----

  /** A branch condition is zero if its low 32 bits are. */
  ghost predicate Faithful(op: Op, seg: seq<Val>) {
    op.BrIf? && seg != [] ==> (W.Low(seg[|seg| - 1].bits, W.TWO32) == 0 <==> seg[|seg| - 1].bits == 0)
  }

  lemma BrCode(w: Word, k: nat, op: Op, h: nat, wl: seq<U64>) returns (code: seq<W.Instr>)
    requires op.Br? && Cursor(w) < |wl| && BlockIndex(w, op.target) < BLOCKS_MAX
    ensures EmitOp(w, k, op, h) == code + [W.Br(LoopDepth(w, k))]
    ensures W.Exec(code, [], wl) == W.Plain([], wl[Cursor(w) := BlockIndex(w, op.target)])
  {
    hide W.Exec;
    var t := BlockIndex(w, op.target);
    code := [W.I32Const(t)] + [W.LocalSet(Cursor(w))];
    SetCursor(t, Cursor(w), wl);
  }

  lemma BrIfCode(w: Word, k: nat, op: Op, h: nat, wl: seq<U64>) returns (code: seq<W.Instr>)
    requires op.BrIf? && 1 <= h <= |wl| && Cursor(w) < |wl|
    requires BlockIndex(w, op.thenTarget) < BLOCKS_MAX && BlockIndex(w, op.elseTarget) < BLOCKS_MAX
    ensures EmitOp(w, k, op, h) == code + [W.Br(LoopDepth(w, k))]
    ensures W.Exec(code, [], wl) ==
      W.Plain([], wl[Cursor(w) := Chosen(wl[h - 1], BlockIndex(w, op.thenTarget), BlockIndex(w, op.elseTarget))])
  {
    hide W.Exec;
    var t, e := BlockIndex(w, op.thenTarget), BlockIndex(w, op.elseTarget);
    code := ChooseCode(h - 1, Cursor(w), t, e);
    Chooses(h - 1, Cursor(w), t, e, wl);
  }

  /** The code of a branch puts the number of the block it goes to in the cursor,
      if the condition is faithful, and jumps to the dispatch loop. */
  lemma JumpCode(w: Word, k: nat, op: Op, seg: seq<Val>, wl: seq<U64>, target: nat) returns (code: seq<W.Instr>)
    requires |seg| <= |wl| && Cursor(w) < |wl| && |w.blocks| <= BLOCKS_MAX
    requires op.Br? || (op.BrIf? && seg != [] && wl[|seg| - 1] == seg[|seg| - 1].bits)
    requires TargetsExist(w, op) && Faithful(op, seg) && FindBlock(w.blocks, JumpTarget(op, seg)) == Some(target)
    ensures target < BLOCKS_MAX && EmitOp(w, k, op, |seg|) == code + [W.Br(LoopDepth(w, k))]
    ensures W.Exec(code, [], wl) == W.Plain([], wl[Cursor(w) := target])
  {
    hide W.Exec;
    hide EmitOp;
    if op.Br? {
      code := BrCode(w, k, op, |seg|, wl);
    } else {
      code := BrIfCode(w, k, op, |seg|, wl);
    }
  }

  /** The jump, from the code of case `k`. */
  lemma JumpRuns(fs: seq<W.Func>, func: nat, codes: seq<seq<W.Instr>>, cur: nat, k: nat, target: nat, code: seq<W.Instr>, wl: seq<U64>, below: seq<W.Activation>) returns (n: nat)
    requires k < |codes| && target < |codes| <= BLOCKS_MAX && cur < |wl|
    requires W.Exec(code, [], wl) == W.Plain([], wl[cur := target])
    ensures W.Steps(fs, [At(func, wl, code + [W.Br(|codes| - k)], Labels(codes, LoopLabel(codes, cur), k))] + below, n) ==
      W.Next([At(func, wl[cur := target], codes[target], Labels(codes, LoopLabel(codes, cur), target))] + below)
    ensures n > 0
  {
    hide W.Steps;
    hide W.Exec;
    hide Labels;
    hide LoopLabel;
    var br, labels := [W.Br(|codes| - k)], Labels(codes, LoopLabel(codes, cur), k);
    var wl' := wl[cur := target];
    Runs(fs, func, wl, code, br, labels, below, wl');
    BranchRuns(fs, func, wl', codes, cur, k, [], below);
    assert br + [] == br;
    var last := [At(func, wl', codes[target], Labels(codes, LoopLabel(codes, cur), target))] + below;
    Onward(fs, [At(func, wl, code + br, labels)] + below, |code|, [At(func, wl', br, labels)] + below, |codes| + 4, W.Next(last));
    n := |code| + (|codes| + 4);
  }

  /** A branch of a word of several blocks and where it goes. */
  ghost predicate Branches(m: Module, f: Frame, seg: seq<Val>, a: W.Activation, target: nat) {
    && Paired(m, f, seg, a) && (OpAt(m, f).Br? || (OpAt(m, f).BrIf? && seg != []))
    && TargetsExist(m[f.word], OpAt(m, f)) && Faithful(OpAt(m, f), seg) && !Inside(m, f.(pc := f.pc + 1))
    && FindBlock(m[f.word].blocks, JumpTarget(OpAt(m, f), seg)) == Some(target) && Inside(m, f.(block := target, pc := 0))
  }

  lemma BranchCode(m: Module, f: Frame, seg: seq<Val>, a: W.Activation, target: nat) returns (code: seq<W.Instr>)
    requires Branches(m, f, seg, a, target)
    ensures Ready(m, m[f.word]) && |m[f.word].blocks| <= BLOCKS_MAX && Cursor(m[f.word]) < |a.locals|
    ensures
      var codes, cur := CodesOf(m[f.word]), Cursor(m[f.word]);
      && a == At(f.word, a.locals, code + [W.Br(|codes| - f.block)], Labels(codes, LoopLabel(codes, cur), f.block))
      && LabelsOf(m[f.word], target) == Labels(codes, LoopLabel(codes, cur), target)
      && W.Exec(code, [], a.locals) == W.Plain([], a.locals[cur := target])
  {
    hide WellTyped;
    hide AllLowered;
    hide RegularWord;
    hide StackAt;
    hide WithinCaps;
    hide EmitOp;
    hide Labels;
    hide LoopLabel;
    hide LocalsMatch;
    hide W.Exec;
    hide CodesOf;
    PairFacts(m, f, seg, a);
    code := JumpCode(m[f.word], f.block, OpAt(m, f), seg, a.locals, target);
  }

  lemma BranchLocals(m: Module, f: Frame, seg: seq<Val>, a: W.Activation, target: nat)
    requires Branches(m, f, seg, a, target)
    ensures Cursor(m[f.word]) < |a.locals| && target < TWO64
    ensures LocalsMatch(m[f.word], f.locals, if OpAt(m, f).Br? then seg else seg[..|seg| - 1], a.locals[Cursor(m[f.word]) := target])
  {
    hide WellTyped;
    hide AllLowered;
    hide RegularWord;
    hide StackAt;
    hide WithinCaps;
    hide LocalsMatch;
    var own := if OpAt(m, f).Br? then seg else seg[..|seg| - 1];
    PairFacts(m, f, seg, a);
    Forget(m[f.word], f.locals, seg, a.locals, |own|);
    assert seg[..|own|] == own;
    WriteAbove(m[f.word], f.locals, own, a.locals, Cursor(m[f.word]), target);
  }

  lemma BranchMatches(m: Module, f: Frame, seg: seq<Val>, a: W.Activation, below: seq<W.Activation>, target: nat) returns (n: nat, b: W.Activation)
    requires Branches(m, f, seg, a, target)
    ensures W.Steps(Compiled(m), [a] + below, n) == W.Next([b] + below) && n > 0
    ensures RunningMatch(m, f.(block := target, pc := 0), if OpAt(m, f).Br? then seg else seg[..|seg| - 1], b)
  {
    hide FuncOf;
    hide Accepts;
    hide WellTyped;
    hide AllLowered;
    hide RegularWord;
    hide StackAt;
    hide WithinCaps;
    hide W.Steps;
    hide W.Exec;
    hide Labels;
    hide LoopLabel;
    hide LocalsMatch;
    hide RunningMatch;
    hide EmitOp;
    var w := m[f.word];
    var code := BranchCode(m, f, seg, a, target);
    n := JumpRuns(Compiled(m), f.word, CodesOf(w), Cursor(w), f.block, target, code, a.locals, below);
    BranchLocals(m, f, seg, a, target);
    var wl := a.locals[Cursor(w) := target];
    b := At(f.word, wl, CodesOf(w)[target], LabelsOf(w, target));
    MakeRunningMatch(m, f.(block := target, pc := 0), if OpAt(m, f).Br? then seg else seg[..|seg| - 1], wl, b);
  }

  // ---- calls ----

  lemma CallCode(w: Word, k: nat, op: Op, h: nat)
    requires op.Call? && h >= |op.sig.inputs|
    ensures EmitOp(w, k, op, h) ==
      Gets(h - |op.sig.inputs|, |op.sig.inputs|) + ([W.CallWord(op.name)] + Sets(h - |op.sig.inputs|, |op.sig.outputs|))
  {
  }

  /** A callee about to run the code of its entry block. */
  lemma CalleeBegins(m: Module, k: nat, args: seq<Val>, below: seq<W.Activation>) returns (n: nat, b: W.Activation)
    requires ReadyModule(m) && k < |m| && Tags(args) == m[k].sig.inputs && Accepts(m[k], m[k].entry, m[k].sig.inputs)
    ensures W.Steps(Compiled(m), [W.Activate(Compiled(m), k, Bits(args))] + below, n) == W.Next([b] + below)
    ensures Inside(m, EntryFrame(m, k)) && RunningMatch(m, EntryFrame(m, k), args, b)
  {
    hide W.Steps;
    hide Labels;
    hide Ladder;
    assert Ready(m, m[k]);
    var w, wl := m[k], Bits(args) + W.Zeros(ExtraLocals(m[k]));
    var j := BlockIndex(w, w.entry);
    FreshLocals(w, args);
    n := Begins(Compiled(m), w, k, wl, below);
    b := At(k, wl[Cursor(w) := j], CodesOf(w)[j], LabelsOf(w, j));
    WriteAbove(w, map[], args, wl, Cursor(w), j);
    MakeRunningMatch(m, EntryFrame(m, k), args, wl[Cursor(w) := j], b);
  }

  /** From the loads to the new activation. */
  lemma CallRuns(fs: seq<W.Func>, w: Word, func: nat, locals: map<nat, U64>, seg: seq<Val>, wl: seq<U64>, need: nat, name: nat, k: nat, rest: seq<W.Instr>, labels: seq<W.Label>, below: seq<W.Activation>)
    requires LocalsMatch(w, locals, seg, wl) && need <= |seg|
    requires W.FindFunc(fs, name) == Some(k) && k < |fs| && fs[k].argc == need
    ensures W.Steps(fs, [At(func, wl, Gets(|seg| - need, need) + ([W.CallWord(name)] + rest), labels)] + below, need + 1) ==
      W.Next([W.Activate(fs, k, Bits(seg[|seg| - need..]))] + ([At(func, wl, rest, labels)] + below))
  {
    hide W.Steps;
    hide W.Step;
    hide W.Activate;
    var bits, code := Bits(seg[|seg| - need..]), [W.CallWord(name)] + rest;
    LoadSteps(fs, w, func, locals, seg, wl, need, code, labels, below);
    CallMachineStep(fs, func, wl, bits, name, k, rest, labels, below);
    var ready := [W.Activation(func, wl, bits, code, labels)] + below;
    var started := [W.Activate(fs, k, bits)] + ([At(func, wl, rest, labels)] + below);
    Once(fs, ready, W.Next(started));
    Onward(fs, [At(func, wl, Gets(|seg| - need, need) + code, labels)] + below, need, ready, 1, W.Next(started));
  }

  /** The function a call goes to is the compiled word the call names. */
  lemma NamedFunc(m: Module, name: nat, k: nat)
    requires ReadyModule(m) && FindWord(m, name) == Some(k)
    ensures W.FindFunc(Compiled(m), name) == Some(k) && Compiled(m)[k].argc == |m[k].sig.inputs|
  {
    hide BodyOf;
    hide ExtraLocals;
    SameNames(m, Compiled(m), name);
  }

  lemma CallerWaits(m: Module, f: Frame, seg: seq<Val>, a: W.Activation) returns (c: W.Activation)
    requires Paired(m, f, seg, a) && OpAt(m, f).Call? && Inside(m, f.(pc := f.pc + 1)) && |OpAt(m, f).sig.inputs| <= |seg|
    ensures
      var need := |OpAt(m, f).sig.inputs|;
      && WaitingMatch(m, f, seg[..|seg| - need], c)
      && LocalsMatch(m[f.word], f.locals, seg, a.locals)
      && c == At(f.word, a.locals, c.code, c.labels)
      && a == At(f.word, a.locals, Gets(|seg| - need, need) + ([W.CallWord(OpAt(m, f).name)] + c.code), c.labels)
  {
    hide WellTyped;
    hide AllLowered;
    hide RegularWord;
    hide StackAt;
    hide WithinCaps;
    hide EmitOp;
    hide LabelsOf;
    hide LocalsMatch;
    hide WaitingMatch;
    var w, op := m[f.word], OpAt(m, f);
    var keep := |seg| - |op.sig.inputs|;
    PairFacts(m, f, seg, a);
    CallCode(w, f.block, op, |seg|);
    var rest := Sets(keep, |op.sig.outputs|) + CodeFrom(w, f.block, f.pc + 1);
    assert a.code == Gets(keep, |op.sig.inputs|) + ([W.CallWord(op.name)] + rest);
    c := At(f.word, a.locals, rest, LabelsOf(w, f.block));
    Forget(w, f.locals, seg, a.locals, keep);
    MakeWaitingMatch(m, f, seg[..keep], a.locals, c);
  }

  lemma CallMatches(m: Module, f: Frame, seg: seq<Val>, a: W.Activation, below: seq<W.Activation>, k: nat) returns (n: nat, b: W.Activation, c: W.Activation)
    requires Paired(m, f, seg, a) && OpAt(m, f).Call? && FindWord(m, OpAt(m, f).name) == Some(k) && Inside(m, f.(pc := f.pc + 1))
    requires |m[k].sig.inputs| == |OpAt(m, f).sig.inputs| <= |seg| && Accepts(m[k], m[k].entry, m[k].sig.inputs)
    ensures
      var keep := |seg| - |OpAt(m, f).sig.inputs|;
      && W.Steps(Compiled(m), [a] + below, n) == W.Next([b] + ([c] + below)) && n > 0
      && Inside(m, EntryFrame(m, k)) && RunningMatch(m, EntryFrame(m, k), Retag(seg[keep..], m[k].sig.inputs), b)
      && WaitingMatch(m, f, seg[..keep], c)
  {
    hide WellTyped;
    hide AllLowered;
    hide RegularWord;
    hide StackAt;
    hide WithinCaps;
    hide W.Steps;
    hide W.Activate;
    hide FuncOf;
    hide LocalsMatch;
    hide RunningMatch;
    hide WaitingMatch;
    hide Accepts;
    var op, fs := OpAt(m, f), Compiled(m);
    var need := |op.sig.inputs|;
    var keep := |seg| - need;
    c := CallerWaits(m, f, seg, a);
    NamedFunc(m, op.name, k);
    CallRuns(fs, m[f.word], f.word, f.locals, seg, a.locals, need, op.name, k, c.code, c.labels, below);
    var args := Retag(seg[keep..], m[k].sig.inputs);
    assert Bits(seg[keep..]) == Bits(args);
    var more;
    more, b := CalleeBegins(m, k, args, [c] + below);
    n := need + 1 + more;
    Onward(fs, [a] + below, need + 1, [W.Activate(fs, k, Bits(args))] + ([c] + below), more, W.Next([b] + ([c] + below)));
  }

  // ---- returns ----

  lemma RetCode(w: Word, k: nat, h: nat)
    requires h >= |w.sig.outputs|
    ensures EmitOp(w, k, Ret, h) == Gets(h - |w.sig.outputs|, |w.sig.outputs|) + [W.Return]
  {
  }

  lemma ReturnRuns(fs: seq<W.Func>, w: Word, func: nat, locals: map<nat, U64>, seg: seq<Val>, wl: seq<U64>, labels: seq<W.Label>, below: seq<W.Activation>)
    requires LocalsMatch(w, locals, seg, wl) && func < |fs| && fs[func].results == |seg|
    ensures W.Steps(fs, [At(func, wl, Gets(0, |seg|) + [W.Return], labels)] + below, |seg| + 1) ==
      (if below == [] then W.Done(Bits(seg)) else W.Next([below[0].(ops := below[0].ops + Bits(seg))] + below[1..]))
  {
    hide W.Steps;
    hide W.Step;
    hide LocalsMatch;
    var n, bits := |seg|, Bits(seg);
    assert seg[n - n..] == seg && [W.Return] + [] == [W.Return];
    LoadSteps(fs, w, func, locals, seg, wl, n, [W.Return], labels, below);
    ReturnMachineStep(fs, func, wl, bits, [], labels, below);
    var ready := [W.Activation(func, wl, bits, [W.Return], labels)] + below;
    var r := if below == [] then W.Done(bits) else W.Next([below[0].(ops := below[0].ops + bits)] + below[1..]);
    Once(fs, ready, r);
    Onward(fs, [At(func, wl, Gets(0, n) + [W.Return], labels)] + below, n, ready, 1, r);
  }

  /** A word returns its whole part of the stack. */
  lemma RetRuns(m: Module, f: Frame, seg: seq<Val>, a: W.Activation, below: seq<W.Activation>)
    requires Paired(m, f, seg, a) && OpAt(m, f).Ret? && |seg| == |m[f.word].sig.outputs| && !Inside(m, f.(pc := f.pc + 1))
    ensures W.Steps(Compiled(m), [a] + below, |seg| + 1) ==
      (if below == [] then W.Done(Bits(seg)) else W.Next([below[0].(ops := below[0].ops + Bits(seg))] + below[1..]))
  {
    hide WellTyped;
    hide AllLowered;
    hide RegularWord;
    hide StackAt;
    hide W.Steps;
    hide EmitOp;
    hide LabelsOf;
    hide LocalsMatch;
    hide BodyOf;
    hide ExtraLocals;
    var w := m[f.word];
    PairFacts(m, f, seg, a);
    RetCode(w, f.block, |seg|);
    assert (Gets(0, |seg|) + [W.Return]) + [] == Gets(0, |seg|) + [W.Return];
    ReturnRuns(Compiled(m), w, f.word, f.locals, seg, a.locals, LabelsOf(w, f.block), below);
  }

  /** What holds where a caller waits. */
  lemma WaitFacts(m: Module, f: Frame, seg: seq<Val>, a: W.Activation)
    requires ReadyModule(m) && WaitingMatch(m, f, seg, a)
    ensures Ready(m, m[f.word]) && LocalsMatch(m[f.word], f.locals, seg, a.locals) && Cursor(m[f.word]) < |a.locals|
    ensures |OpAt(m, f).sig.outputs| <= 1 && |TypesAt(m, f.(pc := f.pc + 1))| < Cursor(m[f.word])
    ensures a == At(f.word, a.locals, Sets(|seg|, |OpAt(m, f).sig.outputs|) + CodeFrom(m[f.word], f.block, f.pc + 1), LabelsOf(m[f.word], f.block))
  {
    hide WellTyped;
    hide AllLowered;
    hide StackAt;
    hide EmitFrom;
    hide LabelsOf;
    var w := m[f.word];
    assert Ready(m, w);
    assert Regular(m, w, w.blocks[f.block].ops[f.pc]);
    assert BelowCursor(w, f.block, f.pc + 1);
  }

  lemma StoreResult(w: Word, locals: map<nat, U64>, seg: seq<Val>, outs: seq<Val>, wl: seq<U64>)
    requires LocalsMatch(w, locals, seg, wl) && |outs| <= 1 && |seg| < Cursor(w) < |wl|
    ensures LocalsMatch(w, locals, seg + outs, if Bits(outs) == [] then wl else wl[|seg| := Bits(outs)[0]])
  {
    hide LocalsMatch;
    if outs == [] {
      assert seg + outs == seg;
    } else {
      WriteSlot(w, locals, seg, wl, |seg|, outs[0]);
      assert seg[..|seg|] + [outs[0]] == seg + outs;
    }
  }

  /** The caller stores the result where the arguments were and goes on. */
  lemma CallerGoesOn(m: Module, f: Frame, seg: seq<Val>, outs: seq<Val>, a: W.Activation, below: seq<W.Activation>) returns (b: W.Activation)
    requires ReadyModule(m) && WaitingMatch(m, f, seg, a) && |outs| == |OpAt(m, f).sig.outputs|
    requires Tags(seg + outs) == TypesAt(m, f.(pc := f.pc + 1))
    ensures W.Steps(Compiled(m), [a.(ops := a.ops + Bits(outs))] + below, |outs|) == W.Next([b] + below)
    ensures RunningMatch(m, f.(pc := f.pc + 1), seg + outs, b)
  {
    hide W.Steps;
    hide LabelsOf;
    hide WellTyped;
    hide AllLowered;
    hide RegularWord;
    hide StackAt;
    hide LocalsMatch;
    hide RunningMatch;
    var w, bits := m[f.word], Bits(outs);
    WaitFacts(m, f, seg, a);
    var rest, labels := CodeFrom(w, f.block, f.pc + 1), LabelsOf(w, f.block);
    assert [] + bits == bits;
    StoresOne(Compiled(m), f.word, a.locals, |seg|, bits, rest, labels, below);
    StoreResult(w, f.locals, seg, outs, a.locals);
    var wl := if bits == [] then a.locals else a.locals[|seg| := bits[0]];
    b := At(f.word, wl, rest, labels);
    MakeRunningMatch(m, f.(pc := f.pc + 1), seg + outs, wl, b);
  }
}
