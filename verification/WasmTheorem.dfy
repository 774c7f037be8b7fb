/** The lowering preserves meaning: every run of a verified module is matched by
    the compiled one, with the same trap or the same results. */
module WasmTheorem {
  import opened Rings
  import opened Ir
  import opened Words
  import W = Wasm
  import opened Verifier
  import opened IrMachine
  import opened VerifierSoundness
  import opened FrameTheorem
  import opened WasmEmit
  import opened WasmOps
  import opened WasmHeights
  import opened WasmRelation
  import opened WasmSteps
  import opened WasmSimulation

  /** The machine stands at an operation over `rest`, and the activations hold
      what each word has of its own above it. */
  ghost predicate Linked(m: Module, s: State, rest: seq<Val>, segs: seq<seq<Val>>, acts: seq<W.Activation>) {
    ReadyModule(m) && Running(m, s, rest, segs) && Matches(m, s.frames, segs, acts)
  }

  /** The condition of the branch the machine stands at, if it does, is zero only
      if its low 32 bits are. */
  ghost predicate CleanHere(m: Module, s: State) {
    s.frames != [] && Inside(m, s.frames[0]) && OpAt(m, s.frames[0]).BrIf? && s.data != [] ==>
      Faithful(OpAt(m, s.frames[0]), [s.data[|s.data| - 1]])
  }

  ghost predicate IsLinked(m: Module, s: State, rest: seq<Val>, acts: seq<W.Activation>) {
    exists segs :: Linked(m, s, rest, segs, acts)
  }

  /** What the compiled code ends in where the stack machine ends in `r`: a
      related state, the same trap at the same place, the same results. */
  ghost predicate Agree(m: Module, r: Result, rest: seq<Val>, o: W.Outcome) {
    match r
    case Next(after) => o.Next? && IsLinked(m, after, rest, o.stack)
    case Trapped(code, at) =>
      code < TRAP_CODES && at.start <= at.end < W.TWO32 && o == Report(code, at)
    case Finished(data) => rest <= data && o == W.Done(Bits(data[|rest|..]))
    case Stuck => false
  }

  lemma LinkedFacts(m: Module, s: State, rest: seq<Val>, segs: seq<seq<Val>>, acts: seq<W.Activation>)
    requires Linked(m, s, rest, segs, acts)
    ensures ModuleSound(m) && s.frames != [] && segs != [] && acts != [] && Inside(m, s.frames[0])
    ensures Paired(m, s.frames[0], segs[0], acts[0]) && CallersMatch(m, s.frames[1..], segs[1..], acts[1..])
    ensures [acts[0]] + acts[1..] == acts && |segs| == |acts| == |s.frames| && Running(m, s, rest, segs)
    ensures Ready(m, m[s.frames[0].word]) && Regular(m, m[s.frames[0].word], OpAt(m, s.frames[0]))
  {
    hide RunningMatch;
    hide StackAt;
    ReadyIsSound(m);
    PairFacts(m, s.frames[0], segs[0], acts[0]);
  }

  /** The next state of the running word, and of its activation. */
  lemma Continue(m: Module, after: State, rest: seq<Val>, f: Frame, seg: seq<Val>, b: W.Activation, frames: seq<Frame>, segs: seq<seq<Val>>, acts: seq<W.Activation>)
    requires ReadyModule(m) && after.frames == [f] + frames && Inside(m, f) && RunningMatch(m, f, seg, b)
    requires CallersMatch(m, frames, segs, acts) && Running(m, after, rest, [seg] + segs)
    ensures Linked(m, after, rest, [seg] + segs, [b] + acts)
  {
    hide RunningMatch;
    hide CallersMatch;
    hide Running;
    MakeMatch(m, f, seg, b, frames, segs, acts);
  }

  lemma Arrives(m: Module, r: Result, after: State, rest: seq<Val>, segs: seq<seq<Val>>, acts: seq<W.Activation>, o: W.Outcome)
    requires r == Next(after) && o == W.Next(acts) && Linked(m, after, rest, segs, acts)
    ensures Agree(m, r, rest, o)
  {
  }

  // ---- one step ----

  lemma LocalFollows(m: Module, s: State, rest: seq<Val>, segs: seq<seq<Val>>, acts: seq<W.Activation>, input: seq<U64>) returns (n: nat)
    requires Linked(m, s, rest, segs, acts) && IsStraight(OpAt(m, s.frames[0]))
    ensures Agree(m, Step(m, s, input), rest, W.Steps(Compiled(m), acts, n))
    ensures n > 0 || OpAt(m, s.frames[0]).Bitcast?
  {
    hide FuncOf;
    hide AllOk;
    hide Agree;
    hide WellTyped;
    hide CallersMatch;
    hide JumpTarget;
    hide FindBlock;
    hide Step;
    hide W.Steps;
    hide Compute;
    hide Running;
    hide RunningMatch;
    hide Matches;
    hide StackAt;
    LinkedFacts(m, s, rest, segs, acts);
    var f := s.frames[0];
    var e := Compute(m[f.word], OpAt(m, f), segs[0], f.locals, input);
    LocalStep(m, s, rest, segs, input);
    LocalPoint(m, f);
    var b;
    n, b := StraightRuns(m, f, segs[0], acts[0], acts[1..], input, e);
    Continue(m, Advanced(s, rest, segs, e.data, e.locals), rest, f.(pc := f.pc + 1, locals := e.locals), e.data, b, s.frames[1..], segs[1..], acts[1..]);
    Arrives(m, Step(m, s, input), Advanced(s, rest, segs, e.data, e.locals), rest, [e.data] + segs[1..], [b] + acts[1..], W.Steps(Compiled(m), acts, n));
  }

  lemma GuardComputes(w: Word, op: Op, seg: seq<Val>, locals: map<nat, U64>, input: seq<U64>)
    requires op.TrapIfFalse? && Compute(w, op, seg, locals, input) != Wrong
    ensures seg != []
    ensures Compute(w, op, seg, locals, input) ==
      if seg[|seg| - 1].bits == 0 then Trap(op.code, op.at) else Then(seg[..|seg| - 1], locals)
  {
    if seg != [] {
      assert seg[..|seg| - 1] + [] == seg[..|seg| - 1];
    }
  }

  lemma GuardFollows(m: Module, s: State, rest: seq<Val>, segs: seq<seq<Val>>, acts: seq<W.Activation>, input: seq<U64>) returns (n: nat)
    requires Linked(m, s, rest, segs, acts) && OpAt(m, s.frames[0]).TrapIfFalse?
    ensures Agree(m, Step(m, s, input), rest, W.Steps(Compiled(m), acts, n))
    ensures n > 0
  {
    hide FuncOf;
    hide AllOk;
    hide WellTyped;
    hide CallersMatch;
    hide JumpTarget;
    hide FindBlock;
    hide Step;
    hide W.Steps;
    hide Compute;
    hide Running;
    hide RunningMatch;
    hide Matches;
    hide StackAt;
    LinkedFacts(m, s, rest, segs, acts);
    var f, op, seg := s.frames[0], OpAt(m, s.frames[0]), segs[0];
    LocalStep(m, s, rest, segs, input);
    LocalPoint(m, f);
    GuardComputes(m[f.word], op, seg, f.locals, input);
    if seg[|seg| - 1].bits == 0 {
      GuardStops(m, f, seg, acts[0], acts[1..], op.code, op.at);
      n := 7;
    } else {
      var own := seg[..|seg| - 1];
      var b := GuardRuns(m, f, seg, acts[0], acts[1..]);
      n := 3;
      assert f.(pc := f.pc + 1, locals := f.locals) == f.(pc := f.pc + 1);
      Continue(m, Advanced(s, rest, segs, own, f.locals), rest, f.(pc := f.pc + 1), own, b, s.frames[1..], segs[1..], acts[1..]);
    }
  }

  /** A branch ends its block, and its targets are blocks. */
  lemma BranchEnds(m: Module, f: Frame, seg: seq<Val>)
    requires ReadyModule(m) && Inside(m, f) && Tags(seg) == TypesAt(m, f) && (OpAt(m, f).Br? || OpAt(m, f).BrIf?)
    ensures !Inside(m, f.(pc := f.pc + 1)) && TargetsExist(m[f.word], OpAt(m, f))
    ensures OpAt(m, f).BrIf? ==> seg != []
    ensures
      var k := FindBlock(m[f.word].blocks, JumpTarget(OpAt(m, f), seg));
      k.Some? && Inside(m, f.(block := k.value, pc := 0))
  {
    var w := m[f.word];
    assert Ready(m, w);
    ReadyIsSound(m);
    BranchPoint(m, f);
    assert PointOk(w, f.block, f.pc);
    PointTargets(w, f.block, f.pc);
    assert NotEmpty(w, FindBlock(w.blocks, JumpTarget(OpAt(m, f), seg)).value);
  }

  lemma CleanTop(m: Module, s: State, rest: seq<Val>, segs: seq<seq<Val>>)
    requires Running(m, s, rest, segs) && CleanHere(m, s)
    ensures Faithful(OpAt(m, s.frames[0]), segs[0])
  {
    if segs[0] != [] {
      assert s.data[|s.data| - 1] == segs[0][|segs[0]| - 1];
    }
  }

  lemma BranchFollows(m: Module, s: State, rest: seq<Val>, segs: seq<seq<Val>>, acts: seq<W.Activation>, input: seq<U64>) returns (n: nat)
    requires Linked(m, s, rest, segs, acts) && CleanHere(m, s) && (OpAt(m, s.frames[0]).Br? || OpAt(m, s.frames[0]).BrIf?)
    ensures Agree(m, Step(m, s, input), rest, W.Steps(Compiled(m), acts, n))
    ensures n > 0
  {
    hide FuncOf;
    hide AllOk;
    hide Agree;
    hide Running;
    hide WellTyped;
    hide CallersMatch;
    hide JumpTarget;
    hide FindBlock;
    hide Step;
    hide W.Steps;
    hide RunningMatch;
    hide Matches;
    hide StackAt;
    hide Faithful;
    hide CleanHere;
    hide Accepts;
    LinkedFacts(m, s, rest, segs, acts);
    var f, op, seg := s.frames[0], OpAt(m, s.frames[0]), segs[0];
    BranchEnds(m, f, seg);
    CleanTop(m, s, rest, segs);
    BranchStep(m, s, rest, segs, input);
    var target := FindBlock(m[f.word].blocks, JumpTarget(op, seg)).value;
    var own := if op.Br? then seg else seg[..|seg| - 1];
    var b;
    n, b := BranchMatches(m, f, seg, acts[0], acts[1..], target);
    var after := Step(m, s, input).state;
    Continue(m, after, rest, f.(block := target, pc := 0), own, b, s.frames[1..], segs[1..], acts[1..]);
    Arrives(m, Step(m, s, input), after, rest, [own] + segs[1..], [b] + acts[1..], W.Steps(Compiled(m), acts, n));
  }

  /** The compiled code goes to the callee's entry block; the caller joins those
      that wait. */
  lemma CallActs(m: Module, f: Frame, seg: seq<Val>, a: W.Activation, frames: seq<Frame>, segs: seq<seq<Val>>, acts: seq<W.Activation>, k: nat, keep: nat) returns (n: nat, b: W.Activation, c: W.Activation)
    requires Paired(m, f, seg, a) && CallersMatch(m, frames, segs, acts) && OpAt(m, f).Call? && Inside(m, f.(pc := f.pc + 1))
    requires FindWord(m, OpAt(m, f).name) == Some(k) && |m[k].sig.inputs| == |OpAt(m, f).sig.inputs|
    requires keep + |OpAt(m, f).sig.inputs| == |seg| && Accepts(m[k], m[k].entry, m[k].sig.inputs)
    ensures W.Steps(Compiled(m), [a] + acts, n) == W.Next([b] + ([c] + acts)) && n > 0
    ensures Inside(m, EntryFrame(m, k)) && RunningMatch(m, EntryFrame(m, k), Retag(seg[keep..], m[k].sig.inputs), b)
    ensures CallersMatch(m, [f] + frames, [seg[..keep]] + segs, [c] + acts)
  {
    hide FuncOf;
    hide WellTyped;
    hide AllOk;
    hide Accepts;
    hide Matches;
    hide W.Steps;
    hide RunningMatch;
    hide WaitingMatch;
    hide CallersMatch;
    hide StackAt;
    n, b, c := CallMatches(m, f, seg, a, acts, k);
    CallersPush(m, f, seg[..keep], c, frames, segs, acts);
  }

  lemma CallFollows(m: Module, s: State, rest: seq<Val>, segs: seq<seq<Val>>, acts: seq<W.Activation>, input: seq<U64>) returns (n: nat)
    requires Linked(m, s, rest, segs, acts) && OpAt(m, s.frames[0]).Call?
    ensures Agree(m, Step(m, s, input), rest, W.Steps(Compiled(m), acts, n))
    ensures n > 0
  {
    hide FuncOf;
    hide AllOk;
    hide Agree;
    hide Running;
    hide WellTyped;
    hide CallersMatch;
    hide Step;
    hide W.Steps;
    hide RunningMatch;
    hide Matches;
    hide StackAt;
    LinkedFacts(m, s, rest, segs, acts);
    var op, seg := OpAt(m, s.frames[0]), segs[0];
    EnterStep(m, s, rest, segs, input);
    CallPoint(m, s.frames[0]);
    var k, keep := FindWord(m, op.name).value, |seg| - |op.sig.inputs|;
    var b, c;
    n, b, c := CallActs(m, s.frames[0], seg, acts[0], s.frames[1..], segs[1..], acts[1..], k, keep);
    assert [s.frames[0]] + s.frames[1..] == s.frames;
    var below, args := seg[..keep], Retag(seg[keep..], m[k].sig.inputs);
    assert [args] + ([below] + segs[1..]) == [args, below] + segs[1..];
    var after := Step(m, s, input).state;
    Continue(m, after, rest, EntryFrame(m, k), args, b, s.frames, [below] + segs[1..], [c] + acts[1..]);
    Arrives(m, Step(m, s, input), after, rest, [args] + ([below] + segs[1..]), [b] + ([c] + acts[1..]), W.Steps(Compiled(m), acts, n));
  }

  lemma RetEnds(m: Module, f: Frame)
    requires ReadyModule(m) && Inside(m, f) && OpAt(m, f).Ret?
    ensures !Inside(m, f.(pc := f.pc + 1)) && |TypesAt(m, f)| == |m[f.word].sig.outputs|
  {
    assert Ready(m, m[f.word]);
    ReadyIsSound(m);
    RetPoint(m, f);
    assert PointOk(m[f.word], f.block, f.pc);
  }

  lemma FinishFollows(m: Module, s: State, rest: seq<Val>, segs: seq<seq<Val>>, acts: seq<W.Activation>, input: seq<U64>) returns (n: nat)
    requires Linked(m, s, rest, segs, acts) && OpAt(m, s.frames[0]).Ret? && |s.frames| == 1
    ensures Agree(m, Step(m, s, input), rest, W.Steps(Compiled(m), acts, n))
    ensures n > 0
  {
    hide FuncOf;
    hide AllOk;
    hide Step;
    hide W.Steps;
    hide RunningMatch;
    hide Matches;
    hide StackAt;
    LinkedFacts(m, s, rest, segs, acts);
    var f, seg := s.frames[0], segs[0];
    RetEnds(m, f);
    FinishStep(m, s, rest, segs, input);
    RetRuns(m, f, seg, acts[0], acts[1..]);
    n := |seg| + 1;
    var outs := Retag(seg, m[f.word].sig.outputs);
    assert (rest + outs)[|rest|..] == outs && Bits(outs) == Bits(seg);
  }

  /** The compiled code goes back to the code of the last caller. */
  lemma ReturnActs(m: Module, f: Frame, seg: seq<Val>, a: W.Activation, frames: seq<Frame>, segs: seq<seq<Val>>, acts: seq<W.Activation>, outs: seq<Val>) returns (n: nat, b: W.Activation)
    requires Paired(m, f, seg, a) && CallersMatch(m, frames, segs, acts) && OpAt(m, f).Ret? && acts != []
    requires Bits(outs) == Bits(seg) && Inside(m, frames[0]) && OpAt(m, frames[0]).Call? && |outs| == |OpAt(m, frames[0]).sig.outputs|
    requires Inside(m, frames[0].(pc := frames[0].pc + 1)) && Tags(segs[0] + outs) == TypesAt(m, frames[0].(pc := frames[0].pc + 1))
    ensures W.Steps(Compiled(m), [a] + acts, n) == W.Next([b] + acts[1..]) && n > 0
    ensures RunningMatch(m, frames[0].(pc := frames[0].pc + 1), segs[0] + outs, b)
    ensures CallersMatch(m, frames[1..], segs[1..], acts[1..])
  {
    hide FuncOf;
    hide WellTyped;
    hide AllOk;
    hide Accepts;
    hide Matches;
    hide W.Steps;
    hide RunningMatch;
    hide WaitingMatch;
    hide StackAt;
    RetEnds(m, f);
    RetRuns(m, f, seg, a, acts);
    CallersPop(m, frames, segs, acts);
    b := CallerGoesOn(m, frames[0], segs[0], outs, acts[0], acts[1..]);
    n := |seg| + 1 + |outs|;
    Onward(Compiled(m), [a] + acts, |seg| + 1, [acts[0].(ops := acts[0].ops + Bits(seg))] + acts[1..], |outs|, W.Next([b] + acts[1..]));
  }

  lemma TailOfTail<T>(s: seq<T>)
    requires |s| > 1
    ensures s[1..] != [] && s[1..][0] == s[1] && s[1..][1..] == s[2..]
  {
  }

  lemma ReturnFollows(m: Module, s: State, rest: seq<Val>, segs: seq<seq<Val>>, acts: seq<W.Activation>, input: seq<U64>) returns (n: nat)
    requires Linked(m, s, rest, segs, acts) && OpAt(m, s.frames[0]).Ret? && |s.frames| > 1
    ensures Agree(m, Step(m, s, input), rest, W.Steps(Compiled(m), acts, n))
    ensures n > 0
  {
    hide FuncOf;
    hide AllOk;
    hide Agree;
    hide Running;
    hide WellTyped;
    hide Step;
    hide W.Steps;
    hide RunningMatch;
    hide CallersMatch;
    hide Matches;
    hide StackAt;
    LinkedFacts(m, s, rest, segs, acts);
    var caller := s.frames[1];
    ReturnStep(m, s, rest, segs, input);
    var outs := Retag(segs[0], OpAt(m, caller).sig.outputs);
    var b;
    CallerPoint(m, s, rest, segs);
    TagsConcat(segs[1], outs);
    TailOfTail(s.frames);
    TailOfTail(segs);
    TailOfTail(acts);
    assert Bits(outs) == Bits(segs[0]);
    n, b := ReturnActs(m, s.frames[0], segs[0], acts[0], s.frames[1..], segs[1..], acts[1..], outs);
    var after := Step(m, s, input).state;
    Continue(m, after, rest, caller.(pc := caller.pc + 1), segs[1] + outs, b, s.frames[2..], segs[2..], acts[2..]);
    Arrives(m, Step(m, s, input), after, rest, [segs[1] + outs] + segs[2..], [b] + acts[2..], W.Steps(Compiled(m), acts, n));
  }

  /** One step of the stack machine is some steps of the compiled code; none only
      for a retag. */
  lemma StepFollows(m: Module, s: State, rest: seq<Val>, acts: seq<W.Activation>, input: seq<U64>) returns (n: nat)
    requires IsLinked(m, s, rest, acts) && CleanHere(m, s)
    ensures ReadyModule(m) && Agree(m, Step(m, s, input), rest, W.Steps(Compiled(m), acts, n))
    ensures n > 0 || (s.frames != [] && Inside(m, s.frames[0]) && OpAt(m, s.frames[0]).Bitcast?)
  {
    hide Step;
    hide W.Steps;
    hide Agree;
    hide Running;
    hide Matches;
    var segs :| Linked(m, s, rest, segs, acts);
    LinkedFacts(m, s, rest, segs, acts);
    var op := OpAt(m, s.frames[0]);
    if op.Br? || op.BrIf? {
      n := BranchFollows(m, s, rest, segs, acts, input);
    } else if op.Call? {
      n := CallFollows(m, s, rest, segs, acts, input);
    } else if op.Ret? {
      if |s.frames| == 1 {
        n := FinishFollows(m, s, rest, segs, acts, input);
      } else {
        n := ReturnFollows(m, s, rest, segs, acts, input);
      }
    } else if op.TrapIfFalse? {
      n := GuardFollows(m, s, rest, segs, acts, input);
    } else {
      n := LocalFollows(m, s, rest, segs, acts, input);
    }
  }

  // ---- whole runs ----

  /** Every branch condition of the run is clean. */
  ghost predicate CleanRun(m: Module, s: State, inputs: seq<seq<U64>>)
    decreases |inputs|
  {
    && CleanHere(m, s)
    && (inputs != [] && Step(m, s, inputs[0]).Next? ==> CleanRun(m, Step(m, s, inputs[0]).state, inputs[1..]))
  }

  lemma {:induction false} RunFollows(m: Module, s: State, rest: seq<Val>, acts: seq<W.Activation>, inputs: seq<seq<U64>>) returns (n: nat)
    requires IsLinked(m, s, rest, acts) && CleanRun(m, s, inputs)
    ensures ReadyModule(m) && Agree(m, Run(m, s, inputs), rest, W.Steps(Compiled(m), acts, n))
    decreases |inputs|
  {
    hide CleanHere;
    hide IsLinked;
    hide Step;
    hide W.Steps;
    hide Linked;
    if inputs == [] {
      n := 0;
      ReadyFromLink(m, s, rest, acts);
    } else {
      n := StepFollows(m, s, rest, acts, inputs[0]);
      var r := Step(m, s, inputs[0]);
      if r.Next? {
        var middle := W.Steps(Compiled(m), acts, n).stack;
        var k := RunFollows(m, r.state, rest, middle, inputs[1..]);
        Onward(Compiled(m), acts, n, middle, k, W.Steps(Compiled(m), middle, k));
        n := n + k;
      }
    }
  }

  lemma ReadyFromLink(m: Module, s: State, rest: seq<Val>, acts: seq<W.Activation>)
    requires IsLinked(m, s, rest, acts)
    ensures ReadyModule(m) && W.Steps(Compiled(m), acts, 0) == W.Next(acts)
  {
    hide Running;
    hide Matches;
  }

  /** Called on the same words, the compiled function comes to a state related to
      the start of the word. */
  lemma StartFollows(m: Module, s: State, word: nat, rest: seq<Val>, args: seq<Val>) returns (n: nat)
    requires ReadyModule(m) && Starts(m, s, word, rest, args)
    ensures
      var o := W.Steps(Compiled(m), [W.Activate(Compiled(m), word, Bits(args))], n);
      o.Next? && IsLinked(m, s, rest, o.stack)
  {
    hide FuncOf;
    hide AllOk;
    hide W.Steps;
    hide W.Activate;
    hide RunningMatch;
    hide StackAt;
    ReadyIsSound(m);
    EntryPoint(m, word);
    var b;
    n, b := CalleeBegins(m, word, args, []);
    var a := W.Activate(Compiled(m), word, Bits(args));
    assert [a] + [] == [a] && [b] + [] == [b];
    var f := EntryFrame(m, word);
    EntryRunning(m, s, word, rest, args);
    assert s.frames == [f] + [] && [args] + [] == [args];
    Continue(m, s, rest, f, args, b, [], [], []);
  }

  lemma EntryRunning(m: Module, s: State, word: nat, rest: seq<Val>, args: seq<Val>)
    requires ModuleSound(m) && Starts(m, s, word, rest, args)
    ensures Running(m, s, rest, [args])
  {
    assert WordSound(m, m[word]);
    assert NotEmpty(m[word], s.frames[0].block);
    assert [args][1..] == [];
  }

  /** A verified module and its compiled form, called on the same words: however
      long the run, the compiled code reaches a related state, the same trap with
      the same code and source span, or the same results. */
  lemma CompiledWordsAgree(m: Module, s: State, word: nat, rest: seq<Val>, args: seq<Val>, inputs: seq<seq<U64>>) returns (n: nat)
    requires ReadyModule(m) && Starts(m, s, word, rest, args) && CleanRun(m, s, inputs)
    ensures Agree(m, Run(m, s, inputs), rest, W.Steps(Compiled(m), [W.Activate(Compiled(m), word, Bits(args))], n))
  {
    hide W.Steps;
    hide W.Activate;
    hide Step;
    hide IsLinked;
    var start := [W.Activate(Compiled(m), word, Bits(args))];
    n := StartFollows(m, s, word, rest, args);
    var middle := W.Steps(Compiled(m), start, n).stack;
    var k := RunFollows(m, s, rest, middle, inputs);
    Onward(Compiled(m), start, n, middle, k, W.Steps(Compiled(m), middle, k));
    n := n + k;
  }

  lemma {:induction false} EndsOnce(step: seq<W.Activation> -> W.Outcome, s: seq<W.Activation>, n: nat, k: nat)
    requires !W.Iterate(step, s, n).Next? && !W.Iterate(step, s, k).Next?
    ensures W.Iterate(step, s, n) == W.Iterate(step, s, k)
    decreases n
  {
    if n > 0 && k > 0 && step(s).Next? {
      EndsOnce(step, step(s).stack, n - 1, k - 1);
    }
  }

  /** Where the word ends, the compiled function has no other end. */
  lemma CompiledWordsEndTheSame(m: Module, s: State, word: nat, rest: seq<Val>, args: seq<Val>, inputs: seq<seq<U64>>, k: nat)
    requires ReadyModule(m) && Starts(m, s, word, rest, args) && CleanRun(m, s, inputs) && !Run(m, s, inputs).Next?
    requires !W.Steps(Compiled(m), [W.Activate(Compiled(m), word, Bits(args))], k).Next?
    ensures Agree(m, Run(m, s, inputs), rest, W.Steps(Compiled(m), [W.Activate(Compiled(m), word, Bits(args))], k))
  {
    hide W.Activate;
    hide Step;
    hide W.Step;
    var start := [W.Activate(Compiled(m), word, Bits(args))];
    var n := CompiledWordsAgree(m, s, word, rest, args, inputs);
    EndsOnce(W.Machine(Compiled(m)), start, n, k);
  }

  // ---- runs without an end ----

  /** No block of the module is longer. */
  ghost predicate LongestBlock(m: Module, longest: nat) {
    forall i, k {:trigger m[i].blocks[k]} :: 0 <= i < |m| && 0 <= k < |m[i].blocks| ==> |m[i].blocks[k].ops| <= longest
  }

  lemma {:induction false} BlocksAreFinite(m: Module) returns (longest: nat)
    ensures LongestBlock(m, longest)
    decreases |m|
  {
    longest := 0;
    if m != [] {
      longest := BlocksAreFinite(m[1..]);
      var i := 0;
      while i < |m[0].blocks|
        invariant i <= |m[0].blocks| && LongestBlock(m[1..], longest)
        invariant forall k :: 0 <= k < i ==> |m[0].blocks[k].ops| <= longest
      {
        if longest < |m[0].blocks[i].ops| {
          longest := |m[0].blocks[i].ops|;
        }
        i := i + 1;
      }
      forall i, k | 0 <= i < |m| && 0 <= k < |m[i].blocks| ensures |m[i].blocks[k].ops| <= longest {
        assert i > 0 ==> m[i] == m[1..][i - 1];
      }
    }
  }

  /** The operations from a state on that are in its block. */
  ghost function Left(m: Module, s: State): nat {
    if s.frames != [] && Inside(m, s.frames[0]) then |m[s.frames[0].word].blocks[s.frames[0].block].ops| - s.frames[0].pc else 0
  }

  lemma RetagStays(m: Module, s: State, input: seq<U64>)
    requires s.frames != [] && Inside(m, s.frames[0]) && OpAt(m, s.frames[0]).Bitcast? && Step(m, s, input).Next?
    ensures Left(m, Step(m, s, input).state) + 1 <= Left(m, s)
  {
  }

  lemma LeftBounds(m: Module, s: State, longest: nat)
    requires LongestBlock(m, longest)
    ensures Left(m, s) <= longest
  {
  }

  lemma LinkHasLeft(m: Module, s: State, rest: seq<Val>, acts: seq<W.Activation>)
    requires IsLinked(m, s, rest, acts)
    ensures ReadyModule(m) && Left(m, s) > 0
  {
  }

  /** Code that has ended after `k` steps had not ended after fewer that go on. */
  lemma {:induction false} EndsLater(step: seq<W.Activation> -> W.Outcome, s: seq<W.Activation>, n: nat, k: nat)
    requires W.Iterate(step, s, n).Next? && !W.Iterate(step, s, k).Next?
    ensures n < k && !W.Iterate(step, W.Iterate(step, s, n).stack, k - n).Next?
    decreases n
  {
    if n > 0 && k > 0 {
      EndsLater(step, step(s).stack, n - 1, k - 1);
    }
  }

  /** If the compiled code ends within `k` steps, the word ends within as many
      steps as `k` blocks and the rest of its own have operations. */
  lemma {:induction false} EndsInTime(m: Module, s: State, rest: seq<Val>, acts: seq<W.Activation>, inputs: seq<seq<U64>>, longest: nat, k: nat)
    requires IsLinked(m, s, rest, acts) && CleanRun(m, s, inputs) && LongestBlock(m, longest)
    requires ReadyModule(m) && !W.Steps(Compiled(m), acts, k).Next?
    requires |inputs| >= k * longest + Left(m, s)
    ensures !Run(m, s, inputs).Next?
    decreases |inputs|
  {
    hide Step;
    hide W.Step;
    hide IsLinked;
    hide LongestBlock;
    hide Left;
    hide CleanHere;
    LinkHasLeft(m, s, rest, acts);
    var n := StepFollows(m, s, rest, acts, inputs[0]);
    var r := Step(m, s, inputs[0]);
    if r.Next? {
      EndsLater(W.Machine(Compiled(m)), acts, n, k);
      var middle := W.Steps(Compiled(m), acts, n).stack;
      if n == 0 {
        RetagStays(m, s, inputs[0]);
      } else {
        LeftBounds(m, r.state, longest);
        FewerBlocks(k, n, longest);
      }
      EndsInTime(m, r.state, rest, middle, inputs[1..], longest, k - n);
    }
  }

  lemma FewerBlocks(k: nat, n: nat, longest: nat)
    requires 0 < n <= k
    ensures (k - n) * longest + longest <= k * longest
  {
    assert k * longest == (k - n) * longest + n * longest;
  }

  /** As many operations as `k` blocks and one more may have. */
  ghost function Budget(k: nat, longest: nat): nat {
    (k + 1) * longest
  }

  /** Called on the same words, the compiled function ends only if the word does:
      a word that runs on for more steps than this has compiled code that has not
      ended. */
  lemma CompiledWordsEndInTime(m: Module, s: State, word: nat, rest: seq<Val>, args: seq<Val>, inputs: seq<seq<U64>>, longest: nat, k: nat)
    requires ReadyModule(m) && Starts(m, s, word, rest, args) && CleanRun(m, s, inputs) && LongestBlock(m, longest)
    requires !W.Steps(Compiled(m), [W.Activate(Compiled(m), word, Bits(args))], k).Next?
    requires |inputs| >= Budget(k, longest)
    ensures !Run(m, s, inputs).Next?
  {
    hide ReadyModule;
    hide Run;
    hide W.Activate;
    hide W.Step;
    hide Step;
    hide IsLinked;
    hide LongestBlock;
    hide Left;
    hide CleanRun;
    var start := [W.Activate(Compiled(m), word, Bits(args))];
    var n := StartFollows(m, s, word, rest, args);
    EndsLater(W.Machine(Compiled(m)), start, n, k);
    var middle := W.Steps(Compiled(m), start, n).stack;
    LeftBounds(m, s, longest);
    assert (k - n) * longest + longest <= (k + 1) * longest by {
      assert (k + 1) * longest == (k - n) * longest + (n + 1) * longest;
    }
    EndsInTime(m, s, rest, middle, inputs, longest, k - n);
  }
}
