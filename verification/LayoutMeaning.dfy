/** The layout keeps the meaning: what structured code does to the native stack is what
    the stack machine does in the blocks laid out for it, and so what the compiled
    WebAssembly function does. */
module LayoutMeaning {
  import opened Rings
  import opened Ir
  import opened Words
  import opened Verifier
  import opened IrMachine
  import opened VerifierSoundness
  import opened FrameTheorem
  import opened WasmEmit
  import opened WasmSteps
  import opened WasmRelation
  import WT = WasmTheorem
  import opened FlagSafety
  import opened StackLayout
  import opened NativeMeaning
  import W = Wasm
  import B = StackBounds
  import T = StackTheorems

  // ---- some steps without anything from outside ----

  ghost function Quiet(n: nat): (inputs: seq<seq<U64>>)
    ensures |inputs| == n
  {
    seq(n, i => [])
  }

  /** After some steps the run from `s` has come to `r`. */
  ghost predicate Comes(m: Module, s: State, r: Result) {
    exists n: nat :: Run(m, s, Quiet(n)) == r
  }

  lemma {:induction false} RunOn(m: Module, s: State, a: nat, b: nat, t: State)
    requires Run(m, s, Quiet(a)) == Next(t)
    ensures Run(m, s, Quiet(a + b)) == Run(m, t, Quiet(b))
    decreases a
  {
    hide Step;
    if a > 0 {
      assert Quiet(a)[1..] == Quiet(a - 1) && Quiet(a + b)[1..] == Quiet(a - 1 + b);
      RunOn(m, Step(m, s, []).state, a - 1, b, t);
    }
  }

  lemma ComesOn(m: Module, s: State, t: State, r: Result)
    requires Comes(m, s, Next(t)) && Comes(m, t, r)
    ensures Comes(m, s, r)
  {
    hide Run;
    var a: nat :| Run(m, s, Quiet(a)) == Next(t);
    var b: nat :| Run(m, t, Quiet(b)) == r;
    RunOn(m, s, a, b, t);
  }

  lemma ComesAtOnce(m: Module, s: State, r: Result)
    requires Step(m, s, []) == r
    ensures Comes(m, s, r)
  {
    hide Step;
    assert Quiet(1)[0] == [] && Quiet(1)[1..] == [];
    if r.Next? {
      assert Run(m, r.state, []) == Next(r.state);
    }
    assert Run(m, s, Quiet(1)) == r;
  }

  lemma ComesHere(m: Module, s: State)
    ensures Comes(m, s, Next(s))
  {
    assert Run(m, s, Quiet(0)) == Next(s);
  }

  // ---- the machine at a point, with the words of the native stack ----

  ghost predicate Holding(m: Module, word: nat, rest: seq<Val>, s: State, k: nat, pc: nat, seg: seq<Val>, ds: B.Ds) {
    s == State(rest + seg, [Frame(word, k, pc, ds.locals)]) && Running(m, s, rest, [seg]) && ds.stack == Bits(seg)
  }

  ghost predicate AtPoint(m: Module, word: nat, rest: seq<Val>, s: State, k: nat, pc: nat, ds: B.Ds) {
    exists seg :: Holding(m, word, rest, s, k, pc, seg, ds)
  }

  /** What the machine comes to where the code has the outcome `o`: the point `k`,
      `pc` with the same words, or the same trap. A run that goes round too often is
      not looked at, and a word that is checked never lacks operands. */
  ghost predicate Means(m: Module, word: nat, rest: seq<Val>, s: State, k: nat, pc: nat, o: B.Outcome) {
    match o
    case Went(after) => exists t :: Comes(m, s, Next(t)) && AtPoint(m, word, rest, t, k, pc, after)
    case Trapped(code) => exists at :: Comes(m, s, Trapped(code, at))
    case Unfinished => true
    case Overflowed => false
    case Short => false
  }

  lemma MeansOn(m: Module, word: nat, rest: seq<Val>, s: State, t: State, k: nat, pc: nat, o: B.Outcome)
    requires Comes(m, s, Next(t)) && Means(m, word, rest, t, k, pc, o)
    ensures Means(m, word, rest, s, k, pc, o)
  {
    hide Comes;
    match o
    case Went(after) =>
      var u :| Comes(m, t, Next(u)) && AtPoint(m, word, rest, u, k, pc, after);
      ComesOn(m, s, t, Next(u));
    case Trapped(code) =>
      var at :| Comes(m, t, Trapped(code, at));
      ComesOn(m, s, t, Trapped(code, at));
    case _ =>
  }

  lemma PileOfOne(rest: seq<Val>, seg: seq<Val>)
    ensures Pile(rest, [seg]) == rest + seg && Pile(rest, [seg][1..]) == rest
  {
    assert [seg][1..] == [];
  }

  /** One operation. */
  lemma DoMeans(m: Module, word: nat, rest: seq<Val>, s: State, k: nat, pc: nat, ds: B.Ds, g: B.Geometry, op: Op)
    requires ModuleSound(m) && AtPoint(m, word, rest, s, k, pc, ds) && B.IsNative(op)
    requires word < |m| && k < |m[word].blocks| && pc < |m[word].blocks[k].ops| && m[word].blocks[k].ops[pc] == op
    ensures Means(m, word, rest, s, k, pc + 1, B.Perform(g, op, ds, false))
  {
    hide Step;
    hide Compute;
    hide B.Perform;
    hide Running;
    hide ModuleSound;
    hide Comes;
    var seg :| Holding(m, word, rest, s, k, pc, seg, ds);
    PileOfOne(rest, seg);
    var e := Compute(m[word], op, seg, ds.locals, []);
    HoldsInside(m, word, rest, s, k, pc, seg, ds);
    LocalStep(m, s, rest, [seg], []);
    PerformMeans(g, m[word], op, seg, ds.locals, [], ds);
    match e
    case Then(data, locals) =>
      var t := Advanced(s, rest, [seg], data, locals);
      assert [data] + [seg][1..] == [data];
      ComesAtOnce(m, s, Next(t));
      assert t == State(rest + data, [Frame(word, k, pc + 1, locals)]);
      assert Holding(m, word, rest, t, k, pc + 1, data, B.Perform(g, op, ds, false).ds);
    case Trap(code, at) => ComesAtOnce(m, s, Trapped(code, at));
  }

  lemma HoldsInside(m: Module, word: nat, rest: seq<Val>, s: State, k: nat, pc: nat, seg: seq<Val>, ds: B.Ds)
    requires Holding(m, word, rest, s, k, pc, seg, ds)
    ensures s.frames == [Frame(word, k, pc, ds.locals)] && Inside(m, s.frames[0]) && s.frames[1..] == []
    ensures OpAt(m, s.frames[0]) == m[word].blocks[k].ops[pc]
  {
  }

  lemma HoldingNext(m: Module, word: nat, rest: seq<Val>, t: State, k: nat, seg: seq<Val>, ds: B.Ds)
    requires t == State(rest + seg, [Frame(word, k, 0, ds.locals)]) && Running(m, t, rest, [seg]) && ds.stack == Bits(seg)
    ensures AtPoint(m, word, rest, t, k, 0, ds)
  {
    assert Holding(m, word, rest, t, k, 0, seg, ds);
  }

  /** A branch to block `j`. */
  lemma BrMeans(m: Module, word: nat, rest: seq<Val>, s: State, k: nat, pc: nat, ds: B.Ds, j: nat) returns (t: State)
    requires ModuleSound(m) && word < |m| && Numbered(m[word]) && AtPoint(m, word, rest, s, k, pc, ds)
    requires k < |m[word].blocks| && pc < |m[word].blocks[k].ops| && m[word].blocks[k].ops[pc] == Br(j) && j < |m[word].blocks|
    ensures Comes(m, s, Next(t)) && AtPoint(m, word, rest, t, j, 0, ds)
  {
    hide FindBlock;
    hide Accepts;
    hide StackAt;
    hide Step;
    hide Running;
    hide ModuleSound;
    hide Comes;
    var seg :| Holding(m, word, rest, s, k, pc, seg, ds);
    PileOfOne(rest, seg);
    HoldsInside(m, word, rest, s, k, pc, seg, ds);
    BranchStep(m, s, rest, [seg], []);
    assert FindBlock(m[word].blocks, j) == Some(j);
    t := Step(m, s, []).state;
    ComesAtOnce(m, s, Next(t));
    assert [seg] + [seg][1..] == [seg];
    HoldingNext(m, word, rest, t, j, seg, ds);
  }

  lemma PoppedIs(seg: seq<Val>, ds: B.Ds)
    requires seg != [] && ds.stack == Bits(seg)
    ensures B.Popped(ds).stack == Bits(seg[..|seg| - 1]) && B.Popped(ds).locals == ds.locals
    ensures B.TopIsTrue(ds) <==> seg[|seg| - 1].bits != 0
  {
    BitsSplit(seg, |seg| - 1);
  }

  /** A choice between blocks `j` and `j + 1` pops the condition. */
  lemma BrIfMeans(m: Module, word: nat, rest: seq<Val>, s: State, k: nat, pc: nat, ds: B.Ds, j: nat) returns (t: State)
    requires ModuleSound(m) && word < |m| && Numbered(m[word]) && AtPoint(m, word, rest, s, k, pc, ds)
    requires k < |m[word].blocks| && pc < |m[word].blocks[k].ops| && m[word].blocks[k].ops[pc] == BrIf(j, j + 1) && j + 1 < |m[word].blocks|
    ensures ds.stack != [] && Comes(m, s, Next(t)) && AtPoint(m, word, rest, t, if B.TopIsTrue(ds) then j else j + 1, 0, B.Popped(ds))
  {
    hide FindBlock;
    hide Accepts;
    hide StackAt;
    hide Step;
    hide Running;
    hide ModuleSound;
    hide Comes;
    var seg :| Holding(m, word, rest, s, k, pc, seg, ds);
    PileOfOne(rest, seg);
    HoldsInside(m, word, rest, s, k, pc, seg, ds);
    BranchStep(m, s, rest, [seg], []);
    assert FindBlock(m[word].blocks, j) == Some(j) && FindBlock(m[word].blocks, j + 1) == Some(j + 1);
    t := Step(m, s, []).state;
    ComesAtOnce(m, s, Next(t));
    var below := seg[..|seg| - 1];
    PoppedIs(seg, ds);
    assert [below] + [seg][1..] == [below];
    HoldingNext(m, word, rest, t, if B.TopIsTrue(ds) then j else j + 1, below, B.Popped(ds));
  }

  // ---- structured code ----

  ghost predicate Ready(m: Module, word: nat, code: B.Code, call: B.Code -> Op, d: Draft) {
    && ModuleSound(m) && word < |m| && Numbered(m[word]) && T.Balanced(code) && NoCalls(code) && Sited(code, call)
    && d.cur < |d.blocks| && Follows(m[word], Lay(code, call, d).blocks) && Follows(m[word], d.blocks)
  }

  /** The end of a draft. */
  ghost predicate AtEnd(m: Module, word: nat, rest: seq<Val>, s: State, d: Draft, ds: B.Ds) {
    d.cur < |d.blocks| && AtPoint(m, word, rest, s, d.cur, |d.blocks[d.cur]|, ds)
  }

  ghost predicate MeansEnd(m: Module, word: nat, rest: seq<Val>, s: State, d: Draft, o: B.Outcome) {
    d.cur < |d.blocks| && Means(m, word, rest, s, d.cur, |d.blocks[d.cur]|, o)
  }

  /** The operation behind a draft's end in a word that goes on from there. */
  lemma OpBehind(w: Word, bs: Blocks, k: nat, op: Op)
    requires Follows(w, bs) && k < |bs| && bs[k] != [] && bs[k][|bs[k]| - 1] == op
    ensures k < |w.blocks| && |bs[k]| - 1 < |w.blocks[k].ops| && w.blocks[k].ops[|bs[k]| - 1] == op
  {
    assert bs[k] <= w.blocks[k].ops;
  }

  lemma SoundIsTyped(m: Module, word: nat)
    requires ModuleSound(m) && word < |m|
    ensures WellTyped(m[word])
  {
    assert WordSound(m, m[word]);
  }

  /** Where the machine stands at the end of the draft with the words of the native
      stack, it comes to the end of the draft with the code with the words the code
      leaves there, or to the trap the code stops with. */
  lemma {:induction false} LaidMeans(m: Module, word: nat, rest: seq<Val>, s: State, code: B.Code, call: B.Code -> Op, d: Draft, g: B.Geometry, ds: B.Ds, rounds: nat)
    requires Ready(m, word, code, call, d) && AtEnd(m, word, rest, s, d, ds)
    ensures MeansEnd(m, word, rest, s, Lay(code, call, d), B.Execute(g, code, ds, false, rounds))
    decreases rounds, code, 3
  {
    hide ModuleSound;
    hide Numbered;
    hide Follows;
    hide AtPoint;
    hide Means;
    hide B.Perform;
    hide Lay;
    LayUnfolds(code, call, d);
    PartsOf(code, call);
    match code
    case Do(op) => OpMeans(m, word, rest, s, op, call, d, g, ds);
    case Seq(a, b) => SeqMeans(m, word, rest, s, code, call, d, g, ds, rounds);
    case If(yes, no) => IfMeans(m, word, rest, s, code, call, d, g, ds, rounds);
    case While(cond, body) => WhileMeans(m, word, rest, s, code, call, d, g, ds, rounds);
  }

  lemma OpMeans(m: Module, word: nat, rest: seq<Val>, s: State, op: Op, call: B.Code -> Op, d: Draft, g: B.Geometry, ds: B.Ds)
    requires Ready(m, word, B.Do(op), call, d) && AtEnd(m, word, rest, s, d, ds)
    ensures MeansEnd(m, word, rest, s, Lay(B.Do(op), call, d), B.Perform(g, op, ds, false))
  {
    hide ModuleSound;
    hide Numbered;
    hide AtPoint;
    hide Means;
    hide B.Perform;
    hide Follows;
    var r := Lay(B.Do(op), call, d);
    assert r.blocks[d.cur] == d.blocks[d.cur] + [op];
    OpBehind(m[word], r.blocks, d.cur, op);
    DoMeans(m, word, rest, s, d.cur, |d.blocks[d.cur]|, ds, g, op);
  }

  lemma {:induction false} SeqMeans(m: Module, word: nat, rest: seq<Val>, s: State, code: B.Code, call: B.Code -> Op, d: Draft, g: B.Geometry, ds: B.Ds, rounds: nat)
    requires Ready(m, word, code, call, d) && AtEnd(m, word, rest, s, d, ds) && code.Seq?
    ensures MeansEnd(m, word, rest, s, Lay(code, call, d), B.Execute(g, code, ds, false, rounds))
    decreases rounds, code, 2
  {
    hide ModuleSound;
    hide Numbered;
    hide Follows;
    hide AtPoint;
    hide Comes;
    hide Lay;
    LayUnfolds(code, call, d);
    PartsOf(code, call);
    var mid := Lay(code.first, call, d);
    LayExtends(code.first, call, d);
    LayExtends(code.second, call, mid);
    FollowsEarlier(m[word], mid, Lay(code, call, d));
    LaidMeans(m, word, rest, s, code.first, call, d, g, ds, rounds);
    var o := B.Execute(g, code.first, ds, false, rounds);
    if o.Went? {
      var t :| Comes(m, s, Next(t)) && AtPoint(m, word, rest, t, mid.cur, |mid.blocks[mid.cur]|, o.ds);
      LaidMeans(m, word, rest, t, code.second, call, mid, g, o.ds, rounds);
      MeansOn(m, word, rest, s, t, Lay(code, call, d).cur, |Lay(code, call, d).blocks[Lay(code, call, d).cur]|,
              B.Execute(g, code.second, o.ds, false, rounds));
    }
  }

  /** From the end of one side of a branch to where the sides join. */
  lemma JoinMeans(m: Module, word: nat, rest: seq<Val>, s: State, k: nat, pc: nat, j: nat, o: B.Outcome)
    requires ModuleSound(m) && word < |m| && Numbered(m[word]) && Means(m, word, rest, s, k, pc, o)
    requires k < |m[word].blocks| && pc < |m[word].blocks[k].ops| && m[word].blocks[k].ops[pc] == Br(j) && j < |m[word].blocks|
    ensures Means(m, word, rest, s, j, 0, o)
  {
    hide ModuleSound;
    hide Numbered;
    hide AtPoint;
    hide Comes;
    if o.Went? {
      var t :| Comes(m, s, Next(t)) && AtPoint(m, word, rest, t, k, pc, o.ds);
      var u := BrMeans(m, word, rest, t, k, pc, o.ds, j);
      ComesOn(m, s, t, Next(u));
    }
  }

  lemma {:induction false} IfMeans(m: Module, word: nat, rest: seq<Val>, s: State, code: B.Code, call: B.Code -> Op, d: Draft, g: B.Geometry, ds: B.Ds, rounds: nat)
    requires Ready(m, word, code, call, d) && AtEnd(m, word, rest, s, d, ds) && code.If?
    ensures MeansEnd(m, word, rest, s, Lay(code, call, d), B.Execute(g, code, ds, false, rounds))
    decreases rounds, code, 2
  {
    hide B.Execute;
    hide B.Popped;
    hide B.TopIsTrue;
    hide T.Balanced;
    hide Sited;
    hide NoCalls;
    hide ModuleSound;
    hide Numbered;
    hide Follows;
    hide AtPoint;
    hide Means;
    hide Lay;
    hide Fork;
    hide Join;
    LayUnfolds(code, call, d);
    PartsOf(code, call);
    var w, n := m[word], |d.blocks|;
    var y := Lay(code.yes, call, Fork(d));
    var e := y.(cur := n + 1);
    var z := Lay(code.no, call, e);
    var r := Join(y.cur, z);
    Forks(d);
    LayExtends(code.yes, call, Fork(d));
    LayExtends(code.no, call, e);
    BranchFollows(w, d, y, z);
    BranchExtends(d, y, z);
    FollowsEnds(w, d, y, z);
    var t := BrIfMeans(m, word, rest, s, d.cur, |d.blocks[d.cur]|, ds, n);
    var o := B.Execute(g, code, ds, false, rounds);
    ChoiceIs(g, code, ds, rounds);
    if B.TopIsTrue(ds) {
      LaidMeans(m, word, rest, t, code.yes, call, Fork(d), g, B.Popped(ds), rounds);
      JoinMeans(m, word, rest, t, y.cur, |y.blocks[y.cur]|, |z.blocks|, o);
    } else {
      LaidMeans(m, word, rest, t, code.no, call, e, g, B.Popped(ds), rounds);
      JoinMeans(m, word, rest, t, z.cur, |z.blocks[z.cur]|, |z.blocks|, o);
    }
    MeansOn(m, word, rest, s, t, |z.blocks|, 0, o);
  }

  lemma ChoiceIs(g: B.Geometry, code: B.Code, ds: B.Ds, rounds: nat)
    requires code.If? && ds.stack != []
    ensures B.Execute(g, code, ds, false, rounds) == B.Execute(g, if B.TopIsTrue(ds) then code.yes else code.no, B.Popped(ds), false, rounds)
  {
  }

  /** The choice and the two branches that end its sides, in the word. */
  lemma FollowsEnds(w: Word, d: Draft, y: Draft, z: Draft)
    requires d.cur < |d.blocks| && Extends(Fork(d), y) && Extends(y.(cur := |d.blocks| + 1), z)
    requires Follows(w, Join(y.cur, z).blocks) && Follows(w, Fork(d).blocks) && Follows(w, d.blocks)
    ensures |z.blocks| < |w.blocks| && Join(y.cur, z).cur == |z.blocks| && Join(y.cur, z).blocks[|z.blocks|] == []
    ensures |d.blocks[d.cur]| < |w.blocks[d.cur].ops| && w.blocks[d.cur].ops[|d.blocks[d.cur]|] == BrIf(|d.blocks|, |d.blocks| + 1)
    ensures |y.blocks[y.cur]| < |w.blocks[y.cur].ops| && w.blocks[y.cur].ops[|y.blocks[y.cur]|] == Br(|z.blocks|)
    ensures |z.blocks[z.cur]| < |w.blocks[z.cur].ops| && w.blocks[z.cur].ops[|z.blocks[z.cur]|] == Br(|z.blocks|)
  {
    BranchExtends(d, y, z);
    Forks(d);
    var r := Join(y.cur, z);
    OpBehind(w, Fork(d).blocks, d.cur, BrIf(|d.blocks|, |d.blocks| + 1));
    OpBehind(w, r.blocks, y.cur, Br(|z.blocks|));
    OpBehind(w, r.blocks, z.cur, Br(|z.blocks|));
  }

  /** The branches of a loop in the word: to its condition, the choice, and back. */
  lemma FollowsLoop(w: Word, code: B.Code, call: B.Code -> Op, d: Draft)
    requires code.While? && d.cur < |d.blocks| && Follows(w, Lay(code, call, d).blocks) && Follows(w, d.blocks)
    ensures
      var c := Lay(code.cond, call, Head(d));
      var b := Lay(code.body, call, Fork(c));
      && Follows(w, Head(d).blocks) && Follows(w, c.blocks) && Follows(w, Fork(c).blocks) && Follows(w, b.blocks)
      && |d.blocks| < |w.blocks| && |c.blocks| + 1 < |w.blocks| && b.cur < |w.blocks|
      && |d.blocks[d.cur]| < |w.blocks[d.cur].ops| && w.blocks[d.cur].ops[|d.blocks[d.cur]|] == Br(|d.blocks|)
      && |c.blocks[c.cur]| < |w.blocks[c.cur].ops| && w.blocks[c.cur].ops[|c.blocks[c.cur]|] == BrIf(|c.blocks|, |c.blocks| + 1)
      && |b.blocks[b.cur]| < |w.blocks[b.cur].ops| && w.blocks[b.cur].ops[|b.blocks[b.cur]|] == Br(|d.blocks|)
      && Lay(code, call, d).cur == |c.blocks| + 1 && Lay(code, call, d).blocks[|c.blocks| + 1] == []
  {
    hide Lay;
    hide Fork;
    hide Head;
    var c := Lay(code.cond, call, Head(d));
    var b := Lay(code.body, call, Fork(c));
    LayUnfolds(code, call, d);
    LoopChain(w, code, call, d, c, b);
    LoopCloses(d, c, b);
    Heads(d);
    Forks(c);
    OpBehind(w, Head(d).blocks, d.cur, Br(|d.blocks|));
    OpBehind(w, Fork(c).blocks, c.cur, BrIf(|c.blocks|, |c.blocks| + 1));
    OpBehind(w, Lay(code, call, d).blocks, b.cur, Br(|d.blocks|));
  }

  lemma {:induction false} WhileMeans(m: Module, word: nat, rest: seq<Val>, s: State, code: B.Code, call: B.Code -> Op, d: Draft, g: B.Geometry, ds: B.Ds, rounds: nat)
    requires Ready(m, word, code, call, d) && AtEnd(m, word, rest, s, d, ds) && code.While?
    ensures MeansEnd(m, word, rest, s, Lay(code, call, d), B.Execute(g, code, ds, false, rounds))
    decreases rounds, code, 2
  {
    hide ModuleSound;
    hide Numbered;
    hide Follows;
    hide AtPoint;
    hide Means;
    hide Lay;
    hide B.Execute;
    FollowsLoop(m[word], code, call, d);
    var t := BrMeans(m, word, rest, s, d.cur, |d.blocks[d.cur]|, ds, |d.blocks|);
    RoundMeans(m, word, rest, t, code, call, d, g, ds, rounds);
    MeansOn(m, word, rest, s, t, Lay(code, call, d).cur, 0, B.Execute(g, code, ds, false, rounds));
  }

  /** From the condition of a loop on. */
  lemma {:induction false} RoundMeans(m: Module, word: nat, rest: seq<Val>, s: State, code: B.Code, call: B.Code -> Op, d: Draft, g: B.Geometry, ds: B.Ds, rounds: nat)
    requires Ready(m, word, code, call, d) && code.While? && AtPoint(m, word, rest, s, |d.blocks|, 0, ds)
    ensures Means(m, word, rest, s, Lay(code, call, d).cur, 0, B.Execute(g, code, ds, false, rounds))
    decreases rounds, code, 1
  {
    hide ModuleSound;
    hide Numbered;
    hide Follows;
    hide AtPoint;
    hide Comes;
    hide Lay;
    hide Fork;
    hide Head;
    var c := Lay(code.cond, call, Head(d));
    var b := Lay(code.body, call, Fork(c));
    FollowsLoop(m[word], code, call, d);
    PartsOf(code, call);
    Heads(d);
    Forks(c);
    var end := Lay(code, call, d).cur;
    LaidMeans(m, word, rest, s, code.cond, call, Head(d), g, ds, rounds);
    var o := B.Execute(g, code.cond, ds, false, rounds);
    if o.Went? {
      var t :| Comes(m, s, Next(t)) && AtPoint(m, word, rest, t, c.cur, |c.blocks[c.cur]|, o.ds);
      var u := BrIfMeans(m, word, rest, t, c.cur, |c.blocks[c.cur]|, o.ds, |c.blocks|);
      ComesOn(m, s, t, Next(u));
      if B.TopIsTrue(o.ds) {
        BodyMeans(m, word, rest, u, code, call, d, g, B.Popped(o.ds), rounds);
        MeansOn(m, word, rest, s, u, end, 0, T.ExecuteRound(g, code, B.Popped(o.ds), false, rounds));
      }
    }
  }

  /** From the body of a loop on. */
  lemma {:induction false} BodyMeans(m: Module, word: nat, rest: seq<Val>, s: State, code: B.Code, call: B.Code -> Op, d: Draft, g: B.Geometry, ds: B.Ds, rounds: nat)
    requires Ready(m, word, code, call, d) && code.While? && AtPoint(m, word, rest, s, |Lay(code.cond, call, Head(d)).blocks|, 0, ds)
    ensures Means(m, word, rest, s, Lay(code, call, d).cur, 0, T.ExecuteRound(g, code, ds, false, rounds))
    decreases rounds, code, 0
  {
    hide ModuleSound;
    hide Numbered;
    hide Follows;
    hide AtPoint;
    hide Comes;
    hide Lay;
    hide Fork;
    hide Head;
    hide B.Execute;
    var c := Lay(code.cond, call, Head(d));
    var b := Lay(code.body, call, Fork(c));
    FollowsLoop(m[word], code, call, d);
    PartsOf(code, call);
    Forks(c);
    var end := Lay(code, call, d).cur;
    LaidMeans(m, word, rest, s, code.body, call, Fork(c), g, ds, rounds);
    var o := B.Execute(g, code.body, ds, false, rounds);
    if o.Went? && rounds > 0 {
      var t :| Comes(m, s, Next(t)) && AtPoint(m, word, rest, t, b.cur, |b.blocks[b.cur]|, o.ds);
      var back := BrMeans(m, word, rest, t, b.cur, |b.blocks[b.cur]|, o.ds, |d.blocks|);
      ComesOn(m, s, t, Next(back));
      RoundMeans(m, word, rest, back, code, call, d, g, o.ds, rounds - 1);
      MeansOn(m, word, rest, s, back, end, 0, B.Execute(g, code, o.ds, false, rounds - 1));
    }
  }

  // ---- whole words ----

  /** A word laid out for code without calls, called on some words, does to them what
      the code does to the native stack: it returns the words the code leaves, or traps
      with the code's number. */
  lemma LaidWordMeans(m: Module, s: State, word: nat, rest: seq<Val>, args: seq<Val>, code: B.Code, call: B.Code -> Op, g: B.Geometry, rounds: nat)
    requires ModuleSound(m) && Starts(m, s, word, rest, args) && IsLaid(m[word], code, call) && NoCalls(code)
    ensures
      match B.Execute(g, code, B.Ds(Bits(args), map[], 0), false, rounds)
      case Went(after) => exists outs :: Comes(m, s, Finished(rest + outs)) && Bits(outs) == after.stack
      case Trapped(code) => exists at :: Comes(m, s, Trapped(code, at))
      case Unfinished => true
      case _ => false
  {
    hide ModuleSound;
    hide Comes;
    hide AtPoint;
    hide Lay;
    hide B.Execute;
    hide T.Balanced;
    hide Sited;
    hide NoCalls;
    hide B.Fold;
    var w, d, r := m[word], Draft([[]], 0), Drafted(code, call);
    SoundIsTyped(m, word);
    LaidFacts(w, code, call);
    var ds := B.Ds(Bits(args), map[], 0);
    StartsAtPoint(m, s, word, rest, args, ds);
    LaidMeans(m, word, rest, s, code, call, d, g, ds, rounds);
    var o := B.Execute(g, code, ds, false, rounds);
    if o.Went? {
      var t :| Comes(m, s, Next(t)) && AtPoint(m, word, rest, t, r.cur, |r.blocks[r.cur]|, o.ds);
      assert w.blocks[r.cur].ops == r.blocks[r.cur] + [Ret];
      var outs := ReturnMeans(m, word, rest, t, r.cur, |r.blocks[r.cur]|, o.ds);
      ComesOn(m, s, t, Finished(rest + outs));
    }
  }

  lemma StartsAtPoint(m: Module, s: State, word: nat, rest: seq<Val>, args: seq<Val>, ds: B.Ds)
    requires ModuleSound(m) && Starts(m, s, word, rest, args) && ds == B.Ds(Bits(args), map[], 0)
    requires FindBlock(m[word].blocks, m[word].entry) == Some(0)
    ensures AtPoint(m, word, rest, s, 0, 0, ds)
  {
    hide ModuleSound;
    hide Running;
    WT.EntryRunning(m, s, word, rest, args);
    assert Holding(m, word, rest, s, 0, 0, args, ds);
  }

  lemma ReturnMeans(m: Module, word: nat, rest: seq<Val>, s: State, k: nat, pc: nat, ds: B.Ds) returns (outs: seq<Val>)
    requires ModuleSound(m) && word < |m| && AtPoint(m, word, rest, s, k, pc, ds)
    requires k < |m[word].blocks| && pc < |m[word].blocks[k].ops| && m[word].blocks[k].ops[pc] == Ret
    ensures Comes(m, s, Finished(rest + outs)) && Bits(outs) == ds.stack
  {
    hide Step;
    hide Running;
    hide ModuleSound;
    hide Comes;
    var seg :| Holding(m, word, rest, s, k, pc, seg, ds);
    HoldsInside(m, word, rest, s, k, pc, seg, ds);
    FinishStep(m, s, rest, [seg], []);
    outs := Retag(seg, m[word].sig.outputs);
    assert Bits(outs) == Bits(seg);
    ComesAtOnce(m, s, Finished(rest + outs));
  }

  predicate StopsWith(o: W.Outcome, code: nat) {
    o.Trapped? && o.code == code
  }

  /** Native code and WebAssembly agree: on a word laid out for code without calls, in
      a module whose types keep booleans apart, the compiled function returns the words
      that the native code leaves on its stack, or traps with the same number. */
  lemma NativeAndWasmAgree(m: Module, s: State, word: nat, rest: seq<Val>, args: seq<Val>, code: B.Code, call: B.Code -> Op, g: B.Geometry, rounds: nat)
    requires ReadyModule(m) && FlagModule(m) && Starts(m, s, word, rest, args) && Flags(m[word], args)
    requires IsLaid(m[word], code, call) && NoCalls(code)
    ensures
      match B.Execute(g, code, B.Ds(Bits(args), map[], 0), false, rounds)
      case Went(after) => exists n: nat :: W.Steps(Compiled(m), [W.Activate(Compiled(m), word, Bits(args))], n) == W.Done(after.stack)
      case Trapped(code) =>
        exists n: nat :: StopsWith(W.Steps(Compiled(m), [W.Activate(Compiled(m), word, Bits(args))], n), code)
      case Unfinished => true
      case _ => false
  {
    hide W.Steps;
    hide W.Activate;
    hide B.Execute;
    hide Run;
    hide FlagModule;
    hide Flags;
    hide IsLaid;
    ReadyIsSound(m);
    LaidWordMeans(m, s, word, rest, args, code, call, g, rounds);
    var o := B.Execute(g, code, B.Ds(Bits(args), map[], 0), false, rounds);
    if o.Went? {
      var outs :| Comes(m, s, Finished(rest + outs)) && Bits(outs) == o.ds.stack;
      var k: nat :| Run(m, s, Quiet(k)) == Finished(rest + outs);
      var n := LoweringPreservesMeaning(m, s, word, rest, args, Quiet(k));
      assert (rest + outs)[|rest|..] == outs;
    } else if o.Trapped? {
      var at :| Comes(m, s, Trapped(o.code, at));
      var k: nat :| Run(m, s, Quiet(k)) == Trapped(o.code, at);
      var n := LoweringPreservesMeaning(m, s, word, rest, args, Quiet(k));
    }
  }
}
