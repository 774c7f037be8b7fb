/** Structured code as the blocks the compiler lays out for it, and what the bound
    folded over the code says of the stack the verifier sees in those blocks. */
module StackLayout {
  import opened Rings
  import opened Ir
  import opened Verifier
  import opened IrMachine
  import opened VerifierSoundness
  import opened FrameTheorem
  import opened WasmEmit
  import opened WasmRelation
  import B = StackBounds
  import T = StackTheorems

  // ---- the layout ----

  type Blocks = seq<seq<Op>>

  /** The blocks so far and the one that is being filled. */
  datatype Draft = Draft(blocks: Blocks, cur: nat)

  function AppendAt(bs: Blocks, k: nat, op: Op): (r: Blocks)
    requires k < |bs|
    ensures |r| == |bs|
  {
    bs[k := bs[k] + [op]]
  }

  /** The compiler's walk over the code: a branch opens a block for each side and
      one where they join, a loop opens one for the condition, one for the body and
      one behind it. `call` is the operation of a call. */
  function Lay(code: B.Code, call: B.Code -> Op, d: Draft): (r: Draft)
    requires d.cur < |d.blocks|
    ensures r.cur < |r.blocks| && |d.blocks| <= |r.blocks|
    decreases code
  {
    match code
    case Do(op) => d.(blocks := AppendAt(d.blocks, d.cur, op))
    case Call(_, _, _) => d.(blocks := AppendAt(d.blocks, d.cur, call(code)))
    case Seq(a, b) => Lay(b, call, Lay(a, call, d))
    case If(yes, no) =>
      var y := Lay(yes, call, Fork(d));
      Join(y.cur, Lay(no, call, y.(cur := |d.blocks| + 1)))
    case While(cond, body) =>
      var c := Lay(cond, call, Head(d));
      var b := Lay(body, call, Fork(c));
      Draft(AppendAt(b.blocks, b.cur, Br(|d.blocks|)), |c.blocks| + 1)
  }

  /** The current block ends in a choice between two new ones; the first goes on. */
  function Fork(d: Draft): (r: Draft)
    requires d.cur < |d.blocks|
    ensures r.cur < |r.blocks| && |r.blocks| == |d.blocks| + 2
  {
    var n := |d.blocks|;
    Draft(AppendAt(d.blocks, d.cur, BrIf(n, n + 1)) + [[], []], n)
  }

  /** The ends of both sides go to a new block. */
  function Join(end: nat, d: Draft): (r: Draft)
    requires d.cur < |d.blocks| && end < |d.blocks|
    ensures r.cur < |r.blocks| && |r.blocks| == |d.blocks| + 1
  {
    var j := |d.blocks|;
    Draft(AppendAt(AppendAt(d.blocks, end, Br(j)), d.cur, Br(j)) + [[]], j)
  }

  /** The current block goes to a new one, in which the condition is computed. */
  function Head(d: Draft): (r: Draft)
    requires d.cur < |d.blocks|
    ensures r.cur < |r.blocks| && |r.blocks| == |d.blocks| + 1
  {
    var n := |d.blocks|;
    Draft(AppendAt(d.blocks, d.cur, Br(n)) + [[]], n)
  }

  // ---- a draft grows ----

  /** From `d` to `r` only the current block of `d` has grown, and blocks have been
      added; `r` goes on in that block or in a new one. */
  ghost predicate Extends(d: Draft, r: Draft) {
    && d.cur < |d.blocks| <= |r.blocks| && r.cur < |r.blocks|
    && d.blocks[d.cur] <= r.blocks[d.cur]
    && (forall k {:trigger r.blocks[k]} :: 0 <= k < |d.blocks| && k != d.cur ==> r.blocks[k] == d.blocks[k])
    && (r.cur == d.cur || r.cur >= |d.blocks|)
  }

  lemma ExtendsOn(d: Draft, m: Draft, r: Draft)
    requires Extends(d, m) && Extends(m, r)
    ensures Extends(d, r)
  {
    if m.cur != d.cur {
      assert r.blocks[d.cur] == m.blocks[d.cur];
    }
  }

  lemma Forks(d: Draft)
    requires d.cur < |d.blocks|
    ensures Extends(d, Fork(d)) && Fork(d).blocks[d.cur] == d.blocks[d.cur] + [BrIf(|d.blocks|, |d.blocks| + 1)]
    ensures Fork(d).cur == |d.blocks| && Fork(d).blocks[|d.blocks|] == [] == Fork(d).blocks[|d.blocks| + 1]
  {
  }

  lemma Heads(d: Draft)
    requires d.cur < |d.blocks|
    ensures Extends(d, Head(d)) && Head(d).blocks[d.cur] == d.blocks[d.cur] + [Br(|d.blocks|)]
    ensures Head(d).cur == |d.blocks| && Head(d).blocks[|d.blocks|] == []
  {
  }

  lemma LayUnfolds(code: B.Code, call: B.Code -> Op, d: Draft)
    requires d.cur < |d.blocks|
    ensures code.Do? ==> Lay(code, call, d) == d.(blocks := AppendAt(d.blocks, d.cur, code.op))
    ensures code.Call? ==> Lay(code, call, d) == d.(blocks := AppendAt(d.blocks, d.cur, call(code)))
    ensures code.Seq? ==> Lay(code, call, d) == Lay(code.second, call, Lay(code.first, call, d))
    ensures code.If? ==>
      var y := Lay(code.yes, call, Fork(d));
      Lay(code, call, d) == Join(y.cur, Lay(code.no, call, y.(cur := |d.blocks| + 1)))
    ensures code.While? ==>
      var c := Lay(code.cond, call, Head(d));
      var b := Lay(code.body, call, Fork(c));
      Lay(code, call, d) == Draft(AppendAt(b.blocks, b.cur, Br(|d.blocks|)), |c.blocks| + 1)
  {
    hide AppendAt;
    hide B.NetDelta;
    hide Fork;
    hide Join;
    hide Head;
  }

  lemma {:induction false} LayExtends(code: B.Code, call: B.Code -> Op, d: Draft)
    requires d.cur < |d.blocks|
    ensures Extends(d, Lay(code, call, d))
    decreases code
  {
    hide Lay;
    hide Fork;
    hide Head;
    hide Join;
    hide AppendAt;
    hide Extends;
    LayUnfolds(code, call, d);
    match code
    case Do(op) => Appends(d, op);
    case Call(_, _, _) => Appends(d, call(code));
    case Seq(a, b) =>
      LayExtends(a, call, d);
      LayExtends(b, call, Lay(a, call, d));
      ExtendsOn(d, Lay(a, call, d), Lay(code, call, d));
    case If(yes, no) =>
      var y := Lay(yes, call, Fork(d));
      LayExtends(yes, call, Fork(d));
      LayExtends(no, call, y.(cur := |d.blocks| + 1));
      BranchExtends(d, y, Lay(no, call, y.(cur := |d.blocks| + 1)));
    case While(cond, body) =>
      var c := Lay(cond, call, Head(d));
      var b := Lay(body, call, Fork(c));
      Heads(d);
      LayExtends(cond, call, Head(d));
      Forks(c);
      LayExtends(body, call, Fork(c));
      ExtendsOn(d, Head(d), c);
      ExtendsOn(d, c, Fork(c));
      ExtendsOn(d, Fork(c), b);
      LoopCloses(d, c, b);
  }

  lemma Appends(d: Draft, op: Op)
    requires d.cur < |d.blocks|
    ensures Extends(d, d.(blocks := AppendAt(d.blocks, d.cur, op)))
  {
  }

  lemma BranchExtends(d: Draft, y: Draft, z: Draft)
    requires d.cur < |d.blocks| && Extends(Fork(d), y) && Extends(y.(cur := |d.blocks| + 1), z)
    ensures Extends(d, Join(y.cur, z)) && y.cur != z.cur && y.cur != |d.blocks| + 1
    ensures Join(y.cur, z).blocks[y.cur] == y.blocks[y.cur] + [Br(|z.blocks|)]
    ensures Join(y.cur, z).blocks[z.cur] == z.blocks[z.cur] + [Br(|z.blocks|)]
    ensures Join(y.cur, z).blocks[|z.blocks|] == [] && y.blocks[|d.blocks| + 1] == []
    ensures forall k {:trigger Join(y.cur, z).blocks[k]} :: 0 <= k < |z.blocks| && k != y.cur && k != z.cur ==> Join(y.cur, z).blocks[k] == z.blocks[k]
    ensures forall k {:trigger z.blocks[k]} :: 0 <= k < |y.blocks| && k != |d.blocks| + 1 ==> z.blocks[k] == y.blocks[k]
    ensures forall k {:trigger y.blocks[k]} :: 0 <= k < |d.blocks| ==> y.blocks[k] == Fork(d).blocks[k]
  {
    Forks(d);
  }

  lemma LoopCloses(d: Draft, c: Draft, b: Draft)
    requires d.cur < |d.blocks| && c.cur < |c.blocks| && Extends(Head(d), c) && Extends(Fork(c), b) && Extends(d, b)
    ensures Extends(d, Draft(AppendAt(b.blocks, b.cur, Br(|d.blocks|)), |c.blocks| + 1))
    ensures b.blocks[|c.blocks| + 1] == [] && b.cur >= |d.blocks| && |d.blocks| < |c.blocks|
    ensures b.cur != |c.blocks| + 1 && |c.blocks| + 1 < |b.blocks|
  {
    Heads(d);
    Forks(c);
  }

  // ---- a word that has these blocks ----

  /** The blocks of `w` are named by their positions and begin with those of a
      draft. */
  ghost predicate Follows(w: Word, bs: Blocks) {
    && |bs| <= |w.blocks|
    && (forall k {:trigger bs[k]} :: 0 <= k < |bs| ==> bs[k] <= w.blocks[k].ops)
  }

  ghost predicate Numbered(w: Word) {
    forall k: nat {:trigger FindBlock(w.blocks, k)} :: k < |w.blocks| ==> FindBlock(w.blocks, k) == Some(k)
  }

  lemma FollowsEarlier(w: Word, d: Draft, r: Draft)
    requires Extends(d, r) && Follows(w, r.blocks)
    ensures Follows(w, d.blocks)
  {
    forall k | 0 <= k < |d.blocks| ensures d.blocks[k] <= w.blocks[k].ops {
      assert r.blocks[k] <= w.blocks[k].ops;
    }
  }

  /** How many values of its own the word has at a point. */
  ghost function Depth(w: Word, k: nat, pc: nat): nat
    requires k < |w.blocks| && pc <= |w.blocks[k].ops|
  {
    |StackAt(w, k, pc)|
  }

  lemma AfterOp(w: Word, k: nat, pc: nat)
    requires WellTyped(w) && k < |w.blocks| && pc < |w.blocks[k].ops| && B.IsNative(w.blocks[k].ops[pc])
    ensures Depth(w, k, pc + 1) == Depth(w, k, pc) + B.NetDelta(w.blocks[k].ops[pc])
  {
    hide CheckOp;
    var op, st := w.blocks[k].ops[pc], StackAt(w, k, pc);
    PointOutcome(w, k, pc);
    OnlyControlEnds(w, op, st);
    CheckedEffect(w, op, st);
  }

  lemma AfterCall(w: Word, k: nat, pc: nat)
    requires WellTyped(w) && k < |w.blocks| && pc < |w.blocks[k].ops| && w.blocks[k].ops[pc].Call?
    ensures Depth(w, k, pc + 1) == Depth(w, k, pc) - |w.blocks[k].ops[pc].sig.inputs| + |w.blocks[k].ops[pc].sig.outputs|
  {
    var sig, st := w.blocks[k].ops[pc].sig, StackAt(w, k, pc);
    PointOutcome(w, k, pc);
    var below := st[..|st| - |sig.inputs|];
    PushAllNeverEnds(below, sig.outputs);
    PushAllBound(below, sig.outputs);
  }

  lemma {:induction false} PushAllNeverEnds(st: seq<TypeId>, ts: seq<TypeId>)
    ensures PushAll(st, ts) != Ends
    decreases |ts|
  {
    if ts != [] && Push(st, ts[0]).Goes? {
      PushAllNeverEnds(Push(st, ts[0]).stack, ts[1..]);
    }
  }

  /** A branch leaves nothing behind it in its block. */
  lemma BehindBranch(w: Word, k: nat, pc: nat)
    requires k < |w.blocks| && pc < |w.blocks[k].ops| && (w.blocks[k].ops[pc].Br? || w.blocks[k].ops[pc].BrIf?)
    ensures Depth(w, k, pc + 1) == 0
  {
    hide FindBlock;
  }

  lemma AfterBr(w: Word, k: nat, pc: nat, j: nat)
    requires WellTyped(w) && Numbered(w) && k < |w.blocks| && pc < |w.blocks[k].ops| && j < |w.blocks| && w.blocks[k].ops[pc] == Br(j)
    ensures Depth(w, j, 0) == Depth(w, k, pc) && Depth(w, k, pc + 1) == 0
  {
    hide WellTyped;
    hide StackAt;
    BrInWord(w, k, pc);
    BehindBranch(w, k, pc);
    assert FindBlock(w.blocks, j) == Some(j);
  }

  lemma AfterBrIf(w: Word, k: nat, pc: nat, j: nat)
    requires WellTyped(w) && Numbered(w) && k < |w.blocks| && pc < |w.blocks[k].ops| && j + 1 < |w.blocks|
    requires w.blocks[k].ops[pc] == BrIf(j, j + 1)
    ensures Depth(w, j, 0) == Depth(w, j + 1, 0) == Depth(w, k, pc) - 1 && Depth(w, k, pc + 1) == 0
  {
    hide WellTyped;
    hide StackAt;
    BrIfInWord(w, k, pc);
    BehindBranch(w, k, pc);
    assert FindBlock(w.blocks, j) == Some(j) && FindBlock(w.blocks, j + 1) == Some(j + 1);
  }

  // ---- the points a piece of code adds ----

  /** A point of what was added from `d` to `r`. */
  ghost predicate Added(d: Draft, r: Draft, k: nat, pc: nat) {
    k < |r.blocks| && pc <= |r.blocks[k]| && (k >= |d.blocks| || (k == d.cur && pc >= |d.blocks[k]|))
  }

  /** At all of them the word has at most `most` values. */
  ghost predicate Below(w: Word, d: Draft, r: Draft, most: int)
    requires Follows(w, r.blocks)
  {
    forall k: nat, pc: nat {:trigger Added(d, r, k, pc)} :: Added(d, r, k, pc) ==> Depth(w, k, pc) <= most
  }

  /** At the point where the draft goes on. */
  ghost function End(w: Word, d: Draft): nat
    requires Follows(w, d.blocks) && d.cur < |d.blocks|
  {
    Depth(w, d.cur, |d.blocks[d.cur]|)
  }

  lemma BelowOn(w: Word, d: Draft, m: Draft, r: Draft, most: int, more: int)
    requires Extends(d, m) && Extends(m, r) && Follows(w, r.blocks) && Follows(w, m.blocks)
    requires Below(w, d, m, most) && Below(w, m, r, more)
    ensures Below(w, d, r, T.Max(most, more))
  {
    hide StackAt;
    forall k: nat, pc: nat | Added(d, r, k, pc) ensures Depth(w, k, pc) <= T.Max(most, more) {
      assert Added(d, m, k, pc) || Added(m, r, k, pc) by {
        if k < |m.blocks| && k != m.cur {
          assert r.blocks[k] == m.blocks[k];
        }
      }
    }
  }

  lemma AppendedBelow(w: Word, d: Draft, op: Op, delta: int)
    requires d.cur < |d.blocks| && WellTyped(w)
    requires Follows(w, d.(blocks := AppendAt(d.blocks, d.cur, op)).blocks) && Follows(w, d.blocks)
    requires (op.Call? && delta == |op.sig.outputs| - |op.sig.inputs|) || (B.IsNative(op) && delta == B.NetDelta(op))
    ensures
      var r := d.(blocks := AppendAt(d.blocks, d.cur, op));
      End(w, r) == End(w, d) + delta && Below(w, d, r, End(w, d) + T.Max(0, delta))
  {
    hide WellTyped;
    hide StackAt;
    hide B.NetDelta;
    var r := d.(blocks := AppendAt(d.blocks, d.cur, op));
    var n := |d.blocks[d.cur]|;
    assert r.blocks[d.cur] <= w.blocks[d.cur].ops;
    assert w.blocks[d.cur].ops[n] == r.blocks[d.cur][n] == op;
    if op.Call? {
      AfterCall(w, d.cur, n);
    } else {
      AfterOp(w, d.cur, n);
    }
  }

  lemma ForkBelow(w: Word, d: Draft)
    requires d.cur < |d.blocks| && WellTyped(w) && Numbered(w) && Follows(w, Fork(d).blocks) && Follows(w, d.blocks)
    ensures End(w, Fork(d)) == End(w, d) - 1 == Depth(w, |d.blocks| + 1, 0) && Below(w, d, Fork(d), End(w, d))
  {
    hide WellTyped;
    hide Numbered;
    hide StackAt;
    Forks(d);
    var n := |d.blocks[d.cur]|;
    assert Fork(d).blocks[d.cur] <= w.blocks[d.cur].ops;
    assert w.blocks[d.cur].ops[n] == Fork(d).blocks[d.cur][n];
    AfterBrIf(w, d.cur, n, |d.blocks|);
  }

  lemma HeadBelow(w: Word, d: Draft)
    requires d.cur < |d.blocks| && WellTyped(w) && Numbered(w) && Follows(w, Head(d).blocks) && Follows(w, d.blocks)
    ensures End(w, Head(d)) == End(w, d) && Below(w, d, Head(d), End(w, d))
  {
    hide WellTyped;
    hide Numbered;
    hide StackAt;
    Heads(d);
    var n := |d.blocks[d.cur]|;
    assert Head(d).blocks[d.cur] <= w.blocks[d.cur].ops;
    assert w.blocks[d.cur].ops[n] == Head(d).blocks[d.cur][n];
    AfterBr(w, d.cur, n, |d.blocks|);
  }

  /** A block of a draft closed by a branch. */
  lemma ClosedBelow(w: Word, bs: Blocks, k: nat, j: nat)
    requires k < |bs| && j < |w.blocks| && WellTyped(w) && Numbered(w) && |bs| <= |w.blocks| && bs[k] + [Br(j)] <= w.blocks[k].ops
    ensures Depth(w, k, |bs[k]| + 1) == 0 && Depth(w, j, 0) == Depth(w, k, |bs[k]|)
  {
    assert w.blocks[k].ops[|bs[k]|] == (bs[k] + [Br(j)])[|bs[k]|];
    AfterBr(w, k, |bs[k]|, j);
  }

  /** Both sides of a branch and where they join. */
  lemma BranchBelow(w: Word, d: Draft, y: Draft, z: Draft, a: int, b: int)
    requires d.cur < |d.blocks| && Extends(Fork(d), y) && Extends(y.(cur := |d.blocks| + 1), z)
    requires WellTyped(w) && Numbered(w) && Follows(w, Join(y.cur, z).blocks)
    requires Follows(w, z.blocks) && Follows(w, y.blocks) && Follows(w, Fork(d).blocks) && Follows(w, d.blocks)
    requires Below(w, d, Fork(d), End(w, d)) && Below(w, Fork(d), y, a) && Below(w, y.(cur := |d.blocks| + 1), z, b)
    requires End(w, y) <= a
    ensures Below(w, d, Join(y.cur, z), T.Max(End(w, d), T.Max(a, b))) && End(w, Join(y.cur, z)) == End(w, y)
  {
    hide WellTyped;
    hide Numbered;
    hide StackAt;
    hide Fork;
    var r, s, j := Join(y.cur, z), y.(cur := |d.blocks| + 1), |z.blocks|;
    Forks(d);
    BranchExtends(d, y, z);
    assert r.blocks[y.cur] <= w.blocks[y.cur].ops && r.blocks[z.cur] <= w.blocks[z.cur].ops;
    assert z.blocks[y.cur] == y.blocks[y.cur];
    ClosedBelow(w, z.blocks, y.cur, j);
    ClosedBelow(w, z.blocks, z.cur, j);
    forall k: nat, pc: nat | Added(d, r, k, pc) ensures Depth(w, k, pc) <= T.Max(End(w, d), T.Max(a, b)) {
      if k < j && pc <= |z.blocks[k]| {
        assert Added(d, Fork(d), k, pc) || Added(Fork(d), y, k, pc) || Added(s, z, k, pc);
      }
    }
  }

  /** A loop: the way to the condition, the condition, the choice, the body. */
  lemma LoopBelow(w: Word, d: Draft, c: Draft, b: Draft, most: int)
    requires d.cur < |d.blocks| && c.cur < |c.blocks| && Extends(Head(d), c) && Extends(Fork(c), b) && Extends(d, b)
    requires WellTyped(w) && Numbered(w) && Follows(w, AppendAt(b.blocks, b.cur, Br(|d.blocks|)))
    requires Follows(w, b.blocks) && Follows(w, Fork(c).blocks) && Follows(w, c.blocks) && Follows(w, d.blocks)
    requires Below(w, d, b, most) && most >= 0
    ensures Below(w, d, Draft(AppendAt(b.blocks, b.cur, Br(|d.blocks|)), |c.blocks| + 1), most)
    ensures End(w, Draft(AppendAt(b.blocks, b.cur, Br(|d.blocks|)), |c.blocks| + 1)) == Depth(w, |c.blocks| + 1, 0)
  {
    hide WellTyped;
    hide Numbered;
    hide StackAt;
    hide Fork;
    hide Head;
    var r := Draft(AppendAt(b.blocks, b.cur, Br(|d.blocks|)), |c.blocks| + 1);
    LoopCloses(d, c, b);
    assert r.blocks[b.cur] <= w.blocks[b.cur].ops;
    ClosedBelow(w, b.blocks, b.cur, |d.blocks|);
    forall k: nat, pc: nat | Added(d, r, k, pc) ensures Depth(w, k, pc) <= most {
      if pc <= |b.blocks[k]| {
        assert Added(d, b, k, pc);
      }
    }
  }

  /** Calls have the operands their code says. */
  predicate Sited(code: B.Code, call: B.Code -> Op)
    decreases code
  {
    match code
    case Do(_) => true
    case Seq(a, b) => Sited(a, call) && Sited(b, call)
    case If(yes, no) => Sited(yes, call) && Sited(no, call)
    case While(cond, body) => Sited(cond, call) && Sited(body, call)
    case Call(_, ins, outs) => call(code).Call? && |call(code).sig.inputs| == ins && |call(code).sig.outputs| == outs
  }

  /** What holds of code holds of its parts. */
  lemma PartsOf(code: B.Code, call: B.Code -> Op)
    requires T.Balanced(code) && Sited(code, call)
    ensures code.Seq? ==> T.Balanced(code.first) && T.Balanced(code.second) && Sited(code.first, call) && Sited(code.second, call)
    ensures code.If? ==> T.Balanced(code.yes) && T.Balanced(code.no) && Sited(code.yes, call) && Sited(code.no, call)
    ensures code.If? ==> T.Net(code) == T.Net(code.yes) - 1 && T.Net(code.yes) == T.Net(code.no)
    ensures code.While? ==> T.Balanced(code.cond) && T.Balanced(code.body) && Sited(code.cond, call) && Sited(code.body, call)
    ensures code.While? ==> T.Net(code) == 0 == T.Net(code.body) && T.Net(code.cond) == 1
    ensures NoCalls(code) ==>
      && (code.Seq? ==> NoCalls(code.first) && NoCalls(code.second))
      && (code.If? ==> NoCalls(code.yes) && NoCalls(code.no))
      && (code.While? ==> NoCalls(code.cond) && NoCalls(code.body))
  {
  }

  lemma {:induction false} NetBelowHeight(code: B.Code)
    requires T.Balanced(code)
    ensures T.Net(code) <= T.Height(code)
    decreases code
  {
    match code
    case Do(_) =>
    case Seq(a, b) => NetBelowHeight(a); NetBelowHeight(b);
    case If(yes, _) => NetBelowHeight(yes);
    case While(_, _) =>
    case Call(callee, _, _) => NetBelowHeight(callee);
  }

  /** From a point of depth `h` the code leads to one of depth `h` and its net
      change, and nowhere in it is the word deeper than its height. */
  lemma {:induction false} LaidBelow(w: Word, code: B.Code, call: B.Code -> Op, d: Draft)
    requires WellTyped(w) && Numbered(w) && T.Balanced(code) && Sited(code, call) && d.cur < |d.blocks|
    requires Follows(w, Lay(code, call, d).blocks) && Follows(w, d.blocks)
    ensures End(w, Lay(code, call, d)) == End(w, d) + T.Net(code)
    ensures Below(w, d, Lay(code, call, d), End(w, d) + T.Height(code))
    decreases code
  {
    hide Lay;
    hide AppendAt;
    hide Fork;
    hide Head;
    hide Join;
    hide Numbered;
    hide WellTyped;
    hide Extends;
    hide Follows;
    hide Below;
    hide End;
    hide Depth;
    LayUnfolds(code, call, d);
    match code
    case Do(op) => AppendedBelow(w, d, op, B.NetDelta(op));
    case Call(callee, ins, outs) =>
      NetBelowHeight(callee);
      AppendedBelow(w, d, call(code), outs - ins);
      MoreRoom(w, d, Lay(code, call, d), End(w, d) + T.Max(0, outs - ins), End(w, d) + T.Height(code));
    case Seq(a, b) =>
      var m := Lay(a, call, d);
      LayExtends(a, call, d);
      LayExtends(b, call, m);
      FollowsEarlier(w, m, Lay(code, call, d));
      LaidBelow(w, a, call, d);
      LaidBelow(w, b, call, m);
      BelowOn(w, d, m, Lay(code, call, d), End(w, d) + T.Height(a), End(w, m) + T.Height(b));
    case If(yes, no) => BranchLaid(w, code, call, d);
    case While(cond, body) => LoopLaid(w, code, call, d);
  }

  lemma MoreRoom(w: Word, d: Draft, r: Draft, most: int, more: int)
    requires Follows(w, r.blocks) && Below(w, d, r, most) && most <= more
    ensures Below(w, d, r, more)
  {
  }

  lemma {:induction false} BranchLaid(w: Word, code: B.Code, call: B.Code -> Op, d: Draft)
    requires WellTyped(w) && Numbered(w) && T.Balanced(code) && Sited(code, call) && d.cur < |d.blocks| && code.If?
    requires Follows(w, Lay(code, call, d).blocks) && Follows(w, d.blocks)
    ensures End(w, Lay(code, call, d)) == End(w, d) + T.Net(code)
    ensures Below(w, d, Lay(code, call, d), End(w, d) + T.Height(code))
    decreases code, 0
  {
    hide T.Balanced;
    hide Sited;
    hide NoCalls;
    hide Lay;
    hide Numbered;
    hide Fork;
    hide Head;
    hide Join;
    hide WellTyped;
    hide Extends;
    hide Follows;
    hide Below;
    hide End;
    hide Depth;
    LayUnfolds(code, call, d);
    PartsOf(code, call);
    var y := Lay(code.yes, call, Fork(d));
    var s := y.(cur := |d.blocks| + 1);
    var z := Lay(code.no, call, s);
    Forks(d);
    LayExtends(code.yes, call, Fork(d));
    LayExtends(code.no, call, s);
    BranchFollows(w, d, y, z);
    ForkBelow(w, d);
    LaidBelow(w, code.yes, call, Fork(d));
    SideStarts(w, d, y, z);
    LaidBelow(w, code.no, call, s);
    NetBelowHeight(code.yes);
    BranchBelow(w, d, y, z, End(w, Fork(d)) + T.Height(code.yes), End(w, s) + T.Height(code.no));
    MoreRoom(w, d, Lay(code, call, d),
             T.Max(End(w, d), T.Max(End(w, Fork(d)) + T.Height(code.yes), End(w, s) + T.Height(code.no))), End(w, d) + T.Height(code));
  }

  lemma BranchFollows(w: Word, d: Draft, y: Draft, z: Draft)
    requires d.cur < |d.blocks| && Extends(Fork(d), y) && Extends(y.(cur := |d.blocks| + 1), z) && Follows(w, Join(y.cur, z).blocks)
    ensures Follows(w, z.blocks) && Follows(w, y.blocks) && Follows(w, Fork(d).blocks)
  {
    BranchExtends(d, y, z);
    var r := Join(y.cur, z);
    forall k | 0 <= k < |z.blocks| ensures z.blocks[k] <= w.blocks[k].ops {
      assert r.blocks[k] <= w.blocks[k].ops;
    }
    FollowsEarlier(w, y.(cur := |d.blocks| + 1), z);
    FollowsEarlier(w, Fork(d), y);
  }

  /** The second side starts where the first did. */
  lemma SideStarts(w: Word, d: Draft, y: Draft, z: Draft)
    requires d.cur < |d.blocks| && Extends(Fork(d), y) && Extends(y.(cur := |d.blocks| + 1), z)
    requires Follows(w, y.blocks) && Follows(w, Fork(d).blocks)
    ensures End(w, y.(cur := |d.blocks| + 1)) == Depth(w, |d.blocks| + 1, 0)
  {
    BranchExtends(d, y, z);
  }

  /** The drafts of a loop, one after the other. */
  lemma LoopChain(w: Word, code: B.Code, call: B.Code -> Op, d: Draft, c: Draft, b: Draft)
    requires code.While? && d.cur < |d.blocks| && Follows(w, Lay(code, call, d).blocks)
    requires c == Lay(code.cond, call, Head(d)) && b == Lay(code.body, call, Fork(c))
    ensures Extends(d, Head(d)) && Extends(Head(d), c) && Extends(d, c) && Extends(c, Fork(c)) && Extends(d, Fork(c))
    ensures Extends(Fork(c), b) && Extends(c, b) && Extends(d, b)
    ensures Follows(w, b.blocks) && Follows(w, Fork(c).blocks) && Follows(w, c.blocks) && Follows(w, Head(d).blocks)
  {
    hide Extends;
    hide Follows;
    Heads(d);
    LayExtends(code.cond, call, Head(d));
    Forks(c);
    LayExtends(code.body, call, Fork(c));
    ExtendsOn(d, Head(d), c);
    ExtendsOn(d, c, Fork(c));
    ExtendsOn(d, Fork(c), b);
    ExtendsOn(c, Fork(c), b);
    LoopFollows(w, d, c, b);
  }

  lemma {:induction false} LoopLaid(w: Word, code: B.Code, call: B.Code -> Op, d: Draft)
    requires WellTyped(w) && Numbered(w) && T.Balanced(code) && Sited(code, call) && d.cur < |d.blocks| && code.While?
    requires Follows(w, Lay(code, call, d).blocks) && Follows(w, d.blocks)
    ensures End(w, Lay(code, call, d)) == End(w, d) + T.Net(code)
    ensures Below(w, d, Lay(code, call, d), End(w, d) + T.Height(code))
    decreases code, 0
  {
    hide T.Balanced;
    hide Sited;
    hide NoCalls;
    hide Lay;
    hide Numbered;
    hide Fork;
    hide Head;
    hide Join;
    hide WellTyped;
    hide Extends;
    hide Follows;
    hide Below;
    hide End;
    hide Depth;
    LayUnfolds(code, call, d);
    PartsOf(code, call);
    var h := End(w, d);
    var c := Lay(code.cond, call, Head(d));
    var b := Lay(code.body, call, Fork(c));
    LoopChain(w, code, call, d, c, b);
    HeadBelow(w, d);
    LaidBelow(w, code.cond, call, Head(d));
    BelowOn(w, d, Head(d), c, h, h + T.Height(code.cond));
    ForkBelow(w, c);
    BelowOn(w, d, c, Fork(c), T.Max(h, h + T.Height(code.cond)), End(w, c));
    LaidBelow(w, code.body, call, Fork(c));
    NetBelowHeight(code.cond);
    BelowOn(w, d, Fork(c), b, T.Max(T.Max(h, h + T.Height(code.cond)), End(w, c)), h + T.Height(code.body));
    MoreRoom(w, d, b, T.Max(T.Max(T.Max(h, h + T.Height(code.cond)), End(w, c)), h + T.Height(code.body)), h + T.Height(code));
    LoopBelow(w, d, c, b, h + T.Height(code));
  }

  lemma LoopFollows(w: Word, d: Draft, c: Draft, b: Draft)
    requires d.cur < |d.blocks| && c.cur < |c.blocks| && Extends(Head(d), c) && Extends(Fork(c), b) && Extends(d, b)
    requires Follows(w, AppendAt(b.blocks, b.cur, Br(|d.blocks|)))
    ensures Follows(w, b.blocks) && Follows(w, Fork(c).blocks) && Follows(w, c.blocks) && Follows(w, Head(d).blocks)
  {
    var bs := AppendAt(b.blocks, b.cur, Br(|d.blocks|));
    forall k | 0 <= k < |b.blocks| ensures b.blocks[k] <= w.blocks[k].ops {
      assert bs[k] <= w.blocks[k].ops;
    }
    FollowsEarlier(w, Fork(c), b);
    Forks(c);
    FollowsEarlier(w, c, Fork(c));
    FollowsEarlier(w, Head(d), c);
  }

  // ---- the whole word ----

  /** The compiler's draft of a word: one empty block to start with. */
  function Drafted(code: B.Code, call: B.Code -> Op): (r: Draft)
    ensures r.cur < |r.blocks|
  {
    Lay(code, call, Draft([[]], 0))
  }

  /** The word is what the compiler laid out for the code, closed by a return, and
      declares the growth that was folded over it. */
  ghost predicate IsLaid(w: Word, code: B.Code, call: B.Code -> Op) {
    var r := Drafted(code, call);
    && T.Balanced(code) && Sited(code, call) && Numbered(w) && w.entry == 0
    && |w.blocks| == |r.blocks|
    && (forall k {:trigger r.blocks[k]} :: 0 <= k < |r.blocks| ==> w.blocks[k].ops == r.blocks[k] + (if k == r.cur then [Ret] else []))
    && w.high == B.Fold(B.ID, code).high
  }

  lemma LaidFacts(w: Word, code: B.Code, call: B.Code -> Op)
    requires WellTyped(w) && IsLaid(w, code, call)
    ensures Follows(w, Drafted(code, call).blocks) && Follows(w, [[]]) && Depth(w, 0, 0) == End(w, Draft([[]], 0)) == Arity(w)
  {
    EntryInWord(w);
    assert FindBlock(w.blocks, 0) == Some(0);
  }

  /** No point of the word is deeper than the height of its code. */
  lemma LaidHeight(w: Word, code: B.Code, call: B.Code -> Op, k: nat, pc: nat)
    requires WellTyped(w) && IsLaid(w, code, call) && k < |w.blocks| && pc < |w.blocks[k].ops|
    ensures |StackAt(w, k, pc)| <= Arity(w) + T.Height(code)
  {
    hide T.Height;
    hide T.Balanced;
    hide Sited;
    hide Lay;
    hide B.Fold;
    hide WellTyped;
    hide StackAt;
    hide Numbered;
    var r := Drafted(code, call);
    LaidFacts(w, code, call);
    LaidBelow(w, code, call, Draft([[]], 0));
    assert w.blocks[k].ops == r.blocks[k] + (if k == r.cur then [Ret] else []);
    assert Added(Draft([[]], 0), r, k, pc);
    assert Depth(w, k, pc) <= Arity(w) + T.Height(code);
  }

  /** If no condition of a loop rises above what is counted, the growth the compiler
      declares is one the word keeps to. */
  lemma LaidGrowthHolds(w: Word, code: B.Code, call: B.Code -> Op)
    requires WellTyped(w) && IsLaid(w, code, call) && T.Fits(0, 0, code) && T.InConditions(code) <= T.Counted(code)
    ensures GrowthHolds(w)
  {
    hide WellTyped;
    T.WordBound(code);
    forall k, pc | 0 <= k < |w.blocks| && 0 <= pc < |w.blocks[k].ops|
      ensures |StackAt(w, k, pc)| <= Arity(w) + w.high.extra
    {
      LaidHeight(w, code, call, k, pc);
    }
  }

  // ---- the height is reached ----

  /** Code that is all in one word. */
  predicate NoCalls(code: B.Code) {
    match code
    case Do(_) => true
    case Seq(a, b) => NoCalls(a) && NoCalls(b)
    case If(yes, no) => NoCalls(yes) && NoCalls(no)
    case While(cond, body) => NoCalls(cond) && NoCalls(body)
    case Call(_, _, _) => false
  }

  /** A point of what was added where the word has `most` values. */
  ghost predicate Reached(w: Word, d: Draft, r: Draft, most: int)
    requires Follows(w, r.blocks)
  {
    exists k: nat, pc: nat {:trigger Added(d, r, k, pc)} :: Added(d, r, k, pc) && Depth(w, k, pc) == most
  }

  lemma ReachedEarly(w: Word, d: Draft, m: Draft, r: Draft, most: int)
    requires Extends(d, m) && Extends(m, r) && Follows(w, m.blocks) && Follows(w, r.blocks) && Reached(w, d, m, most)
    ensures Reached(w, d, r, most)
  {
    var k: nat, pc: nat :| Added(d, m, k, pc) && Depth(w, k, pc) == most;
    assert Added(d, r, k, pc) by {
      if k != m.cur {
        assert r.blocks[k] == m.blocks[k];
      }
    }
  }

  lemma ReachedLate(w: Word, d: Draft, m: Draft, r: Draft, most: int)
    requires Extends(d, m) && Extends(m, r) && Follows(w, r.blocks) && Reached(w, m, r, most)
    ensures Reached(w, d, r, most)
  {
    var k: nat, pc: nat :| Added(m, r, k, pc) && Depth(w, k, pc) == most;
    assert Added(d, r, k, pc);
  }

  lemma ReachedAtStart(w: Word, d: Draft, r: Draft)
    requires Extends(d, r) && Follows(w, r.blocks) && Follows(w, d.blocks)
    ensures Reached(w, d, r, End(w, d))
  {
    assert Added(d, r, d.cur, |d.blocks[d.cur]|);
  }

  lemma ReachedAtEnd(w: Word, d: Draft, r: Draft)
    requires Extends(d, r) && Follows(w, r.blocks)
    ensures Reached(w, d, r, End(w, r))
  {
    assert Added(d, r, r.cur, |r.blocks[r.cur]|);
  }

  /** What one side of a branch reaches is reached in the whole. */
  lemma ReachedInBranch(w: Word, d: Draft, y: Draft, z: Draft, most: int)
    requires d.cur < |d.blocks| && Extends(Fork(d), y) && Extends(y.(cur := |d.blocks| + 1), z)
    requires Follows(w, Join(y.cur, z).blocks) && Follows(w, y.blocks) && Follows(w, z.blocks)
    requires Reached(w, Fork(d), y, most) || Reached(w, y.(cur := |d.blocks| + 1), z, most)
    ensures Reached(w, d, Join(y.cur, z), most)
  {
    var r, s := Join(y.cur, z), y.(cur := |d.blocks| + 1);
    BranchExtends(d, y, z);
    Forks(d);
    if Reached(w, Fork(d), y, most) {
      var k: nat, pc: nat :| Added(Fork(d), y, k, pc) && Depth(w, k, pc) == most;
      assert Added(d, r, k, pc);
    } else {
      var k: nat, pc: nat :| Added(s, z, k, pc) && Depth(w, k, pc) == most;
      assert Added(d, r, k, pc);
    }
  }

  lemma ReachedInLoop(w: Word, d: Draft, c: Draft, b: Draft, most: int)
    requires d.cur < |d.blocks| && c.cur < |c.blocks| && Extends(Head(d), c) && Extends(Fork(c), b) && Extends(d, b)
    requires Follows(w, AppendAt(b.blocks, b.cur, Br(|d.blocks|))) && Follows(w, b.blocks) && Reached(w, d, b, most)
    ensures Reached(w, d, Draft(AppendAt(b.blocks, b.cur, Br(|d.blocks|)), |c.blocks| + 1), most)
  {
    var k: nat, pc: nat :| Added(d, b, k, pc) && Depth(w, k, pc) == most;
    assert Added(d, Draft(AppendAt(b.blocks, b.cur, Br(|d.blocks|)), |c.blocks| + 1), k, pc);
  }

  /** Code without calls has a point as deep as its height. */
  lemma {:induction false} LaidReaches(w: Word, code: B.Code, call: B.Code -> Op, d: Draft)
    requires WellTyped(w) && Numbered(w) && T.Balanced(code) && Sited(code, call) && d.cur < |d.blocks| && NoCalls(code)
    requires Follows(w, Lay(code, call, d).blocks) && Follows(w, d.blocks)
    ensures Reached(w, d, Lay(code, call, d), End(w, d) + T.Height(code))
    decreases code
  {
    hide Lay;
    hide AppendAt;
    hide Sited;
    hide Numbered;
    hide WellTyped;
    hide Extends;
    hide Follows;
    hide Reached;
    hide End;
    hide Depth;
    hide Below;
    hide T.Balanced;
    var r := Lay(code, call, d);
    LaidBelow(w, code, call, d);
    LayExtends(code, call, d);
    ReachedAtStart(w, d, r);
    ReachedAtEnd(w, d, r);
    match code
    case Do(op) =>
    case Seq(a, b) => SeqReaches(w, code, call, d);
    case If(yes, no) => BranchReaches(w, code, call, d);
    case While(cond, body) => LoopReaches(w, code, call, d);
  }

  lemma {:induction false} SeqReaches(w: Word, code: B.Code, call: B.Code -> Op, d: Draft)
    requires WellTyped(w) && Numbered(w) && T.Balanced(code) && Sited(code, call) && d.cur < |d.blocks| && NoCalls(code) && code.Seq?
    requires Follows(w, Lay(code, call, d).blocks) && Follows(w, d.blocks)
    ensures Reached(w, d, Lay(code, call, d), End(w, d) + T.Height(code.first))
    ensures Reached(w, d, Lay(code, call, d), End(w, d) + T.Net(code.first) + T.Height(code.second))
    decreases code, 0
  {
    hide Lay;
    hide T.Height;
    hide T.Balanced;
    hide Sited;
    hide NoCalls;
    hide WellTyped;
    hide Numbered;
    hide Extends;
    hide Follows;
    hide Reached;
    hide End;
    hide Depth;
    LayUnfolds(code, call, d);
    PartsOf(code, call);
    var m, r := Lay(code.first, call, d), Lay(code, call, d);
    LayExtends(code.first, call, d);
    LayExtends(code.second, call, m);
    FollowsEarlier(w, m, r);
    LaidBelow(w, code.first, call, d);
    LaidReaches(w, code.first, call, d);
    LaidReaches(w, code.second, call, m);
    ReachedEarly(w, d, m, r, End(w, d) + T.Height(code.first));
    ReachedLate(w, d, m, r, End(w, m) + T.Height(code.second));
  }

  lemma {:induction false} BranchReaches(w: Word, code: B.Code, call: B.Code -> Op, d: Draft)
    requires WellTyped(w) && Numbered(w) && T.Balanced(code) && Sited(code, call) && d.cur < |d.blocks| && NoCalls(code) && code.If?
    requires Follows(w, Lay(code, call, d).blocks) && Follows(w, d.blocks)
    ensures Reached(w, d, Lay(code, call, d), End(w, d) - 1 + T.Height(code.yes))
    ensures Reached(w, d, Lay(code, call, d), End(w, d) - 1 + T.Height(code.no))
    decreases code, 0
  {
    hide T.Balanced;
    hide Sited;
    hide NoCalls;
    hide Lay;
    hide T.Height;
    hide WellTyped;
    hide Numbered;
    hide Extends;
    hide Follows;
    hide Reached;
    hide End;
    hide Depth;
    hide Fork;
    hide Join;
    LayUnfolds(code, call, d);
    PartsOf(code, call);
    var y := Lay(code.yes, call, Fork(d));
    var s := y.(cur := |d.blocks| + 1);
    var z := Lay(code.no, call, s);
    Forks(d);
    LayExtends(code.yes, call, Fork(d));
    LayExtends(code.no, call, s);
    BranchFollows(w, d, y, z);
    ForkBelow(w, d);
    SideStarts(w, d, y, z);
    LaidReaches(w, code.yes, call, Fork(d));
    LaidReaches(w, code.no, call, s);
    ReachedInBranch(w, d, y, z, End(w, Fork(d)) + T.Height(code.yes));
    ReachedInBranch(w, d, y, z, End(w, s) + T.Height(code.no));
  }

  lemma {:induction false} LoopReaches(w: Word, code: B.Code, call: B.Code -> Op, d: Draft)
    requires WellTyped(w) && Numbered(w) && T.Balanced(code) && Sited(code, call) && d.cur < |d.blocks| && NoCalls(code) && code.While?
    requires Follows(w, Lay(code, call, d).blocks) && Follows(w, d.blocks)
    ensures Reached(w, d, Lay(code, call, d), End(w, d) + T.Height(code.cond))
    ensures Reached(w, d, Lay(code, call, d), End(w, d) + T.Height(code.body))
    decreases code, 0
  {
    hide T.Balanced;
    hide Sited;
    hide NoCalls;
    hide Lay;
    hide T.Height;
    hide WellTyped;
    hide Numbered;
    hide Extends;
    hide Follows;
    hide Reached;
    hide End;
    hide Depth;
    hide Fork;
    hide Head;
    LayUnfolds(code, call, d);
    PartsOf(code, call);
    var c := Lay(code.cond, call, Head(d));
    var b := Lay(code.body, call, Fork(c));
    LoopChain(w, code, call, d, c, b);
    HeadBelow(w, d);
    LaidBelow(w, code.cond, call, Head(d));
    ForkBelow(w, c);
    LaidReaches(w, code.cond, call, Head(d));
    LaidReaches(w, code.body, call, Fork(c));
    ReachedLate(w, d, Head(d), c, End(w, d) + T.Height(code.cond));
    ReachedEarly(w, d, c, b, End(w, d) + T.Height(code.cond));
    ReachedLate(w, d, Fork(c), b, End(w, d) + T.Height(code.body));
    ReachedInLoop(w, d, c, b, End(w, d) + T.Height(code.cond));
    ReachedInLoop(w, d, c, b, End(w, d) + T.Height(code.body));
  }

  /** A point of a verified word has at most 64 values. */
  lemma EndIsSmall(w: Word, d: Draft)
    requires WellTyped(w) && WithinCaps(w) && Follows(w, d.blocks) && d.cur < |d.blocks|
    ensures 0 <= End(w, d) <= T.SLOTS
  {
    hide WellTyped;
    hide StackAt;
    assert d.blocks[d.cur] <= w.blocks[d.cur].ops;
    var pc := |d.blocks[d.cur]|;
    if pc < |w.blocks[d.cur].ops| {
      HeightBound(w, d.cur, pc);
    } else {
      BehindTheEnd(w, d.cur);
    }
  }

  /** So code laid out in a verified word keeps to the verifier's slots. */
  lemma {:induction false} LaidWithinSlots(w: Word, code: B.Code, call: B.Code -> Op, d: Draft)
    requires WellTyped(w) && WithinCaps(w) && Numbered(w) && T.Balanced(code) && Sited(code, call) && d.cur < |d.blocks| && NoCalls(code)
    requires Follows(w, Lay(code, call, d).blocks) && Follows(w, d.blocks)
    ensures T.WithinSlots(End(w, d), code)
    decreases code
  {
    hide T.Height;
    hide Below;
    hide WellTyped;
    hide Numbered;
    hide WithinCaps;
    hide Extends;
    hide Follows;
    hide End;
    hide Depth;
    hide Fork;
    hide Head;
    hide Join;
    EndIsSmall(w, d);
    EndIsSmall(w, Lay(code, call, d));
    LaidBelow(w, code, call, d);
    match code
    case Do(op) =>
    case Seq(a, b) =>
      var m := Lay(a, call, d);
      LayExtends(b, call, m);
      FollowsEarlier(w, m, Lay(code, call, d));
      LaidBelow(w, a, call, d);
      LaidWithinSlots(w, a, call, d);
      LaidWithinSlots(w, b, call, m);
    case If(_, _) => BranchWithinSlots(w, code, call, d);
    case While(_, _) => LoopWithinSlots(w, code, call, d);
  }

  lemma {:induction false} BranchWithinSlots(w: Word, code: B.Code, call: B.Code -> Op, d: Draft)
    requires WellTyped(w) && WithinCaps(w) && Numbered(w) && T.Balanced(code) && Sited(code, call) && d.cur < |d.blocks| && NoCalls(code)
    requires Follows(w, Lay(code, call, d).blocks) && Follows(w, d.blocks) && code.If?
    ensures T.WithinSlots(End(w, d) - 1, code.yes) && T.WithinSlots(End(w, d) - 1, code.no)
    decreases code, 0
  {
    hide T.Balanced;
    hide Sited;
    hide NoCalls;
    hide Lay;
    hide T.Height;
    hide WellTyped;
    hide Numbered;
    hide WithinCaps;
    hide Extends;
    hide Follows;
    hide End;
    hide Depth;
    hide Fork;
    hide Join;
    hide Below;
    LayUnfolds(code, call, d);
    PartsOf(code, call);
    var y := Lay(code.yes, call, Fork(d));
    var s := y.(cur := |d.blocks| + 1);
    var z := Lay(code.no, call, s);
    Forks(d);
    LayExtends(code.yes, call, Fork(d));
    LayExtends(code.no, call, s);
    BranchFollows(w, d, y, z);
    ForkBelow(w, d);
    SideStarts(w, d, y, z);
    LaidWithinSlots(w, code.yes, call, Fork(d));
    LaidWithinSlots(w, code.no, call, s);
  }

  lemma {:induction false} LoopWithinSlots(w: Word, code: B.Code, call: B.Code -> Op, d: Draft)
    requires WellTyped(w) && WithinCaps(w) && Numbered(w) && T.Balanced(code) && Sited(code, call) && d.cur < |d.blocks| && NoCalls(code)
    requires Follows(w, Lay(code, call, d).blocks) && Follows(w, d.blocks) && code.While?
    ensures T.WithinSlots(End(w, d), code.cond) && T.WithinSlots(End(w, d), code.body)
    decreases code, 0
  {
    hide T.Balanced;
    hide Sited;
    hide NoCalls;
    hide Lay;
    hide T.Height;
    hide WellTyped;
    hide Numbered;
    hide WithinCaps;
    hide Extends;
    hide Follows;
    hide End;
    hide Depth;
    hide Fork;
    hide Head;
    hide Below;
    LayUnfolds(code, call, d);
    PartsOf(code, call);
    var c := Lay(code.cond, call, Head(d));
    LoopChain(w, code, call, d, c, Lay(code.body, call, Fork(c)));
    HeadBelow(w, d);
    LaidBelow(w, code.cond, call, Head(d));
    ForkBelow(w, c);
    LaidWithinSlots(w, code.cond, call, Head(d));
    LaidWithinSlots(w, code.body, call, Fork(c));
  }

  lemma {:induction false} NoCallsNoNesting(code: B.Code)
    requires NoCalls(code)
    ensures T.Nesting(code) == 0
    decreases code
  {
    match code
    case Do(_) =>
    case Seq(a, b) => NoCallsNoNesting(a); NoCallsNoNesting(b);
    case If(yes, no) => NoCallsNoNesting(yes); NoCallsNoNesting(no);
    case While(cond, body) => NoCallsNoNesting(cond); NoCallsNoNesting(body);
  }

  /** In a verified word of the compiler's layout the fold wraps nowhere. */
  lemma LaidFits(w: Word, code: B.Code, call: B.Code -> Op)
    requires WellTyped(w) && WithinCaps(w) && IsLaid(w, code, call) && NoCalls(code)
    ensures T.Fits(0, 0, code) && B.Fold(B.ID, code) == B.Bound(T.Net(code), Slots(T.Counted(code)))
  {
    hide WellTyped;
    LaidFacts(w, code, call);
    LaidWithinSlots(w, code, call, Draft([[]], 0));
    NoCallsNoNesting(code);
    T.CheckedWordBound(Arity(w), code);
  }

  /** Of a verified word without calls: the growth the compiler declares for it
      holds if and only if no condition of a loop rises above what is counted. */
  lemma LaidGrowthExactly(w: Word, code: B.Code, call: B.Code -> Op)
    requires WellTyped(w) && WithinCaps(w) && IsLaid(w, code, call) && NoCalls(code)
    ensures GrowthHolds(w) <==> T.InConditions(code) <= T.Counted(code)
  {
    hide WellTyped;
    LaidFits(w, code, call);
    if T.InConditions(code) <= T.Counted(code) {
      LaidGrowthHolds(w, code, call);
    } else {
      T.HeightIsEither(code);
      var k, pc := DeepestPoint(w, code, call);
      assert |StackAt(w, k, pc)| > Arity(w) + w.high.extra;
    }
  }

  /** Behind what ends a block there is nothing. */
  lemma BehindTheEnd(w: Word, k: nat)
    requires WellTyped(w) && k < |w.blocks|
    ensures StackAt(w, k, |w.blocks[k].ops|) == []
  {
    hide CheckOp;
    assert NotEmpty(w, k);
    assert PointOk(w, k, |w.blocks[k].ops| - 1);
  }

  lemma DeepestPoint(w: Word, code: B.Code, call: B.Code -> Op) returns (k: nat, pc: nat)
    requires WellTyped(w) && IsLaid(w, code, call) && NoCalls(code) && T.Height(code) > 0
    ensures k < |w.blocks| && pc < |w.blocks[k].ops| && |StackAt(w, k, pc)| == Arity(w) + T.Height(code)
  {
    hide WellTyped;
    hide StackAt;
    hide T.Balanced;
    hide Sited;
    hide NoCalls;
    hide Lay;
    hide B.Fold;
    hide Numbered;
    var d, r := Draft([[]], 0), Drafted(code, call);
    LaidFacts(w, code, call);
    LaidReaches(w, code, call, d);
    k, pc :| Added(d, r, k, pc) && Depth(w, k, pc) == Arity(w) + T.Height(code);
    assert w.blocks[k].ops == r.blocks[k] + (if k == r.cur then [Ret] else []);
    BehindTheEnd(w, k);
  }

  /** The word of the idle loop, from one number to the same number. */
  const IDLE_WORD: Word :=
    Word(0, Sig([TY_I64], [TY_I64]), Slots(0), 0,
         [Block(0, [TY_I64], [Br(1)]), Block(1, [TY_I64], [ConstBool(false), BrIf(2, 3)]),
          Block(2, [TY_I64], [Bitcast(TY_I64, TY_I64), Br(1)]), Block(3, [TY_I64], [Ret])], [], [], [], [])

  lemma IdleBlocks(k: nat)
    requires k < 4
    ensures FindBlock(IDLE_WORD.blocks, k) == Some(k) && StackAt(IDLE_WORD, k, 0) == [TY_I64]
  {
    FindFirst(IDLE_WORD.blocks, k);
  }

  lemma {:induction false} FindFirst(bs: seq<Block>, k: nat)
    requires k < |bs| && forall j :: 0 <= j < k ==> bs[j].id != bs[k].id
    ensures FindBlock(bs, bs[k].id) == Some(k)
    decreases |bs|
  {
    if k > 0 {
      FindFirst(bs[1..], k - 1);
    }
  }

  /** The second points of the two blocks that have one. */
  lemma IdleSecond()
    ensures StackAt(IDLE_WORD, 1, 1) == [TY_I64, TY_BOOL] && StackAt(IDLE_WORD, 2, 1) == [TY_I64]
  {
    hide CheckOp;
    IdleBlocks(1);
    IdleBlocks(2);
    IdleLocal(1);
    IdleLocal(2);
  }

  lemma IdleTarget(j: nat, a: nat, b: nat, c: nat)
    requires j < 4
    ensures CheckTarget(IDLE_WORD, j, [TY_I64], a, b, c) == Ends
  {
    IdleBlocks(j);
  }

  lemma IdlePoint(k: nat, pc: nat)
    requires k < 4 && pc < |IDLE_WORD.blocks[k].ops|
    ensures PointOk(IDLE_WORD, k, pc)
  {
    hide FindBlock;
    hide CheckTarget;
    hide StackAt;
    hide CheckLocal;
    hide CheckCall;
    IdleBlocks(k);
    IdleSecond();
    if IDLE_WORD.blocks[k].ops[pc].Br? {
      IdleTarget(1, BR_TARGET_NOT_FOUND, BR_STACK_DEPTH_MISMATCH, BR_STACK_CONTENT_MISMATCH);
    } else if IDLE_WORD.blocks[k].ops[pc].BrIf? {
      assert [TY_I64, TY_BOOL][..1] == [TY_I64];
      IdleTarget(2, BR_IF_TARGET_NOT_FOUND, BR_IF_STACK_DEPTH_MISMATCH, BR_IF_STACK_CONTENT_MISMATCH);
      IdleTarget(3, BR_IF_TARGET_NOT_FOUND, BR_IF_STACK_DEPTH_MISMATCH, BR_IF_STACK_CONTENT_MISMATCH);
    } else if pc == 0 && k < 3 {
      IdleLocal(k);
    }
  }

  lemma IdleLocal(k: nat)
    requires k == 1 || k == 2
    ensures CheckOp(IDLE_WORD, IDLE_WORD.blocks[k].ops[0], [TY_I64]) == Goes(if k == 1 then [TY_I64, TY_BOOL] else [TY_I64])
  {
    assert [TY_I64][..0] == [] && PushAll([], [TY_I64]) == Goes([TY_I64]);
    assert [TY_I64] + [TY_BOOL] == [TY_I64, TY_BOOL];
  }

  lemma IdleIsTyped()
    ensures WellTyped(IDLE_WORD)
  {
    hide PointOk;
    hide StackAt;
    forall k, pc | 0 <= k < |IDLE_WORD.blocks| && 0 <= pc < |IDLE_WORD.blocks[k].ops| ensures PointOk(IDLE_WORD, k, pc) {
      IdlePoint(k, pc);
    }
    IdleBlocks(0);
  }

  lemma IdleDraft(call: B.Code -> Op)
    ensures Drafted(T.IDLE, call) == Draft([[Br(1)], [ConstBool(false), BrIf(2, 3)], [Bitcast(TY_I64, TY_I64), Br(1)], []], 3)
  {
    var e: seq<Op> := [];
    var h := Head(Draft([e], 0));
    assert e + [Br(1)] == [Br(1)] && h == Draft([[Br(1)], e], 1);
    var c := Lay(B.Do(ConstBool(false)), call, h);
    assert e + [ConstBool(false)] == [ConstBool(false)] && c == Draft([[Br(1)], [ConstBool(false)]], 1);
    var f := Fork(c);
    assert [ConstBool(false)] + [BrIf(2, 3)] == [ConstBool(false), BrIf(2, 3)];
    assert f == Draft([[Br(1)], [ConstBool(false), BrIf(2, 3)], e, e], 2);
    var b := Lay(B.Do(Bitcast(TY_I64, TY_I64)), call, f);
    assert e + [Bitcast(TY_I64, TY_I64)] == [Bitcast(TY_I64, TY_I64)];
    assert b == Draft([[Br(1)], [ConstBool(false), BrIf(2, 3)], [Bitcast(TY_I64, TY_I64)], e], 2);
    assert [Bitcast(TY_I64, TY_I64)] + [Br(1)] == [Bitcast(TY_I64, TY_I64), Br(1)];
  }

  lemma IdleIsLaid(call: B.Code -> Op)
    ensures IsLaid(IDLE_WORD, T.IDLE, call)
  {
    hide B.Fold;
    hide FindBlock;
    hide Drafted;
    IdleDraft(call);
    T.IdleFacts();
    T.WordBound(T.IDLE);
    forall k: nat | k < |IDLE_WORD.blocks| ensures FindBlock(IDLE_WORD.blocks, k) == Some(k) {
      IdleBlocks(k);
    }
    forall k | 0 <= k < 4
      ensures IDLE_WORD.blocks[k].ops == Drafted(T.IDLE, call).blocks[k] + (if k == Drafted(T.IDLE, call).cur then [Ret] else [])
    {
    }
  }

  /** It is verified and laid out as the compiler does, and it breaks the growth the
      compiler declares for it. */
  lemma IdleGrowthFails(call: B.Code -> Op)
    ensures WellTyped(IDLE_WORD) && IsLaid(IDLE_WORD, T.IDLE, call) && !GrowthHolds(IDLE_WORD)
  {
    hide WellTyped;
    hide IsLaid;
    hide GrowthHolds;
    T.IdleFacts();
    IdleIsTyped();
    IdleIsLaid(call);
    assert T.InConditions(T.IDLE) > T.Counted(T.IDLE);
    LaidGrowthExactly(IDLE_WORD, T.IDLE, call);
  }
}
