/** The native code of an operation does what the stack machine does with it. */
module NativeMeaning {
  import opened Rings
  import opened Ir
  import opened Words
  import opened Verifier
  import opened IrMachine
  import opened WasmSteps
  import B = StackBounds

  /** The code of an operation leaves what the machine leaves, and stops where it
      traps. */
  ghost predicate Alike(g: B.Geometry, op: Op, d: B.Ds, e: Effect)
    requires B.IsNative(op)
  {
    match e
    case Then(data, after) =>
      B.Perform(g, op, d, false).Went? && B.Perform(g, op, d, false).ds.stack == Bits(data) && B.Perform(g, op, d, false).ds.locals == after
    case Trap(code, _) => B.Perform(g, op, d, false) == B.Trapped(code)
    case Wrong => true
  }

  lemma NoOperands(g: B.Geometry, w: Word, op: Op, seg: seq<Val>, locals: map<nat, U64>, input: seq<U64>, d: B.Ds)
    requires B.IsNative(op) && Pops(op) == 0 && d.stack == Bits(seg) && d.locals == locals
    ensures Alike(g, op, d, Compute(w, op, seg, locals, input))
  {
    assert seg[..|seg|] == seg && seg[|seg|..] == [];
    var e := Act(w, op, [], locals, input);
    if e.Then? {
      BitsJoin(seg, e.data);
    }
  }

  lemma OneOperand(g: B.Geometry, w: Word, op: Op, seg: seq<Val>, locals: map<nat, U64>, input: seq<U64>, d: B.Ds)
    requires B.IsNative(op) && Pops(op) == 1 && seg != [] && d.stack == Bits(seg) && d.locals == locals
    ensures Alike(g, op, d, Compute(w, op, seg, locals, input))
  {
    var n := |seg|;
    BitsSplit(seg, n - 1);
    assert seg[n - 1..] == [seg[n - 1]] && d.stack[n - 1] == seg[n - 1].bits;
    var e := Act(w, op, [seg[n - 1]], locals, input);
    if e.Then? {
      BitsJoin(seg[..n - 1], e.data);
    }
    assert d.stack[..n - 1] + [d.stack[n - 1]] == d.stack;
  }

  lemma TwoOperands(g: B.Geometry, w: Word, op: Op, seg: seq<Val>, locals: map<nat, U64>, input: seq<U64>, d: B.Ds)
    requires B.IsNative(op) && Pops(op) == 2 && |seg| >= 2 && d.stack == Bits(seg) && d.locals == locals
    ensures Alike(g, op, d, Compute(w, op, seg, locals, input))
  {
    var n := |seg|;
    BitsSplit(seg, n - 2);
    assert seg[n - 2..] == [seg[n - 2], seg[n - 1]] && d.stack[n - 1] == seg[n - 1].bits && d.stack[n - 2] == seg[n - 2].bits;
    var e := Act(w, op, [seg[n - 2], seg[n - 1]], locals, input);
    if e.Then? {
      BitsJoin(seg[..n - 2], e.data);
    }
  }

  /** Where the machine has the words and locals that the native stack has, the code
      of an operation does what the machine does. */
  lemma PerformMeans(g: B.Geometry, w: Word, op: Op, seg: seq<Val>, locals: map<nat, U64>, input: seq<U64>, d: B.Ds)
    requires B.IsNative(op) && d.stack == Bits(seg) && d.locals == locals && Compute(w, op, seg, locals, input) != Wrong
    ensures Alike(g, op, d, Compute(w, op, seg, locals, input))
  {
    hide Alike;
    hide Act;
    if Pops(op) == 0 {
      NoOperands(g, w, op, seg, locals, input, d);
    } else if Pops(op) == 1 {
      OneOperand(g, w, op, seg, locals, input, d);
    } else {
      TwoOperands(g, w, op, seg, locals, input, d);
    }
  }

  lemma BitsSplit(vs: seq<Val>, k: nat)
    requires k <= |vs|
    ensures Bits(vs[..k]) == Bits(vs)[..k] && Bits(vs[k..]) == Bits(vs)[k..]
  {
  }

  lemma BitsJoin(a: seq<Val>, b: seq<Val>)
    ensures Bits(a + b) == Bits(a) + Bits(b)
  {
  }
}
