/** The dispatch ladder: from the loop, and from the code of any block, setting
    the cursor and branching runs exactly the block the cursor names. */
module WasmLadder {
  import opened Rings
  import opened Ir
  import W = Wasm
  import opened WasmEmit

  /** The label of the dispatch loop. */
  ghost function LoopLabel(codes: seq<seq<W.Instr>>, cur: nat): W.Label
    requires codes != []
  {
    W.Label(true, LoopBody(codes, cur), [W.Unreachable], 0)
  }

  /** The labels around the code of block `k`: a block for each later case, the
      last of them followed by the jump back, and the loop. */
  ghost function Labels(codes: seq<seq<W.Instr>>, last: W.Label, k: nat): (ls: seq<W.Label>)
    requires k < |codes|
    ensures |ls| == |codes| - k + 1
    decreases |codes| - k
  {
    if k + 1 == |codes| then [CaseLabel([W.Br(0)])] + [last]
    else [CaseLabel(codes[k + 1])] + Labels(codes, last, k + 1)
  }

  ghost function CaseLabel(rest: seq<W.Instr>): W.Label {
    W.Label(false, [], rest, 0)
  }

  lemma {:induction false} LastLabel(codes: seq<seq<W.Instr>>, last: W.Label, k: nat)
    requires k < |codes|
    ensures Labels(codes, last, k)[|codes| - k] == last
    decreases |codes| - k
  {
    if k + 1 < |codes| {
      LastLabel(codes, last, k + 1);
    }
  }

  lemma DropFirst(l: W.Label, ls: seq<W.Label>, d: nat)
    requires d <= |ls|
    ensures ([l] + ls)[d + 1..] == ls[d..]
    ensures d > 0 ==> ([l] + ls)[d] == ls[d - 1]
  {
  }

  /** Going up `j` labels from the first case leaves those of case `j`, and just
      below them is the block that ends where the code of case `j` begins. */
  lemma {:induction false} LabelsAbove(codes: seq<seq<W.Instr>>, last: W.Label, k: nat, j: nat)
    requires k <= j < |codes|
    ensures Labels(codes, last, k)[j - k..] == Labels(codes, last, j)
    ensures k < j ==> Labels(codes, last, k)[j - k - 1] == CaseLabel(codes[j])
    decreases j - k
  {
    if k < j {
      LabelsAbove(codes, last, k + 1, j);
      DropFirst(CaseLabel(codes[k + 1]), Labels(codes, last, k + 1), j - k - 1);
    }
  }

  /** An activation between blocks: no operands left. */
  ghost function At(func: nat, locals: seq<U64>, code: seq<W.Instr>, labels: seq<W.Label>): W.Activation {
    W.Activation(func, locals, [], code, labels)
  }

  lemma EnterBlock(m: seq<W.Func>, func: nat, locals: seq<U64>, body: seq<W.Instr>, rest: seq<W.Instr>, labels: seq<W.Label>, below: seq<W.Activation>)
    ensures W.Step(m, [At(func, locals, [W.Block(body)] + rest, labels)] + below) ==
      W.Next([At(func, locals, body, [W.Label(false, [], rest, 0)] + labels)] + below)
  {
    assert ([W.Block(body)] + rest)[1..] == rest;
    assert ([At(func, locals, [W.Block(body)] + rest, labels)] + below)[1..] == below;
  }

  lemma OneStep(m: seq<W.Func>, s: seq<W.Activation>, t: seq<W.Activation>, n: nat)
    requires W.Step(m, s) == W.Next(t)
    ensures W.Steps(m, s, n + 1) == W.Steps(m, t, n)
  {
  }

  /** Down one block: into rung `k - 1`, or into the header. */
  lemma Inward(m: seq<W.Func>, func: nat, locals: seq<U64>, codes: seq<seq<W.Instr>>, cur: nat, last: W.Label, k: nat, below: seq<W.Activation>)
    requires k < |codes|
    ensures
      var inner := if k == 0 then Header(|codes|, cur) else Rung(codes, cur, k - 1);
      W.Step(m, [At(func, locals, Rung(codes, cur, k), Labels(codes, last, k))] + below) ==
        W.Next([At(func, locals, inner, [CaseLabel(codes[k])] + Labels(codes, last, k))] + below)
  {
    var inner := if k == 0 then Header(|codes|, cur) else Rung(codes, cur, k - 1);
    EnterBlock(m, func, locals, inner, codes[k], Labels(codes, last, k), below);
  }

  lemma LabelsOutward(codes: seq<seq<W.Instr>>, last: W.Label, k: nat)
    requires 0 < k < |codes|
    ensures Labels(codes, last, k - 1) == [CaseLabel(codes[k])] + Labels(codes, last, k)
  {
  }

  lemma NoSteps(m: seq<W.Func>, s: seq<W.Activation>)
    ensures W.Steps(m, s, 0) == W.Next(s)
  {
  }

  /** Down the nested blocks to the header. */
  lemma {:induction false} Descend(m: seq<W.Func>, func: nat, locals: seq<U64>, codes: seq<seq<W.Instr>>, cur: nat, last: W.Label, k: nat, below: seq<W.Activation>)
    requires k < |codes|
    ensures W.Steps(m, [At(func, locals, Rung(codes, cur, k), Labels(codes, last, k))] + below, k + 1) ==
      W.Next([At(func, locals, Header(|codes|, cur), [CaseLabel(codes[0])] + Labels(codes, last, 0))] + below)
    decreases k
  {
    hide W.Step;
    hide W.Steps;
    hide Rung;
    hide Labels;
    hide Header;
    var s := [At(func, locals, Rung(codes, cur, k), Labels(codes, last, k))] + below;
    Inward(m, func, locals, codes, cur, last, k, below);
    if k == 0 {
      var t := [At(func, locals, Header(|codes|, cur), [CaseLabel(codes[0])] + Labels(codes, last, 0))] + below;
      OneStep(m, s, t, 0);
      NoSteps(m, t);
    } else {
      LabelsOutward(codes, last, k);
      OneStep(m, s, [At(func, locals, Rung(codes, cur, k - 1), Labels(codes, last, k - 1))] + below, k);
      Descend(m, func, locals, codes, cur, last, k - 1, below);
    }
  }

  /** The block a cursor value names: an unknown one names the first. */
  ghost function Named(n: nat, x: U64): (j: nat)
    requires n > 0
    ensures j < n
  {
    if x < n then x else 0
  }

  /** `br_table` over the first `n` labels. */
  lemma TableStep(m: seq<W.Func>, b: W.Activation, below: seq<W.Activation>, n: nat, j: nat, x: U64)
    requires n > 0 && b.code == [W.BrTable(UpTo(n), 0)] && b.ops == [x] && j == Named(n, x)
    requires j < |b.labels| && b.labels[j] == CaseLabel(b.labels[j].rest)
    ensures W.Step(m, [b] + below) == W.Next([b.(ops := [], code := b.labels[j].rest, labels := b.labels[j + 1..])] + below)
  {
    assert b.ops[..0] == [] && ([b] + below)[1..] == below;
  }

  /** The header jumps to the label whose number is in the cursor. */
  lemma HeaderJump(m: seq<W.Func>, func: nat, locals: seq<U64>, n: nat, cur: nat, labels: seq<W.Label>, rest: seq<W.Instr>, outer: seq<W.Label>, below: seq<W.Activation>)
    requires n > 0 && cur < |locals|
    requires
      var j := Named(n, locals[cur]);
      j < |labels| && labels[j] == CaseLabel(rest) && labels[j + 1..] == outer
    ensures W.Steps(m, [At(func, locals, Header(n, cur), labels)] + below, 2) == W.Next([At(func, locals, rest, outer)] + below)
  {
    var table := [W.BrTable(UpTo(n), 0)];
    var a := At(func, locals, Header(n, cur), labels);
    assert Header(n, cur) == [W.LocalGet(cur)] + table;
    assert [] + [locals[cur]] == [locals[cur]];
    W.PlainMachineStep(m, a, below, W.LocalGet(cur), table);
    var b := a.(ops := [locals[cur]], code := table);
    OneStep(m, [a] + below, [b] + below, 1);
    TableStep(m, b, below, n, Named(n, locals[cur]), locals[cur]);
    OneStep(m, [b] + below, [At(func, locals, rest, outer)] + below, 0);
  }

  lemma TableJump(m: seq<W.Func>, func: nat, locals: seq<U64>, codes: seq<seq<W.Instr>>, cur: nat, last: W.Label, below: seq<W.Activation>)
    requires codes != [] && cur < |locals|
    ensures
      var j := Named(|codes|, locals[cur]);
      W.Steps(m, [At(func, locals, Header(|codes|, cur), [CaseLabel(codes[0])] + Labels(codes, last, 0))] + below, 2) ==
        W.Next([At(func, locals, codes[j], Labels(codes, last, j))] + below)
  {
    var j := Named(|codes|, locals[cur]);
    LabelsAbove(codes, last, 0, j);
    DropFirst(CaseLabel(codes[0]), Labels(codes, last, 0), j);
    HeaderJump(m, func, locals, |codes|, cur, [CaseLabel(codes[0])] + Labels(codes, last, 0), codes[j], Labels(codes, last, j), below);
  }

  /** From the inside of the loop the machine comes to the block in the cursor. */
  lemma Dispatch(m: seq<W.Func>, func: nat, locals: seq<U64>, codes: seq<seq<W.Instr>>, cur: nat, last: W.Label, below: seq<W.Activation>)
    requires codes != [] && cur < |locals|
    ensures
      var j := Named(|codes|, locals[cur]);
      W.Steps(m, [At(func, locals, LoopBody(codes, cur), [last])] + below, |codes| + 3) ==
        W.Next([At(func, locals, codes[j], Labels(codes, last, j))] + below)
  {
    var n := |codes|;
    var rung := Rung(codes, cur, n - 1);
    assert LoopBody(codes, cur) == [W.Block(rung)] + [W.Br(0)];
    EnterBlock(m, func, locals, rung, [W.Br(0)], [last], below);
    var s0 := [At(func, locals, LoopBody(codes, cur), [last])] + below;
    var s1 := [At(func, locals, rung, Labels(codes, last, n - 1))] + below;
    OneStep(m, s0, s1, n + 2);
    Descend(m, func, locals, codes, cur, last, n - 1, below);
    var s2 := [At(func, locals, Header(n, cur), [CaseLabel(codes[0])] + Labels(codes, last, 0))] + below;
    W.IterateCompose(W.Machine(m), s1, n, s2, 2);
    TableJump(m, func, locals, codes, cur, last, below);
  }

  /** A branch to the outermost label, a loop. */
  lemma LoopStep(m: seq<W.Func>, func: nat, locals: seq<U64>, labels: seq<W.Label>, d: nat, rest: seq<W.Instr>, below: seq<W.Activation>)
    requires |labels| == d + 1 && labels[d].isLoop && labels[d].height == 0
    ensures W.Step(m, [At(func, locals, [W.Br(d)] + rest, labels)] + below) == W.Next([At(func, locals, labels[d].body, [labels[d]])] + below)
  {
    assert labels[d..] == [labels[d]];
    var a := At(func, locals, [W.Br(d)] + rest, labels);
    assert a.ops[..0] == [] && ([a] + below)[1..] == below;
  }

  /** Branching to the depth emitted in case `k`, back or forward, runs exactly
      the block the cursor names, with the locals as they are. */
  lemma BranchRuns(m: seq<W.Func>, func: nat, locals: seq<U64>, codes: seq<seq<W.Instr>>, cur: nat, k: nat, rest: seq<W.Instr>, below: seq<W.Activation>)
    requires k < |codes| && cur < |locals|
    ensures
      var j, last := Named(|codes|, locals[cur]), LoopLabel(codes, cur);
      W.Steps(m, [At(func, locals, [W.Br(|codes| - k)] + rest, Labels(codes, last, k))] + below, |codes| + 4) ==
        W.Next([At(func, locals, codes[j], Labels(codes, last, j))] + below)
  {
    var last := LoopLabel(codes, cur);
    LastLabel(codes, last, k);
    LoopStep(m, func, locals, Labels(codes, last, k), |codes| - k, rest, below);
    OneStep(m, [At(func, locals, [W.Br(|codes| - k)] + rest, Labels(codes, last, k))] + below,
            [At(func, locals, LoopBody(codes, cur), [last])] + below, |codes| + 3);
    Dispatch(m, func, locals, codes, cur, last, below);
  }

  lemma EnterLoop(m: seq<W.Func>, func: nat, locals: seq<U64>, body: seq<W.Instr>, rest: seq<W.Instr>, below: seq<W.Activation>)
    ensures W.Step(m, [At(func, locals, [W.Loop(body)] + rest, [])] + below) ==
      W.Next([At(func, locals, body, [W.Label(true, body, rest, 0)])] + below)
  {
    assert ([W.Loop(body)] + rest)[1..] == rest;
    assert ([At(func, locals, [W.Loop(body)] + rest, [])] + below)[1..] == below;
    assert [W.Label(true, body, rest, 0)] + [] == [W.Label(true, body, rest, 0)];
  }

  /** Entering the ladder runs the block the prologue put in the cursor. */
  lemma LadderRuns(m: seq<W.Func>, func: nat, locals: seq<U64>, codes: seq<seq<W.Instr>>, cur: nat, below: seq<W.Activation>)
    requires codes != [] && cur < |locals|
    ensures
      var j, last := Named(|codes|, locals[cur]), LoopLabel(codes, cur);
      W.Steps(m, [At(func, locals, Ladder(codes, cur), [])] + below, |codes| + 4) ==
        W.Next([At(func, locals, codes[j], Labels(codes, last, j))] + below)
  {
    var body := LoopBody(codes, cur);
    assert Ladder(codes, cur) == [W.Loop(body)] + [W.Unreachable];
    EnterLoop(m, func, locals, body, [W.Unreachable], below);
    OneStep(m, [At(func, locals, Ladder(codes, cur), [])] + below, [At(func, locals, body, [LoopLabel(codes, cur)])] + below, |codes| + 3);
    Dispatch(m, func, locals, codes, cur, LoopLabel(codes, cur), below);
  }
}
