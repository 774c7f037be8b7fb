/** What the compiled code of each kind of operation does to the machine, from
    the related activation on. */
module WasmSteps {
  import opened Rings
  import opened Ir
  import opened Words
  import W = Wasm
  import opened IrMachine
  import opened VerifierSoundness
  import opened FrameTheorem
  import opened WasmEmit
  import opened WasmOps
  import opened WasmHeights
  import opened WasmLadder
  import opened WasmRelation

  /** Straight-line code that leaves no operands. */
  lemma Runs(fs: seq<W.Func>, func: nat, wl: seq<U64>, code: seq<W.Instr>, rest: seq<W.Instr>, labels: seq<W.Label>, below: seq<W.Activation>, after: seq<U64>)
    requires W.Exec(code, [], wl) == W.Plain([], after)
    ensures W.Steps(fs, [At(func, wl, code + rest, labels)] + below, |code|) == W.Next([At(func, after, rest, labels)] + below)
  {
    W.ExecSteps(fs, At(func, wl, code + rest, labels), below, code, rest);
  }

  lemma Onward(fs: seq<W.Func>, s: seq<W.Activation>, n: nat, t: seq<W.Activation>, k: nat, r: W.Outcome)
    requires W.Steps(fs, s, n) == W.Next(t) && W.Steps(fs, t, k) == r
    ensures W.Steps(fs, s, n + k) == r
  {
    W.IterateCompose(W.Machine(fs), s, n, t, k);
  }

  /** One step, and that is all. */
  lemma Once(fs: seq<W.Func>, s: seq<W.Activation>, r: W.Outcome)
    requires W.Step(fs, s) == r
    ensures W.Steps(fs, s, 1) == r
  {
    hide W.Step;
    if r.Next? {
      OneStep(fs, s, r.stack, 0);
    } else {
      assert W.Iterate(W.Machine(fs), s, 1) == W.Machine(fs)(s);
    }
  }

  // ---- trap_if_false ----

  lemma Tested(i: nat, wl: seq<U64>)
    requires i < |wl|
    ensures W.Exec([W.LocalGet(i)] + [W.I64Eqz], [], wl) == W.Plain([Flag(wl[i] == 0)], wl)
  {
    ExecGet(i, [W.I64Eqz], [], wl);
    assert [] + [wl[i]] == [wl[i]];
    Last(W.I64Eqz, [wl[i]], wl);
  }

  lemma ToTheIf(fs: seq<W.Func>, func: nat, i: nat, wl: seq<U64>, body: seq<W.Instr>, rest: seq<W.Instr>, labels: seq<W.Label>, below: seq<W.Activation>)
    requires i < |wl|
    ensures W.Steps(fs, [At(func, wl, [W.LocalGet(i), W.I64Eqz, W.If(body)] + rest, labels)] + below, 2) ==
      W.Next([W.Activation(func, wl, [Flag(wl[i] == 0)], [W.If(body)] + rest, labels)] + below)
  {
    var code := [W.LocalGet(i)] + [W.I64Eqz];
    var a := At(func, wl, [W.LocalGet(i), W.I64Eqz, W.If(body)] + rest, labels);
    Tested(i, wl);
    assert a.code == code + ([W.If(body)] + rest);
    W.ExecSteps(fs, a, below, code, [W.If(body)] + rest);
  }

  lemma IfStep(fs: seq<W.Func>, func: nat, wl: seq<U64>, x: U64, body: seq<W.Instr>, rest: seq<W.Instr>, labels: seq<W.Label>, below: seq<W.Activation>)
    ensures W.Step(fs, [W.Activation(func, wl, [x], [W.If(body)] + rest, labels)] + below) ==
      W.Next([if x == 0 then At(func, wl, rest, labels) else At(func, wl, body, [W.Label(false, [], rest, 0)] + labels)] + below)
  {
    var a := W.Activation(func, wl, [x], [W.If(body)] + rest, labels);
    assert a.code[1..] == rest && ([a] + below)[1..] == below && a.ops[..0] == [];
  }

  lemma GuardPasses(fs: seq<W.Func>, func: nat, i: nat, wl: seq<U64>, body: seq<W.Instr>, rest: seq<W.Instr>, labels: seq<W.Label>, below: seq<W.Activation>)
    requires i < |wl| && wl[i] != 0
    ensures W.Steps(fs, [At(func, wl, [W.LocalGet(i), W.I64Eqz, W.If(body)] + rest, labels)] + below, 3) ==
      W.Next([At(func, wl, rest, labels)] + below)
  {
    hide W.Step;
    ToTheIf(fs, func, i, wl, body, rest, labels, below);
    var middle := [W.Activation(func, wl, [0], [W.If(body)] + rest, labels)] + below;
    IfStep(fs, func, wl, 0, body, rest, labels, below);
    Once(fs, middle, W.Next([At(func, wl, rest, labels)] + below));
    Onward(fs, [At(func, wl, [W.LocalGet(i), W.I64Eqz, W.If(body)] + rest, labels)] + below, 2, middle, 1, W.Next([At(func, wl, rest, labels)] + below));
  }

  /** The outcome of a guard: its code, where its source begins and how long it
      is. */
  ghost function Report(code: nat, at: Span): W.Outcome {
    if code < TRAP_CODES && at.start <= at.end < W.TWO32 then W.Trapped(code, at.start, at.end - at.start) else W.Wrong
  }

  lemma PushReport(code: U64, start: nat, len: nat, wl: seq<U64>)
    requires start < W.TWO32 && len < W.TWO32
    ensures W.Exec([W.I64Const(code)] + ([W.I32Const(start)] + [W.I32Const(len)]), [], wl) == W.Plain([code, start, len], wl)
  {
    Last(W.I32Const(len), [code, start], wl);
    Turn(W.I32Const(start), [W.I32Const(len)], [code], wl);
    Turn(W.I64Const(code), [W.I32Const(start)] + [W.I32Const(len)], [], wl);
    assert [] + [code] == [code] && [code] + [start] == [code, start] && [code, start] + [len] == [code, start, len];
  }

  /** The trap import gets the code and the span. */
  lemma Reports(fs: seq<W.Func>, a: W.Activation, below: seq<W.Activation>, code: nat, at: Span)
    requires a.ops == [] && a.code == TrapCode(code, at)
    requires code < TRAP_CODES && at.start <= at.end < W.TWO32
    ensures W.Steps(fs, [a] + below, 4) == Report(code, at)
  {
    hide W.Step;
    var len := at.end - at.start;
    var push := [W.I64Const(code)] + ([W.I32Const(at.start)] + [W.I32Const(len)]);
    var tail := [W.CallTrap, W.Unreachable];
    assert a.code == push + tail;
    PushReport(code, at.start, len, a.locals);
    W.ExecSteps(fs, a, below, push, tail);
    var b := a.(ops := [code, at.start, len], code := tail);
    TrapStep(fs, b, below, code, at.start, len);
    Once(fs, [b] + below, W.Trapped(code, at.start, len));
    Onward(fs, [a] + below, 3, [b] + below, 1, W.Trapped(code, at.start, len));
  }

  lemma TrapStep(fs: seq<W.Func>, b: W.Activation, below: seq<W.Activation>, code: U64, start: U64, len: U64)
    requires b.ops == [code, start, len] && b.code == [W.CallTrap, W.Unreachable]
    ensures W.Step(fs, [b] + below) == W.Trapped(code, start, len)
  {
  }

  lemma GuardTraps(fs: seq<W.Func>, func: nat, i: nat, wl: seq<U64>, code: nat, at: Span, rest: seq<W.Instr>, labels: seq<W.Label>, below: seq<W.Activation>)
    requires i < |wl| && wl[i] == 0
    requires code < TRAP_CODES && at.start <= at.end < W.TWO32
    ensures W.Steps(fs, [At(func, wl, [W.LocalGet(i), W.I64Eqz, W.If(TrapCode(code, at))] + rest, labels)] + below, 7) == Report(code, at)
  {
    hide W.Step;
    var body, r := TrapCode(code, at), Report(code, at);
    var s := [At(func, wl, [W.LocalGet(i), W.I64Eqz, W.If(body)] + rest, labels)] + below;
    ToTheIf(fs, func, i, wl, body, rest, labels, below);
    var middle := [W.Activation(func, wl, [1], [W.If(body)] + rest, labels)] + below;
    IfStep(fs, func, wl, 1, body, rest, labels, below);
    var inside := At(func, wl, body, [W.Label(false, [], rest, 0)] + labels);
    Once(fs, middle, W.Next([inside] + below));
    Reports(fs, inside, below, code, at);
    Onward(fs, middle, 1, [inside] + below, 4, r);
    Onward(fs, s, 2, middle, 5, r);
  }

  // ---- branches ----

  lemma SetCursor(idx: nat, cur: nat, wl: seq<U64>)
    requires cur < |wl| && idx < BLOCKS_MAX
    ensures W.Exec([W.I32Const(idx)] + [W.LocalSet(cur)], [], wl) == W.Plain([], wl[cur := idx])
  {
    ExecSet([idx], idx, cur, wl);
    assert W.One(W.I32Const(idx), [], wl) == W.Plain([idx], wl);
    Chain(W.I32Const(idx), [W.LocalSet(cur)], [], wl, W.Plain([idx], wl), W.Plain([], wl[cur := idx]));
  }

  /** The number the cursor gets from a condition: only its low word counts. */
  ghost function Chosen(x: U64, t: nat, e: nat): nat {
    if W.Low(x, W.TWO32) != 0 then t else e
  }

  lemma StoreLow(i: nat, cur: nat, rest: seq<W.Instr>, wl: seq<U64>)
    requires i < |wl| && cur < |wl|
    ensures W.Exec([W.LocalGet(i)] + ([W.I32WrapI64] + ([W.LocalSet(cur)] + rest)), [], wl) ==
      W.Exec(rest, [], wl[cur := W.Low(wl[i], W.TWO32)])
  {
    hide W.Exec;
    var x := wl[i];
    var y := W.Low(x, W.TWO32);
    ExecGet(i, [W.I32WrapI64] + ([W.LocalSet(cur)] + rest), [], wl);
    assert [] + [x] == [x];
    assert [x][..0] + [y] == [y] && [y][..0] == [];
    Turn(W.I32WrapI64, [W.LocalSet(cur)] + rest, [x], wl);
    Turn(W.LocalSet(cur), rest, [y], wl);
  }

  lemma PushConst(v: nat, rest: seq<W.Instr>, ops: seq<U64>, wl: seq<U64>)
    requires v < BLOCKS_MAX
    ensures W.Exec([W.I32Const(v)] + rest, ops, wl) == W.Exec(rest, ops + [v], wl)
  {
    Turn(W.I32Const(v), rest, ops, wl);
  }

  lemma SelectThree(x: U64, y: U64, c: U64, cur: nat, wl: seq<U64>)
    requires cur < |wl|
    ensures W.Exec([W.Select] + [W.LocalSet(cur)], [x, y, c], wl) == W.Plain([], wl[cur := if c != 0 then x else y])
  {
    var pick := if c != 0 then x else y;
    assert [x, y, c][..0] + [pick] == [pick];
    ExecSet([pick], pick, cur, wl);
    Turn(W.Select, [W.LocalSet(cur)], [x, y, c], wl);
  }

  lemma SelectCursor(t: nat, e: nat, cur: nat, wl: seq<U64>)
    requires cur < |wl| && t < BLOCKS_MAX && e < BLOCKS_MAX
    ensures W.Exec([W.I32Const(t)] + ([W.I32Const(e)] + ([W.LocalGet(cur)] + ([W.Select] + [W.LocalSet(cur)]))), [], wl) ==
      W.Plain([], wl[cur := if wl[cur] != 0 then t else e])
  {
    hide W.Exec;
    var pick := [W.Select] + [W.LocalSet(cur)];
    assert [] + [t] == [t] && [t] + [e] == [t, e] && [t, e] + [wl[cur]] == [t, e, wl[cur]];
    PushConst(t, [W.I32Const(e)] + ([W.LocalGet(cur)] + pick), [], wl);
    PushConst(e, [W.LocalGet(cur)] + pick, [t], wl);
    ExecGet(cur, pick, [t, e], wl);
    SelectThree(t, e, wl[cur], cur, wl);
  }

  /** The code of a conditional branch, up to the jump. */
  ghost function ChooseCode(i: nat, cur: nat, t: nat, e: nat): seq<W.Instr> {
    [W.LocalGet(i)] + ([W.I32WrapI64] + ([W.LocalSet(cur)] +
      ([W.I32Const(t)] + ([W.I32Const(e)] + ([W.LocalGet(cur)] + ([W.Select] + [W.LocalSet(cur)]))))))
  }

  lemma Chooses(i: nat, cur: nat, t: nat, e: nat, wl: seq<U64>)
    requires i < |wl| && cur < |wl| && t < BLOCKS_MAX && e < BLOCKS_MAX
    ensures W.Exec(ChooseCode(i, cur, t, e), [], wl) == W.Plain([], wl[cur := Chosen(wl[i], t, e)])
  {
    var low := wl[cur := W.Low(wl[i], W.TWO32)];
    StoreLow(i, cur, [W.I32Const(t)] + ([W.I32Const(e)] + ([W.LocalGet(cur)] + ([W.Select] + [W.LocalSet(cur)]))), wl);
    SelectCursor(t, e, cur, low);
    assert low[cur := Chosen(wl[i], t, e)] == wl[cur := Chosen(wl[i], t, e)];
  }

  // ---- loads of arguments and results ----

  ghost function Bits(vs: seq<Val>): (bits: seq<U64>)
    ensures |bits| == |vs| && forall i :: 0 <= i < |vs| ==> bits[i] == vs[i].bits
  {
    seq(|vs|, i requires 0 <= i < |vs| => vs[i].bits)
  }

  lemma {:induction false} Loads(from: nat, n: nat, ops: seq<U64>, wl: seq<U64>)
    requires from + n <= |wl|
    ensures W.Exec(Gets(from, n), ops, wl) == W.Plain(ops + wl[from..from + n], wl)
    decreases n
  {
    if n == 0 {
      assert ops + wl[from..from] == ops;
    } else {
      assert Gets(from, n) == [W.LocalGet(from)] + Gets(from + 1, n - 1);
      ExecGet(from, Gets(from + 1, n - 1), ops, wl);
      Loads(from + 1, n - 1, ops + [wl[from]], wl);
      assert (ops + [wl[from]]) + wl[from + 1..from + n] == ops + wl[from..from + n];
    }
  }

  lemma LoadsSeg(w: Word, locals: map<nat, U64>, seg: seq<Val>, wl: seq<U64>, n: nat)
    requires LocalsMatch(w, locals, seg, wl) && n <= |seg|
    ensures W.Exec(Gets(|seg| - n, n), [], wl) == W.Plain(Bits(seg[|seg| - n..]), wl)
  {
    Loads(|seg| - n, n, [], wl);
    assert [] + wl[|seg| - n..|seg|] == Bits(seg[|seg| - n..]);
  }

  lemma LoadSteps(fs: seq<W.Func>, w: Word, func: nat, locals: map<nat, U64>, seg: seq<Val>, wl: seq<U64>, n: nat, rest: seq<W.Instr>, labels: seq<W.Label>, below: seq<W.Activation>)
    requires LocalsMatch(w, locals, seg, wl) && n <= |seg|
    ensures W.Steps(fs, [At(func, wl, Gets(|seg| - n, n) + rest, labels)] + below, n) ==
      W.Next([W.Activation(func, wl, Bits(seg[|seg| - n..]), rest, labels)] + below)
  {
    LoadsSeg(w, locals, seg, wl, n);
    W.ExecSteps(fs, At(func, wl, Gets(|seg| - n, n) + rest, labels), below, Gets(|seg| - n, n), rest);
  }

  // ---- calls ----

  lemma CallMachineStep(fs: seq<W.Func>, func: nat, wl: seq<U64>, args: seq<U64>, name: nat, k: nat, rest: seq<W.Instr>, labels: seq<W.Label>, below: seq<W.Activation>)
    requires W.FindFunc(fs, name) == Some(k) && k < |fs| && fs[k].argc == |args|
    ensures W.Step(fs, [W.Activation(func, wl, args, [W.CallWord(name)] + rest, labels)] + below) ==
      W.Next([W.Activate(fs, k, args)] + ([At(func, wl, rest, labels)] + below))
  {
    var a := W.Activation(func, wl, args, [W.CallWord(name)] + rest, labels);
    assert a.code[1..] == rest && ([a] + below)[1..] == below && a.ops[0..] == args && a.ops[..0] == [];
    var b := W.Activate(fs, k, args);
    var c := At(func, wl, rest, labels);
    assert [b, c] + below == [b] + ([c] + below);
  }

  /** The locals of a new activation match the arguments and the zeroed IR
      locals. */
  lemma FreshLocals(w: Word, args: seq<Val>)
    requires |args| == Arity(w)
    ensures LocalsMatch(w, map[], args, Bits(args) + W.Zeros(ExtraLocals(w)))
  {
  }

  /** The code after the prologue. */
  ghost function AfterPrologue(w: Word): seq<W.Instr>
    requires WellTyped(w) && AllLowered(w)
  {
    EntryInWord(w);
    if |w.blocks| == 1 then CodesOf(w)[0] else Ladder(CodesOf(w), Cursor(w))
  }

  lemma PrologueRuns(fs: seq<W.Func>, w: Word, func: nat, wl: seq<U64>, k: nat, rest: seq<W.Instr>, below: seq<W.Activation>)
    requires k == BlockIndex(w, w.entry) < BLOCKS_MAX && Cursor(w) < |wl|
    ensures W.Steps(fs, [At(func, wl, Prologue(w) + rest, [])] + below, 2) == W.Next([At(func, wl[Cursor(w) := k], rest, [])] + below)
  {
    hide W.Steps;
    var pro := [W.I32Const(k)] + [W.LocalSet(Cursor(w))];
    assert Prologue(w) == pro;
    SetCursor(k, Cursor(w), wl);
    Runs(fs, func, wl, pro, rest, [], below, wl[Cursor(w) := k]);
  }

  /** From the end of the prologue to the code of block `k`. */
  lemma FindsEntry(fs: seq<W.Func>, w: Word, func: nat, wl: seq<U64>, k: nat, below: seq<W.Activation>) returns (n: nat)
    requires WellTyped(w) && AllLowered(w) && k < |w.blocks| && Cursor(w) < |wl| && wl[Cursor(w)] == k
    ensures W.Steps(fs, [At(func, wl, AfterPrologue(w), [])] + below, n) ==
      W.Next([At(func, wl, CodesOf(w)[k], LabelsOf(w, k))] + below)
  {
    hide W.Step;
    hide Ladder;
    if |w.blocks| == 1 {
      n := 0;
    } else {
      n := |w.blocks| + 4;
      LadderRuns(fs, func, wl, CodesOf(w), Cursor(w), below);
    }
  }

  /** From the start of a compiled word to the code of its entry block. */
  lemma Begins(fs: seq<W.Func>, w: Word, func: nat, wl: seq<U64>, below: seq<W.Activation>) returns (n: nat)
    requires WellTyped(w) && AllLowered(w) && |w.blocks| <= BLOCKS_MAX && |wl| == Arity(w) + ExtraLocals(w)
    ensures BlockIndex(w, w.entry) < |w.blocks|
    ensures
      var k := BlockIndex(w, w.entry);
      W.Steps(fs, [At(func, wl, BodyOf(w), [])] + below, n) ==
        W.Next([At(func, wl[Cursor(w) := k], CodesOf(w)[k], LabelsOf(w, k))] + below)
  {
    hide W.Steps;
    hide Prologue;
    hide LabelsOf;
    EntryInWord(w);
    var k := BlockIndex(w, w.entry);
    var wl' := wl[Cursor(w) := k];
    var rest := AfterPrologue(w);
    assert BodyOf(w) == Prologue(w) + rest;
    PrologueRuns(fs, w, func, wl, k, rest, below);
    n := FindsEntry(fs, w, func, wl', k, below);
    Onward(fs, [At(func, wl, BodyOf(w), [])] + below, 2, [At(func, wl', rest, [])] + below, n, W.Next([At(func, wl', CodesOf(w)[k], LabelsOf(w, k))] + below));
    n := 2 + n;
  }

  // ---- returns ----

  lemma ReturnMachineStep(fs: seq<W.Func>, func: nat, wl: seq<U64>, outs: seq<U64>, rest: seq<W.Instr>, labels: seq<W.Label>, below: seq<W.Activation>)
    requires func < |fs| && fs[func].results == |outs|
    ensures W.Step(fs, [W.Activation(func, wl, outs, [W.Return] + rest, labels)] + below) ==
      (if below == [] then W.Done(outs) else W.Next([below[0].(ops := below[0].ops + outs)] + below[1..]))
  {
    var a := W.Activation(func, wl, outs, [W.Return] + rest, labels);
    assert a.ops[0..] == outs;
    assert below != [] ==> ([a] + below)[1] == below[0] && ([a] + below)[2..] == below[1..];
  }

  /** The stores after a call of at most one result. */
  lemma StoresOne(fs: seq<W.Func>, func: nat, wl: seq<U64>, from: nat, outs: seq<U64>, rest: seq<W.Instr>, labels: seq<W.Label>, below: seq<W.Activation>)
    requires |outs| <= 1 && from < |wl|
    ensures W.Steps(fs, [W.Activation(func, wl, outs, Sets(from, |outs|) + rest, labels)] + below, |outs|) ==
      W.Next([At(func, if outs == [] then wl else wl[from := outs[0]], rest, labels)] + below)
  {
    var a := W.Activation(func, wl, outs, Sets(from, |outs|) + rest, labels);
    if outs == [] {
      assert Sets(from, 0) + rest == rest;
    } else {
      assert Sets(from, 1) == [W.LocalSet(from)];
      ExecSet(outs, outs[0], from, wl);
      W.ExecSteps(fs, a, below, [W.LocalSet(from)], rest);
    }
  }
}
