/** The part of WebAssembly the lowering uses, as structured instructions, and
    the execution rules of sections 4.4.5 to 4.4.7 of the WebAssembly Core
    Specification for them. Function operands are names: which index a name is
    patched to is not part of this machine. */
module Wasm {
  import opened Rings
  import opened Ir
  import opened Words

  datatype Instr =
    | I64Const(v: int)
    | I32Const(v: int)
    | LocalGet(i: nat)
    | LocalSet(i: nat)
    | I64Arith(arith: ArithKind)
    | I64And
    | I64Or
    | I64Rel(rel: CmpKind)
    | I64Eqz
    | I32Eqz
    | I64ExtendI32U
    | I32WrapI64
    | Select
    | Drop
    | Block(body: seq<Instr>)
    | Loop(body: seq<Instr>)
    | If(body: seq<Instr>)
    | Br(depth: nat)
    | BrTable(targets: seq<nat>, fallback: nat)
    | Return
    | CallWord(name: nat)
    | CallTrap
    | Unreachable

  const TWO32: nat := 0x1_0000_0000

  /** A function: its parameters come first among the locals. */
  datatype Func = Func(name: nat, argc: nat, results: nat, extraLocals: nat, body: seq<Instr>)

  /** What runs after a block ends, and what a branch to a loop repeats. */
  datatype Label = Label(isLoop: bool, body: seq<Instr>, rest: seq<Instr>, height: nat)

  datatype Activation = Activation(func: nat, locals: seq<U64>, ops: seq<U64>, code: seq<Instr>, labels: seq<Label>)

  datatype Outcome = Next(stack: seq<Activation>) | Trapped(code: U64, start: U64, len: U64) | Done(results: seq<U64>) | Wrong

  function FindFunc(m: seq<Func>, name: nat): (k: Option<nat>)
    ensures k.Some? ==> k.value < |m| && m[k.value].name == name
  {
    if m == [] then None
    else if m[0].name == name then Some(0)
    else match FindFunc(m[1..], name) case Some(k) => Some(k + 1) case None => None
  }

  /** Instructions without blocks, branches or calls: operands and locals. */
  predicate IsPlain(i: Instr) {
    !i.Block? && !i.Loop? && !i.If? && !i.Br? && !i.BrTable? && !i.Return? && !i.CallWord? && !i.CallTrap? && !i.Unreachable?
  }

  datatype Plain = Plain(ops: seq<U64>, locals: seq<U64>) | Bad

  /** A constant as an unsigned word of the type's width. */
  function Low(v: int, size: nat): U64
    requires 0 < size <= TWO64
  {
    if 0 <= v < size then v else v % size
  }

  function PlainStep(i: Instr, ops: seq<U64>, locals: seq<U64>): Plain
    requires IsPlain(i)
  {
    var n := |ops|;
    match i
    case I64Const(v) => Plain(ops + [Low(v, TWO64)], locals)
    case I32Const(v) => Plain(ops + [Low(v, TWO32)], locals)
    case LocalGet(k) => if k < |locals| then Plain(ops + [locals[k]], locals) else Bad
    case LocalSet(k) => if k < |locals| && n >= 1 then Plain(ops[..n - 1], locals[k := ops[n - 1]]) else Bad
    case I64Arith(a) => if n >= 2 then Plain(ops[..n - 2] + [ArithWord(a, ops[n - 2], ops[n - 1])], locals) else Bad
    case I64And => if n >= 2 then Plain(ops[..n - 2] + [AndWord(ops[n - 2], ops[n - 1])], locals) else Bad
    case I64Or => if n >= 2 then Plain(ops[..n - 2] + [OrWord(ops[n - 2], ops[n - 1])], locals) else Bad
    case I64Rel(k) => if n >= 2 then Plain(ops[..n - 2] + [Flag(Compare(k, ops[n - 2], ops[n - 1]))], locals) else Bad
    case I64Eqz => if n >= 1 then Plain(ops[..n - 1] + [Flag(ops[n - 1] == 0)], locals) else Bad
    case I32Eqz => if n >= 1 then Plain(ops[..n - 1] + [Flag(ops[n - 1] == 0)], locals) else Bad
    case I64ExtendI32U => if n >= 1 then Plain(ops, locals) else Bad
    case I32WrapI64 => if n >= 1 then Plain(ops[..n - 1] + [Low(ops[n - 1], TWO32)], locals) else Bad
    case Select => if n >= 3 then Plain(ops[..n - 3] + [if ops[n - 1] != 0 then ops[n - 3] else ops[n - 2]], locals) else Bad
    case Drop => if n >= 1 then Plain(ops[..n - 1], locals) else Bad
  }

  /** A branch to the label `d` levels up. */
  function Branch(a: Activation, d: nat): (r: Option<Activation>) {
    if d >= |a.labels| || |a.ops| < a.labels[d].height then None
    else
      var l := a.labels[d];
      var ops := a.ops[..l.height];
      if l.isLoop then Some(a.(ops := ops, code := l.body, labels := a.labels[d..]))
      else Some(a.(ops := ops, code := l.rest, labels := a.labels[d + 1..]))
  }

  /** The results go to the caller's operands. */
  function GoBack(m: seq<Func>, stack: seq<Activation>): Outcome
    requires stack != []
  {
    var a := stack[0];
    if a.func >= |m| || |a.ops| < m[a.func].results then Wrong
    else
      var outs := a.ops[|a.ops| - m[a.func].results..];
      if |stack| == 1 then Done(outs)
      else Next([stack[1].(ops := stack[1].ops + outs)] + stack[2..])
  }

  function Zeros(n: nat): (z: seq<U64>)
    ensures |z| == n
  {
    seq(n, _ => 0)
  }

  /** A new activation: the arguments, then zeros. */
  function Activate(m: seq<Func>, k: nat, args: seq<U64>): Activation
    requires k < |m|
  {
    Activation(k, args + Zeros(m[k].extraLocals), [], m[k].body, [])
  }

  function CallStep(m: seq<Func>, stack: seq<Activation>, name: nat): Outcome
    requires stack != [] && stack[0].code != []
  {
    var a := stack[0];
    match FindFunc(m, name)
    case None => Wrong
    case Some(k) =>
      if |a.ops| < m[k].argc then Wrong
      else
        var keep := |a.ops| - m[k].argc;
        Next([Activate(m, k, a.ops[keep..]), a.(ops := a.ops[..keep], code := a.code[1..])] + stack[1..])
  }

  /** A control instruction at the head of the code. */
  function ControlStep(m: seq<Func>, stack: seq<Activation>): Outcome
    requires stack != [] && stack[0].code != [] && !IsPlain(stack[0].code[0])
  {
    var a := stack[0];
    var n, rest := |a.ops|, a.code[1..];
    match a.code[0]
    case Block(body) => Next([a.(code := body, labels := [Label(false, [], rest, n)] + a.labels)] + stack[1..])
    case Loop(body) => Next([a.(code := body, labels := [Label(true, body, rest, n)] + a.labels)] + stack[1..])
    case If(body) =>
      if n == 0 then Wrong
      else if a.ops[n - 1] == 0 then Next([a.(ops := a.ops[..n - 1], code := rest)] + stack[1..])
      else Next([a.(ops := a.ops[..n - 1], code := body, labels := [Label(false, [], rest, n - 1)] + a.labels)] + stack[1..])
    case Br(d) => (match Branch(a, d) case None => Wrong case Some(b) => Next([b] + stack[1..]))
    case BrTable(targets, fallback) =>
      if n == 0 then Wrong
      else
        var d := if a.ops[n - 1] < |targets| then targets[a.ops[n - 1]] else fallback;
        (match Branch(a.(ops := a.ops[..n - 1]), d) case None => Wrong case Some(b) => Next([b] + stack[1..]))
    case Return => GoBack(m, stack)
    case CallWord(name) => CallStep(m, stack, name)
    case CallTrap => if n >= 3 then Trapped(a.ops[n - 3], a.ops[n - 2], a.ops[n - 1]) else Wrong
    case Unreachable => Wrong
  }

  /** One step of the running activation `stack[0]`. */
  function Step(m: seq<Func>, stack: seq<Activation>): Outcome {
    if stack == [] then Wrong
    else
      var a := stack[0];
      if a.code == [] then
        if a.labels == [] then GoBack(m, stack)
        else Next([a.(code := a.labels[0].rest, labels := a.labels[1..])] + stack[1..])
      else if IsPlain(a.code[0]) then
        match PlainStep(a.code[0], a.ops, a.locals)
        case Plain(ops, locals) => Next([a.(ops := ops, locals := locals, code := a.code[1..])] + stack[1..])
        case Bad => Wrong
      else ControlStep(m, stack)
  }

  /** `n` turns of any stepping function, or fewer if it ends before. */
  function Iterate(step: seq<Activation> -> Outcome, stack: seq<Activation>, n: nat): Outcome
    decreases n
  {
    if n == 0 then Next(stack)
    else match step(stack)
      case Next(after) => Iterate(step, after, n - 1)
      case other => other
  }

  lemma {:induction false} IterateCompose(step: seq<Activation> -> Outcome, stack: seq<Activation>, n: nat, middle: seq<Activation>, k: nat)
    requires Iterate(step, stack, n) == Next(middle)
    ensures Iterate(step, stack, n + k) == Iterate(step, middle, k)
    decreases n
  {
    if n > 0 {
      IterateCompose(step, step(stack).stack, n - 1, middle, k);
    }
  }

  function Machine(m: seq<Func>): seq<Activation> -> Outcome {
    stack => Step(m, stack)
  }

  /** `n` steps of the machine. */
  function Steps(m: seq<Func>, stack: seq<Activation>, n: nat): Outcome {
    Iterate(Machine(m), stack, n)
  }

  // ---- straight-line code ----

  /** One plain instruction; anything else is bad. */
  function One(i: Instr, ops: seq<U64>, locals: seq<U64>): Plain {
    if IsPlain(i) then PlainStep(i, ops, locals) else Bad
  }

  /** A run of plain instructions. */
  function Exec(code: seq<Instr>, ops: seq<U64>, locals: seq<U64>): Plain
    decreases |code|
  {
    if code == [] then Plain(ops, locals)
    else match One(code[0], ops, locals)
      case Plain(o, l) => Exec(code[1..], o, l)
      case Bad => Bad
  }

  lemma PlainMachineStep(m: seq<Func>, a: Activation, below: seq<Activation>, i: Instr, rest: seq<Instr>)
    requires a.code == [i] + rest && One(i, a.ops, a.locals).Plain?
    ensures
      var p := One(i, a.ops, a.locals);
      Step(m, [a] + below) == Next([a.(ops := p.ops, locals := p.locals, code := rest)] + below)
  {
    assert a.code[0] == i && a.code[1..] == rest;
    assert ([a] + below)[1..] == below;
  }

  /** The machine runs straight-line code in one step for each instruction. */
  lemma {:induction false} ExecSteps(m: seq<Func>, a: Activation, below: seq<Activation>, code: seq<Instr>, rest: seq<Instr>)
    requires a.code == code + rest && Exec(code, a.ops, a.locals).Plain?
    ensures
      var e := Exec(code, a.ops, a.locals);
      Steps(m, [a] + below, |code|) == Next([a.(ops := e.ops, locals := e.locals, code := rest)] + below)
    decreases |code|
  {
    if code == [] {
      assert a.code == rest;
      assert a.(ops := a.ops, locals := a.locals, code := rest) == a;
    } else {
      var p := One(code[0], a.ops, a.locals);
      assert a.code == [code[0]] + (code[1..] + rest);
      PlainMachineStep(m, a, below, code[0], code[1..] + rest);
      var b := a.(ops := p.ops, locals := p.locals, code := code[1..] + rest);
      ExecSteps(m, b, below, code[1..], rest);
      var e := Exec(code, a.ops, a.locals);
      assert e == Exec(code[1..], b.ops, b.locals);
      assert b.(ops := e.ops, locals := e.locals, code := rest) == a.(ops := e.ops, locals := e.locals, code := rest);
    }
  }
}
