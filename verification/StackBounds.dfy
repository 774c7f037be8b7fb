/** The stack bound the compiler folds over a word, the data stack of the native
    code with its guarded pushes, and what the one says about the other. */
module StackBounds {
  import opened Rings
  import opened Ir
  import opened Words

  // ---- the bound ----

  const TWO16: nat := 0x1_0000
  const TWO31: nat := 0x8000_0000
  const TWO32: nat := 0x1_0000_0000

  /** `net` is a signed 16-bit number, the extra slots an unsigned 32-bit one. */
  datatype Bound = Bound(net: int, high: High)

  const ID: Bound := Bound(0, Slots(0))

  predicate IsI16(n: int) {
    -32768 <= n <= 32767
  }

  /** A sum of two signed 16-bit numbers wraps. */
  function WrapI16(n: int): (w: int)
    ensures IsI16(w)
  {
    if IsI16(n) then n else (n + 32768) % TWO16 - 32768
  }

  function MaxHigh(a: High, b: High): High {
    if a.Top? || b.Top? then Top else if a.extra < b.extra then b else a
  }

  /** `-net` of a negative 16-bit number, as an unsigned 32-bit one. */
  function Negated(net: int): nat
    requires -32768 <= net < 0
  {
    if net == -32768 then TWO32 - 32768 else -net
  }

  /** `net + high`, with 0 below and the unknown above. */
  function ShiftHigh(net: int, high: High): High
    requires IsI16(net)
  {
    if high.Top? then Top
    else if net < 0 then (if Negated(net) >= high.extra then Slots(0) else Slots(high.extra - Negated(net)))
    else if high.extra + net < TWO32 then Slots(high.extra + net)
    else Top
  }

  function Compose(a: Bound, b: Bound): (c: Bound)
    requires IsI16(a.net)
    ensures IsI16(c.net)
  {
    Bound(WrapI16(a.net + b.net), MaxHigh(a.high, ShiftHigh(a.net, b.high)))
  }

  function BranchMax(a: Bound, b: Bound): Bound {
    Bound(a.net, MaxHigh(a.high, b.high))
  }

  /** The reading of an unsigned 32-bit number as a signed one. */
  function AsI32(x: int): int {
    if x >= TWO31 then x - TWO32 else if x + TWO31 < 0 then x + TWO32 else x
  }

  /** What a branch added to the bound it started from. */
  function BoundDelta(prev: Bound, curr: Bound): Bound {
    Bound(WrapI16(curr.net - prev.net),
          match curr.high
          case Top => Top
          case Slots(h) =>
            var raw := AsI32(AsI32(h) - prev.net);
            if raw < 0 then Slots(0) else Slots(raw))
  }

  // ---- structured code ----

  /** `loop` is a `while` whose condition pushes true. */
  datatype Code =
    | Do(op: Op)
    | Seq(first: Code, second: Code)
    | If(yes: Code, no: Code)
    | While(cond: Code, body: Code)
    | Call(callee: Code, ins: nat, outs: nat)

  /** The operations of this model. */
  predicate IsNative(op: Op) {
    op.ConstI64? || op.ConstBool? || op.Dup? || op.Drop? || op.Swap? || op.Arith? || op.Cmp? || op.AndBool? || op.OrBool? ||
    op.NotBool? || op.LocalSet? || op.LocalGet? || op.PtrAddConst? || op.PtrAddIndex? || op.Bitcast? || op.TrapIfFalse?
  }

  /** The change in depth that the compiler counts for an operation. */
  function NetDelta(op: Op): int {
    match op
    case ConstI64(_) => 1
    case ConstBool(_) => 1
    case Dup(_) => 1
    case LocalGet(_, _) => 1
    case PtrAddIndex(_, _) => -1
    case Drop(_) => -1
    case Arith(_) => -1
    case Cmp(_, _) => -1
    case AndBool => -1
    case OrBool => -1
    case LocalSet(_, _) => -1
    case TrapIfFalse(_, _) => -1
    case _ => 0
  }

  function OpBound(op: Op): Bound {
    Bound(NetDelta(op), Slots(if NetDelta(op) > 0 then 1 else 0))
  }

  const POP: Bound := Bound(-1, Slots(0))

  /** The fold of the compiler: `acc` is the bound of what came before. Of a loop
      it takes the body; what the condition added is dropped. */
  function Fold(acc: Bound, code: Code): (b: Bound)
    requires IsI16(acc.net)
    ensures IsI16(b.net)
    decreases code
  {
    match code
    case Do(op) => Compose(acc, OpBound(op))
    case Seq(a, b) => Fold(Fold(acc, a), b)
    case If(yes, no) =>
      var before := Compose(acc, POP);
      Joined(before, Fold(before, yes), Fold(before, no))
    case While(cond, body) => Compose(acc, Bound(0, BoundDelta(acc, Fold(acc, body)).high))
    case Call(callee, ins, outs) =>
      Compose(acc, Bound(outs - ins, Fold(ID, callee).high))
  }

  function Joined(before: Bound, yes: Bound, no: Bound): (b: Bound)
    requires IsI16(before.net) && IsI16(yes.net) && IsI16(no.net)
    ensures IsI16(b.net)
  {
    Compose(before, BranchMax(BoundDelta(before, yes), BoundDelta(before, no)))
  }

  // ---- the native data stack ----

  /** Where the stack's memory begins and ends. */
  datatype Geometry = Geometry(base: nat, limit: nat)

  function Capacity(g: Geometry): nat {
    if g.limit < g.base then 0 else (g.limit - g.base) / 8
  }

  /** The stack pointer over `n` slots. */
  function Address(g: Geometry, n: nat): nat {
    g.base + 8 * n
  }

  /** `high` is the highest stack pointer recorded. */
  datatype Ds = Ds(stack: seq<U64>, locals: map<nat, U64>, high: nat)

  datatype Outcome = Went(ds: Ds) | Overflowed | Trapped(code: nat) | Short | Unfinished

  function Raise(high: nat, top: nat): nat {
    if top > high then top else high
  }

  /** A push that is checked against the limit if the guards are kept. */
  function Push(g: Geometry, d: Ds, v: U64, guard: bool): Outcome {
    if guard && Address(g, |d.stack|) + 8 > g.limit then Overflowed
    else Went(d.(stack := d.stack + [v], high := Raise(d.high, Address(g, |d.stack| + 1))))
  }

  /** A result put back where an operand was. */
  function PutBack(g: Geometry, d: Ds, n: nat, v: U64, record: bool): Outcome
    requires n <= |d.stack|
  {
    Went(d.(stack := d.stack[..n] + [v], high := if record then Raise(d.high, Address(g, n + 1)) else d.high))
  }

  function LocalWord(locals: map<nat, U64>, slot: nat): U64 {
    if slot in locals then locals[slot] else 0
  }

  function Needs(op: Op): nat {
    match op
    case ConstI64(_) => 0
    case ConstBool(_) => 0
    case LocalGet(_, _) => 0
    case Bitcast(_, _) => 0
    case Swap(_, _) => 2
    case Arith(_) => 2
    case Cmp(_, _) => 2
    case AndBool => 2
    case OrBool => 2
    case PtrAddIndex(_, _) => 2
    case _ => 1
  }

  /** The code of one operation. */
  function Perform(g: Geometry, op: Op, d: Ds, guard: bool): Outcome
    requires IsNative(op)
  {
    var n := |d.stack|;
    if n < Needs(op) then Short
    else
      match op
      case ConstI64(v) => Push(g, d, v, guard)
      case ConstBool(b) => Push(g, d, Flag(b), guard)
      case Dup(_) => Push(g, d, d.stack[n - 1], guard)
      case LocalGet(slot, _) => Push(g, d, LocalWord(d.locals, slot), guard)
      case Drop(_) => Went(d.(stack := d.stack[..n - 1]))
      case Swap(_, _) => Went(d.(stack := d.stack[..n - 2] + [d.stack[n - 1], d.stack[n - 2]]))
      case Arith(k) => PutBack(g, d, n - 2, ArithWord(k, d.stack[n - 2], d.stack[n - 1]), true)
      case Cmp(_, k) => PutBack(g, d, n - 2, Flag(Compare(k, d.stack[n - 2], d.stack[n - 1])), true)
      case AndBool => PutBack(g, d, n - 2, Flag(AndWord(d.stack[n - 2], d.stack[n - 1]) != 0), false)
      case OrBool => PutBack(g, d, n - 2, Flag(OrWord(d.stack[n - 2], d.stack[n - 1]) != 0), false)
      case NotBool => PutBack(g, d, n - 1, Flag(d.stack[n - 1] == 0), false)
      case LocalSet(slot, _) => Went(d.(stack := d.stack[..n - 1], locals := d.locals[slot := d.stack[n - 1]]))
      case PtrAddConst(_, offset) => Push(g, d.(stack := d.stack[..n - 1]), AddWord(d.stack[n - 1], offset), guard)
      case PtrAddIndex(_, scale) => Push(g, d.(stack := d.stack[..n - 2]), AddWord(d.stack[n - 2], MulWord(d.stack[n - 1], scale)), guard)
      case Bitcast(_, _) => Went(d)
      case TrapIfFalse(code, _) => if d.stack[n - 1] == 0 then Trapped(code) else Went(d.(stack := d.stack[..n - 1]))
  }

  /** The data stack without its top. */
  function Popped(d: Ds): Ds
    requires d.stack != []
  {
    d.(stack := d.stack[..|d.stack| - 1])
  }

  predicate TopIsTrue(d: Ds)
    requires d.stack != []
  {
    d.stack[|d.stack| - 1] != 0
  }

  /** A whole piece of code, for as long as no loop in it goes round more often
      than `rounds`. A branch pops its condition. */
  function Execute(g: Geometry, code: Code, d: Ds, guard: bool, rounds: nat): Outcome
    decreases rounds, code, 0
  {
    match code
    case Do(op) => if IsNative(op) then Perform(g, op, d, guard) else Short
    case Seq(a, b) =>
      (match Execute(g, a, d, guard, rounds)
       case Went(after) => Execute(g, b, after, guard, rounds)
       case other => other)
    case If(yes, no) =>
      if d.stack == [] then Short
      else if TopIsTrue(d) then Execute(g, yes, Popped(d), guard, rounds) else Execute(g, no, Popped(d), guard, rounds)
    case While(cond, body) =>
      (match Execute(g, cond, d, guard, rounds)
       case Went(tested) =>
         if tested.stack == [] then Short
         else if !TopIsTrue(tested) then Went(Popped(tested))
         else
           (match Execute(g, body, Popped(tested), guard, rounds)
            case Went(after) => if rounds == 0 then Unfinished else Execute(g, code, after, guard, rounds - 1)
            case other => other)
       case other => other)
    case Call(callee, _, _) =>
      (match Execute(g, callee, d.(locals := map[]), guard, rounds)
       case Went(after) => Went(after.(locals := d.locals))
       case other => other)
  }
}
