/** A small-step machine for modules of words. All words share one data stack of
    tagged values; a call leaves the arguments where they are and a return the
    results. The machine checks every operand it takes: a missing operand, a
    wrong tag, a missing branch target or running off a block leaves it stuck. */
module IrMachine {
  import opened Rings
  import opened Ir
  import opened Words
  import opened Verifier

  datatype Val = Val(tag: TypeId, bits: U64)

  /** A word being run. A word that waits for a call stays at the call. */
  datatype Frame = Frame(word: nat, block: nat, pc: nat, locals: map<nat, U64>)

  /** `frames[0]` runs. */
  datatype State = State(data: seq<Val>, frames: seq<Frame>)

  datatype Result = Next(state: State) | Trapped(code: nat, at: Span) | Finished(data: seq<Val>) | Stuck

  type Module = seq<Word>

  function FindWord(m: Module, name: nat): (k: Option<nat>)
    ensures k.Some? ==> k.value < |m| && m[k.value].name == name
  {
    if m == [] then None
    else if m[0].name == name then Some(0)
    else match FindWord(m[1..], name) case Some(k) => Some(k + 1) case None => None
  }

  function Tags(vs: seq<Val>): (ts: seq<TypeId>)
    ensures |ts| == |vs|
    ensures forall i :: 0 <= i < |vs| ==> ts[i] == vs[i].tag
  {
    seq(|vs|, i requires 0 <= i < |vs| => vs[i].tag)
  }

  /** The same words under other types. */
  function Retag(vs: seq<Val>, ts: seq<TypeId>): (r: seq<Val>)
    requires |ts| == |vs|
    ensures |r| == |vs| && Tags(r) == ts
    ensures forall i :: 0 <= i < |vs| ==> r[i].bits == vs[i].bits
  {
    seq(|vs|, i requires 0 <= i < |vs| => Val(ts[i], vs[i].bits))
  }

  /** The word the surroundings supply: memory, a converted value, the result of
      a word outside the module. */
  function Supplied(input: seq<U64>, i: nat): U64 {
    if i < |input| then input[i] else 0
  }

  function Local(locals: map<nat, U64>, slot: nat): U64 {
    if slot in locals then locals[slot] else 0
  }

  /** What an operation that stays in its block does. */
  datatype Effect = Then(data: seq<Val>, locals: map<nat, U64>) | Trap(code: nat, at: Span) | Wrong

  /** How many operands an operation takes off the stack. */
  function Pops(op: Op): nat {
    match op
    case PtrAddConst(_, _) => 1
    case PtrAddIndex(_, _) => 2
    case Dup(_) => 1
    case Drop(_) => 1
    case Swap(_, _) => 2
    case Arith(_) => 2
    case Cmp(_, _) => 2
    case AndBool => 2
    case OrBool => 2
    case NotBool => 1
    case LocalSet(_, _) => 1
    case Cast(_, _) => 1
    case Bitcast(_, _) => 1
    case Load(_) => 1
    case Store(_) => 2
    case Touch(a) => if a.Place? then 0 else if a.VolLoad? || a.VolLoadField? then 1 else 2
    case TrapIfFalse(_, _) => 1
    case _ => 0
  }

  /** The operands an access to a device register takes: an address, and a value to
      store. */
  predicate AccessTags(a: Access, ts: seq<TypeId>)
    requires |ts| == Pops(Touch(a))
  {
    match a
    case Place(_, _, _) => true
    case VolLoad(_, _, _) => ts[0] == TY_MMIO || ts[0] == TY_PTR || ts[0] == TY_PTR_MUT
    case VolStore(ty, _, _, _, _) => ts[1] == ty && (ts[0] == TY_MMIO || ts[0] == TY_PTR_MUT)
    case VolLoadField(_, _, _, _) => ts[0] == TY_MMIO
    case VolStoreField(_, fieldTy, _, _, _) => ts[0] == TY_MMIO && ts[1] == fieldTy
  }

  /** What it puts back: the address, or what the device answers. */
  function AccessResult(a: Access, given: U64): seq<Val> {
    match a
    case Place(_, _, _) => [Val(TY_MMIO, given)]
    case VolLoad(ty, _, _) => [Val(ty, given)]
    case VolLoadField(_, fieldTy, _, _) => [Val(fieldTy, given)]
    case _ => []
  }

  /** The operation on its operands, deepest first: what it puts back. */
  function Act(w: Word, op: Op, xs: seq<Val>, locals: map<nat, U64>, input: seq<U64>): Effect
    requires IsLocalOp(op) && |xs| == Pops(op)
  {
    var given := Supplied(input, 0);
    match op
    case ConstI64(v) => Then([Val(TY_I64, v)], locals)
    case ConstBool(b) => Then([Val(TY_BOOL, Flag(b))], locals)
    case ConstStr(_) => Then([Val(TY_STR, given)], locals)
    case AddrOf(_, mutable) => Then([Val(if mutable then TY_PTR_MUT else TY_PTR, given)], locals)
    case ScopedEnter(ty) => Then([Val(ty, given)], locals)
    case TaskSpawn(ty) => Then([Val(ty, given)], locals)
    case PtrAddConst(ty, offset) =>
      if xs[0].tag == ty then Then([Val(ty, AddWord(xs[0].bits, offset))], locals) else Wrong
    case PtrAddIndex(ty, scale) =>
      if xs[0].tag == ty && xs[1].tag == TY_I64
      then Then([Val(ty, AddWord(xs[0].bits, MulWord(xs[1].bits, scale)))], locals) else Wrong
    case Dup(ty) => if xs[0].tag == ty then Then([xs[0], xs[0]], locals) else Wrong
    case Drop(ty) => if xs[0].tag == ty then Then([], locals) else Wrong
    case Swap(a, b) => if xs[0].tag == a && xs[1].tag == b then Then([xs[1], xs[0]], locals) else Wrong
    case Arith(k) => Then([Val(TY_I64, ArithWord(k, xs[0].bits, xs[1].bits))], locals)
    case Cmp(out, k) => Then([Val(out, Flag(Compare(k, xs[0].bits, xs[1].bits)))], locals)
    case AndBool => Then([Val(TY_BOOL, Flag(AndWord(xs[0].bits, xs[1].bits) != 0))], locals)
    case OrBool => Then([Val(TY_BOOL, Flag(OrWord(xs[0].bits, xs[1].bits) != 0))], locals)
    case NotBool => Then([Val(TY_BOOL, Flag(xs[0].bits == 0))], locals)
    case Interrupt(_) => Then([], locals)
    case LocalSet(slot, ty) =>
      if TypeOk(w, xs[0].tag, ty) then Then([], locals[slot := xs[0].bits]) else Wrong
    case LocalGet(slot, ty) => Then([Val(ty, Local(locals, slot))], locals)
    case Cast(from, to) => if xs[0].tag == from then Then([Val(to, given)], locals) else Wrong
    case Bitcast(from, to) => if xs[0].tag == from then Then([Val(to, xs[0].bits)], locals) else Wrong
    case Load(ty) =>
      if xs[0].tag == TY_PTR || xs[0].tag == TY_PTR_MUT then Then([Val(ty, given)], locals) else Wrong
    case Store(ty) => if xs[0].tag == TY_PTR_MUT && xs[1].tag == ty then Then([], locals) else Wrong
    case Touch(a) => if AccessTags(a, Tags(xs)) then Then(AccessResult(a, given), locals) else Wrong
    case TrapIfFalse(code, at) =>
      if xs[0].tag != TY_BOOL then Wrong
      else if xs[0].bits == 0 then Trap(code, at)
      else Then([], locals)
  }

  /** What an operation puts back in place of its `k` operands. */
  function Rebuild(data: seq<Val>, k: nat, e: Effect): Effect
    requires k <= |data|
  {
    match e
    case Then(outs, after) => Then(data[..|data| - k] + outs, after)
    case other => other
  }

  /** The operation on the stack. */
  function Compute(w: Word, op: Op, data: seq<Val>, locals: map<nat, U64>, input: seq<U64>): Effect
    requires IsLocalOp(op)
  {
    var k := Pops(op);
    if |data| < k then Wrong else Rebuild(data, k, Act(w, op, data[|data| - k..], locals, input))
  }

  predicate Inside(m: Module, f: Frame) {
    f.word < |m| && f.block < |m[f.word].blocks| && f.pc < |m[f.word].blocks[f.block].ops|
  }

  function OpAt(m: Module, f: Frame): Op
    requires Inside(m, f)
  {
    m[f.word].blocks[f.block].ops[f.pc]
  }

  function Jump(m: Module, s: State, data: seq<Val>, target: nat): Result
    requires |s.frames| > 0 && Inside(m, s.frames[0])
  {
    var f := s.frames[0];
    match FindBlock(m[f.word].blocks, target)
    case None => Stuck
    case Some(k) => Next(State(data, [f.(block := k, pc := 0)] + s.frames[1..]))
  }

  /** A word about to run its first operation. */
  function EntryFrame(m: Module, k: nat): Frame
    requires k < |m| && FindBlock(m[k].blocks, m[k].entry).Some?
  {
    Frame(k, FindBlock(m[k].blocks, m[k].entry).value, 0, map[])
  }

  /** The results of a word of the surroundings. */
  function Outside(sig: Sig, input: seq<U64>): (outs: seq<Val>)
    ensures Tags(outs) == sig.outputs
  {
    seq(|sig.outputs|, i requires 0 <= i < |sig.outputs| => Val(sig.outputs[i], Supplied(input, i)))
  }

  predicate Holds(data: seq<Val>, tags: seq<TypeId>) {
    |tags| <= |data| && Tags(data[|data| - |tags|..]) == tags
  }

  /** The arguments stay on the stack under the callee's types. A name the
      module does not define is a word of the surroundings. */
  function Enter(m: Module, s: State, name: nat, sig: Sig, input: seq<U64>): Result
    requires |s.frames| > 0 && Inside(m, s.frames[0]) && OpAt(m, s.frames[0]) == Call(name, sig)
  {
    var f, n, need := s.frames[0], |s.data|, |sig.inputs|;
    if n < need || !AllOk(m[f.word], Tags(s.data[n - need..]), sig.inputs) then Stuck
    else match FindWord(m, name)
      case None =>
        Next(State(s.data[..n - need] + Outside(sig, input), [f.(pc := f.pc + 1)] + s.frames[1..]))
      case Some(k) =>
        if |m[k].sig.inputs| != need then Stuck
        else if FindBlock(m[k].blocks, m[k].entry).None? then Stuck
        else Next(State(s.data[..n - need] + Retag(s.data[n - need..], m[k].sig.inputs), [EntryFrame(m, k)] + s.frames))
  }

  /** The results stay on the stack, under the types the call site declares. */
  function Leave(m: Module, s: State): Result
    requires |s.frames| > 0 && Inside(m, s.frames[0]) && OpAt(m, s.frames[0]) == Ret
  {
    var w, n := m[s.frames[0].word], |s.data|;
    var outs := |w.sig.outputs|;
    if n < outs || !AllOk(w, Tags(s.data[n - outs..]), w.sig.outputs) then Stuck
    else if |s.frames| == 1 then Finished(s.data[..n - outs] + Retag(s.data[n - outs..], w.sig.outputs))
    else
      var caller := s.frames[1];
      if !Inside(m, caller) || !OpAt(m, caller).Call? || |OpAt(m, caller).sig.outputs| != outs then Stuck
      else Next(State(s.data[..n - outs] + Retag(s.data[n - outs..], OpAt(m, caller).sig.outputs),
                      [caller.(pc := caller.pc + 1)] + s.frames[2..]))
  }

  function Step(m: Module, s: State, input: seq<U64>): Result {
    if s.frames == [] || !Inside(m, s.frames[0]) then Stuck
    else
      var f, n := s.frames[0], |s.data|;
      match OpAt(m, f)
      case Br(target) => Jump(m, s, s.data, target)
      case BrIf(t, e) =>
        if n == 0 || s.data[n - 1].tag != TY_BOOL then Stuck
        else Jump(m, s, s.data[..n - 1], if s.data[n - 1].bits != 0 then t else e)
      case Ret => Leave(m, s)
      case Call(name, sig) => Enter(m, s, name, sig, input)
      case op =>
        match Compute(m[f.word], op, s.data, f.locals, input)
        case Then(data, locals) => Next(State(data, [f.(pc := f.pc + 1, locals := locals)] + s.frames[1..]))
        case Trap(code, at) => Trapped(code, at)
        case Wrong => Stuck
  }
}
