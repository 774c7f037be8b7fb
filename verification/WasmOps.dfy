/** The code of each straight-line operation does to the locals what the
    operation does to the stack. */
module WasmOps {
  import opened Rings
  import opened Ir
  import opened Words
  import W = Wasm
  import opened Verifier
  import opened IrMachine
  import opened WasmEmit

  // ---- running straight-line code ----

  lemma Turn(i: W.Instr, rest: seq<W.Instr>, ops: seq<U64>, locals: seq<U64>)
    requires W.One(i, ops, locals).Plain?
    ensures W.Exec([i] + rest, ops, locals) == W.Exec(rest, W.One(i, ops, locals).ops, W.One(i, ops, locals).locals)
  {
    assert ([i] + rest)[1..] == rest;
  }

  lemma Chain(i: W.Instr, rest: seq<W.Instr>, ops: seq<U64>, wl: seq<U64>, p: W.Plain, r: W.Plain)
    requires W.One(i, ops, wl) == p && p.Plain? && W.Exec(rest, p.ops, p.locals) == r
    ensures W.Exec([i] + rest, ops, wl) == r
  {
    Turn(i, rest, ops, wl);
  }

  lemma Last(i: W.Instr, ops: seq<U64>, locals: seq<U64>)
    ensures W.Exec([i], ops, locals) == W.One(i, ops, locals)
  {
    assert [i][1..] == [];
  }

  lemma {:induction false} ExecConcat(a: seq<W.Instr>, b: seq<W.Instr>, ops: seq<U64>, wl: seq<U64>)
    requires W.Exec(a, ops, wl).Plain?
    ensures W.Exec(a + b, ops, wl) == W.Exec(b, W.Exec(a, ops, wl).ops, W.Exec(a, ops, wl).locals)
    decreases |a|
  {
    if a == [] {
      assert a + b == b;
    } else {
      var p := W.One(a[0], ops, wl);
      assert a + b == [a[0]] + (a[1..] + b);
      Turn(a[0], a[1..] + b, ops, wl);
      ExecConcat(a[1..], b, p.ops, p.locals);
    }
  }

  lemma ExecSet(ops: seq<U64>, x: U64, h: nat, wl: seq<U64>)
    requires h < |wl| && ops == [x]
    ensures W.Exec([W.LocalSet(h)], ops, wl) == W.Plain([], wl[h := x])
  {
    Last(W.LocalSet(h), ops, wl);
  }

  lemma ExecConst(v: U64, h: nat, wl: seq<U64>)
    requires h < |wl|
    ensures W.Exec([W.I64Const(v)] + [W.LocalSet(h)], [], wl) == W.Plain([], wl[h := v])
  {
    ExecSet([v], v, h, wl);
    Chain(W.I64Const(v), [W.LocalSet(h)], [], wl, W.Plain([v], wl), W.Plain([], wl[h := v]));
  }

  lemma ExecGet(i: nat, rest: seq<W.Instr>, ops: seq<U64>, wl: seq<U64>)
    requires i < |wl|
    ensures W.Exec([W.LocalGet(i)] + rest, ops, wl) == W.Exec(rest, ops + [wl[i]], wl)
  {
    Turn(W.LocalGet(i), rest, ops, wl);
  }

  lemma ExecCopy(i: nat, j: nat, wl: seq<U64>)
    requires i < |wl| && j < |wl|
    ensures W.Exec(Copy(i, j), [], wl) == W.Plain([], wl[j := wl[i]])
  {
    ExecGet(i, [W.LocalSet(j)], [], wl);
    ExecSet([wl[i]], wl[i], j, wl);
    assert [] + [wl[i]] == [wl[i]];
  }

  lemma ExecDrop(i: nat, wl: seq<U64>)
    requires i < |wl|
    ensures W.Exec([W.LocalGet(i)] + [W.Drop], [], wl) == W.Plain([], wl)
  {
    ExecGet(i, [W.Drop], [], wl);
    assert [] + [wl[i]] == [wl[i]];
    Last(W.Drop, [wl[i]], wl);
  }

  lemma ThreeMoves(a: seq<W.Instr>, b: seq<W.Instr>, c: seq<W.Instr>, w0: seq<U64>, w1: seq<U64>, w2: seq<U64>, w3: seq<U64>)
    requires W.Exec(a, [], w0) == W.Plain([], w1) && W.Exec(b, [], w1) == W.Plain([], w2) && W.Exec(c, [], w2) == W.Plain([], w3)
    ensures W.Exec(a + (b + c), [], w0) == W.Plain([], w3)
  {
    ExecConcat(b, c, [], w1);
    ExecConcat(a, b + c, [], w0);
  }

  lemma ExecSwap(h: nat, wl: seq<U64>)
    requires 2 <= h < |wl|
    ensures W.Exec(Copy(h - 1, h) + (Copy(h - 2, h - 1) + Copy(h, h - 2)), [], wl) ==
      W.Plain([], wl[h := wl[h - 1]][h - 1 := wl[h - 2]][h - 2 := wl[h - 1]])
  {
    var w1 := wl[h := wl[h - 1]];
    var w2 := w1[h - 1 := w1[h - 2]];
    ExecCopy(h - 1, h, wl);
    ExecCopy(h - 2, h - 1, w1);
    ExecCopy(h, h - 2, w2);
    ThreeMoves(Copy(h - 1, h), Copy(h - 2, h - 1), Copy(h, h - 2), wl, w1, w2, w2[h - 2 := w2[h]]);
  }

  /** Code that turns the operands into one value, then a store. */
  lemma ExecStore(mid: seq<W.Instr>, ops: seq<U64>, k: nat, z: U64, wl: seq<U64>)
    requires k < |wl| && W.Exec(mid, ops, wl) == W.Plain([z], wl)
    ensures W.Exec(mid + [W.LocalSet(k)], ops, wl) == W.Plain([], wl[k := z])
  {
    ExecConcat(mid, [W.LocalSet(k)], ops, wl);
    ExecSet([z], z, k, wl);
  }

  lemma ExecBinary(i: nat, j: nat, mid: seq<W.Instr>, k: nat, z: U64, wl: seq<U64>)
    requires i < |wl| && j < |wl| && k < |wl|
    requires W.Exec(mid, [wl[i], wl[j]], wl) == W.Plain([z], wl)
    ensures W.Exec(Binary(i, j, mid, k), [], wl) == W.Plain([], wl[k := z])
  {
    var tail := mid + [W.LocalSet(k)];
    ExecGet(i, [W.LocalGet(j)] + tail, [], wl);
    ExecGet(j, tail, [wl[i]], wl);
    assert [] + [wl[i]] == [wl[i]] && [wl[i]] + [wl[j]] == [wl[i], wl[j]];
    ExecStore(mid, [wl[i], wl[j]], k, z, wl);
  }

  lemma ExecUnary(i: nat, mid: seq<W.Instr>, k: nat, z: U64, wl: seq<U64>)
    requires i < |wl| && k < |wl|
    requires W.Exec(mid, [wl[i]], wl) == W.Plain([z], wl)
    ensures W.Exec(Unary(i, mid, k), [], wl) == W.Plain([], wl[k := z])
  {
    ExecGet(i, mid + [W.LocalSet(k)], [], wl);
    assert [] + [wl[i]] == [wl[i]];
    ExecStore(mid, [wl[i]], k, z, wl);
  }

  lemma ExecWiden(i: W.Instr, ops: seq<U64>, z: U64, wl: seq<U64>)
    requires W.One(i, ops, wl) == W.Plain([z], wl)
    ensures W.Exec(Widen(i), ops, wl) == W.Plain([z], wl)
  {
    Turn(i, [W.I64ExtendI32U], ops, wl);
    Last(W.I64ExtendI32U, [z], wl);
  }

  lemma ExecNonzero(z: U64, wl: seq<U64>)
    ensures W.Exec([W.I64Eqz] + ([W.I32Eqz] + [W.I64ExtendI32U]), [z], wl) == W.Plain([Flag(z != 0)], wl)
  {
    var zero, one := Flag(z == 0), Flag(z != 0);
    Last(W.I64ExtendI32U, [one], wl);
    Chain(W.I32Eqz, [W.I64ExtendI32U], [zero], wl, W.Plain([one], wl), W.Plain([one], wl));
    Chain(W.I64Eqz, [W.I32Eqz] + [W.I64ExtendI32U], [z], wl, W.Plain([zero], wl), W.Plain([one], wl));
  }

  /** `i64.eqz`, `i32.eqz`, widen: 1 for any nonzero word, 0 for zero. */
  lemma ExecBoolify(i: W.Instr, ops: seq<U64>, z: U64, wl: seq<U64>)
    requires W.One(i, ops, wl) == W.Plain([z], wl)
    ensures W.Exec(Boolify(i), ops, wl) == W.Plain([Flag(z != 0)], wl)
  {
    ExecNonzero(z, wl);
    Chain(i, [W.I64Eqz] + ([W.I32Eqz] + [W.I64ExtendI32U]), ops, wl, W.Plain([z], wl), W.Plain([Flag(z != 0)], wl));
  }

  // ---- the relation between stack and locals ----

  /** The number of IR local slots that have a local of their own. */
  ghost function SlotEnd(w: Word): nat {
    MaxNat(Arity(w), MaxSlot(w.blocks))
  }

  /** Locals `0 .. |seg|` are the word's part of the stack, and the declared
      locals are its IR locals. */
  ghost predicate LocalsMatch(w: Word, locals: map<nat, U64>, seg: seq<Val>, wl: seq<U64>) {
    && |wl| == Arity(w) + ExtraLocals(w)
    && |seg| <= Cursor(w)
    && (forall i :: 0 <= i < |seg| ==> wl[i] == seg[i].bits)
    && (forall slot :: Arity(w) <= slot < SlotEnd(w) ==> wl[DeclaredLocal(w, slot)] == Local(locals, slot))
  }

  /** Writing a slot of the stack leaves the declared locals alone. */
  lemma WriteSlot(w: Word, locals: map<nat, U64>, seg: seq<Val>, wl: seq<U64>, h: nat, v: Val)
    requires LocalsMatch(w, locals, seg, wl) && h <= |seg| && h < Cursor(w)
    ensures LocalsMatch(w, locals, seg[..h] + [v], wl[h := v.bits])
  {
  }

  lemma WriteAbove(w: Word, locals: map<nat, U64>, seg: seq<Val>, wl: seq<U64>, h: nat, x: U64)
    requires LocalsMatch(w, locals, seg, wl) && |seg| <= h <= Cursor(w)
    ensures LocalsMatch(w, locals, seg, wl[h := x])
  {
  }

  lemma Forget(w: Word, locals: map<nat, U64>, seg: seq<Val>, wl: seq<U64>, h: nat)
    requires LocalsMatch(w, locals, seg, wl) && h <= |seg|
    ensures LocalsMatch(w, locals, seg[..h], wl)
  {
  }

  lemma WriteDeclared(w: Word, locals: map<nat, U64>, seg: seq<Val>, wl: seq<U64>, slot: nat, x: U64)
    requires LocalsMatch(w, locals, seg, wl) && Arity(w) <= slot < SlotEnd(w)
    ensures LocalsMatch(w, locals[slot := x], seg, wl[DeclaredLocal(w, slot) := x])
  {
    var wl' := wl[DeclaredLocal(w, slot) := x];
    forall s | Arity(w) <= s < SlotEnd(w)
      ensures wl'[DeclaredLocal(w, s)] == Local(locals[slot := x], s)
    {
    }
  }

  // ---- one operation ----

  /** The operations lowered to straight-line code. */
  ghost predicate IsStraight(op: Op) {
    IsLocalOp(op) && Lowered(op) && !op.TrapIfFalse?
  }

  ghost predicate OwnSlot(w: Word, op: Op) {
    (op.LocalGet? || op.LocalSet?) ==> Arity(w) <= op.slot < SlotEnd(w)
  }

  ghost predicate StraightMatches(w: Word, k: nat, op: Op, seg: seq<Val>, locals: map<nat, U64>, wl: seq<U64>, input: seq<U64>)
    requires IsStraight(op) && Reaches(w, op, |seg|)
  {
    var e, c := W.Exec(EmitOp(w, k, op, |seg|), [], wl), Compute(w, op, seg, locals, input);
    e.Plain? && e.ops == [] && c.Then? && LocalsMatch(w, c.locals, c.data, e.locals)
  }

  /** Pushing one value computed from the top: the value goes to slot `h`. */
  lemma StoreMatches(w: Word, locals: map<nat, U64>, seg: seq<Val>, wl: seq<U64>, keep: nat, v: Val)
    requires LocalsMatch(w, locals, seg, wl) && keep <= |seg| && keep < Cursor(w)
    ensures LocalsMatch(w, locals, seg[..keep] + [v], wl[keep := v.bits])
  {
    WriteSlot(w, locals, seg, wl, keep, v);
  }

  lemma PushMatches(w: Word, k: nat, op: Op, seg: seq<Val>, locals: map<nat, U64>, wl: seq<U64>, input: seq<U64>)
    requires LocalsMatch(w, locals, seg, wl) && |seg| < Cursor(w) && OwnSlot(w, op)
    requires op.ConstI64? || op.ConstBool? || op.LocalGet?
    ensures StraightMatches(w, k, op, seg, locals, wl, input)
  {
    var h := |seg|;
    assert seg[..h] == seg;
    match op
    case ConstI64(v) =>
      ExecConst(v, h, wl);
      StoreMatches(w, locals, seg, wl, h, Val(TY_I64, v));
    case ConstBool(b) =>
      ExecConst(Flag(b), h, wl);
      StoreMatches(w, locals, seg, wl, h, Val(TY_BOOL, Flag(b)));
    case LocalGet(slot, ty) =>
      ExecCopy(DeclaredLocal(w, slot), h, wl);
      StoreMatches(w, locals, seg, wl, h, Val(ty, Local(locals, slot)));
  }

  lemma DropMatches(w: Word, k: nat, op: Op, seg: seq<Val>, locals: map<nat, U64>, wl: seq<U64>, input: seq<U64>)
    requires LocalsMatch(w, locals, seg, wl) && 1 <= |seg| < Cursor(w)
    requires op.Drop? && Compute(w, op, seg, locals, input).Then?
    ensures StraightMatches(w, k, op, seg, locals, wl, input)
  {
    ExecDrop(|seg| - 1, wl);
    Forget(w, locals, seg, wl, |seg| - 1);
    assert Compute(w, op, seg, locals, input).data == seg[..|seg| - 1];
  }

  lemma LocalSetMatches(w: Word, k: nat, op: Op, seg: seq<Val>, locals: map<nat, U64>, wl: seq<U64>, input: seq<U64>)
    requires LocalsMatch(w, locals, seg, wl) && 1 <= |seg| < Cursor(w) && OwnSlot(w, op)
    requires op.LocalSet? && Compute(w, op, seg, locals, input).Then?
    ensures StraightMatches(w, k, op, seg, locals, wl, input)
  {
    var h := |seg|;
    ExecCopy(h - 1, DeclaredLocal(w, op.slot), wl);
    Forget(w, locals, seg, wl, h - 1);
    assert Compute(w, op, seg, locals, input).data == seg[..h - 1];
    WriteDeclared(w, locals, seg[..h - 1], wl, op.slot, wl[h - 1]);
  }

  lemma BitcastMatches(w: Word, k: nat, op: Op, seg: seq<Val>, locals: map<nat, U64>, wl: seq<U64>, input: seq<U64>)
    requires LocalsMatch(w, locals, seg, wl)
    requires op.Bitcast? && Compute(w, op, seg, locals, input).Then?
    ensures StraightMatches(w, k, op, seg, locals, wl, input)
  {
    var h := |seg|;
    assert Compute(w, op, seg, locals, input).data == seg[..h - 1] + [Val(op.to, seg[h - 1].bits)];
  }

  lemma DupMatches(w: Word, k: nat, op: Op, seg: seq<Val>, locals: map<nat, U64>, wl: seq<U64>, input: seq<U64>)
    requires LocalsMatch(w, locals, seg, wl) && 1 <= |seg| < Cursor(w)
    requires op.Dup? && Compute(w, op, seg, locals, input).Then?
    ensures StraightMatches(w, k, op, seg, locals, wl, input)
  {
    var h := |seg|;
    ExecCopy(h - 1, h, wl);
    StoreMatches(w, locals, seg, wl, h, seg[h - 1]);
    assert Compute(w, op, seg, locals, input).data == seg[..h] + [seg[h - 1]];
  }

  lemma SwapMatches(w: Word, k: nat, op: Op, seg: seq<Val>, locals: map<nat, U64>, wl: seq<U64>, input: seq<U64>)
    requires LocalsMatch(w, locals, seg, wl) && 2 <= |seg| < Cursor(w)
    requires op.Swap? && Compute(w, op, seg, locals, input).Then?
    ensures StraightMatches(w, k, op, seg, locals, wl, input)
  {
    var h := |seg|;
    ExecSwap(h, wl);
    WriteAbove(w, locals, seg, wl, h, wl[h - 1]);
    assert Compute(w, op, seg, locals, input).data == seg[..h - 2] + [seg[h - 1], seg[h - 2]];
    Exchange(w, locals, seg, wl[h := wl[h - 1]]);
  }

  /** Exchanging the two top slots. */
  lemma Exchange(w: Word, locals: map<nat, U64>, seg: seq<Val>, wl: seq<U64>)
    requires LocalsMatch(w, locals, seg, wl) && |seg| >= 2
    ensures
      var h := |seg|;
      LocalsMatch(w, locals, seg[..h - 2] + [seg[h - 1], seg[h - 2]], wl[h - 1 := wl[h - 2]][h - 2 := wl[h - 1]])
  {
  }

  ghost function BinaryResult(op: Op, a: U64, b: U64): U64 {
    match op
    case Arith(x) => ArithWord(x, a, b)
    case Cmp(_, x) => Flag(Compare(x, a, b))
    case AndBool => Flag(AndWord(a, b) != 0)
    case _ => Flag(OrWord(a, b) != 0)
  }

  ghost predicate IsBinary(op: Op) {
    op.Arith? || op.Cmp? || op.AndBool? || op.OrBool?
  }

  /** The operation between the loads and the store. */
  ghost function Middle(op: Op): seq<W.Instr>
    requires IsBinary(op)
  {
    match op
    case Arith(x) => [W.I64Arith(x)]
    case Cmp(_, x) => Widen(W.I64Rel(x))
    case AndBool => Boolify(W.I64And)
    case OrBool => Boolify(W.I64Or)
  }

  lemma MiddleExec(op: Op, a: U64, b: U64, wl: seq<U64>)
    requires IsBinary(op)
    ensures W.Exec(Middle(op), [a, b], wl) == W.Plain([BinaryResult(op, a, b)], wl)
  {
    match op
    case Arith(x) => Last(W.I64Arith(x), [a, b], wl);
    case Cmp(_, x) => ExecWiden(W.I64Rel(x), [a, b], Flag(Compare(x, a, b)), wl);
    case AndBool => ExecBoolify(W.I64And, [a, b], AndWord(a, b), wl);
    case OrBool => ExecBoolify(W.I64Or, [a, b], OrWord(a, b), wl);
  }

  lemma BinaryCode(w: Word, k: nat, op: Op, h: nat)
    requires IsBinary(op) && 2 <= h
    ensures EmitOp(w, k, op, h) == Binary(h - 2, h - 1, Middle(op), h - 2)
  {
  }

  lemma BinaryExec(op: Op, mid: seq<W.Instr>, h: nat, wl: seq<U64>)
    requires IsBinary(op) && 2 <= h <= |wl| && mid == Middle(op)
    ensures W.Exec(Binary(h - 2, h - 1, mid, h - 2), [], wl) == W.Plain([], wl[h - 2 := BinaryResult(op, wl[h - 2], wl[h - 1])])
  {
    MiddleExec(op, wl[h - 2], wl[h - 1], wl);
    ExecBinary(h - 2, h - 1, mid, h - 2, BinaryResult(op, wl[h - 2], wl[h - 1]), wl);
  }

  lemma BinaryCompute(w: Word, op: Op, seg: seq<Val>, locals: map<nat, U64>, input: seq<U64>) returns (v: Val)
    requires IsBinary(op) && |seg| >= 2
    ensures v.bits == BinaryResult(op, seg[|seg| - 2].bits, seg[|seg| - 1].bits)
    ensures Compute(w, op, seg, locals, input) == Then(seg[..|seg| - 2] + [v], locals)
  {
    var h := |seg|;
    assert seg[h - 2..] == [seg[h - 2], seg[h - 1]];
    v := Compute(w, op, seg, locals, input).data[h - 2];
  }

  lemma BinaryMatches(w: Word, k: nat, op: Op, seg: seq<Val>, locals: map<nat, U64>, wl: seq<U64>, input: seq<U64>)
    requires LocalsMatch(w, locals, seg, wl) && |seg| < Cursor(w)
    requires IsBinary(op) && Reaches(w, op, |seg|)
    ensures StraightMatches(w, k, op, seg, locals, wl, input)
  {
    BinaryExec(op, Middle(op), |seg|, wl);
    BinaryCode(w, k, op, |seg|);
    var v := BinaryCompute(w, op, seg, locals, input);
    StoreMatches(w, locals, seg, wl, |seg| - 2, v);
  }

  lemma NotExec(h: nat, wl: seq<U64>)
    requires 1 <= h <= |wl|
    ensures W.Exec(Unary(h - 1, Widen(W.I64Eqz), h - 1), [], wl) == W.Plain([], wl[h - 1 := Flag(wl[h - 1] == 0)])
  {
    ExecWiden(W.I64Eqz, [wl[h - 1]], Flag(wl[h - 1] == 0), wl);
    ExecUnary(h - 1, Widen(W.I64Eqz), h - 1, Flag(wl[h - 1] == 0), wl);
  }

  lemma NotMatches(w: Word, k: nat, seg: seq<Val>, locals: map<nat, U64>, wl: seq<U64>, input: seq<U64>)
    requires LocalsMatch(w, locals, seg, wl) && 1 <= |seg| < Cursor(w)
    ensures StraightMatches(w, k, NotBool, seg, locals, wl, input)
  {
    var h := |seg|;
    var v := Val(TY_BOOL, Flag(wl[h - 1] == 0));
    NotExec(h, wl);
    StoreMatches(w, locals, seg, wl, h - 1, v);
    assert seg[h - 1..] == [seg[h - 1]];
  }

  lemma PtrAddMatches(w: Word, k: nat, op: Op, seg: seq<Val>, locals: map<nat, U64>, wl: seq<U64>, input: seq<U64>)
    requires LocalsMatch(w, locals, seg, wl) && 1 <= |seg| < Cursor(w)
    requires op.PtrAddConst? && Compute(w, op, seg, locals, input).Then?
    ensures StraightMatches(w, k, op, seg, locals, wl, input)
  {
    var h := |seg|;
    var a := wl[h - 1];
    var v := Val(op.ty, AddWord(a, op.offset));
    var mid := [W.I64Const(op.offset)] + [W.I64Arith(Add)];
    assert W.One(W.I64Const(op.offset), [a], wl) == W.Plain([a, op.offset], wl);
    Turn(W.I64Const(op.offset), [W.I64Arith(Add)], [a], wl);
    Last(W.I64Arith(Add), [a, op.offset], wl);
    ExecUnary(h - 1, mid, h - 1, v.bits, wl);
    StoreMatches(w, locals, seg, wl, h - 1, v);
    assert seg[h - 1..] == [seg[h - 1]];
  }

  /** The code of a straight-line operation leaves the locals that match what the
      operation leaves on the stack; nothing else is written. */
  lemma StraightOps(w: Word, k: nat, op: Op, seg: seq<Val>, locals: map<nat, U64>, wl: seq<U64>, input: seq<U64>)
    requires LocalsMatch(w, locals, seg, wl) && |seg| < Cursor(w) && OwnSlot(w, op)
    requires IsStraight(op) && Reaches(w, op, |seg|) && Compute(w, op, seg, locals, input).Then?
    ensures StraightMatches(w, k, op, seg, locals, wl, input)
  {
    if op.ConstI64? || op.ConstBool? || op.LocalGet? {
      PushMatches(w, k, op, seg, locals, wl, input);
    } else if op.Drop? {
      DropMatches(w, k, op, seg, locals, wl, input);
    } else if op.LocalSet? {
      LocalSetMatches(w, k, op, seg, locals, wl, input);
    } else if op.Bitcast? {
      BitcastMatches(w, k, op, seg, locals, wl, input);
    } else if op.Dup? {
      DupMatches(w, k, op, seg, locals, wl, input);
    } else if op.Swap? {
      SwapMatches(w, k, op, seg, locals, wl, input);
    } else if op.NotBool? {
      NotMatches(w, k, seg, locals, wl, input);
    } else if op.PtrAddConst? {
      PtrAddMatches(w, k, op, seg, locals, wl, input);
    } else {
      BinaryMatches(w, k, op, seg, locals, wl, input);
    }
  }
}
