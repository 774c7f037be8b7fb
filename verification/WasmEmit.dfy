/** The lowering of a word to a WebAssembly function: every stack slot is a
    local, a compile-time height says which, and a word of several blocks becomes
    a `loop` around nested blocks and a `br_table` that jumps to the block whose
    number is in the cursor. The code is given as structured instructions, and as
    the flat stream with `end` markers that the emitter pushes. */
module WasmEmit {
  import opened Rings
  import opened Ir
  import opened Words
  import W = Wasm
  import opened Verifier
  import opened VerifierSoundness

  const STACK_CAP: nat := 4096

  // ---- the locals of a word ----

  function Arity(w: Word): nat {
    |w.sig.inputs|
  }

  /** The number of slots declared for the data stack: the peak and one more. */
  function SlotLocals(w: Word): (n: nat)
    ensures n > Arity(w)
  {
    var peak := match w.high case Top => STACK_CAP case Slots(extra) => Arity(w) + extra;
    (if peak < Arity(w) then Arity(w) else peak) + 1
  }

  /** The local that holds the number of the block to run. */
  function Cursor(w: Word): nat {
    Arity(w) + SlotLocals(w)
  }

  /** The local of an IR local, above the cursor and the scratch. An IR local
      below the arity is the parameter of that number. */
  function DeclaredLocal(w: Word, slot: nat): nat {
    if slot < Arity(w) then slot else Arity(w) + SlotLocals(w) + 2 + (slot - Arity(w))
  }

  function SlotOf(op: Op): nat {
    match op
    case LocalGet(slot, _) => slot + 1
    case LocalSet(slot, _) => slot + 1
    case _ => 0
  }

  function MaxNat(a: nat, b: nat): nat {
    if a < b then b else a
  }

  function MaxSlotOps(ops: seq<Op>): nat {
    if ops == [] then 0 else MaxNat(SlotOf(ops[0]), MaxSlotOps(ops[1..]))
  }

  function MaxSlot(blocks: seq<Block>): nat {
    if blocks == [] then 0 else MaxNat(MaxSlotOps(blocks[0].ops), MaxSlot(blocks[1..]))
  }

  /** Slots, cursor, scratch and the IR locals at or above the arity. */
  function ExtraLocals(w: Word): nat {
    SlotLocals(w) + 2 + (MaxNat(Arity(w), MaxSlot(w.blocks)) - Arity(w))
  }

  // ---- one operation ----

  /** The operations this model lowers. */
  predicate Lowered(op: Op) {
    op.ConstI64? || op.ConstBool? || op.PtrAddConst? || op.Dup? || op.Drop? || op.Swap? || op.Arith? || op.Cmp? ||
    op.AndBool? || op.OrBool? || op.NotBool? || op.LocalSet? || op.LocalGet? || op.Bitcast? || op.Call? ||
    op.TrapIfFalse? || op.Br? || op.BrIf? || op.Ret?
  }

  /** The height after an operation. */
  function HeightAfter(w: Word, op: Op, h: nat): int {
    match op
    case ConstI64(_) => h + 1
    case ConstBool(_) => h + 1
    case Dup(_) => h + 1
    case LocalGet(_, _) => h + 1
    case Drop(_) => h - 1
    case Arith(_) => h - 1
    case Cmp(_, _) => h - 1
    case AndBool => h - 1
    case OrBool => h - 1
    case LocalSet(_, _) => h - 1
    case TrapIfFalse(_, _) => h - 1
    case BrIf(_, _) => h - 1
    case Call(_, sig) => h - |sig.inputs| + |sig.outputs|
    case Ret => h - |w.sig.outputs|
    case _ => h
  }

  /** The operands an operation reads are at nonnegative heights. */
  predicate Reaches(w: Word, op: Op, h: nat) {
    match op
    case PtrAddConst(_, _) => h >= 1
    case Dup(_) => h >= 1
    case Drop(_) => h >= 1
    case Swap(_, _) => h >= 2
    case Arith(_) => h >= 2
    case Cmp(_, _) => h >= 2
    case AndBool => h >= 2
    case OrBool => h >= 2
    case NotBool => h >= 1
    case LocalSet(_, _) => h >= 1
    case TrapIfFalse(_, _) => h >= 1
    case BrIf(_, _) => h >= 1
    case Call(_, sig) => h >= |sig.inputs|
    case Ret => h >= |w.sig.outputs|
    case _ => true
  }

  /** `local.get` of `n` slots from `from` on. */
  function Gets(from: nat, n: nat): (code: seq<W.Instr>)
    ensures |code| == n
  {
    seq(n, i requires 0 <= i < n => W.LocalGet(from + i))
  }

  /** `local.set` of `n` slots from `from` on, the last result first. */
  function Sets(from: nat, n: nat): (code: seq<W.Instr>)
    ensures |code| == n
  {
    seq(n, i requires 0 <= i < n => W.LocalSet(from + i))
  }

  /** Move one local to another. */
  function Copy(i: nat, j: nat): seq<W.Instr> {
    [W.LocalGet(i)] + [W.LocalSet(j)]
  }

  /** Two locals, an operation on them, and a local for the result. */
  function Binary(i: nat, j: nat, mid: seq<W.Instr>, k: nat): seq<W.Instr> {
    [W.LocalGet(i)] + ([W.LocalGet(j)] + (mid + [W.LocalSet(k)]))
  }

  function Unary(i: nat, mid: seq<W.Instr>, k: nat): seq<W.Instr> {
    [W.LocalGet(i)] + (mid + [W.LocalSet(k)])
  }

  /** A comparison and the widening of its 32-bit result. */
  function Widen(i: W.Instr): seq<W.Instr> {
    [i] + [W.I64ExtendI32U]
  }

  /** A bitwise operation and the making of a 0 or 1 out of its result. */
  function Boolify(i: W.Instr): seq<W.Instr> {
    [i] + ([W.I64Eqz] + ([W.I32Eqz] + [W.I64ExtendI32U]))
  }

  function BlockIndex(w: Word, id: nat): nat {
    match FindBlock(w.blocks, id) case Some(k) => k case None => 0
  }

  /** The distance of the dispatch loop from the code of block `k`. */
  function LoopDepth(w: Word, k: nat): nat {
    if k <= |w.blocks| then |w.blocks| - k else 0
  }

  function EmitOp(w: Word, k: nat, op: Op, h: nat): seq<W.Instr>
    requires Lowered(op) && Reaches(w, op, h)
  {
    match op
    case ConstI64(v) => [W.I64Const(v)] + [W.LocalSet(h)]
    case ConstBool(b) => [W.I64Const(Flag(b))] + [W.LocalSet(h)]
    case Drop(_) => [W.LocalGet(h - 1)] + [W.Drop]
    case Dup(_) => Copy(h - 1, h)
    case Swap(_, _) => Copy(h - 1, h) + (Copy(h - 2, h - 1) + Copy(h, h - 2))
    case Arith(a) => Binary(h - 2, h - 1, [W.I64Arith(a)], h - 2)
    case Cmp(_, c) => Binary(h - 2, h - 1, Widen(W.I64Rel(c)), h - 2)
    case AndBool => Binary(h - 2, h - 1, Boolify(W.I64And), h - 2)
    case OrBool => Binary(h - 2, h - 1, Boolify(W.I64Or), h - 2)
    case NotBool => Unary(h - 1, Widen(W.I64Eqz), h - 1)
    case LocalSet(slot, _) => Copy(h - 1, DeclaredLocal(w, slot))
    case LocalGet(slot, _) => Copy(DeclaredLocal(w, slot), h)
    case PtrAddConst(_, offset) => Unary(h - 1, [W.I64Const(offset)] + [W.I64Arith(Add)], h - 1)
    case Bitcast(_, _) => []
    case TrapIfFalse(code, at) => [W.LocalGet(h - 1), W.I64Eqz, W.If(TrapCode(code, at))]
    case Call(name, sig) =>
      Gets(h - |sig.inputs|, |sig.inputs|) + [W.CallWord(name)] + Sets(h - |sig.inputs|, |sig.outputs|)
    case Br(target) => [W.I32Const(BlockIndex(w, target)), W.LocalSet(Cursor(w)), W.Br(LoopDepth(w, k))]
    case BrIf(t, e) =>
      [W.LocalGet(h - 1), W.I32WrapI64, W.LocalSet(Cursor(w)), W.I32Const(BlockIndex(w, t)), W.I32Const(BlockIndex(w, e)),
       W.LocalGet(Cursor(w)), W.Select, W.LocalSet(Cursor(w)), W.Br(LoopDepth(w, k))]
    case Ret => Gets(h - |w.sig.outputs|, |w.sig.outputs|) + [W.Return]
  }

  function TrapCode(code: nat, at: Span): seq<W.Instr> {
    [W.I64Const(code), W.I32Const(at.start), W.I32Const(at.end - at.start), W.CallTrap, W.Unreachable]
  }

  // ---- a whole word ----

  /** A branch names blocks that exist. */
  predicate TargetsExist(w: Word, op: Op) {
    match op
    case Br(t) => FindBlock(w.blocks, t).Some?
    case BrIf(t, e) => FindBlock(w.blocks, t).Some? && FindBlock(w.blocks, e).Some?
    case _ => true
  }

  predicate Emits(w: Word, op: Op, h: int) {
    h >= 0 && Lowered(op) && Reaches(w, op, h) && TargetsExist(w, op)
  }

  /** The code of block `k` from operation `pc` on, entered at height `h`. */
  function EmitFrom(w: Word, k: nat, pc: nat, h: int): Option<seq<W.Instr>>
    requires k < |w.blocks| && pc <= |w.blocks[k].ops|
    decreases |w.blocks[k].ops| - pc
  {
    var ops := w.blocks[k].ops;
    if pc == |ops| then Some([])
    else if !Emits(w, ops[pc], h) then None
    else match EmitFrom(w, k, pc + 1, HeightAfter(w, ops[pc], h))
      case None => None
      case Some(rest) => Some(EmitOp(w, k, ops[pc], h) + rest)
  }

  function EmitBlock(w: Word, k: nat): Option<seq<W.Instr>>
    requires k < |w.blocks|
  {
    EmitFrom(w, k, 0, |w.blocks[k].entry|)
  }

  /** The code of the first `n` blocks, if all of it can be emitted. */
  function EmitBlocks(w: Word, n: nat): (codes: Option<seq<seq<W.Instr>>>)
    requires n <= |w.blocks|
    ensures codes.Some? ==> |codes.value| == n
    ensures codes.Some? ==> forall k :: 0 <= k < n ==> EmitBlock(w, k) == Some(codes.value[k])
  {
    if n == 0 then Some([])
    else match EmitBlocks(w, n - 1)
      case None => None
      case Some(before) => match EmitBlock(w, n - 1) case None => None case Some(c) => Some(before + [c])
  }

  // ---- the dispatch ladder ----

  /** `0, 1, ..., n - 1`. */
  function UpTo(n: nat): (ks: seq<nat>)
    ensures |ks| == n && forall k :: 0 <= k < n ==> ks[k] == k
  {
    seq(n, k => k)
  }

  /** The innermost block: jump to the block whose number is in the cursor. */
  function Header(n: nat, cur: nat): seq<W.Instr> {
    [W.LocalGet(cur), W.BrTable(UpTo(n), 0)]
  }

  /** The inside of the block that ends where the code of block `k + 1` begins. */
  function Rung(codes: seq<seq<W.Instr>>, cur: nat, k: nat): seq<W.Instr>
    requires k < |codes|
  {
    [W.Block(if k == 0 then Header(|codes|, cur) else Rung(codes, cur, k - 1))] + codes[k]
  }

  function LoopBody(codes: seq<seq<W.Instr>>, cur: nat): seq<W.Instr>
    requires codes != []
  {
    [W.Block(Rung(codes, cur, |codes| - 1)), W.Br(0)]
  }

  function Ladder(codes: seq<seq<W.Instr>>, cur: nat): seq<W.Instr>
    requires codes != []
  {
    [W.Loop(LoopBody(codes, cur)), W.Unreachable]
  }

  function Prologue(w: Word): seq<W.Instr> {
    [W.I32Const(BlockIndex(w, w.entry)), W.LocalSet(Cursor(w))]
  }

  /** The body of the function a word becomes. */
  function WordBody(w: Word): Option<seq<W.Instr>>
    requires w.blocks != []
  {
    match EmitBlocks(w, |w.blocks|)
    case None => None
    case Some(codes) => Some(Prologue(w) + (if |codes| == 1 then codes[0] else Ladder(codes, Cursor(w))))
  }

  // ---- the flat stream ----

  datatype Token = OpenBlock | OpenLoop | OpenIf | End | Plain(instr: W.Instr)

  function FlattenOne(i: W.Instr): (ts: seq<Token>)
    ensures ts != [] && ts[0] != End
  {
    match i
    case Block(body) => [OpenBlock] + (Flatten(body) + [End])
    case Loop(body) => [OpenLoop] + (Flatten(body) + [End])
    case If(body) => [OpenIf] + (Flatten(body) + [End])
    case _ => [Plain(i)]
  }

  /** The order in which the bytes of structured code are pushed. */
  function Flatten(code: seq<W.Instr>): (ts: seq<Token>)
    ensures ts == [] <==> code == []
    ensures ts != [] ==> ts[0] != End
  {
    if code == [] then [] else FlattenOne(code[0]) + Flatten(code[1..])
  }

  lemma Assoc(a: seq<Token>, b: seq<Token>, c: seq<Token>)
    ensures (a + b) + c == a + (b + c)
  {
  }

  lemma FlattenCons(i: W.Instr, rest: seq<W.Instr>)
    ensures Flatten([i] + rest) == FlattenOne(i) + Flatten(rest)
  {
    assert ([i] + rest)[1..] == rest;
  }

  lemma FlattenSingle(i: W.Instr)
    ensures Flatten([i]) == FlattenOne(i)
  {
    assert [i][1..] == [];
  }

  lemma {:induction false} FlattenConcat(a: seq<W.Instr>, b: seq<W.Instr>)
    ensures Flatten(a + b) == Flatten(a) + Flatten(b)
    decreases |a|
  {
    if a == [] {
      assert a + b == b;
    } else {
      assert a + b == [a[0]] + (a[1..] + b);
      FlattenCons(a[0], a[1..] + b);
      FlattenConcat(a[1..], b);
      Assoc(FlattenOne(a[0]), Flatten(a[1..]), Flatten(b));
    }
  }

  /** Two streams that agree split at the same place after the same head. */
  lemma SameHead(h: Token, s: seq<Token>, k: Token, t: seq<Token>)
    requires [h] + s == [k] + t
    ensures h == k && s == t
  {
    assert ([h] + s)[0] == ([k] + t)[0];
    assert ([h] + s)[1..] == s && ([k] + t)[1..] == t;
  }

  /** The stream determines the structure: two codes whose streams begin the same
      way, up to the end of the stream or of the enclosing block, are the same. */
  lemma {:induction false} FlattenUnique(a: seq<W.Instr>, b: seq<W.Instr>, x: seq<Token>, y: seq<Token>)
    requires Flatten(a) + x == Flatten(b) + y
    requires x == [] || x[0] == End
    requires y == [] || y[0] == End
    ensures a == b && x == y
    decreases a
  {
    var s, t := Flatten(a) + x, Flatten(b) + y;
    assert a == [] <==> b == [] by {
      assert a != [] ==> s[0] == Flatten(a)[0];
      assert b != [] ==> t[0] == Flatten(b)[0];
      assert a == [] ==> s == x;
      assert b == [] ==> t == y;
    }
    if a == [] {
      assert s == x && t == y;
    } else {
      Assoc(FlattenOne(a[0]), Flatten(a[1..]), x);
      Assoc(FlattenOne(b[0]), Flatten(b[1..]), y);
      FirstUnique(a[0], b[0], Flatten(a[1..]) + x, Flatten(b[1..]) + y);
      FlattenUnique(a[1..], b[1..], x, y);
      assert a == [a[0]] + a[1..] && b == [b[0]] + b[1..];
    }
  }

  lemma {:induction false} FirstUnique(i: W.Instr, j: W.Instr, x: seq<Token>, y: seq<Token>)
    requires FlattenOne(i) + x == FlattenOne(j) + y
    ensures i == j && x == y
    decreases i
  {
    if i.Block? || i.Loop? || i.If? {
      var h := if i.Block? then OpenBlock else if i.Loop? then OpenLoop else OpenIf;
      var inner := Flatten(i.body) + [End];
      assert FlattenOne(i) == [h] + inner;
      Assoc([h], inner, x);
      assert (FlattenOne(j) + y)[0] == h;
      assert j.Block? || j.Loop? || j.If?;
      var other := Flatten(j.body) + [End];
      assert FlattenOne(j) == [h] + other;
      Assoc([h], other, y);
      SameHead(h, inner + x, h, other + y);
      Assoc(Flatten(i.body), [End], x);
      Assoc(Flatten(j.body), [End], y);
      FlattenUnique(i.body, j.body, [End] + x, [End] + y);
      SameHead(End, x, End, y);
    } else {
      assert (FlattenOne(j) + y)[0] == Plain(i);
      SameHead(Plain(i), x, Plain(i), y);
    }
  }

  // ---- the loops of the emitter ----

  function Opens(n: nat): (ts: seq<Token>)
  {
    if n == 0 then [] else [OpenBlock] + Opens(n - 1)
  }

  lemma {:induction false} OpensLast(n: nat)
    ensures Opens(n) + [OpenBlock] == Opens(n + 1)
  {
    if n > 0 {
      OpensLast(n - 1);
      Assoc([OpenBlock], Opens(n - 1), [OpenBlock]);
    }
  }

  /** What follows the header: the blocks' code with an `end` between them. */
  function Cases(codes: seq<seq<W.Instr>>, n: nat): seq<Token>
    requires n <= |codes|
  {
    if n == 0 then [] else Cases(codes, n - 1) + ((if n > 1 then [End] else []) + Flatten(codes[n - 1]))
  }

  lemma {:induction false} RungFlat(codes: seq<seq<W.Instr>>, cur: nat, k: nat)
    requires k < |codes|
    ensures Flatten(Rung(codes, cur, k)) == Opens(k + 1) + ((Flatten(Header(|codes|, cur)) + [End]) + Cases(codes, k + 1))
  {
    var header := Flatten(Header(|codes|, cur)) + [End];
    if k == 0 {
      FlattenCons(W.Block(Header(|codes|, cur)), codes[0]);
      assert Cases(codes, 1) == Flatten(codes[0]);
      assert Opens(1) == [OpenBlock];
      Assoc([OpenBlock], header, Flatten(codes[0]));
    } else {
      RungFlat(codes, cur, k - 1);
      RungStep(Rung(codes, cur, k - 1), codes[k], Opens(k), header, Cases(codes, k));
    }
  }

  lemma RungStep(inner: seq<W.Instr>, code: seq<W.Instr>, opens: seq<Token>, header: seq<Token>, cases: seq<Token>)
    requires Flatten(inner) == opens + (header + cases)
    ensures Flatten([W.Block(inner)] + code) == ([OpenBlock] + opens) + (header + (cases + ([End] + Flatten(code))))
  {
    FlattenCons(W.Block(inner), code);
    RegroupRung([OpenBlock], opens, header, cases, [End], Flatten(code));
  }

  lemma RegroupRung(a: seq<Token>, b: seq<Token>, c: seq<Token>, d: seq<Token>, e: seq<Token>, f: seq<Token>)
    ensures (a + ((b + (c + d)) + e)) + f == (a + b) + (c + (d + (e + f)))
  {
  }

  /** The stream of a ladder: what opens it, the cases, and what closes it. */
  function LadderHead(n: nat, cur: nat): seq<Token> {
    [OpenLoop] + (Opens(n + 1) + (Flatten(Header(n, cur)) + [End]))
  }

  function LadderTail(): seq<Token> {
    [End, Plain(W.Br(0)), End, Plain(W.Unreachable)]
  }

  /** The stream of a ladder around any rung. */
  lemma LoopFlat(rung: seq<W.Instr>)
    ensures Flatten([W.Loop([W.Block(rung), W.Br(0)]), W.Unreachable]) == ([OpenLoop] + ([OpenBlock] + Flatten(rung))) + LadderTail()
  {
    var body := [W.Block(rung)] + [W.Br(0)];
    assert body == [W.Block(rung), W.Br(0)];
    FlattenCons(W.Block(rung), [W.Br(0)]);
    FlattenSingle(W.Br(0));
    FlattenCons(W.Loop(body), [W.Unreachable]);
    FlattenSingle(W.Unreachable);
    assert [W.Loop(body)] + [W.Unreachable] == [W.Loop([W.Block(rung), W.Br(0)]), W.Unreachable];
    var flat := Flatten(rung);
    assert Flatten(body) == ([OpenBlock] + (flat + [End])) + [Plain(W.Br(0))];
    assert ([OpenLoop] + (Flatten(body) + [End])) + [Plain(W.Unreachable)] == ([OpenLoop] + ([OpenBlock] + flat)) + LadderTail();
  }

  lemma LadderFlat(codes: seq<seq<W.Instr>>, cur: nat)
    requires codes != []
    ensures Flatten(Ladder(codes, cur)) == (LadderHead(|codes|, cur) + Cases(codes, |codes|)) + LadderTail()
  {
    var n := |codes|;
    RungFlat(codes, cur, n - 1);
    LoopFlat(Rung(codes, cur, n - 1));
    Regroup([OpenLoop], [OpenBlock], Opens(n), Flatten(Header(n, cur)) + [End], Cases(codes, n));
  }

  lemma Regroup(a: seq<Token>, b: seq<Token>, c: seq<Token>, d: seq<Token>, e: seq<Token>)
    ensures a + (b + (c + (d + e))) == (a + ((b + c) + d)) + e
  {
  }

  lemma PrologueFlat(w: Word)
    ensures Flatten(Prologue(w)) == [Plain(W.I32Const(BlockIndex(w, w.entry))), Plain(W.LocalSet(Cursor(w)))]
  {
    FlattenCons(W.I32Const(BlockIndex(w, w.entry)), [W.LocalSet(Cursor(w))]);
    FlattenSingle(W.LocalSet(Cursor(w)));
    assert Prologue(w) == [W.I32Const(BlockIndex(w, w.entry))] + [W.LocalSet(Cursor(w))];
  }

  lemma HeaderFlat(n: nat, cur: nat)
    ensures Flatten(Header(n, cur)) == [Plain(W.LocalGet(cur)), Plain(W.BrTable(UpTo(n), 0))]
  {
    FlattenCons(W.LocalGet(cur), [W.BrTable(UpTo(n), 0)]);
    FlattenSingle(W.BrTable(UpTo(n), 0));
    assert Header(n, cur) == [W.LocalGet(cur)] + [W.BrTable(UpTo(n), 0)];
  }

  /** The emitter over a block: `h` is stepped operation by operation. */
  method EmitBlockTokens(w: Word, k: nat) returns (r: Option<seq<Token>>)
    requires k < |w.blocks|
    ensures r == match EmitBlock(w, k) case None => None case Some(c) => Some(Flatten(c))
  {
    var ops := w.blocks[k].ops;
    var stream: seq<Token>, h: int, pc := [], |w.blocks[k].entry|, 0;
    ghost var done: seq<W.Instr> := [];
    StartsEmpty(w, k);
    while pc < |ops|
      invariant pc <= |ops| && stream == Flatten(done)
      invariant Continues(EmitBlock(w, k), done, EmitFrom(w, k, pc, h))
    {
      if !Emits(w, ops[pc], h) {
        return None;
      }
      var code := EmitOp(w, k, ops[pc], h);
      stream := stream + Flatten(code);
      FlattenConcat(done, code);
      ContinuesOn(EmitBlock(w, k), done, code, EmitFrom(w, k, pc + 1, HeightAfter(w, ops[pc], h)));
      done := done + code;
      h := HeightAfter(w, ops[pc], h);
      pc := pc + 1;
    }
    assert done + [] == done;
    return Some(stream);
  }

  /** `whole` is what was emitted and then the rest, if there is a rest. */
  ghost predicate Continues(whole: Option<seq<W.Instr>>, done: seq<W.Instr>, rest: Option<seq<W.Instr>>) {
    whole == match rest case None => None case Some(r) => Some(done + r)
  }

  lemma StartsEmpty(w: Word, k: nat)
    requires k < |w.blocks|
    ensures Continues(EmitBlock(w, k), [], EmitFrom(w, k, 0, |w.blocks[k].entry|))
  {
    if EmitBlock(w, k).Some? {
      assert [] + EmitBlock(w, k).value == EmitBlock(w, k).value;
    }
  }

  lemma ContinuesOn(whole: Option<seq<W.Instr>>, done: seq<W.Instr>, code: seq<W.Instr>, rest: Option<seq<W.Instr>>)
    requires Continues(whole, done, match rest case None => None case Some(r) => Some(code + r))
    ensures Continues(whole, done + code, rest)
  {
    if rest.Some? {
      assert done + (code + rest.value) == (done + code) + rest.value;
    }
  }

  /** The opening of the ladder: the loop, a block for each case, the header. */
  method EmitOpening(n: nat, cur: nat) returns (out: seq<Token>)
    requires n > 0
    ensures out == LadderHead(n, cur)
  {
    out := [OpenLoop];
    var depth := 0;
    while depth < n - 1
      invariant depth <= n - 1 && out == [OpenLoop] + Opens(depth)
    {
      OpensLast(depth);
      Assoc([OpenLoop], Opens(depth), [OpenBlock]);
      out := out + [OpenBlock];
      depth := depth + 1;
    }
    OpensLast(n - 1);
    OpensLast(n);
    Assoc([OpenLoop], Opens(n - 1), [OpenBlock]);
    Assoc([OpenLoop], Opens(n), [OpenBlock]);
    out := out + [OpenBlock];
    out := out + [OpenBlock];
    HeaderFlat(n, cur);
    Assoc([OpenLoop], Opens(n + 1), Flatten(Header(n, cur)) + [End]);
    out := out + [Plain(W.LocalGet(cur)), Plain(W.BrTable(UpTo(n), 0)), End];
  }

  lemma CasesStep(w: Word, k: nat, start: seq<Token>)
    requires k < |w.blocks| && EmitBlocks(w, k).Some? && EmitBlock(w, k).Some?
    ensures EmitBlocks(w, k + 1).Some?
    ensures start + Cases(EmitBlocks(w, k + 1).value, k + 1) ==
      (start + Cases(EmitBlocks(w, k).value, k)) + ((if k > 0 then [End] else []) + Flatten(EmitBlock(w, k).value))
  {
    var before := EmitBlocks(w, k).value;
    CasesGrow(before, EmitBlock(w, k).value);
    Assoc(start, Cases(before, k), (if k > 0 then [End] else []) + Flatten(EmitBlock(w, k).value));
  }

  /** The cases, closing a block before each but the first. */
  method EmitCases(w: Word, start: seq<Token>) returns (r: Option<seq<Token>>)
    ensures r == match EmitBlocks(w, |w.blocks|) case None => None case Some(codes) => Some(start + Cases(codes, |codes|))
  {
    var n, k, out := |w.blocks|, 0, start;
    while k < n
      invariant k <= n && EmitBlocks(w, k).Some?
      invariant out == start + Cases(EmitBlocks(w, k).value, k)
    {
      var next := EmitBlockTokens(w, k);
      if next.None? {
        NoBlocks(w, k, n);
        return None;
      }
      CasesStep(w, k, start);
      out := out + ((if k > 0 then [End] else []) + next.value);
      k := k + 1;
    }
    return Some(out);
  }

  /** `emit_word`: the prologue, then the single block, or the opening of the
      ladder, the header, the blocks in order and the closing. */
  method EmitWord(w: Word) returns (r: Option<seq<Token>>)
    requires w.blocks != []
    ensures r == match WordBody(w) case None => None case Some(body) => Some(Flatten(body))
  {
    var n, cur := |w.blocks|, Cursor(w);
    var prologue := [Plain(W.I32Const(BlockIndex(w, w.entry))), Plain(W.LocalSet(cur))];
    PrologueFlat(w);
    if n == 1 {
      var only := EmitBlockTokens(w, 0);
      OneBlock(w);
      if only.None? {
        return None;
      }
      FlattenConcat(Prologue(w), EmitBlock(w, 0).value);
      return Some(prologue + only.value);
    }
    var opening := EmitOpening(n, cur);
    var cases := EmitCases(w, opening);
    if cases.None? {
      return None;
    }
    LadderFlat(EmitBlocks(w, n).value, cur);
    FlattenConcat(Prologue(w), Ladder(EmitBlocks(w, n).value, cur));
    return Some(prologue + (cases.value + LadderTail()));
  }

  lemma OneBlock(w: Word)
    requires |w.blocks| == 1
    ensures EmitBlocks(w, 1) == match EmitBlock(w, 0) case None => None case Some(c) => Some([c])
  {
    assert EmitBlocks(w, 0) == Some([]);
    if EmitBlock(w, 0).Some? {
      assert [] + [EmitBlock(w, 0).value] == [EmitBlock(w, 0).value];
    }
  }

  lemma {:induction false} NoBlocks(w: Word, k: nat, n: nat)
    requires k < n <= |w.blocks| && EmitBlock(w, k) == None
    ensures EmitBlocks(w, n) == None
  {
    if k < n - 1 {
      NoBlocks(w, k, n - 1);
    }
  }

  lemma CasesGrow(codes: seq<seq<W.Instr>>, c: seq<W.Instr>)
    ensures Cases(codes + [c], |codes| + 1) == Cases(codes, |codes|) + ((if |codes| > 0 then [End] else []) + Flatten(c))
  {
    CasesPrefix(codes, c, |codes|);
  }

  lemma {:induction false} CasesPrefix(codes: seq<seq<W.Instr>>, c: seq<W.Instr>, n: nat)
    requires n <= |codes|
    ensures Cases(codes + [c], n) == Cases(codes, n)
  {
    if n > 0 {
      CasesPrefix(codes, c, n - 1);
    }
  }
}
