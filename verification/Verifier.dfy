/** The IR verifier: an abstract interpreter of one block over a stack of types,
    as a function (`CheckOp`, `CheckFrom`) and as the loop over an array that the
    source runs. */
module Verifier {
  import opened Rings
  import opened Ir

  // The numbers of the verifier's errors.
  const ENTRY_BLOCK_NOT_FOUND: nat := 9001
  const ENTRY_STACK_LEN_MISMATCH: nat := 9002
  const ENTRY_STACK_TYPE_MISMATCH: nat := 9003
  const CODE_AFTER_TERMINATOR: nat := 9010
  const TYPE_MISMATCH: nat := 9011
  const DROP_TYPE_MISMATCH: nat := 9012
  const SWAP_TYPE_MISMATCH: nat := 9013
  const LOCAL_TYPE_MISMATCH: nat := 9016
  const CALL_STACK_UNDERFLOW: nat := 9017
  const CALL_INPUT_TYPE_MISMATCH: nat := 9018
  const LOAD_ADDR_NOT_PTR: nat := 9019
  const STORE_VALUE_TYPE_MISMATCH: nat := 9020
  const STORE_ADDR_NOT_MUT_PTR: nat := 9021
  const FIELD_ADDR_NOT_MMIO: nat := 9022
  const FIELD_TYPE_MISMATCH: nat := 9023
  const TRAP_IF_FALSE_NOT_BOOL: nat := 9025
  const BR_TARGET_NOT_FOUND: nat := 9026
  const BR_STACK_DEPTH_MISMATCH: nat := 9027
  const BR_STACK_CONTENT_MISMATCH: nat := 9028
  const BR_IF_COND_NOT_BOOL: nat := 9029
  const BR_IF_TARGET_NOT_FOUND: nat := 9030
  const BR_IF_STACK_DEPTH_MISMATCH: nat := 9031
  const BR_IF_STACK_CONTENT_MISMATCH: nat := 9032
  const RET_STACK_DEPTH_MISMATCH: nat := 9033
  const RET_OUTPUT_TYPE_MISMATCH: nat := 9034
  const NOT_TERMINATED: nat := 9035
  const SCOPED_ENTER_TYPE_NOT_SCOPED: nat := 9036
  const APERTURE_OUT_OF_RANGE: nat := 9037
  const PLACE_OUT_OF_BOUNDS: nat := 9038
  const PHANTOM_READ: nat := 9040
  const OVER_WIDE_ACCESS: nat := 9041
  const APERTURE_UNBOUND: nat := 9042
  const APERTURE_EMULATED_BOUND: nat := 9043
  const POP_EMPTY_STACK: nat := 9098
  const PUSH_FULL_STACK: nat := 9099

  /** What checking one operation gives: the stack after it, the end of the
      block, or an error. */
  datatype Checked = Goes(stack: seq<TypeId>) | Ends | Bad(code: nat)

  function Push(st: seq<TypeId>, t: TypeId): Checked {
    if |st| >= STACK_MAX then Bad(PUSH_FULL_STACK) else Goes(st + [t])
  }

  function PushAll(st: seq<TypeId>, ts: seq<TypeId>): (c: Checked)
    decreases |ts|
  {
    if ts == [] then Goes(st)
    else match Push(st, ts[0]) case Goes(s) => PushAll(s, ts[1..]) case bad => bad
  }

  /** Pop one operand of type `t`, then push `out`. */
  function Replace(st: seq<TypeId>, t: TypeId, code: nat, out: seq<TypeId>): Checked {
    if st == [] then Bad(POP_EMPTY_STACK)
    else if st[|st| - 1] != t then Bad(code)
    else PushAll(st[..|st| - 1], out)
  }

  /** Pop `n` operands of any type, then push `out`. */
  function Consume(st: seq<TypeId>, n: nat, out: seq<TypeId>): Checked {
    if |st| < n then Bad(POP_EMPTY_STACK) else PushAll(st[..|st| - n], out)
  }

  function CheckTarget(w: Word, id: nat, st: seq<TypeId>, missing: nat, depth: nat, content: nat): Checked {
    match FindBlock(w.blocks, id)
    case None => Bad(missing)
    case Some(k) =>
      if |w.blocks[k].entry| != |st| then Bad(depth)
      else if w.blocks[k].entry != st then Bad(content)
      else Ends
  }

  predicate AllOk(w: Word, got: seq<TypeId>, want: seq<TypeId>)
    requires |got| == |want|
  {
    forall i :: 0 <= i < |got| ==> TypeOk(w, got[i], want[i])
  }

  function CheckLocal(w: Word, op: Op, st: seq<TypeId>): Checked
    requires IsLocalOp(op)
  {
    match op
    case ConstI64(_) => Push(st, TY_I64)
    case ConstBool(_) => Push(st, TY_BOOL)
    case ConstStr(_) => Push(st, TY_STR)
    case AddrOf(_, mutable) => Push(st, if mutable then TY_PTR_MUT else TY_PTR)
    case ScopedEnter(ty) =>
      if ty < |w.scoped| && w.scoped[ty] then Push(st, ty) else Bad(SCOPED_ENTER_TYPE_NOT_SCOPED)
    case TaskSpawn(ty) => Push(st, ty)
    case PtrAddConst(ty, _) => Replace(st, ty, TYPE_MISMATCH, [ty])
    case PtrAddIndex(ty, _) =>
      if st == [] then Bad(POP_EMPTY_STACK)
      else if st[|st| - 1] != TY_I64 then Bad(CALL_INPUT_TYPE_MISMATCH)
      else Replace(st[..|st| - 1], ty, TYPE_MISMATCH, [ty])
    case Dup(ty) => Replace(st, ty, TYPE_MISMATCH, [ty, ty])
    case Drop(ty) => Replace(st, ty, DROP_TYPE_MISMATCH, [])
    case Swap(a, b) =>
      if |st| < 2 then Bad(POP_EMPTY_STACK)
      else if st[|st| - 1] != b || st[|st| - 2] != a then Bad(SWAP_TYPE_MISMATCH)
      else PushAll(st[..|st| - 2], [b, a])
    case Arith(_) => Consume(st, 2, [TY_I64])
    case Cmp(out, _) => Consume(st, 2, [out])
    case AndBool => Consume(st, 2, [TY_BOOL])
    case OrBool => Consume(st, 2, [TY_BOOL])
    case NotBool => Consume(st, 1, [TY_BOOL])
    case Interrupt(_) => Goes(st)
    case LocalSet(_, ty) =>
      if st == [] then Bad(POP_EMPTY_STACK)
      else if !TypeOk(w, st[|st| - 1], ty) then Bad(LOCAL_TYPE_MISMATCH)
      else Goes(st[..|st| - 1])
    case LocalGet(_, ty) => Push(st, ty)
    case Cast(from, to) => Replace(st, from, LOCAL_TYPE_MISMATCH, [to])
    case Bitcast(from, to) => Replace(st, from, LOCAL_TYPE_MISMATCH, [to])
    case Load(ty) =>
      if st == [] then Bad(POP_EMPTY_STACK)
      else if st[|st| - 1] != TY_PTR && st[|st| - 1] != TY_PTR_MUT then Bad(LOAD_ADDR_NOT_PTR)
      else Push(st[..|st| - 1], ty)
    case Store(ty) =>
      if |st| < 2 then Bad(POP_EMPTY_STACK)
      else if st[|st| - 1] != ty then Bad(STORE_VALUE_TYPE_MISMATCH)
      else if st[|st| - 2] != TY_PTR_MUT then Bad(STORE_ADDR_NOT_MUT_PTR)
      else Goes(st[..|st| - 2])
    case Touch(a) => CheckDevice(a, st)
    case TrapIfFalse(_, _) => Replace(st, TY_BOOL, TRAP_IF_FALSE_NOT_BOOL, [])
  }

  /** The types an operation on a device register takes and leaves. */
  function CheckDevice(a: Access, st: seq<TypeId>): Checked {
    match a
    case Place(_, _, _) => Push(st, TY_MMIO)
    case VolLoad(ty, _, _) =>
      if st == [] then Bad(POP_EMPTY_STACK)
      else if st[|st| - 1] != TY_MMIO && st[|st| - 1] != TY_PTR && st[|st| - 1] != TY_PTR_MUT then Bad(LOAD_ADDR_NOT_PTR)
      else Push(st[..|st| - 1], ty)
    case VolStore(ty, _, _, _, _) =>
      if |st| < 2 then Bad(POP_EMPTY_STACK)
      else if st[|st| - 1] != ty then Bad(STORE_VALUE_TYPE_MISMATCH)
      else if st[|st| - 2] != TY_MMIO && st[|st| - 2] != TY_PTR_MUT then Bad(STORE_ADDR_NOT_MUT_PTR)
      else Goes(st[..|st| - 2])
    case VolLoadField(_, fieldTy, _, _) =>
      if st == [] then Bad(POP_EMPTY_STACK)
      else if st[|st| - 1] != TY_MMIO then Bad(FIELD_ADDR_NOT_MMIO)
      else Push(st[..|st| - 1], fieldTy)
    case VolStoreField(_, fieldTy, _, _, _) =>
      if |st| < 2 then Bad(POP_EMPTY_STACK)
      else if st[|st| - 2] != TY_MMIO || st[|st| - 1] != fieldTy then Bad(FIELD_TYPE_MISMATCH)
      else Goes(st[..|st| - 2])
  }

  // ---- the places of a block ----

  /** An address taken in the block. */
  datatype Taken = Taken(place: nat, aperture: nat, offset: nat)

  const SITES_MAX: nat := 8

  /** The addresses taken before operation `i`, at most eight of them. */
  function SitesBefore(ops: seq<Op>, i: nat): (sites: seq<Taken>)
    requires i <= |ops|
    ensures |sites| <= SITES_MAX
  {
    if i == 0 then [] else NextSites(SitesBefore(ops, i - 1), ops[i - 1])
  }

  function NextSites(sites: seq<Taken>, op: Op): (next: seq<Taken>)
    ensures |sites| <= SITES_MAX ==> |next| <= SITES_MAX
  {
    if op.Touch? && op.access.Place? && |sites| < SITES_MAX
    then sites + [Taken(op.access.place, op.access.aperture, op.access.offset)]
    else sites
  }

  /** The first use of an aperture. */
  function FindUse(uses: seq<ApertureUse>, id: nat): (u: Option<ApertureUse>)
    ensures u.Some? ==> u.value in uses && u.value.id == id
    ensures u.None? ==> forall x :: x in uses ==> x.id != id
  {
    if uses == [] then None else if uses[0].id == id then Some(uses[0]) else FindUse(uses[1..], id)
  }

  /** The first address taken of a place. */
  function FindTaken(sites: seq<Taken>, place: nat): (t: Option<Taken>)
    ensures t.Some? ==> t.value in sites && t.value.place == place
    ensures t.None? ==> forall x :: x in sites ==> x.place != place
  {
    if sites == [] then None else if sites[0].place == place then Some(sites[0]) else FindTaken(sites[1..], place)
  }

  function WidthOf(w: Word, ty: TypeId): Option<nat> {
    if ty < |w.widths| then w.widths[ty] else None
  }

  const U32_MAX: nat := 0xFFFF_FFFF

  /** An offset and a width, added as 32-bit numbers that stop at the largest. */
  function SaturatingAdd(a: nat, b: nat): nat {
    if a + b > U32_MAX then U32_MAX else a + b
  }

  /** An access of `width` bytes at a place: 0, or the error. A place whose address
      was taken in another block is not looked at. */
  function CheckWidth(w: Word, sites: seq<Taken>, place: nat, width: nat, atomicMax: nat): nat {
    match FindTaken(sites, place)
    case None => if width * 8 > atomicMax then OVER_WIDE_ACCESS else 0
    case Some(t) =>
      match FindUse(w.apertures, t.aperture)
      case None => APERTURE_OUT_OF_RANGE
      case Some(u) =>
        if SaturatingAdd(t.offset, width) > u.size then PLACE_OUT_OF_BOUNDS
        else if width * 8 > atomicMax then OVER_WIDE_ACCESS
        else 0
  }

  function CheckTyped(w: Word, sites: seq<Taken>, ty: TypeId, place: nat, atomicMax: nat): nat {
    match WidthOf(w, ty) case None => 0 case Some(width) => CheckWidth(w, sites, place, width, atomicMax)
  }

  /** What an access may do to its register: 0, or the error. */
  function CheckAccess(w: Word, sites: seq<Taken>, a: Access): nat {
    match a
    case Place(_, aperture, offset) =>
      (match FindUse(w.apertures, aperture)
       case None => APERTURE_OUT_OF_RANGE
       case Some(u) => if offset >= u.size then PLACE_OUT_OF_BOUNDS else 0)
    case VolLoad(ty, place, atomicMax) => CheckTyped(w, sites, ty, place, atomicMax)
    case VolStore(ty, place, writeKind, readKind, atomicMax) =>
      if readKind == Effectful && writeKind != PlainWrite then PHANTOM_READ else CheckTyped(w, sites, ty, place, atomicMax)
    case VolLoadField(regTy, _, place, atomicMax) => CheckTyped(w, sites, regTy, place, atomicMax)
    case VolStoreField(regTy, _, place, readKind, atomicMax) =>
      if readKind == Effectful then PHANTOM_READ else CheckTyped(w, sites, regTy, place, atomicMax)
  }

  /** An address is looked up before it is pushed; of the other accesses the types
      come first. */
  function CheckAt(w: Word, op: Op, st: seq<TypeId>, sites: seq<Taken>): Checked {
    if !op.Touch? || CheckAccess(w, sites, op.access) == 0 then CheckOp(w, op, st)
    else if op.access.Place? then Bad(CheckAccess(w, sites, op.access))
    else match CheckOp(w, op, st) case Goes(_) => Bad(CheckAccess(w, sites, op.access)) case other => other
  }

  function CheckCall(w: Word, sig: Sig, st: seq<TypeId>): Checked {
    var need := |sig.inputs|;
    if |st| < need then Bad(CALL_STACK_UNDERFLOW)
    else if !AllOk(w, st[|st| - need..], sig.inputs) then Bad(CALL_INPUT_TYPE_MISMATCH)
    else PushAll(st[..|st| - need], sig.outputs)
  }

  function CheckOp(w: Word, op: Op, st: seq<TypeId>): Checked {
    match op
    case Call(_, sig) => CheckCall(w, sig, st)
    case Br(target) =>
      CheckTarget(w, target, st, BR_TARGET_NOT_FOUND, BR_STACK_DEPTH_MISMATCH, BR_STACK_CONTENT_MISMATCH)
    case BrIf(t, e) =>
      if st == [] then Bad(POP_EMPTY_STACK)
      else if st[|st| - 1] != TY_BOOL then Bad(BR_IF_COND_NOT_BOOL)
      else
        var rest := st[..|st| - 1];
        var first := CheckTarget(w, t, rest, BR_IF_TARGET_NOT_FOUND, BR_IF_STACK_DEPTH_MISMATCH, BR_IF_STACK_CONTENT_MISMATCH);
        if first != Ends then first
        else CheckTarget(w, e, rest, BR_IF_TARGET_NOT_FOUND, BR_IF_STACK_DEPTH_MISMATCH, BR_IF_STACK_CONTENT_MISMATCH)
    case Ret =>
      if |st| != |w.sig.outputs| then Bad(RET_STACK_DEPTH_MISMATCH)
      else if !AllOk(w, st, w.sig.outputs) then Bad(RET_OUTPUT_TYPE_MISMATCH)
      else Ends
    case _ => CheckLocal(w, op, st)
  }

  /** Checking the operations of a block from index `i` on. */
  function CheckFrom(w: Word, ops: seq<Op>, i: nat, st: seq<TypeId>): Checked
    requires i <= |ops|
    decreases |ops| - i
  {
    if i == |ops| then Bad(NOT_TERMINATED)
    else match CheckAt(w, ops[i], st, SitesBefore(ops, i))
      case Goes(s) => CheckFrom(w, ops, i + 1, s)
      case Ends => if i + 1 == |ops| then Ends else Bad(CODE_AFTER_TERMINATOR)
      case Bad(c) => Bad(c)
  }

  function CheckBlock(w: Word, b: Block): Checked {
    CheckFrom(w, b.ops, 0, b.entry)
  }

  function CheckBlocks(w: Word, k: nat): Checked
    requires k <= |w.blocks|
    decreases |w.blocks| - k
  {
    if k == |w.blocks| then Ends
    else match CheckBlock(w, w.blocks[k])
      case Ends => CheckBlocks(w, k + 1)
      case bad => bad
  }

  function CheckWord(w: Word): Checked {
    match FindBlock(w.blocks, w.entry)
    case None => Bad(ENTRY_BLOCK_NOT_FOUND)
    case Some(k) =>
      if |w.blocks[k].entry| != |w.sig.inputs| then Bad(ENTRY_STACK_LEN_MISMATCH)
      else if w.blocks[k].entry != w.sig.inputs then Bad(ENTRY_STACK_TYPE_MISMATCH)
      else match CheckBlocks(w, 0)
        case Ends => CheckUses(w.apertures)
        case bad => bad
  }

  /** An aperture on the bus is bound, an emulated one is not. */
  function CheckUses(uses: seq<ApertureUse>): Checked {
    if uses == [] then Ends
    else if uses[0].onBus && !uses[0].bound then Bad(APERTURE_UNBOUND)
    else if !uses[0].onBus && uses[0].bound then Bad(APERTURE_EMULATED_BOUND)
    else CheckUses(uses[1..])
  }

  // ---- the loop over the array ----

  method PushType(stack: array<TypeId>, sp: nat, t: TypeId) returns (c: nat, sp': nat)
    requires stack.Length == STACK_MAX && sp <= STACK_MAX
    modifies stack
    ensures c == 0 || c == PUSH_FULL_STACK
    ensures c == 0 ==> sp' <= STACK_MAX
    ensures Push(old(stack[..sp]), t) == (if c == 0 then Goes(stack[..sp']) else Bad(c))
  {
    if sp >= stack.Length {
      return PUSH_FULL_STACK, sp;
    }
    stack[sp] := t;
    return 0, sp + 1;
  }

  method PopType(stack: array<TypeId>, sp: nat) returns (c: nat, t: TypeId, sp': nat)
    requires stack.Length == STACK_MAX && sp <= STACK_MAX
    ensures c == (if sp == 0 then POP_EMPTY_STACK else 0)
    ensures sp > 0 ==> sp' == sp - 1 && t == stack[sp']
  {
    if sp == 0 {
      return POP_EMPTY_STACK, TY_EMPTY, sp;
    }
    return 0, stack[sp - 1], sp - 1;
  }

  /** Push the types `ts` in order. */
  method PushTypes(stack: array<TypeId>, sp: nat, ts: seq<TypeId>) returns (c: nat, sp': nat)
    requires stack.Length == STACK_MAX && sp <= STACK_MAX
    modifies stack
    ensures c == 0 ==> sp' <= STACK_MAX
    ensures PushAll(old(stack[..sp]), ts) == (if c == 0 then Goes(stack[..sp']) else Bad(c))
  {
    c, sp' := 0, sp;
    var i := 0;
    assert ts[0..] == ts;
    while i < |ts|
      invariant i <= |ts| && c == 0 && sp' <= STACK_MAX
      invariant PushAll(old(stack[..sp]), ts) == PushAll(stack[..sp'], ts[i..])
    {
      c, sp' := PushType(stack, sp', ts[i]);
      assert ts[i..][1..] == ts[i + 1..];
      if c != 0 {
        return;
      }
      i := i + 1;
    }
  }

  /** `c` is 0 or the error; without an error either the block ends here or the
      stack goes on with height `sp'`. */
  ghost predicate Agrees(want: Checked, c: nat, ends: bool, stack: seq<TypeId>) {
    want == (if c != 0 then Bad(c) else if ends then Ends else Goes(stack))
  }

  /** Pop a type that must be `t`, then push `out`. */
  method ReplaceTop(stack: array<TypeId>, sp: nat, t: TypeId, code: nat, out: seq<TypeId>) returns (c: nat, sp': nat)
    requires stack.Length == STACK_MAX && sp <= STACK_MAX && code != 0
    modifies stack
    ensures c == 0 ==> sp' <= STACK_MAX
    ensures Replace(old(stack[..sp]), t, code, out) == (if c == 0 then Goes(stack[..sp']) else Bad(c))
  {
    var top: TypeId;
    c, top, sp' := PopType(stack, sp);
    if c != 0 {
      return;
    }
    if top != t {
      return code, sp';
    }
    assert stack[..sp'] == stack[..sp][..sp - 1];
    c, sp' := PushTypes(stack, sp', out);
  }

  /** Pop `n` types whatever they are, then push `out`. */
  method ConsumeTop(stack: array<TypeId>, sp: nat, n: nat, out: seq<TypeId>) returns (c: nat, sp': nat)
    requires stack.Length == STACK_MAX && sp <= STACK_MAX
    modifies stack
    ensures c == 0 ==> sp' <= STACK_MAX
    ensures Consume(old(stack[..sp]), n, out) == (if c == 0 then Goes(stack[..sp']) else Bad(c))
  {
    c, sp' := 0, sp;
    var i := 0;
    while i < n
      invariant i <= n && sp' + i == sp && c == 0
      invariant stack[..] == old(stack[..])
    {
      var t: TypeId;
      c, t, sp' := PopType(stack, sp');
      if c != 0 {
        return;
      }
      i := i + 1;
    }
    assert stack[..sp'] == stack[..sp][..sp - n];
    c, sp' := PushTypes(stack, sp', out);
  }

  method VerifyIndex(w: Word, op: Op, stack: array<TypeId>, sp: nat) returns (c: nat, sp': nat)
    requires stack.Length == STACK_MAX && sp <= STACK_MAX && op.PtrAddIndex?
    modifies stack
    ensures c == 0 ==> sp' <= STACK_MAX
    ensures Agrees(CheckOp(w, op, old(stack[..sp])), c, false, if c == 0 then stack[..sp'] else [])
  {
    var idx: TypeId;
    c, idx, sp' := PopType(stack, sp);
    if c != 0 {
      return;
    }
    if idx != TY_I64 {
      return CALL_INPUT_TYPE_MISMATCH, sp';
    }
    assert stack[..sp'] == stack[..sp][..sp - 1];
    c, sp' := ReplaceTop(stack, sp', op.ty, TYPE_MISMATCH, [op.ty]);
  }

  method VerifySwap(w: Word, op: Op, stack: array<TypeId>, sp: nat) returns (c: nat, sp': nat)
    requires stack.Length == STACK_MAX && sp <= STACK_MAX && op.Swap?
    modifies stack
    ensures c == 0 ==> sp' <= STACK_MAX
    ensures Agrees(CheckOp(w, op, old(stack[..sp])), c, false, if c == 0 then stack[..sp'] else [])
  {
    var top: TypeId, below: TypeId;
    c, top, sp' := PopType(stack, sp);
    if c != 0 {
      return;
    }
    c, below, sp' := PopType(stack, sp');
    if c != 0 {
      return;
    }
    if top != op.b || below != op.a {
      return SWAP_TYPE_MISMATCH, sp';
    }
    assert stack[..sp'] == stack[..sp][..sp - 2];
    c, sp' := PushTypes(stack, sp', [top, below]);
  }

  method VerifyStackOp(w: Word, op: Op, stack: array<TypeId>, sp: nat) returns (c: nat, sp': nat)
    requires stack.Length == STACK_MAX && sp <= STACK_MAX
    requires op.Dup? || op.Drop? || op.Swap? || op.PtrAddConst? || op.PtrAddIndex? || op.LocalSet? || op.Cast? || op.Bitcast?
    modifies stack
    ensures c == 0 ==> sp' <= STACK_MAX
    ensures Agrees(CheckOp(w, op, old(stack[..sp])), c, false, if c == 0 then stack[..sp'] else [])
  {
    match op
    case Dup(ty) => c, sp' := ReplaceTop(stack, sp, ty, TYPE_MISMATCH, [ty, ty]);
    case Drop(ty) => c, sp' := ReplaceTop(stack, sp, ty, DROP_TYPE_MISMATCH, []);
    case PtrAddConst(ty, _) => c, sp' := ReplaceTop(stack, sp, ty, TYPE_MISMATCH, [ty]);
    case Cast(from, to) => c, sp' := ReplaceTop(stack, sp, from, LOCAL_TYPE_MISMATCH, [to]);
    case Bitcast(from, to) => c, sp' := ReplaceTop(stack, sp, from, LOCAL_TYPE_MISMATCH, [to]);
    case PtrAddIndex(_, _) => c, sp' := VerifyIndex(w, op, stack, sp);
    case Swap(_, _) => c, sp' := VerifySwap(w, op, stack, sp);
    case LocalSet(_, ty) =>
      var v: TypeId;
      c, v, sp' := PopType(stack, sp);
      if c == 0 {
        if !TypeOk(w, v, ty) {
          return LOCAL_TYPE_MISMATCH, sp';
        }
        assert stack[..sp'] == stack[..sp][..sp - 1];
      }
  }

  method VerifyMemoryOp(w: Word, op: Op, stack: array<TypeId>, sp: nat) returns (c: nat, sp': nat)
    requires stack.Length == STACK_MAX && sp <= STACK_MAX
    requires op.Load? || op.Store? || op.ScopedEnter? || op.Call?
    modifies stack
    ensures c == 0 ==> sp' <= STACK_MAX
    ensures Agrees(CheckOp(w, op, old(stack[..sp])), c, false, if c == 0 then stack[..sp'] else [])
  {
    match op
    case ScopedEnter(ty) =>
      if ty < |w.scoped| && w.scoped[ty] {
        c, sp' := PushType(stack, sp, ty);
      } else {
        return SCOPED_ENTER_TYPE_NOT_SCOPED, sp;
      }
    case Load(ty) =>
      var addr: TypeId;
      c, addr, sp' := PopType(stack, sp);
      if c != 0 {
        return;
      }
      if addr != TY_PTR && addr != TY_PTR_MUT {
        return LOAD_ADDR_NOT_PTR, sp';
      }
      assert stack[..sp'] == stack[..sp][..sp - 1];
      c, sp' := PushType(stack, sp', ty);
    case Store(ty) =>
      var v: TypeId, addr: TypeId;
      c, v, sp' := PopType(stack, sp);
      if c != 0 {
        return;
      }
      c, addr, sp' := PopType(stack, sp');
      if c != 0 {
        return;
      }
      if v != ty {
        return STORE_VALUE_TYPE_MISMATCH, sp';
      }
      if addr != TY_PTR_MUT {
        return STORE_ADDR_NOT_MUT_PTR, sp';
      }
      assert stack[..sp'] == stack[..sp][..sp - 2];
    case Call(_, sig) =>
      c, sp' := VerifyCall(w, sig, stack, sp);
  }

  method VerifyCall(w: Word, sig: Sig, stack: array<TypeId>, sp: nat) returns (c: nat, sp': nat)
    requires stack.Length == STACK_MAX && sp <= STACK_MAX
    modifies stack
    ensures c == 0 ==> sp' <= STACK_MAX
    ensures Agrees(CheckOp(w, Call(0, sig), old(stack[..sp])), c, false, if c == 0 then stack[..sp'] else [])
  {
    var need := |sig.inputs|;
    if sp < need {
      return CALL_STACK_UNDERFLOW, sp;
    }
    ghost var args := stack[..sp][sp - need..];
    var i := 0;
    while i < need
      invariant i <= need && stack[..] == old(stack[..])
      invariant forall j :: 0 <= j < i ==> TypeOk(w, args[j], sig.inputs[j])
    {
      assert args[i] == stack[sp - need + i];
      if !TypeOk(w, stack[sp - need + i], sig.inputs[i]) {
        return CALL_INPUT_TYPE_MISMATCH, sp;
      }
      i := i + 1;
    }
    assert stack[..sp - need] == stack[..sp][..sp - need];
    c, sp' := PushTypes(stack, sp - need, sig.outputs);
  }

  /** The depth and the types a branch target declares. */
  method VerifyTarget(w: Word, id: nat, stack: array<TypeId>, sp: nat, missing: nat, depth: nat, content: nat) returns (c: nat)
    requires stack.Length == STACK_MAX && sp <= STACK_MAX && missing != 0 && depth != 0 && content != 0
    ensures Agrees(CheckTarget(w, id, stack[..sp], missing, depth, content), c, true, [])
  {
    var found := FindBlock(w.blocks, id);
    if found.None? {
      return missing;
    }
    var entry := w.blocks[found.value].entry;
    if |entry| != sp {
      return depth;
    }
    var i := 0;
    while i < sp
      invariant i <= sp
      invariant forall j :: 0 <= j < i ==> entry[j] == stack[j]
    {
      if entry[i] != stack[i] {
        return content;
      }
      i := i + 1;
    }
    assert entry == stack[..sp];
    return 0;
  }

  method VerifyControlOp(w: Word, op: Op, stack: array<TypeId>, sp: nat) returns (c: nat)
    requires stack.Length == STACK_MAX && sp <= STACK_MAX
    requires op.Br? || op.BrIf? || op.Ret?
    ensures Agrees(CheckOp(w, op, stack[..sp]), c, true, [])
  {
    match op
    case Br(target) =>
      c := VerifyTarget(w, target, stack, sp, BR_TARGET_NOT_FOUND, BR_STACK_DEPTH_MISMATCH, BR_STACK_CONTENT_MISMATCH);
    case BrIf(t, e) =>
      var cond: TypeId, sp': nat;
      c, cond, sp' := PopType(stack, sp);
      if c != 0 {
        return;
      }
      if cond != TY_BOOL {
        return BR_IF_COND_NOT_BOOL;
      }
      assert stack[..sp'] == stack[..sp][..sp - 1];
      c := VerifyTarget(w, t, stack, sp', BR_IF_TARGET_NOT_FOUND, BR_IF_STACK_DEPTH_MISMATCH, BR_IF_STACK_CONTENT_MISMATCH);
      if c == 0 {
        c := VerifyTarget(w, e, stack, sp', BR_IF_TARGET_NOT_FOUND, BR_IF_STACK_DEPTH_MISMATCH, BR_IF_STACK_CONTENT_MISMATCH);
      }
    case Ret =>
      if sp != |w.sig.outputs| {
        return RET_STACK_DEPTH_MISMATCH;
      }
      var i := 0;
      while i < sp
        invariant i <= sp
        invariant forall j :: 0 <= j < i ==> TypeOk(w, stack[..sp][j], w.sig.outputs[j])
      {
        assert stack[..sp][i] == stack[i];
        if !TypeOk(w, stack[i], w.sig.outputs[i]) {
          return RET_OUTPUT_TYPE_MISMATCH;
        }
        i := i + 1;
      }
      return 0;
  }

  /** `check_site_bounds` and the width rule behind it. */
  method VerifyWidth(w: Word, sites: array<Taken>, count: nat, ty: TypeId, place: nat, atomicMax: nat) returns (c: nat)
    requires count <= sites.Length
    ensures c == CheckTyped(w, sites[..count], ty, place, atomicMax)
  {
    var width := WidthOf(w, ty);
    if width.None? {
      return 0;
    }
    var i := 0;
    assert sites[..count][0..] == sites[..count];
    while i < count && sites[i].place != place
      invariant i <= count && FindTaken(sites[..count], place) == FindTaken(sites[..count][i..], place)
    {
      assert sites[..count][i..][1..] == sites[..count][i + 1..];
      i := i + 1;
    }
    if i < count {
      assert FindTaken(sites[..count], place) == Some(sites[i]);
      var u := FindUse(w.apertures, sites[i].aperture);
      if u.None? {
        return APERTURE_OUT_OF_RANGE;
      }
      if SaturatingAdd(sites[i].offset, width.value) > u.value.size {
        return PLACE_OUT_OF_BOUNDS;
      }
    }
    return if width.value * 8 > atomicMax then OVER_WIDE_ACCESS else 0;
  }

  /** The address of a register: looked up, noted if there is room, pushed. */
  method VerifyPlace(w: Word, a: Access, stack: array<TypeId>, sp: nat, sites: array<Taken>, count: nat) returns (c: nat, sp': nat, count': nat)
    requires stack.Length == STACK_MAX && sp <= STACK_MAX && sites.Length == SITES_MAX && count <= SITES_MAX && a.Place?
    modifies stack, sites
    ensures c == 0 ==> sp' <= STACK_MAX && count' <= SITES_MAX && sites[..count'] == NextSites(old(sites[..count]), Touch(a))
    ensures Agrees(CheckAt(w, Touch(a), old(stack[..sp]), old(sites[..count])), c, false, if c == 0 then stack[..sp'] else [])
  {
    count' := count;
    var u := FindUse(w.apertures, a.aperture);
    if u.None? {
      return APERTURE_OUT_OF_RANGE, sp, count;
    }
    if a.offset >= u.value.size {
      return PLACE_OUT_OF_BOUNDS, sp, count;
    }
    if count < sites.Length {
      sites[count] := Taken(a.place, a.aperture, a.offset);
      count' := count + 1;
    }
    c, sp' := PushType(stack, sp, TY_MMIO);
  }

  method VerifyLoad(w: Word, a: Access, stack: array<TypeId>, sp: nat, sites: array<Taken>, count: nat) returns (c: nat, sp': nat)
    requires stack.Length == STACK_MAX && sp <= STACK_MAX && count <= sites.Length && (a.VolLoad? || a.VolLoadField?)
    modifies stack
    ensures c == 0 ==> sp' <= STACK_MAX
    ensures Agrees(CheckAt(w, Touch(a), old(stack[..sp]), sites[..count]), c, false, if c == 0 then stack[..sp'] else [])
  {
    hide CheckTyped;
    var top: TypeId;
    c, top, sp' := PopType(stack, sp);
    if c != 0 {
      return;
    }
    assert stack[..sp'] == stack[..sp][..sp - 1];
    match a
    case VolLoad(ty, place, atomicMax) =>
      if top != TY_MMIO && top != TY_PTR && top != TY_PTR_MUT {
        return LOAD_ADDR_NOT_PTR, sp';
      }
      c := VerifyWidth(w, sites, count, ty, place, atomicMax);
      if c == 0 {
        c, sp' := PushType(stack, sp', ty);
      }
    case VolLoadField(regTy, fieldTy, place, atomicMax) =>
      if top != TY_MMIO {
        return FIELD_ADDR_NOT_MMIO, sp';
      }
      c := VerifyWidth(w, sites, count, regTy, place, atomicMax);
      if c == 0 {
        c, sp' := PushType(stack, sp', fieldTy);
      }
  }

  method VerifyStore(w: Word, a: Access, stack: array<TypeId>, sp: nat, sites: array<Taken>, count: nat) returns (c: nat, sp': nat)
    requires stack.Length == STACK_MAX && sp <= STACK_MAX && count <= sites.Length && (a.VolStore? || a.VolStoreField?)
    ensures c == 0 ==> sp' <= STACK_MAX
    ensures Agrees(CheckAt(w, Touch(a), stack[..sp], sites[..count]), c, false, if c == 0 then stack[..sp'] else [])
  {
    hide CheckTyped;
    var top: TypeId, below: TypeId;
    c, top, sp' := PopType(stack, sp);
    if c != 0 {
      return;
    }
    c, below, sp' := PopType(stack, sp');
    if c != 0 {
      return;
    }
    assert stack[..sp'] == stack[..sp][..sp - 2];
    match a
    case VolStore(ty, place, writeKind, readKind, atomicMax) =>
      if top != ty {
        return STORE_VALUE_TYPE_MISMATCH, sp';
      }
      if below != TY_MMIO && below != TY_PTR_MUT {
        return STORE_ADDR_NOT_MUT_PTR, sp';
      }
      if readKind == Effectful && (writeKind == W1s || writeKind == W1c || writeKind == Xor) {
        return PHANTOM_READ, sp';
      }
      c := VerifyWidth(w, sites, count, ty, place, atomicMax);
    case VolStoreField(regTy, fieldTy, place, readKind, atomicMax) =>
      if below != TY_MMIO || top != fieldTy {
        return FIELD_TYPE_MISMATCH, sp';
      }
      if readKind == Effectful {
        return PHANTOM_READ, sp';
      }
      c := VerifyWidth(w, sites, count, regTy, place, atomicMax);
  }

  /** A load or store of a register: the types, then what the access may do. */
  method VerifyAccess(w: Word, a: Access, stack: array<TypeId>, sp: nat, sites: array<Taken>, count: nat) returns (c: nat, sp': nat)
    requires stack.Length == STACK_MAX && sp <= STACK_MAX && count <= sites.Length && !a.Place?
    modifies stack
    ensures c == 0 ==> sp' <= STACK_MAX
    ensures Agrees(CheckAt(w, Touch(a), old(stack[..sp]), sites[..count]), c, false, if c == 0 then stack[..sp'] else [])
  {
    hide CheckAt;
    if a.VolLoad? || a.VolLoadField? {
      c, sp' := VerifyLoad(w, a, stack, sp, sites, count);
    } else {
      c, sp' := VerifyStore(w, a, stack, sp, sites, count);
    }
  }

  method VerifyOp(w: Word, op: Op, stack: array<TypeId>, sp: nat) returns (c: nat, ends: bool, sp': nat)
    requires stack.Length == STACK_MAX && sp <= STACK_MAX && !op.Touch?
    modifies stack
    ensures sp' <= STACK_MAX
    ensures Agrees(CheckOp(w, op, old(stack[..sp])), c, ends, stack[..sp'])
  {
    ends, sp' := false, sp;
    match op {
      case ConstI64(_) => c, sp' := PushType(stack, sp, TY_I64);
      case ConstBool(_) => c, sp' := PushType(stack, sp, TY_BOOL);
      case ConstStr(_) => c, sp' := PushType(stack, sp, TY_STR);
      case AddrOf(_, mutable) => c, sp' := PushType(stack, sp, if mutable then TY_PTR_MUT else TY_PTR);
      case TaskSpawn(ty) => c, sp' := PushType(stack, sp, ty);
      case LocalGet(_, ty) => c, sp' := PushType(stack, sp, ty);
      case Arith(_) => c, sp' := ConsumeTop(stack, sp, 2, [TY_I64]);
      case Cmp(out, _) => c, sp' := ConsumeTop(stack, sp, 2, [out]);
      case AndBool => c, sp' := ConsumeTop(stack, sp, 2, [TY_BOOL]);
      case OrBool => c, sp' := ConsumeTop(stack, sp, 2, [TY_BOOL]);
      case NotBool => c, sp' := ConsumeTop(stack, sp, 1, [TY_BOOL]);
      case TrapIfFalse(_, _) => c, sp' := ReplaceTop(stack, sp, TY_BOOL, TRAP_IF_FALSE_NOT_BOOL, []);
      case Interrupt(_) => c := 0;
      case Br(_) =>
        c := VerifyControlOp(w, op, stack, sp);
        ends := true;
      case BrIf(_, _) =>
        c := VerifyControlOp(w, op, stack, sp);
        ends := true;
      case Ret =>
        c := VerifyControlOp(w, op, stack, sp);
        ends := true;
      case ScopedEnter(_) => c, sp' := VerifyMemoryOp(w, op, stack, sp);
      case Load(_) => c, sp' := VerifyMemoryOp(w, op, stack, sp);
      case Store(_) => c, sp' := VerifyMemoryOp(w, op, stack, sp);
      case Call(_, _) => c, sp' := VerifyMemoryOp(w, op, stack, sp);
      case Dup(_) => c, sp' := VerifyStackOp(w, op, stack, sp);
      case Drop(_) => c, sp' := VerifyStackOp(w, op, stack, sp);
      case Swap(_, _) => c, sp' := VerifyStackOp(w, op, stack, sp);
      case PtrAddConst(_, _) => c, sp' := VerifyStackOp(w, op, stack, sp);
      case PtrAddIndex(_, _) => c, sp' := VerifyStackOp(w, op, stack, sp);
      case LocalSet(_, _) => c, sp' := VerifyStackOp(w, op, stack, sp);
      case Cast(_, _) => c, sp' := VerifyStackOp(w, op, stack, sp);
      case Bitcast(_, _) => c, sp' := VerifyStackOp(w, op, stack, sp);
    }
    if c != 0 {
      sp' := sp;
    }
  }

  /** `verify_block`: 0, or the first error. */
  method VerifyBlock(w: Word, b: Block) returns (c: nat)
    requires |b.entry| <= 32
    ensures Agrees(CheckBlock(w, b), c, true, [])
  {
    hide CheckOp;
    hide CheckAccess;
    var stack := new TypeId[STACK_MAX](_ => TY_EMPTY);
    var sp: nat := 0;
    while sp < |b.entry|
      invariant sp <= |b.entry| && stack[..sp] == b.entry[..sp]
    {
      stack[sp] := b.entry[sp];
      sp := sp + 1;
    }
    assert stack[..sp] == b.entry;
    var sites := new Taken[SITES_MAX](_ => Taken(0, 0, 0));
    var count: nat := 0;
    var terminated := false;
    var i := 0;
    while i < |b.ops|
      invariant i <= |b.ops| && sp <= STACK_MAX && count <= SITES_MAX && sites[..count] == SitesBefore(b.ops, i)
      invariant CheckBlock(w, b) ==
        if terminated then (if i == |b.ops| then Ends else Bad(CODE_AFTER_TERMINATOR))
        else CheckFrom(w, b.ops, i, stack[..sp])
    {
      if terminated {
        return CODE_AFTER_TERMINATOR;
      }
      if b.ops[i].Touch? && b.ops[i].access.Place? {
        c, sp, count := VerifyPlace(w, b.ops[i].access, stack, sp, sites, count);
      } else if b.ops[i].Touch? {
        c, sp := VerifyAccess(w, b.ops[i].access, stack, sp, sites, count);
      } else {
        c, terminated, sp := VerifyOp(w, b.ops[i], stack, sp);
      }
      if c != 0 {
        return;
      }
      i := i + 1;
    }
    return if terminated then 0 else NOT_TERMINATED;
  }

  /** `verify_word`: 0, or the first error. */
  method VerifyWord(w: Word) returns (c: nat)
    requires WithinCaps(w)
    ensures Agrees(CheckWord(w), c, true, [])
  {
    hide CheckBlock;
    var entry := FindBlock(w.blocks, w.entry);
    if entry.None? {
      return ENTRY_BLOCK_NOT_FOUND;
    }
    var declared := w.blocks[entry.value].entry;
    if |declared| != |w.sig.inputs| {
      return ENTRY_STACK_LEN_MISMATCH;
    }
    var i := 0;
    while i < |declared|
      invariant i <= |declared| && declared[..i] == w.sig.inputs[..i]
    {
      if declared[i] != w.sig.inputs[i] {
        return ENTRY_STACK_TYPE_MISMATCH;
      }
      i := i + 1;
    }
    var k := 0;
    while k < |w.blocks|
      invariant k <= |w.blocks|
      invariant CheckWord(w) == match CheckBlocks(w, k) case Ends => CheckUses(w.apertures) case bad => bad
    {
      c := VerifyBlock(w, w.blocks[k]);
      if c != 0 {
        return;
      }
      k := k + 1;
    }
    k := 0;
    assert w.apertures[0..] == w.apertures;
    while k < |w.apertures|
      invariant k <= |w.apertures| && CheckWord(w) == CheckUses(w.apertures[k..])
    {
      var u := w.apertures[k];
      assert w.apertures[k..][1..] == w.apertures[k + 1..];
      if u.onBus && !u.bound {
        return APERTURE_UNBOUND;
      }
      if !u.onBus && u.bound {
        return APERTURE_EMULATED_BOUND;
      }
      k := k + 1;
    }
    return 0;
  }
}
