/** What the verifier accepts, said without its checks: a table of the operands each
    operation wants, what it gives, and which error the rest gets. */
module VerifierRules {
  import opened Rings
  import opened Ir
  import opened Verifier
  import opened IrMachine
  import opened VerifierSoundness

  // ---- operands ----

  datatype Want = Any | Same(ty: TypeId) | SubtypeOf(ty: TypeId) | OneOf(tys: set<TypeId>)

  predicate Meets(w: Word, want: Want, got: TypeId) {
    match want
    case Any => true
    case Same(ty) => got == ty
    case SubtypeOf(ty) => TypeOk(w, got, ty)
    case OneOf(tys) => got in tys
  }

  predicate EndsBlock(op: Op) {
    op.Br? || op.BrIf? || op.Ret?
  }

  function SubtypesOf(ts: seq<TypeId>): (ws: seq<Want>)
    ensures |ws| == |ts| && forall i :: 0 <= i < |ts| ==> ws[i] == SubtypeOf(ts[i])
  {
    seq(|ts|, i requires 0 <= i < |ts| => SubtypeOf(ts[i]))
  }

  function AccessWants(a: Access): seq<Want> {
    match a
    case Place(_, _, _) => []
    case VolLoad(_, _, _) => [OneOf({TY_MMIO, TY_PTR, TY_PTR_MUT})]
    case VolStore(ty, _, _, _, _) => [OneOf({TY_MMIO, TY_PTR_MUT}), Same(ty)]
    case VolLoadField(_, _, _, _) => [Same(TY_MMIO)]
    case VolStoreField(_, fieldTy, _, _, _) => [Same(TY_MMIO), Same(fieldTy)]
  }

  /** The operands of an operation that stays in its block, deepest first. */
  function Wants(op: Op): seq<Want> {
    match op
    case PtrAddConst(ty, _) => [Same(ty)]
    case PtrAddIndex(ty, _) => [Same(ty), Same(TY_I64)]
    case Dup(ty) => [Same(ty)]
    case Drop(ty) => [Same(ty)]
    case Swap(a, b) => [Same(a), Same(b)]
    case Arith(_) => [Any, Any]
    case Cmp(_, _) => [Any, Any]
    case AndBool => [Any, Any]
    case OrBool => [Any, Any]
    case NotBool => [Any]
    case LocalSet(_, ty) => [SubtypeOf(ty)]
    case Cast(from, _) => [Same(from)]
    case Bitcast(from, _) => [Same(from)]
    case Load(_) => [OneOf({TY_PTR, TY_PTR_MUT})]
    case Store(ty) => [Same(TY_PTR_MUT), Same(ty)]
    case Touch(a) => AccessWants(a)
    case TrapIfFalse(_, _) => [Same(TY_BOOL)]
    case Call(_, sig) => SubtypesOf(sig.inputs)
    case _ => []
  }

  ghost function Gives(op: Op): seq<TypeId> {
    if op.Call? then op.sig.outputs else Pushes(op)
  }

  /** The stack ends in the operands the operation wants. */
  ghost predicate HasOperands(w: Word, op: Op, st: seq<TypeId>) {
    var n := |Wants(op)|;
    n <= |st| && forall i :: 0 <= i < n ==> Meets(w, Wants(op)[i], st[|st| - n + i])
  }

  /** A scope is only entered at a type that has one. */
  predicate MayEnter(w: Word, op: Op) {
    op.ScopedEnter? ==> op.ty < |w.scoped| && w.scoped[op.ty]
  }

  ghost function AfterOp(op: Op, st: seq<TypeId>): seq<TypeId> {
    (if |Wants(op)| <= |st| then st[..|st| - |Wants(op)|] else []) + Gives(op)
  }

  ghost predicate Admits(w: Word, op: Op, st: seq<TypeId>) {
    MayEnter(w, op) && HasOperands(w, op, st) && |AfterOp(op, st)| <= STACK_MAX
  }

  // ---- errors ----

  /** The error for operands that are there and of the wrong types. */
  function Mismatch(op: Op, top: TypeId): nat {
    match op
    case PtrAddIndex(_, _) => if top != TY_I64 then CALL_INPUT_TYPE_MISMATCH else TYPE_MISMATCH
    case PtrAddConst(_, _) => TYPE_MISMATCH
    case Dup(_) => TYPE_MISMATCH
    case Drop(_) => DROP_TYPE_MISMATCH
    case Swap(_, _) => SWAP_TYPE_MISMATCH
    case Load(_) => LOAD_ADDR_NOT_PTR
    case Store(ty) => if top != ty then STORE_VALUE_TYPE_MISMATCH else STORE_ADDR_NOT_MUT_PTR
    case TrapIfFalse(_, _) => TRAP_IF_FALSE_NOT_BOOL
    case Call(_, _) => CALL_INPUT_TYPE_MISMATCH
    case Touch(a) =>
      if a.VolLoad? then LOAD_ADDR_NOT_PTR
      else if a.VolStore? then (if top != a.ty then STORE_VALUE_TYPE_MISMATCH else STORE_ADDR_NOT_MUT_PTR)
      else if a.VolLoadField? then FIELD_ADDR_NOT_MMIO
      else FIELD_TYPE_MISMATCH
    case _ => LOCAL_TYPE_MISMATCH
  }

  /** The error of an operation that is not accepted: a scope, missing operands, wrong
      operands, or a full stack. An index is looked at before the pointer is missed. */
  ghost function Why(w: Word, op: Op, st: seq<TypeId>): nat {
    var n := |Wants(op)|;
    if !MayEnter(w, op) then SCOPED_ENTER_TYPE_NOT_SCOPED
    else if |st| < n then
      (if op.Call? then CALL_STACK_UNDERFLOW
       else if op.PtrAddIndex? && |st| == 1 && st[0] != TY_I64 then CALL_INPUT_TYPE_MISMATCH
       else POP_EMPTY_STACK)
    else if !HasOperands(w, op, st) then Mismatch(op, if |st| > 0 then st[|st| - 1] else TY_EMPTY)
    else PUSH_FULL_STACK
  }

  lemma {:induction false} PushAllIs(st: seq<TypeId>, ts: seq<TypeId>)
    requires |st| <= STACK_MAX
    ensures PushAll(st, ts) == if |st| + |ts| <= STACK_MAX then Goes(st + ts) else Bad(PUSH_FULL_STACK)
    decreases |ts|
  {
    if ts == [] {
      assert st + [] == st;
    } else if |st| < STACK_MAX {
      PushAllIs(st + [ts[0]], ts[1..]);
      assert (st + [ts[0]]) + ts[1..] == st + ts;
    }
  }

  lemma PushOneIs(st: seq<TypeId>, t: TypeId)
    ensures Push(st, t) == if |st| + 1 <= STACK_MAX then Goes(st + [t]) else Bad(PUSH_FULL_STACK)
  {
  }

  /** Operands one by one. */
  lemma OneOperand(w: Word, op: Op, st: seq<TypeId>)
    requires |Wants(op)| == 1 && |st| >= 1
    ensures HasOperands(w, op, st) <==> Meets(w, Wants(op)[0], st[|st| - 1])
  {
    hide Wants;
    hide Meets;
  }

  lemma TwoOperands(w: Word, op: Op, st: seq<TypeId>)
    requires |Wants(op)| == 2 && |st| >= 2
    ensures HasOperands(w, op, st) <==> Meets(w, Wants(op)[0], st[|st| - 2]) && Meets(w, Wants(op)[1], st[|st| - 1])
  {
    hide Wants;
    hide Meets;
    assert HasOperands(w, op, st) ==> Meets(w, Wants(op)[0], st[|st| - 2 + 0]);
  }

  /** An operation goes through exactly if its operands are there and its results
      have room, and then leaves what the table says; else the error is `Why`. */
  lemma OpByTheRules(w: Word, op: Op, st: seq<TypeId>)
    requires |st| <= STACK_MAX && !EndsBlock(op)
    ensures CheckOp(w, op, st) == if Admits(w, op, st) then Goes(AfterOp(op, st)) else Bad(Why(w, op, st))
  {
    if op.Call? {
      CallByTheRules(w, op, st);
    } else if op.Touch? {
      AccessByTheRules(w, op.access, st);
    } else if |Wants(op)| == 0 {
      NothingTaken(w, op, st);
    } else if |Wants(op)| == 1 {
      OneTaken(w, op, st);
    } else {
      TwoTaken(w, op, st);
    }
  }

  lemma CallByTheRules(w: Word, op: Op, st: seq<TypeId>)
    requires |st| <= STACK_MAX && op.Call?
    ensures CheckOp(w, op, st) == if Admits(w, op, st) then Goes(AfterOp(op, st)) else Bad(Why(w, op, st))
  {
    var need := |op.sig.inputs|;
    if |st| >= need {
      var args := st[|st| - need..];
      assert AllOk(w, args, op.sig.inputs) <==> HasOperands(w, op, st) by {
        assert forall i :: 0 <= i < need ==> args[i] == st[|st| - need + i];
      }
      PushAllIs(st[..|st| - need], op.sig.outputs);
    }
  }

  lemma AccessByTheRules(w: Word, a: Access, st: seq<TypeId>)
    requires |st| <= STACK_MAX
    ensures CheckOp(w, Touch(a), st) == if Admits(w, Touch(a), st) then Goes(AfterOp(Touch(a), st)) else Bad(Why(w, Touch(a), st))
  {
    hide HasOperands;
    if a.Place? {
      NoOperands(w, Touch(a), st);
      assert st[..|st|] == st;
    } else if a.VolLoad? || a.VolLoadField? {
      if st != [] {
        OneOperand(w, Touch(a), st);
      } else {
        NoOperands(w, Touch(a), st);
      }
    } else if |st| >= 2 {
      TwoOperands(w, Touch(a), st);
      assert st[..|st| - 2] + [] == st[..|st| - 2];
    } else {
      NoOperands(w, Touch(a), st);
    }
  }

  lemma NoOperands(w: Word, op: Op, st: seq<TypeId>)
    ensures |Wants(op)| == 0 ==> HasOperands(w, op, st)
    ensures |st| < |Wants(op)| ==> !HasOperands(w, op, st)
  {
  }

  lemma NothingTaken(w: Word, op: Op, st: seq<TypeId>)
    requires |st| <= STACK_MAX && !EndsBlock(op) && !op.Call? && !op.Touch? && |Wants(op)| == 0
    ensures CheckOp(w, op, st) == if Admits(w, op, st) then Goes(AfterOp(op, st)) else Bad(Why(w, op, st))
  {
    assert st[..|st|] == st && st + [] == st;
  }

  lemma OneTaken(w: Word, op: Op, st: seq<TypeId>)
    requires |st| <= STACK_MAX && !EndsBlock(op) && !op.Call? && !op.Touch? && |Wants(op)| == 1
    ensures CheckOp(w, op, st) == if Admits(w, op, st) then Goes(AfterOp(op, st)) else Bad(Why(w, op, st))
  {
    hide HasOperands;
    hide PushAll;
    hide Consume;
    NoOperands(w, op, st);
    if st != [] {
      OneOperand(w, op, st);
      var below := st[..|st| - 1];
      PushAllIs(below, Pushes(op));
      ConsumeIs(st, 1, Pushes(op));
      assert below + [] == below;
    } else {
      ConsumeIs(st, 1, Pushes(op));
    }
  }

  lemma ConsumeIs(st: seq<TypeId>, n: nat, out: seq<TypeId>)
    ensures Consume(st, n, out) == if |st| < n then Bad(POP_EMPTY_STACK) else PushAll(st[..|st| - n], out)
  {
  }

  lemma TwoTaken(w: Word, op: Op, st: seq<TypeId>)
    requires |st| <= STACK_MAX && !EndsBlock(op) && !op.Call? && !op.Touch? && |Wants(op)| == 2
    ensures CheckOp(w, op, st) == if Admits(w, op, st) then Goes(AfterOp(op, st)) else Bad(Why(w, op, st))
  {
    hide HasOperands;
    hide PushAll;
    NoOperands(w, op, st);
    if |st| >= 2 {
      TwoOperands(w, op, st);
      var below := st[..|st| - 2];
      PushAllIs(below, Pushes(op));
      assert below + [] == below && st[..|st| - 1][..|st| - 2] == below;
    }
  }

  // ---- the ends of blocks ----

  /** Block `k` is the first one with this id. */
  ghost predicate IsNamed(w: Word, id: nat, k: nat) {
    k < |w.blocks| && w.blocks[k].id == id && forall j :: 0 <= j < k ==> w.blocks[j].id != id
  }

  lemma {:induction false} FindBlockIs(blocks: seq<Block>, id: nat)
    ensures
      match FindBlock(blocks, id)
      case Some(k) => k < |blocks| && blocks[k].id == id && forall j :: 0 <= j < k ==> blocks[j].id != id
      case None => forall j :: 0 <= j < |blocks| ==> blocks[j].id != id
    decreases |blocks|
  {
    if blocks != [] && blocks[0].id != id {
      FindBlockIs(blocks[1..], id);
    }
  }

  /** The block of that name declares this entry stack. */
  ghost predicate Leads(w: Word, id: nat, st: seq<TypeId>) {
    exists k: nat :: IsNamed(w, id, k) && w.blocks[k].entry == st
  }

  /** The errors of a branch target: there is none, its stack has another height, its
      types are others. */
  ghost function WhyNot(w: Word, id: nat, st: seq<TypeId>, missing: nat, depth: nat, content: nat): nat {
    if !exists k: nat :: IsNamed(w, id, k) then missing
    else if !exists k: nat :: IsNamed(w, id, k) && |w.blocks[k].entry| == |st| then depth
    else content
  }

  lemma TargetByTheRules(w: Word, id: nat, st: seq<TypeId>, missing: nat, depth: nat, content: nat)
    ensures CheckTarget(w, id, st, missing, depth, content) == if Leads(w, id, st) then Ends else Bad(WhyNot(w, id, st, missing, depth, content))
  {
    FindBlockIs(w.blocks, id);
    if FindBlock(w.blocks, id).Some? {
      var k := FindBlock(w.blocks, id).value;
      assert IsNamed(w, id, k);
      forall j: nat | IsNamed(w, id, j) ensures j == k {
      }
    }
  }

  /** Every result is of the declared type or a subtype of it. */
  ghost predicate Returns(w: Word, st: seq<TypeId>) {
    |st| == |w.sig.outputs| && forall i :: 0 <= i < |st| ==> TypeOk(w, st[i], w.sig.outputs[i])
  }

  ghost predicate MayEnd(w: Word, op: Op, st: seq<TypeId>)
    requires EndsBlock(op)
  {
    match op
    case Br(t) => Leads(w, t, st)
    case BrIf(t, e) => st != [] && st[|st| - 1] == TY_BOOL && Leads(w, t, st[..|st| - 1]) && Leads(w, e, st[..|st| - 1])
    case Ret => Returns(w, st)
  }

  ghost function WhyNoEnd(w: Word, op: Op, st: seq<TypeId>): nat
    requires EndsBlock(op)
  {
    match op
    case Br(t) => WhyNot(w, t, st, BR_TARGET_NOT_FOUND, BR_STACK_DEPTH_MISMATCH, BR_STACK_CONTENT_MISMATCH)
    case BrIf(t, e) =>
      if st == [] then POP_EMPTY_STACK
      else if st[|st| - 1] != TY_BOOL then BR_IF_COND_NOT_BOOL
      else WhyNot(w, if Leads(w, t, st[..|st| - 1]) then e else t, st[..|st| - 1],
                  BR_IF_TARGET_NOT_FOUND, BR_IF_STACK_DEPTH_MISMATCH, BR_IF_STACK_CONTENT_MISMATCH)
    case Ret => if |st| != |w.sig.outputs| then RET_STACK_DEPTH_MISMATCH else RET_OUTPUT_TYPE_MISMATCH
  }

  /** A branch or return ends its block exactly if the types are those its target or
      the signature declares. */
  lemma EndByTheRules(w: Word, op: Op, st: seq<TypeId>)
    requires EndsBlock(op)
    ensures CheckOp(w, op, st) == if MayEnd(w, op, st) then Ends else Bad(WhyNoEnd(w, op, st))
  {
    hide CheckTarget;
    hide Leads;
    hide WhyNot;
    match op
    case Br(t) => TargetByTheRules(w, t, st, BR_TARGET_NOT_FOUND, BR_STACK_DEPTH_MISMATCH, BR_STACK_CONTENT_MISMATCH);
    case BrIf(t, e) =>
      if st != [] {
        var rest := st[..|st| - 1];
        TargetByTheRules(w, t, rest, BR_IF_TARGET_NOT_FOUND, BR_IF_STACK_DEPTH_MISMATCH, BR_IF_STACK_CONTENT_MISMATCH);
        TargetByTheRules(w, e, rest, BR_IF_TARGET_NOT_FOUND, BR_IF_STACK_DEPTH_MISMATCH, BR_IF_STACK_CONTENT_MISMATCH);
      }
    case Ret =>
  }

  // ---- device registers ----

  ghost predicate IsFirstTaken(sites: seq<Taken>, place: nat, i: nat) {
    i < |sites| && sites[i].place == place && forall j :: 0 <= j < i ==> sites[j].place != place
  }

  ghost predicate IsFirstUse(uses: seq<ApertureUse>, id: nat, i: nat) {
    i < |uses| && uses[i].id == id && forall j :: 0 <= j < i ==> uses[j].id != id
  }

  lemma {:induction false} FindTakenIs(sites: seq<Taken>, place: nat)
    ensures FindTaken(sites, place).None? <==> forall j :: 0 <= j < |sites| ==> sites[j].place != place
    ensures forall i: nat :: IsFirstTaken(sites, place, i) ==> FindTaken(sites, place) == Some(sites[i])
    decreases |sites|
  {
    if sites != [] && sites[0].place != place {
      FindTakenIs(sites[1..], place);
      forall i: nat | IsFirstTaken(sites, place, i) ensures FindTaken(sites, place) == Some(sites[i]) {
        assert IsFirstTaken(sites[1..], place, i - 1);
      }
      assert forall j :: 0 <= j < |sites[1..]| ==> sites[1..][j] == sites[j + 1];
      assert (forall j :: 0 <= j < |sites| ==> sites[j].place != place) <==> (forall j :: 0 <= j < |sites[1..]| ==> sites[1..][j].place != place);
    }
  }

  lemma {:induction false} FindUseIs(uses: seq<ApertureUse>, id: nat)
    ensures FindUse(uses, id).None? <==> forall j :: 0 <= j < |uses| ==> uses[j].id != id
    ensures forall i: nat :: IsFirstUse(uses, id, i) ==> FindUse(uses, id) == Some(uses[i])
    decreases |uses|
  {
    if uses != [] && uses[0].id != id {
      FindUseIs(uses[1..], id);
      forall i: nat | IsFirstUse(uses, id, i) ensures FindUse(uses, id) == Some(uses[i]) {
        assert IsFirstUse(uses[1..], id, i - 1);
      }
      assert forall j :: 0 <= j < |uses[1..]| ==> uses[1..][j] == uses[j + 1];
      assert (forall j :: 0 <= j < |uses| ==> uses[j].id != id) <==> (forall j :: 0 <= j < |uses[1..]| ==> uses[1..][j].id != id);
    }
  }

  /** An offset lies in a declared aperture. */
  ghost predicate InAperture(w: Word, id: nat, offset: nat) {
    exists i: nat :: IsFirstUse(w.apertures, id, i) && offset < w.apertures[i].size
  }

  /** `width` bytes from an offset lie in a declared aperture; of one of the largest
      size the end is not looked at. */
  ghost predicate SpanInAperture(w: Word, id: nat, offset: nat, width: nat) {
    exists i: nat :: IsFirstUse(w.apertures, id, i) && (offset + width <= w.apertures[i].size || w.apertures[i].size >= U32_MAX)
  }

  /** The bytes of an access: no more than the register takes at once, and inside its
      aperture if its address is one of those known. */
  ghost predicate WidthAllowed(w: Word, known: seq<Taken>, ty: TypeId, place: nat, atomicMax: nat) {
    match WidthOf(w, ty)
    case None => true
    case Some(width) =>
      && width * 8 <= atomicMax
      && forall i: nat :: IsFirstTaken(known, place, i) ==> SpanInAperture(w, known[i].aperture, known[i].offset, width)
  }

  /** A store that is a read, a change and a write. */
  predicate ReadsFirst(a: Access) {
    a.VolStoreField? || (a.VolStore? && (a.writeKind == W1c || a.writeKind == W1s || a.writeKind == Xor))
  }

  predicate MindsReads(a: Access) {
    (a.VolStore? || a.VolStoreField?) && a.readKind == Effectful
  }

  /** What an access may do: take an address in a declared aperture; or touch bytes
      that are allowed, without a read of a register that minds it. */
  ghost predicate AccessAllowed(w: Word, known: seq<Taken>, a: Access) {
    if a.Place? then InAperture(w, a.aperture, a.offset)
    else !(ReadsFirst(a) && MindsReads(a)) && WidthAllowed(w, known, RegisterType(a), a.place, a.atomicMax)
  }

  lemma UseByTheRules(w: Word, id: nat)
    ensures FindUse(w.apertures, id).None? <==> !exists i: nat :: IsFirstUse(w.apertures, id, i)
    ensures forall i: nat :: IsFirstUse(w.apertures, id, i) ==> FindUse(w.apertures, id) == Some(w.apertures[i])
  {
    FindUseIs(w.apertures, id);
    if FindUse(w.apertures, id).Some? {
      FirstUseExists(w.apertures, id);
    }
  }

  lemma {:induction false} FirstUseExists(uses: seq<ApertureUse>, id: nat)
    requires exists j :: 0 <= j < |uses| && uses[j].id == id
    ensures exists i: nat :: IsFirstUse(uses, id, i)
    decreases |uses|
  {
    if uses[0].id == id {
      assert IsFirstUse(uses, id, 0);
    } else {
      var j :| 0 <= j < |uses| && uses[j].id == id;
      assert uses[1..][j - 1].id == id;
      FirstUseExists(uses[1..], id);
      var i: nat :| IsFirstUse(uses[1..], id, i);
      assert IsFirstUse(uses, id, i + 1);
    }
  }

  lemma {:induction false} FirstTakenExists(sites: seq<Taken>, place: nat)
    requires exists j :: 0 <= j < |sites| && sites[j].place == place
    ensures exists i: nat :: IsFirstTaken(sites, place, i)
    decreases |sites|
  {
    if sites[0].place == place {
      assert IsFirstTaken(sites, place, 0);
    } else {
      var j :| 0 <= j < |sites| && sites[j].place == place;
      assert sites[1..][j - 1].place == place;
      FirstTakenExists(sites[1..], place);
      var i: nat :| IsFirstTaken(sites[1..], place, i);
      assert IsFirstTaken(sites, place, i + 1);
    }
  }

  lemma SpanByTheRules(w: Word, id: nat, offset: nat, width: nat)
    ensures SpanInAperture(w, id, offset, width) <==>
      match FindUse(w.apertures, id) case None => false case Some(u) => SaturatingAdd(offset, width) <= u.size
  {
    UseByTheRules(w, id);
  }

  lemma WidthByTheRules(w: Word, known: seq<Taken>, ty: TypeId, place: nat, atomicMax: nat)
    ensures CheckTyped(w, known, ty, place, atomicMax) == 0 <==> WidthAllowed(w, known, ty, place, atomicMax)
  {
    hide SpanInAperture;
    hide FindUse;
    hide FindTaken;
    FindTakenIs(known, place);
    if WidthOf(w, ty).Some? {
      var width := WidthOf(w, ty).value;
      if FindTaken(known, place).Some? {
        FirstTakenExists(known, place);
        var i: nat :| IsFirstTaken(known, place, i);
        SpanByTheRules(w, known[i].aperture, known[i].offset, width);
        forall j: nat | IsFirstTaken(known, place, j) ensures j == i {
        }
      }
    }
  }

  /** The check of an access gives no error exactly if it is allowed. */
  lemma AccessIsAllowed(w: Word, known: seq<Taken>, a: Access)
    ensures CheckAccess(w, known, a) == 0 <==> AccessAllowed(w, known, a)
  {
    hide WidthAllowed;
    hide CheckTyped;
    if a.Place? {
      UseByTheRules(w, a.aperture);
    } else {
      WidthByTheRules(w, known, RegisterType(a), a.place, a.atomicMax);
    }
  }

  /** The error of an access that is not allowed: no such aperture, or bytes outside
      of it; a read of a register that minds it; more bytes than it takes at once. */
  ghost function WhyForbidden(w: Word, known: seq<Taken>, a: Access): nat {
    if a.Place? then (if exists i: nat :: IsFirstUse(w.apertures, a.aperture, i) then PLACE_OUT_OF_BOUNDS else APERTURE_OUT_OF_RANGE)
    else if ReadsFirst(a) && MindsReads(a) then PHANTOM_READ
    else WhyTooWide(w, known, RegisterType(a), a.place)
  }

  ghost function WhyTooWide(w: Word, known: seq<Taken>, ty: TypeId, place: nat): nat {
    match WidthOf(w, ty)
    case None => 0
    case Some(width) =>
      if exists i: nat :: IsFirstTaken(known, place, i) && !exists j: nat :: IsFirstUse(w.apertures, known[i].aperture, j) then APERTURE_OUT_OF_RANGE
      else if exists i: nat :: IsFirstTaken(known, place, i) && !SpanInAperture(w, known[i].aperture, known[i].offset, width) then PLACE_OUT_OF_BOUNDS
      else OVER_WIDE_ACCESS
  }

  lemma WidthError(w: Word, known: seq<Taken>, ty: TypeId, place: nat, atomicMax: nat)
    requires !WidthAllowed(w, known, ty, place, atomicMax)
    ensures CheckTyped(w, known, ty, place, atomicMax) == WhyTooWide(w, known, ty, place)
  {
    hide SpanInAperture;
    hide FindUse;
    hide FindTaken;
    FindTakenIs(known, place);
    var width := WidthOf(w, ty).value;
    if FindTaken(known, place).Some? {
      FirstTakenExists(known, place);
      var i: nat :| IsFirstTaken(known, place, i);
      SpanByTheRules(w, known[i].aperture, known[i].offset, width);
      UseByTheRules(w, known[i].aperture);
      forall j: nat | IsFirstTaken(known, place, j) ensures j == i {
      }
    }
  }

  /** What the check of an access gives: 0, or the error. */
  lemma AccessByItsRules(w: Word, known: seq<Taken>, a: Access)
    ensures CheckAccess(w, known, a) == if AccessAllowed(w, known, a) then 0 else WhyForbidden(w, known, a)
  {
    hide CheckTyped;
    hide WhyTooWide;
    hide WidthAllowed;
    AccessIsAllowed(w, known, a);
    if a.Place? {
      UseByTheRules(w, a.aperture);
    } else if !AccessAllowed(w, known, a) && !(ReadsFirst(a) && MindsReads(a)) {
      WidthError(w, known, RegisterType(a), a.place, a.atomicMax);
    }
  }

  // ---- whole words ----

  /** The types that reach operation `pc`, by the table. */
  ghost function TypesBefore(w: Word, k: nat, pc: nat): seq<TypeId>
    requires k < |w.blocks| && pc <= |w.blocks[k].ops|
  {
    if pc == 0 then w.blocks[k].entry else AfterOp(w.blocks[k].ops[pc - 1], TypesBefore(w, k, pc - 1))
  }

  /** The first eight addresses taken before it in the block. */
  ghost function Known(ops: seq<Op>, pc: nat): seq<Taken>
    requires pc <= |ops|
  {
    var all := AllTaken(ops, pc);
    if |all| < SITES_MAX then all else all[..SITES_MAX]
  }

  /** What is allowed at a point: the end of the block, if it is its last operation;
      before that an operation whose operands are there and whose access is allowed. */
  ghost predicate Lawful(w: Word, k: nat, pc: nat)
    requires k < |w.blocks| && pc < |w.blocks[k].ops|
  {
    var op, st := w.blocks[k].ops[pc], TypesBefore(w, k, pc);
    if EndsBlock(op) then pc + 1 == |w.blocks[k].ops| && MayEnd(w, op, st)
    else
      && pc + 1 < |w.blocks[k].ops| && Admits(w, op, st)
      && (op.Touch? ==> AccessAllowed(w, Known(w.blocks[k].ops, pc), op.access))
  }

  ghost predicate LawfulWord(w: Word) {
    && Leads(w, w.entry, w.sig.inputs)
    && (forall i :: 0 <= i < |w.apertures| ==> (w.apertures[i].onBus <==> w.apertures[i].bound))
    && (forall k {:trigger NotEmpty(w, k)} :: 0 <= k < |w.blocks| ==> NotEmpty(w, k))
    && (forall k, pc {:trigger Lawful(w, k, pc)} :: 0 <= k < |w.blocks| && 0 <= pc < |w.blocks[k].ops| ==> Lawful(w, k, pc))
  }

  /** Where the types that reach a point are the same and not too many, the verifier
      and the table agree there, and on what reaches the next. */
  lemma PointByTheRules(w: Word, k: nat, pc: nat)
    requires k < |w.blocks| && pc < |w.blocks[k].ops| && StackAt(w, k, pc) == TypesBefore(w, k, pc) && |StackAt(w, k, pc)| <= STACK_MAX
    ensures PointOk(w, k, pc) <==> Lawful(w, k, pc)
    ensures PointOk(w, k, pc) && pc + 1 < |w.blocks[k].ops| ==>
      StackAt(w, k, pc + 1) == TypesBefore(w, k, pc + 1) && |StackAt(w, k, pc + 1)| <= STACK_MAX
  {
    hide CheckOp;
    hide CheckAccess;
    hide AccessAllowed;
    hide HasOperands;
    hide MayEnd;
    hide AllTaken;
    hide SitesBefore;
    var op, st := w.blocks[k].ops[pc], StackAt(w, k, pc);
    if EndsBlock(op) {
      EndByTheRules(w, op, st);
    } else {
      OpByTheRules(w, op, st);
      FirstEight(w.blocks[k].ops, pc);
      assert Known(w.blocks[k].ops, pc) == SitesBefore(w.blocks[k].ops, pc) by {
        var all := AllTaken(w.blocks[k].ops, pc);
        assert all[..|all|] == all;
      }
      if op.Touch? {
        AccessIsAllowed(w, SitesBefore(w.blocks[k].ops, pc), op.access);
      }
    }
  }

  lemma {:induction false} SameTypesReach(w: Word, k: nat, pc: nat)
    requires WithinCaps(w) && k < |w.blocks| && pc < |w.blocks[k].ops|
    requires (forall p :: 0 <= p < pc ==> PointOk(w, k, p)) || (forall p :: 0 <= p < pc ==> Lawful(w, k, p))
    ensures StackAt(w, k, pc) == TypesBefore(w, k, pc) && |StackAt(w, k, pc)| <= STACK_MAX
    ensures PointOk(w, k, pc) <==> Lawful(w, k, pc)
  {
    hide PointOk;
    hide Lawful;
    hide CheckOp;
    hide StackAt;
    hide TypesBefore;
    if pc == 0 {
      StartsAlike(w, k);
    } else {
      SameTypesReach(w, k, pc - 1);
      PointByTheRules(w, k, pc - 1);
    }
    PointByTheRules(w, k, pc);
  }

  lemma StartsAlike(w: Word, k: nat)
    requires WithinCaps(w) && k < |w.blocks|
    ensures StackAt(w, k, 0) == TypesBefore(w, k, 0) && |StackAt(w, k, 0)| <= STACK_MAX
  {
    assert w.blocks[k] in w.blocks;
  }

  /** `verify_word` accepts exactly the words that keep to the rules. */
  lemma AcceptedByTheRules(w: Word)
    requires WithinCaps(w)
    ensures CheckWord(w) == Ends <==> LawfulWord(w)
  {
    hide CheckWord;
    hide PointOk;
    hide Lawful;
    hide StackAt;
    hide TypesBefore;
    AcceptedExactly(w);
    TargetOfEntry(w);
    forall k: nat, pc: nat | k < |w.blocks| && pc < |w.blocks[k].ops| && (WellTyped(w) || LawfulWord(w))
      ensures PointOk(w, k, pc) && Lawful(w, k, pc)
    {
      SameTypesReach(w, k, pc);
    }
  }

  lemma TargetOfEntry(w: Word)
    ensures Leads(w, w.entry, w.sig.inputs) <==>
      match FindBlock(w.blocks, w.entry) case None => false case Some(k) => w.blocks[k].entry == w.sig.inputs
  {
    TargetByTheRules(w, w.entry, w.sig.inputs, 1, 1, 1);
  }
}
