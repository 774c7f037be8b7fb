/** The verifier is sound for the machine: a module of verified words whose call
    sites agree with their callees never gets stuck, and what lies on the data
    stack below a word's arguments is never touched, at any call depth. */
module VerifierSoundness {
  import opened Rings
  import opened Ir
  import opened Words
  import opened Verifier
  import opened IrMachine

  // ---- what the verifier knows at each point of a block ----

  /** The verifier's stack before operation `pc` of block `k`. */
  ghost function StackAt(w: Word, k: nat, pc: nat): (st: seq<TypeId>)
    requires k < |w.blocks| && pc <= |w.blocks[k].ops|
  {
    if pc == 0 then w.blocks[k].entry
    else match CheckOp(w, w.blocks[k].ops[pc - 1], StackAt(w, k, pc - 1)) case Goes(s) => s case _ => []
  }

  /** The operation is accepted where it stands, and it ends the block exactly if
      it is the last one. */
  ghost predicate PointOk(w: Word, k: nat, pc: nat)
    requires k < |w.blocks| && pc < |w.blocks[k].ops|
  {
    && AccessOk(w, w.blocks[k].ops, pc)
    && match CheckOp(w, w.blocks[k].ops[pc], StackAt(w, k, pc))
       case Goes(_) => pc + 1 < |w.blocks[k].ops|
       case Ends => pc + 1 == |w.blocks[k].ops|
       case Bad(_) => false
  }

  /** An access to a device register is one its aperture and its register allow. */
  ghost predicate AccessOk(w: Word, ops: seq<Op>, pc: nat)
    requires pc < |ops|
  {
    ops[pc].Touch? ==> CheckAccess(w, SitesBefore(ops, pc), ops[pc].access) == 0
  }

  /** Apertures on the bus are bound, emulated ones are not. */
  ghost predicate UsesOk(uses: seq<ApertureUse>) {
    forall i :: 0 <= i < |uses| ==> (uses[i].onBus <==> uses[i].bound)
  }

  ghost predicate NotEmpty(w: Word, k: nat)
    requires k < |w.blocks|
  {
    |w.blocks[k].ops| > 0
  }

  /** What acceptance amounts to, point by point. */
  ghost predicate WellTyped(w: Word) {
    && (match FindBlock(w.blocks, w.entry) case None => false case Some(k) => w.blocks[k].entry == w.sig.inputs)
    && UsesOk(w.apertures)
    && (forall k {:trigger NotEmpty(w, k)} :: 0 <= k < |w.blocks| ==> NotEmpty(w, k))
    && (forall k, pc {:trigger PointOk(w, k, pc)} ::
          0 <= k < |w.blocks| && 0 <= pc < |w.blocks[k].ops| ==> PointOk(w, k, pc))
  }

  /** An operation with its access is accepted exactly if both are. */
  lemma AcceptedAt(w: Word, op: Op, st: seq<TypeId>, sites: seq<Taken>)
    ensures !CheckAt(w, op, st, sites).Bad? <==> !CheckOp(w, op, st).Bad? && (op.Touch? ==> CheckAccess(w, sites, op.access) == 0)
    ensures !CheckAt(w, op, st, sites).Bad? ==> CheckAt(w, op, st, sites) == CheckOp(w, op, st)
  {
    hide CheckAccess;
    if op.Touch? {
      assert CheckOp(w, op, st) == CheckDevice(op.access, st) != Ends;
    }
  }

  lemma {:induction false} CheckedToTheEnd(w: Word, k: nat, from: nat)
    requires k < |w.blocks| && from <= |w.blocks[k].ops|
    ensures CheckFrom(w, w.blocks[k].ops, from, StackAt(w, k, from)) == Ends <==>
      from < |w.blocks[k].ops| && forall pc :: from <= pc < |w.blocks[k].ops| ==> PointOk(w, k, pc)
    decreases |w.blocks[k].ops| - from
  {
    hide CheckOp;
    hide CheckAccess;
    hide CheckAt;
    hide SitesBefore;
    var ops := w.blocks[k].ops;
    if from < |ops| {
      AcceptedAt(w, ops[from], StackAt(w, k, from), SitesBefore(ops, from));
      CheckedToTheEnd(w, k, from + 1);
      assert PointOk(w, k, from) <==>
        AccessOk(w, ops, from) &&
        match CheckOp(w, ops[from], StackAt(w, k, from)) case Goes(_) => from + 1 < |ops| case Ends => from + 1 == |ops| case Bad(_) => false;
    }
  }

  lemma {:induction false} BlocksChecked(w: Word, from: nat)
    requires from <= |w.blocks|
    ensures CheckBlocks(w, from) == Ends <==> forall k :: from <= k < |w.blocks| ==> CheckBlock(w, w.blocks[k]) == Ends
    decreases |w.blocks| - from
  {
    if from < |w.blocks| {
      BlocksChecked(w, from + 1);
    }
  }

  lemma {:induction false} UsesChecked(uses: seq<ApertureUse>)
    ensures CheckUses(uses) == Ends <==> UsesOk(uses)
  {
    if uses != [] {
      var rest := uses[1..];
      UsesChecked(rest);
      if UsesOk(uses) {
        forall i | 0 <= i < |rest| ensures rest[i].onBus <==> rest[i].bound {
          assert rest[i] == uses[i + 1];
        }
      }
      if UsesOk(rest) && (uses[0].onBus <==> uses[0].bound) {
        forall i | 0 <= i < |uses| ensures uses[i].onBus <==> uses[i].bound {
          assert i > 0 ==> uses[i] == rest[i - 1];
        }
      }
    }
  }

  /** `verify_word` accepts exactly the words in which every operation of every
      block is accepted with the types that reach it and the register it touches,
      blocks end in their last operation and nowhere else, the entry block takes the
      declared inputs, and apertures are bound exactly if they are on the bus. */
  lemma AcceptedExactly(w: Word)
    ensures CheckWord(w) == Ends <==> WellTyped(w)
  {
    hide CheckOp;
    hide CheckAccess;
    BlocksChecked(w, 0);
    UsesChecked(w.apertures);
    forall k: nat | k < |w.blocks|
      ensures CheckBlock(w, w.blocks[k]) == Ends <==>
        NotEmpty(w, k) && forall pc :: 0 <= pc < |w.blocks[k].ops| ==> PointOk(w, k, pc)
    {
      CheckedToTheEnd(w, k, 0);
    }
  }

  lemma PushAllBound(st: seq<TypeId>, ts: seq<TypeId>)
    requires PushAll(st, ts).Goes?
    ensures PushAll(st, ts).stack == st + ts
    ensures |st| <= STACK_MAX ==> |st + ts| <= STACK_MAX
    decreases |ts|
  {
    if ts == [] {
      assert st + ts == st;
    } else {
      PushAllBound(st + [ts[0]], ts[1..]);
      assert (st + [ts[0]]) + ts[1..] == st + ts;
    }
  }

  // ---- accesses to device registers ----

  /** All addresses taken before operation `i`. */
  function AllTaken(ops: seq<Op>, i: nat): seq<Taken>
    requires i <= |ops|
  {
    if i == 0 then []
    else
      AllTaken(ops, i - 1) +
      (if ops[i - 1].Touch? && ops[i - 1].access.Place?
       then [Taken(ops[i - 1].access.place, ops[i - 1].access.aperture, ops[i - 1].access.offset)] else [])
  }

  /** The verifier knows the first eight of them. */
  lemma {:induction false} FirstEight(ops: seq<Op>, i: nat)
    requires i <= |ops|
    ensures SitesBefore(ops, i) == AllTaken(ops, i)[..if |AllTaken(ops, i)| < SITES_MAX then |AllTaken(ops, i)| else SITES_MAX]
  {
    if i > 0 {
      FirstEight(ops, i - 1);
    }
  }

  /** The type that is read or written as a whole. */
  function RegisterType(a: Access): TypeId
    requires !a.Place?
  {
    if a.VolLoad? || a.VolStore? then a.ty else a.regTy
  }

  /** The sum stops at 2^32 - 1: that is the only size at which an access past the
      end of its aperture is not seen. */
  lemma InsideExactly(offset: nat, width: nat, size: nat)
    requires size <= U32_MAX
    ensures SaturatingAdd(offset, width) <= size <==> offset + width <= size || size == U32_MAX
  {
  }

  /** In a verified word an access whose place is one of the first eight taken in
      its block lies inside the aperture, unless that has the largest size there is;
      none is wider than its register allows, and a store that has to read first is
      never to a register that minds being read. */
  lemma AccessesAreAllowed(w: Word, k: nat, pc: nat, width: nat)
    requires WellTyped(w) && k < |w.blocks| && pc < |w.blocks[k].ops| && w.blocks[k].ops[pc].Touch?
    requires !w.blocks[k].ops[pc].access.Place? && WidthOf(w, RegisterType(w.blocks[k].ops[pc].access)) == Some(width)
    ensures
      var a := w.blocks[k].ops[pc].access;
      && width * 8 <= a.atomicMax
      && (a.VolStore? && a.readKind == Effectful ==> a.writeKind == PlainWrite)
      && (a.VolStoreField? ==> a.readKind != Effectful)
      && (match FindTaken(SitesBefore(w.blocks[k].ops, pc), a.place)
          case None => true
          case Some(t) =>
            match FindUse(w.apertures, t.aperture)
            case None => false
            case Some(u) => u.size <= U32_MAX ==> t.offset + width <= u.size || u.size == U32_MAX)
  {
    hide CheckOp;
    hide StackAt;
    hide SitesBefore;
    hide FindTaken;
    hide FindUse;
    assert PointOk(w, k, pc);
  }

  /** An address that is taken lies in an aperture the word declares. */
  lemma PlacesAreDeclared(w: Word, k: nat, pc: nat)
    requires WellTyped(w) && k < |w.blocks| && pc < |w.blocks[k].ops| && w.blocks[k].ops[pc].Touch?
    requires w.blocks[k].ops[pc].access.Place?
    ensures
      var a := w.blocks[k].ops[pc].access;
      exists u :: u in w.apertures && u.id == a.aperture && a.offset < u.size && (u.onBus <==> u.bound)
  {
    hide CheckOp;
    hide StackAt;
    assert PointOk(w, k, pc);
    var a := w.blocks[k].ops[pc].access;
    var u := FindUse(w.apertures, a.aperture).value;
    assert u in w.apertures;
  }

  // ---- one operation ----

  /** What an accepted operation pushes. */
  ghost function Pushes(op: Op): seq<TypeId> {
    match op
    case ConstI64(_) => [TY_I64]
    case ConstBool(_) => [TY_BOOL]
    case ConstStr(_) => [TY_STR]
    case AddrOf(_, mutable) => [if mutable then TY_PTR_MUT else TY_PTR]
    case ScopedEnter(ty) => [ty]
    case TaskSpawn(ty) => [ty]
    case PtrAddConst(ty, _) => [ty]
    case PtrAddIndex(ty, _) => [ty]
    case Dup(ty) => [ty, ty]
    case Swap(a, b) => [b, a]
    case Arith(_) => [TY_I64]
    case Cmp(out, _) => [out]
    case AndBool => [TY_BOOL]
    case OrBool => [TY_BOOL]
    case NotBool => [TY_BOOL]
    case LocalGet(_, ty) => [ty]
    case Cast(_, to) => [to]
    case Bitcast(_, to) => [to]
    case Load(ty) => [ty]
    case Touch(a) => Tags(AccessResult(a, 0))
    case _ => []
  }

  lemma DeviceEffect(a: Access, st: seq<TypeId>)
    requires CheckDevice(a, st).Goes?
    ensures Pops(Touch(a)) <= |st|
    ensures CheckDevice(a, st).stack == st[..|st| - Pops(Touch(a))] + Pushes(Touch(a))
    ensures |st| <= STACK_MAX ==> |CheckDevice(a, st).stack| <= STACK_MAX
  {
  }

  lemma CheckedEffect(w: Word, op: Op, st: seq<TypeId>)
    requires IsLocalOp(op) && CheckOp(w, op, st).Goes?
    ensures Pops(op) <= |st|
    ensures CheckOp(w, op, st).stack == st[..|st| - Pops(op)] + Pushes(op)
    ensures |st| <= STACK_MAX ==> |CheckOp(w, op, st).stack| <= STACK_MAX
  {
    hide CheckDevice;
    hide AccessResult;
    if op.Touch? {
      DeviceEffect(op.access, st);
    }
    var below := st[..|st| - Pops(op)];
    if op.PtrAddIndex? {
      assert st[..|st| - 1][..|st| - 2] == below;
    }
    if !op.Touch? && !op.Interrupt? && !op.LocalSet? && !op.Store? {
      assert CheckOp(w, op, st) == PushAll(below, Pushes(op)) || CheckOp(w, op, st) == Push(st, if |Pushes(op)| > 0 then Pushes(op)[0] else 0);
      PushAllBound(below, Pushes(op));
    }
  }

  /** The verifier's stack never outgrows its array. */
  lemma {:induction false} HeightBound(w: Word, k: nat, pc: nat)
    requires WithinCaps(w) && WellTyped(w) && k < |w.blocks| && pc < |w.blocks[k].ops|
    ensures |StackAt(w, k, pc)| <= STACK_MAX
  {
    if pc == 0 {
      assert w.blocks[k] in w.blocks;
    } else {
      HeightBound(w, k, pc - 1);
      assert PointOk(w, k, pc - 1);
      var op, st := w.blocks[k].ops[pc - 1], StackAt(w, k, pc - 1);
      if op.Call? {
        PushAllBound(st[..|st| - |op.sig.inputs|], op.sig.outputs);
      } else if IsLocalOp(op) {
        CheckedEffect(w, op, st);
      }
    }
  }

  /** On operands of the types the verifier saw, an accepted operation goes
      through, or traps if it is a guard, and leaves the types it pushes. */
  lemma ActSound(w: Word, op: Op, xs: seq<Val>, st: seq<TypeId>, locals: map<nat, U64>, input: seq<U64>)
    requires IsLocalOp(op) && CheckOp(w, op, st).Goes?
    requires |xs| == Pops(op) <= |st|
    requires forall i :: 0 <= i < |xs| ==> xs[i].tag == st[|st| - |xs| + i]
    ensures
      match Act(w, op, xs, locals, input)
      case Then(outs, _) => Tags(outs) == Pushes(op)
      case Trap(code, at) => op == TrapIfFalse(code, at) && xs[0].bits == 0
      case Wrong => false
  {
  }

  ghost function Lift(low: seq<Val>, e: Effect): Effect {
    match e
    case Then(data, locals) => Then(low + data, locals)
    case other => other
  }

  lemma RebuildFrame(low: seq<Val>, seg: seq<Val>, k: nat, e: Effect)
    requires k <= |seg|
    ensures (low + seg)[|low + seg| - k..] == seg[|seg| - k..]
    ensures Rebuild(low + seg, k, e) == Lift(low, Rebuild(seg, k, e))
  {
    var data := low + seg;
    assert data[|data| - k..] == seg[|seg| - k..];
    if e.Then? {
      assert data[..|data| - k] + e.data == low + (seg[..|seg| - k] + e.data);
    }
  }

  /** An operation does not see what lies below its operands. */
  lemma ComputeFrame(w: Word, op: Op, low: seq<Val>, seg: seq<Val>, locals: map<nat, U64>, input: seq<U64>)
    requires IsLocalOp(op) && Pops(op) <= |seg|
    ensures Compute(w, op, low + seg, locals, input) == Lift(low, Compute(w, op, seg, locals, input))
  {
    RebuildFrame(low, seg, Pops(op), Act(w, op, seg[|seg| - Pops(op)..], locals, input));
  }

  /** Where the verifier accepts an operation the machine takes exactly the
      operands the verifier counted and leaves exactly the types it says. */
  lemma ComputeSound(w: Word, op: Op, seg: seq<Val>, locals: map<nat, U64>, input: seq<U64>)
    requires IsLocalOp(op) && CheckOp(w, op, Tags(seg)).Goes?
    ensures Pops(op) <= |seg|
    ensures
      match Compute(w, op, seg, locals, input)
      case Then(data, _) => Tags(data) == CheckOp(w, op, Tags(seg)).stack
      case Trap(code, at) => op == TrapIfFalse(code, at)
      case Wrong => false
  {
    hide CheckOp;
    hide Act;
    CheckedEffect(w, op, Tags(seg));
    var k := Pops(op);
    var xs := seg[|seg| - k..];
    ActSound(w, op, xs, Tags(seg), locals, input);
    var e := Act(w, op, xs, locals, input);
    if e.Then? {
      TagsConcat(seg[..|seg| - k], e.data);
      assert Tags(seg[..|seg| - k]) == Tags(seg)[..|seg| - k];
    }
  }

  lemma TagsConcat(a: seq<Val>, b: seq<Val>)
    ensures Tags(a + b) == Tags(a) + Tags(b)
  {
  }
}
