/** The intermediate representation: words are control-flow graphs of blocks of
    stack operations. A block declares the types of the stack it is entered
    with. */
module Ir {
  import opened Rings

  /** An index into the type table of a word. */
  type TypeId = nat

  const TY_EMPTY: TypeId := 0
  const TY_I64: TypeId := 1
  const TY_BOOL: TypeId := 2
  const TY_STR: TypeId := 3
  const TY_PTR: TypeId := 4
  const TY_PTR_MUT: TypeId := 5
  const TY_MMIO: TypeId := 6

  /** The verifier's stack. */
  const STACK_MAX: nat := 64

  datatype CmpKind = Lt | Le | Gt | Ge | Eq | Ne
  datatype ArithKind = Add | Sub | Mul

  /** A stretch of source text. */
  datatype Span = Span(start: nat, end: nat)

  datatype Sig = Sig(inputs: seq<TypeId>, outputs: seq<TypeId>)

  datatype WriteKind = PlainWrite | W1c | W1s | Xor
  datatype ReadKind = Harmless | Effectful

  /** An operation on a device register: its address, a volatile load or store, or
      one of a field. `atomicMax` is in bits. */
  datatype Access =
    | Place(place: nat, aperture: nat, offset: nat)
    | VolLoad(ty: TypeId, place: nat, atomicMax: nat)
    | VolStore(ty: TypeId, place: nat, writeKind: WriteKind, readKind: ReadKind, atomicMax: nat)
    | VolLoadField(regTy: TypeId, fieldTy: TypeId, place: nat, atomicMax: nat)
    | VolStoreField(regTy: TypeId, fieldTy: TypeId, place: nat, readKind: ReadKind, atomicMax: nat)

  datatype Op =
    | ConstI64(value: U64)
    | ConstBool(flag: bool)
    | ConstStr(literal: nat)
    | AddrOf(place: nat, mutable: bool)
    | ScopedEnter(ty: TypeId)
    | TaskSpawn(ty: TypeId)
    | PtrAddConst(ty: TypeId, offset: U64)
    | PtrAddIndex(ty: TypeId, scale: U64)
    | Dup(ty: TypeId)
    | Drop(ty: TypeId)
    | Swap(a: TypeId, b: TypeId)
    | Arith(arith: ArithKind)
    | Cmp(out: TypeId, kind: CmpKind)
    | AndBool
    | OrBool
    | NotBool
    | Interrupt(enable: bool)
    | LocalSet(slot: nat, ty: TypeId)
    | LocalGet(slot: nat, ty: TypeId)
    | Cast(from: TypeId, to: TypeId)
    | Bitcast(from: TypeId, to: TypeId)
    | Call(name: nat, sig: Sig)
    | Load(ty: TypeId)
    | Store(ty: TypeId)
    | Touch(access: Access)
    | TrapIfFalse(code: nat, at: Span)
    | Br(target: nat)
    | BrIf(thenTarget: nat, elseTarget: nat)
    | Ret

  /** An operation that stays in its block. */
  predicate IsLocalOp(op: Op) {
    !op.Call? && !op.Br? && !op.BrIf? && !op.Ret?
  }

  datatype Block = Block(id: nat, entry: seq<TypeId>, ops: seq<Op>)

  /** The growth of the stack over its height at entry, if it is known. */
  datatype High = Top | Slots(extra: nat)

  /** An aperture a word uses: on the bus or emulated, and whether its base is bound
      into the code. */
  datatype ApertureUse = ApertureUse(id: nat, onBus: bool, size: nat, bound: bool)

  /** `bases[t]` is the declared base of subtype `t`; `scoped[t]` says whether a
      scope may be entered at `t`; `widths[t]` is the width in bytes of a primitive
      type. */
  datatype Word = Word(name: nat, sig: Sig, high: High, entry: nat, blocks: seq<Block>, bases: seq<TypeId>, scoped: seq<bool>,
                       apertures: seq<ApertureUse>, widths: seq<Option<nat>>)

  datatype Option<+T> = None | Some(value: T)

  /** The sizes of the fixed vectors of the representation. */
  predicate WithinCaps(w: Word) {
    && |w.sig.inputs| <= 8 && |w.sig.outputs| <= 8
    && forall b :: b in w.blocks ==> |b.entry| <= 32
  }

  /** The first block with an id. */
  function FindBlock(blocks: seq<Block>, id: nat): (k: Option<nat>)
    ensures k.Some? ==> k.value < |blocks| && blocks[k.value].id == id
    ensures k.None? ==> forall j :: 0 <= j < |blocks| ==> blocks[j].id != id
  {
    if blocks == [] then None
    else if blocks[0].id == id then Some(0)
    else match FindBlock(blocks[1..], id) case Some(k) => Some(k + 1) case None => None
  }

  /** A value of type `got` may be used where `want` is declared: the same type,
      or a subtype of it. */
  predicate TypeOk(w: Word, got: TypeId, want: TypeId) {
    got == want || (got < |w.bases| && w.bases[got] == want)
  }
}
