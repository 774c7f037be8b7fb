/** The wire form of a platform descriptor, and its way back. Records are lists of
    fields: little-endian numbers, discriminants and names. */
module DescriptorCodec {
  import opened Rings
  import opened Ir
  import opened Leb
  import opened Descriptors

  const MAGIC: nat := 0x50445954
  const FORMAT_VER: nat := 6
  const APERTURE_CAP: nat := 8
  const DEVICE_CAP: nat := 16
  const REGISTER_CAP: nat := 128
  const NAME_CAP: nat := 32

  // ---- fields ----

  datatype Field = Num(value: nat, width: nat) | Text(name: Name)

  /** What the decoder expects of a field. It fails on missing bytes where it
      checks for them, and panics where it does not. */
  datatype Shape = Number(width: nat, checked: bool) | Disc(limit: nat, checked: bool) | NameField

  datatype DecodeError =
    Truncated | BadMagic | BadVersion | TooManyApertures | TooManyDevices | TooManyRegisters | BadNameLen | BadKind | TrailingBytes

  datatype Reading<T> = Got(value: T, next: nat) | Fails(error: DecodeError) | Panics

  function Pow256(k: nat): (p: nat)
    ensures p > 0
  {
    if k == 0 then 1 else 256 * Pow256(k - 1)
  }

  function LittleEndian(v: nat, k: nat): (bytes: seq<Byte>)
    ensures |bytes| == k
  {
    if k == 0 then [] else [v % 256] + LittleEndian(v / 256, k - 1)
  }

  function FromLittleEndian(p: seq<Byte>, i: nat, k: nat): nat
    requires i + k <= |p|
    decreases k
  {
    if k == 0 then 0 else p[i] + 256 * FromLittleEndian(p, i + 1, k - 1)
  }

  /** A length does not have to fit its byte here; a name of the representation
      always does. */
  function EncodeField(f: Field): seq<Byte> {
    match f
    case Num(v, w) => LittleEndian(v, w)
    case Text(n) => [|n| % 256] + n
  }

  function EncodeFields(fs: seq<Field>): seq<Byte> {
    if fs == [] then [] else EncodeField(fs[0]) + EncodeFields(fs[1..])
  }

  function Missing(checked: bool): Reading<Field> {
    if checked then Fails(Truncated) else Panics
  }

  function ReadField(s: Shape, p: seq<Byte>, i: nat): Reading<Field> {
    match s
    case Number(w, checked) => if i + w <= |p| then Got(Num(FromLittleEndian(p, i, w), w), i + w) else Missing(checked)
    case Disc(limit, checked) =>
      if i >= |p| then Missing(checked) else if p[i] < limit then Got(Num(p[i], 1), i + 1) else Fails(BadKind)
    case NameField =>
      if i >= |p| then Fails(Truncated)
      else if p[i] > NAME_CAP || i + 1 + p[i] > |p| then Fails(BadNameLen)
      else Got(Text(p[i + 1..i + 1 + p[i]]), i + 1 + p[i])
  }

  function ReadFields(ss: seq<Shape>, p: seq<Byte>, i: nat): (r: Reading<seq<Field>>)
    ensures r.Got? ==> |r.value| == |ss|
    decreases |ss|
  {
    if ss == [] then Got([], i)
    else match ReadField(ss[0], p, i)
      case Got(f, next) => (match ReadFields(ss[1..], p, next) case Got(rest, end) => Got([f] + rest, end) case Fails(e) => Fails(e) case Panics => Panics)
      case Fails(e) => Fails(e)
      case Panics => Panics
  }

  /** A field that a shape reads back as it is. */
  predicate Suits(f: Field, s: Shape) {
    match s
    case Number(w, _) => f.Num? && f.width == w && f.value < Pow256(w)
    case Disc(limit, _) => f.Num? && f.width == 1 && f.value < limit && f.value < 256
    case NameField => f.Text? && |f.name| <= NAME_CAP
  }

  predicate AllSuit(fs: seq<Field>, ss: seq<Shape>) {
    |fs| == |ss| && forall k :: 0 <= k < |fs| ==> Suits(fs[k], ss[k])
  }

  lemma {:induction false} NumberReads(p: seq<Byte>, i: nat, v: nat, k: nat)
    requires v < Pow256(k) && StandsAt(p, i, LittleEndian(v, k))
    ensures i + k <= |p| && FromLittleEndian(p, i, k) == v
    decreases k
  {
    if k > 0 {
      StandsHead(p, i, v % 256, LittleEndian(v / 256, k - 1));
      NumberReads(p, i + 1, v / 256, k - 1);
    }
  }

  lemma FieldReads(p: seq<Byte>, i: nat, f: Field, s: Shape)
    requires Suits(f, s) && StandsAt(p, i, EncodeField(f))
    ensures ReadField(s, p, i) == Got(f, i + |EncodeField(f)|)
  {
    match s
    case Number(w, _) => NumberReads(p, i, f.value, w);
    case Disc(_, _) =>
      assert LittleEndian(f.value, 1) == [f.value] + [];
      StandsHead(p, i, f.value, []);
    case NameField =>
      StandsHead(p, i, |f.name|, f.name);
  }

  /** A record whose fields suit the shapes is read back field by field. */
  lemma {:induction false} FieldsRead(p: seq<Byte>, i: nat, fs: seq<Field>, ss: seq<Shape>)
    requires AllSuit(fs, ss) && StandsAt(p, i, EncodeFields(fs))
    ensures ReadFields(ss, p, i) == Got(fs, i + |EncodeFields(fs)|)
    decreases |fs|
  {
    hide EncodeField;
    hide ReadField;
    if fs != [] {
      StandsSplit(p, i, EncodeField(fs[0]), EncodeFields(fs[1..]));
      FieldReads(p, i, fs[0], ss[0]);
      FieldsRead(p, i + |EncodeField(fs[0])|, fs[1..], ss[1..]);
      assert [fs[0]] + fs[1..] == fs;
    }
  }

  // ---- apertures ----

  function ApertureShapes(): seq<Shape> {
    [Number(2, true), NameField, Disc(2, true), Disc(3, false), Number(8, true), Number(4, true)]
  }

  /** A missing base is written as 0. */
  function ApertureFields(a: Aperture): (fs: seq<Field>)
    ensures |fs| == 6
  {
    [Num(a.id, 2), Text(a.name), Num(a.kind, 1), Num(a.reloc, 1),
     Num(match a.base case None => 0 case Some(b) => b, 8), Num(a.size, 4)]
  }

  function ToAperture(fs: seq<Field>): Reading<Aperture> {
    if |fs| == 6 && fs[0].Num? && fs[1].Text? && fs[2].Num? && fs[3].Num? && fs[4].Num? && fs[4].value < TWO64 && fs[5].Num?
    then Got(Aperture(fs[0].value, fs[1].name, fs[2].value, fs[3].value,
                      if fs[4].value == 0 then None else Some(fs[4].value), fs[5].value), 0)
    else Panics
  }

  function Rebuilt<T>(r: Reading<seq<Field>>, make: seq<Field> -> Reading<T>): Reading<T> {
    match r
    case Got(fs, next) => (match make(fs) case Got(v, _) => Got(v, next) case Fails(e) => Fails(e) case Panics => Panics)
    case Fails(e) => Fails(e)
    case Panics => Panics
  }

  function ReadAperture(p: seq<Byte>, i: nat): Reading<Aperture> {
    Rebuilt(ReadFields(ApertureShapes(), p, i), ToAperture)
  }

  predicate GoodAperture(a: Aperture) {
    a.id < 0x1_0000 && |a.name| <= NAME_CAP && a.kind < 2 && a.reloc < 3 && a.size < 0x1_0000_0000
  }

  /** What an aperture becomes on the way: a base of 0 is lost. */
  function Settle(a: Aperture): Aperture {
    if a.base == Some(0) then a.(base := None) else a
  }

  lemma Powers()
    ensures Pow256(1) == 256 && Pow256(2) == 0x1_0000 && Pow256(4) == 0x1_0000_0000 && Pow256(8) == TWO64
  {
    assert Pow256(3) == 0x100_0000;
    assert Pow256(5) == 0x100_0000_0000;
    assert Pow256(6) == 0x1_0000_0000_0000;
    assert Pow256(7) == 0x100_0000_0000_0000;
  }

  lemma ApertureSuits(a: Aperture)
    requires GoodAperture(a)
    ensures AllSuit(ApertureFields(a), ApertureShapes()) && ToAperture(ApertureFields(a)) == Got(Settle(a), 0)
  {
    hide Pow256;
    Powers();
  }

  function EncodeAperture(a: Aperture): seq<Byte> {
    EncodeFields(ApertureFields(a))
  }

  lemma ApertureReads(p: seq<Byte>, i: nat, a: Aperture)
    requires GoodAperture(a) && StandsAt(p, i, EncodeAperture(a))
    ensures ReadAperture(p, i) == Got(Settle(a), i + |EncodeAperture(a)|)
  {
    hide ApertureFields;
    hide ApertureShapes;
    hide ToAperture;
    ApertureSuits(a);
    FieldsRead(p, i, ApertureFields(a), ApertureShapes());
  }

  // ---- registers ----

  function RegisterShapes(): seq<Shape> {
    [Number(4, true), NameField, Number(1, true), Number(1, true), Number(1, true), Number(1, true), Number(1, true),
     Number(8, true), Number(8, true), Number(1, false), Number(2, true), Number(2, true)]
  }

  function RegisterFields(r: Register): (fs: seq<Field>)
    ensures |fs| == 12
  {
    [Num(r.offset, 4), Text(r.name), Num(r.width, 1), Num(r.access, 1), Num(r.writeKind, 1), Num(r.readKind, 1), Num(r.atomicMax, 1),
     Num(r.mask, 8), Num(r.reset, 8), Num(r.barrier, 1), Num(r.interrupt, 2), Num(r.irq, 2)]
  }

  function ToRegister(fs: seq<Field>): Reading<Register> {
    if |fs| == 12 && fs[1].Text? && (forall k :: 0 <= k < 12 && k != 1 ==> fs[k].Num?)
    then Got(Register(fs[0].value, fs[1].name, fs[2].value, fs[3].value, fs[4].value, fs[5].value, fs[6].value,
                      fs[7].value, fs[8].value, fs[9].value, fs[10].value, fs[11].value), 0)
    else Panics
  }

  function ReadRegister(p: seq<Byte>, i: nat): Reading<Register> {
    Rebuilt(ReadFields(RegisterShapes(), p, i), ToRegister)
  }

  predicate IsByte(n: nat) {
    n < 256
  }

  predicate GoodRegister(r: Register) {
    && r.offset < 0x1_0000_0000 && |r.name| <= NAME_CAP
    && IsByte(r.width) && IsByte(r.access) && IsByte(r.writeKind) && IsByte(r.readKind) && IsByte(r.atomicMax)
    && r.mask < TWO64 && r.reset < TWO64 && IsByte(r.barrier) && r.interrupt < 0x1_0000 && r.irq < 0x1_0000
  }

  lemma RegisterSuits(r: Register)
    requires GoodRegister(r)
    ensures AllSuit(RegisterFields(r), RegisterShapes()) && ToRegister(RegisterFields(r)) == Got(r, 0)
  {
    hide Pow256;
    Powers();
  }

  function EncodeRegister(r: Register): seq<Byte> {
    EncodeFields(RegisterFields(r))
  }

  lemma RegisterReads(p: seq<Byte>, i: nat, r: Register)
    requires GoodRegister(r) && StandsAt(p, i, EncodeRegister(r))
    ensures ReadRegister(p, i) == Got(r, i + |EncodeRegister(r)|)
  {
    hide RegisterFields;
    hide RegisterShapes;
    hide ToRegister;
    RegisterSuits(r);
    FieldsRead(p, i, RegisterFields(r), RegisterShapes());
  }

  // ---- lists of records ----

  function EncodeAll<T>(xs: seq<T>, encode: T -> seq<Byte>): seq<Byte> {
    if xs == [] then [] else encode(xs[0]) + EncodeAll(xs[1..], encode)
  }

  /** `n` records, one after the other. */
  function ReadAll<T>(p: seq<Byte>, i: nat, n: nat, read: (seq<Byte>, nat) -> Reading<T>): Reading<seq<T>>
    decreases n
  {
    if n == 0 then Got([], i)
    else match read(p, i)
      case Got(x, next) =>
        (match ReadAll(p, next, n - 1, read) case Got(rest, end) => Got([x] + rest, end) case Fails(e) => Fails(e) case Panics => Panics)
      case Fails(e) => Fails(e)
      case Panics => Panics
  }

  function Map<T>(xs: seq<T>, f: T -> T): (ys: seq<T>)
    ensures |ys| == |xs| && forall k :: 0 <= k < |xs| ==> ys[k] == f(xs[k])
  {
    seq(|xs|, k requires 0 <= k < |xs| => f(xs[k]))
  }

  /** A record reads back, up to `f`, wherever it stands. */
  ghost predicate ReadsBack<T>(x: T, encode: T -> seq<Byte>, read: (seq<Byte>, nat) -> Reading<T>, f: T -> T) {
    forall p: seq<Byte>, i: nat {:trigger read(p, i)} :: StandsAt(p, i, encode(x)) ==> read(p, i) == Got(f(x), i + |encode(x)|)
  }

  lemma {:induction false} AllRead<T>(p: seq<Byte>, i: nat, xs: seq<T>, encode: T -> seq<Byte>, read: (seq<Byte>, nat) -> Reading<T>, f: T -> T)
    requires StandsAt(p, i, EncodeAll(xs, encode)) && forall k :: 0 <= k < |xs| ==> ReadsBack(xs[k], encode, read, f)
    ensures ReadAll(p, i, |xs|, read) == Got(Map(xs, f), i + |EncodeAll(xs, encode)|)
    decreases |xs|
  {
    if xs == [] {
      assert Map(xs, f) == [];
    } else {
      var next := i + |encode(xs[0])|;
      StandsSplit(p, i, encode(xs[0]), EncodeAll(xs[1..], encode));
      assert ReadsBack(xs[0], encode, read, f);
      assert read(p, i) == Got(f(xs[0]), next);
      AllRead(p, next, xs[1..], encode, read, f);
      assert [f(xs[0])] + Map(xs[1..], f) == Map(xs, f);
    }
  }

  function Same<T>(x: T): T {
    x
  }

  // ---- devices ----

  function DeviceShapes(): seq<Shape> {
    [NameField, NameField, Number(2, true), Number(4, true), Number(1, false)]
  }

  function DeviceFields(d: Device): (fs: seq<Field>)
    ensures |fs| == 5
  {
    [Text(d.mapName), Text(d.instance), Num(d.aperture, 2), Num(d.baseOffset, 4), Num(|d.registers|, 1)]
  }

  function EncodeDevice(d: Device): seq<Byte> {
    EncodeFields(DeviceFields(d)) + EncodeAll(d.registers, EncodeRegister)
  }

  function ReadDevice(p: seq<Byte>, i: nat): Reading<Device> {
    match ReadFields(DeviceShapes(), p, i)
    case Fails(e) => Fails(e)
    case Panics => Panics
    case Got(fs, next) =>
      if !(fs[0].Text? && fs[1].Text? && fs[2].Num? && fs[3].Num? && fs[4].Num?) then Panics
      else if fs[4].value > REGISTER_CAP then Fails(TooManyRegisters)
      else match ReadAll(p, next, fs[4].value, ReadRegister)
        case Got(rs, end) => Got(Device(fs[0].name, fs[1].name, fs[2].value, fs[3].value, rs), end)
        case Fails(e) => Fails(e)
        case Panics => Panics
  }

  ghost predicate GoodDevice(d: Device) {
    && |d.mapName| <= NAME_CAP && |d.instance| <= NAME_CAP && d.aperture < 0x1_0000 && d.baseOffset < 0x1_0000_0000
    && |d.registers| <= REGISTER_CAP && forall k :: 0 <= k < |d.registers| ==> GoodRegister(d.registers[k])
  }

  lemma DeviceSuits(d: Device)
    requires GoodDevice(d)
    ensures AllSuit(DeviceFields(d), DeviceShapes())
  {
    hide Pow256;
    Powers();
  }

  lemma RegistersReadBack(rs: seq<Register>)
    requires forall k :: 0 <= k < |rs| ==> GoodRegister(rs[k])
    ensures forall k :: 0 <= k < |rs| ==> ReadsBack(rs[k], EncodeRegister, ReadRegister, Same)
  {
    hide EncodeRegister;
    hide ReadRegister;
    forall k | 0 <= k < |rs| ensures ReadsBack(rs[k], EncodeRegister, ReadRegister, Same) {
      forall p: seq<Byte>, i: nat | StandsAt(p, i, EncodeRegister(rs[k]))
        ensures ReadRegister(p, i) == Got(Same(rs[k]), i + |EncodeRegister(rs[k])|)
      {
        RegisterReads(p, i, rs[k]);
      }
    }
  }

  lemma DeviceReads(p: seq<Byte>, i: nat, d: Device)
    requires GoodDevice(d) && StandsAt(p, i, EncodeDevice(d))
    ensures ReadDevice(p, i) == Got(d, i + |EncodeDevice(d)|)
  {
    hide ReadFields;
    hide DeviceShapes;
    hide EncodeFields;
    hide EncodeAll;
    hide ReadAll;
    hide AllSuit;
    var head := EncodeFields(DeviceFields(d));
    StandsSplit(p, i, head, EncodeAll(d.registers, EncodeRegister));
    DeviceSuits(d);
    FieldsRead(p, i, DeviceFields(d), DeviceShapes());
    RegistersReadBack(d.registers);
    AllRead(p, i + |head|, d.registers, EncodeRegister, ReadRegister, Same);
    assert Map(d.registers, Same) == d.registers;
  }

  // ---- descriptors ----

  function HeaderFields(d: Descriptor): (fs: seq<Field>) {
    [Num(MAGIC, 4), Num(FORMAT_VER, 1), Num(d.hash, 8), Num(|d.apertures|, 1)]
  }

  function HeaderShapes(): seq<Shape> {
    [Number(4, true), Number(1, true), Number(8, true), Number(1, true)]
  }

  function Encode(d: Descriptor): seq<Byte> {
    EncodeFields(HeaderFields(d)) +
    (EncodeAll(d.apertures, EncodeAperture) +
     (LittleEndian(|d.devices|, 1) + (EncodeAll(d.devices, EncodeDevice) + LittleEndian(d.isrSlots, 4))))
  }

  /** After the devices: the grant, and nothing after it. */
  function ReadEnd(p: seq<Byte>, i: nat, hash: nat, as_: seq<Aperture>, ds: seq<Device>): Reading<Descriptor> {
    if i + 4 > |p| then Fails(Truncated)
    else if i + 4 != |p| then Fails(TrailingBytes)
    else Got(Descriptor(hash, as_, ds, FromLittleEndian(p, i, 4)), i + 4)
  }

  function ReadDevices(p: seq<Byte>, i: nat, hash: nat, as_: seq<Aperture>): Reading<Descriptor> {
    if i >= |p| then Fails(Truncated)
    else if p[i] > DEVICE_CAP then Fails(TooManyDevices)
    else match ReadAll(p, i + 1, p[i], ReadDevice)
      case Got(ds, end) => ReadEnd(p, end, hash, as_, ds)
      case Fails(e) => Fails(e)
      case Panics => Panics
  }

  /** The decoder: the 14 bytes of the header are checked for at once. */
  function Decode(p: seq<Byte>): Reading<Descriptor> {
    if |p| < 14 then Fails(Truncated)
    else if FromLittleEndian(p, 0, 4) != MAGIC then Fails(BadMagic)
    else if p[4] != FORMAT_VER then Fails(BadVersion)
    else if p[13] > APERTURE_CAP then Fails(TooManyApertures)
    else match ReadAll(p, 14, p[13], ReadAperture)
      case Got(as_, end) => ReadDevices(p, end, FromLittleEndian(p, 5, 8), as_)
      case Fails(e) => Fails(e)
      case Panics => Panics
  }

  /** A descriptor within the caps of the representation. */
  ghost predicate WithinLimits(d: Descriptor) {
    && d.hash < TWO64 && d.isrSlots < 0x1_0000_0000
    && |d.apertures| <= APERTURE_CAP && |d.devices| <= DEVICE_CAP
    && (forall k :: 0 <= k < |d.apertures| ==> GoodAperture(d.apertures[k]))
    && (forall k :: 0 <= k < |d.devices| ==> GoodDevice(d.devices[k]))
  }

  lemma AperturesReadBack(as_: seq<Aperture>)
    requires forall k :: 0 <= k < |as_| ==> GoodAperture(as_[k])
    ensures forall k :: 0 <= k < |as_| ==> ReadsBack(as_[k], EncodeAperture, ReadAperture, Settle)
  {
    hide EncodeAperture;
    hide ReadAperture;
    forall k | 0 <= k < |as_| ensures ReadsBack(as_[k], EncodeAperture, ReadAperture, Settle) {
      forall p: seq<Byte>, i: nat | StandsAt(p, i, EncodeAperture(as_[k]))
        ensures ReadAperture(p, i) == Got(Settle(as_[k]), i + |EncodeAperture(as_[k])|)
      {
        ApertureReads(p, i, as_[k]);
      }
    }
  }

  lemma DevicesReadBack(ds: seq<Device>)
    requires forall k :: 0 <= k < |ds| ==> GoodDevice(ds[k])
    ensures forall k :: 0 <= k < |ds| ==> ReadsBack(ds[k], EncodeDevice, ReadDevice, Same)
  {
    hide EncodeDevice;
    hide ReadDevice;
    forall k | 0 <= k < |ds| ensures ReadsBack(ds[k], EncodeDevice, ReadDevice, Same) {
      forall p: seq<Byte>, i: nat | StandsAt(p, i, EncodeDevice(ds[k]))
        ensures ReadDevice(p, i) == Got(Same(ds[k]), i + |EncodeDevice(ds[k])|)
      {
        DeviceReads(p, i, ds[k]);
      }
    }
  }

  lemma EndReads(p: seq<Byte>, i: nat, hash: nat, as_: seq<Aperture>, ds: seq<Device>, isr: nat)
    requires isr < 0x1_0000_0000 && StandsAt(p, i, LittleEndian(isr, 4)) && i + 4 == |p|
    ensures ReadEnd(p, i, hash, as_, ds) == Got(Descriptor(hash, as_, ds, isr), |p|)
  {
    hide Pow256;
    Powers();
    NumberReads(p, i, isr, 4);
  }

  lemma DevicesRead(p: seq<Byte>, i: nat, hash: nat, as_: seq<Aperture>, ds: seq<Device>, isr: nat)
    requires |ds| <= DEVICE_CAP && isr < 0x1_0000_0000 && forall k :: 0 <= k < |ds| ==> GoodDevice(ds[k])
    requires StandsAt(p, i, LittleEndian(|ds|, 1) + (EncodeAll(ds, EncodeDevice) + LittleEndian(isr, 4)))
    requires i + 1 + |EncodeAll(ds, EncodeDevice)| + 4 == |p|
    ensures ReadDevices(p, i, hash, as_) == Got(Descriptor(hash, as_, ds, isr), |p|)
  {
    hide EncodeAll;
    hide ReadAll;
    hide ReadEnd;
    StandsSplit(p, i, LittleEndian(|ds|, 1), EncodeAll(ds, EncodeDevice) + LittleEndian(isr, 4));
    StandsSplit(p, i + 1, EncodeAll(ds, EncodeDevice), LittleEndian(isr, 4));
    assert LittleEndian(|ds|, 1) == [|ds|] + [];
    StandsHead(p, i, |ds|, []);
    DevicesReadBack(ds);
    AllRead(p, i + 1, ds, EncodeDevice, ReadDevice, Same);
    assert Map(ds, Same) == ds;
    EndReads(p, i + 1 + |EncodeAll(ds, EncodeDevice)|, hash, as_, ds, isr);
  }

  lemma HeaderReads(p: seq<Byte>, d: Descriptor)
    requires WithinLimits(d) && StandsAt(p, 0, EncodeFields(HeaderFields(d)))
    ensures |EncodeFields(HeaderFields(d))| == 14 && |p| >= 14
    ensures FromLittleEndian(p, 0, 4) == MAGIC && p[4] == FORMAT_VER && FromLittleEndian(p, 5, 8) == d.hash && p[13] == |d.apertures|
  {
    hide LittleEndian;
    hide FromLittleEndian;
    hide EncodeFields;
    hide StandsAt;
    hide Pow256;
    Powers();
    var a, b, c, e := LittleEndian(MAGIC, 4), LittleEndian(FORMAT_VER, 1), LittleEndian(d.hash, 8), LittleEndian(|d.apertures|, 1);
    HeaderBytes(d);
    StandsSplit(p, 0, a, b + (c + e));
    StandsSplit(p, 4, b, c + e);
    StandsSplit(p, 5, c, e);
    NumberReads(p, 0, MAGIC, 4);
    NumberReads(p, 5, d.hash, 8);
    StandsHead(p, 4, FORMAT_VER, []);
    StandsHead(p, 13, |d.apertures|, []);
  }

  lemma HeaderBytes(d: Descriptor)
    requires |d.apertures| <= APERTURE_CAP
    ensures EncodeFields(HeaderFields(d)) ==
      LittleEndian(MAGIC, 4) + (LittleEndian(FORMAT_VER, 1) + (LittleEndian(d.hash, 8) + LittleEndian(|d.apertures|, 1)))
    ensures LittleEndian(FORMAT_VER, 1) == [FORMAT_VER] + [] && LittleEndian(|d.apertures|, 1) == [|d.apertures|] + []
  {
    var fs := HeaderFields(d);
    var e := LittleEndian(|d.apertures|, 1);
    assert fs[1..][1..][1..][1..] == [] && EncodeFields(fs[1..][1..][1..]) == e + [] == e;
    assert EncodeFields(fs[1..][1..]) == LittleEndian(d.hash, 8) + e;
    assert EncodeFields(fs[1..]) == LittleEndian(FORMAT_VER, 1) + (LittleEndian(d.hash, 8) + e);
  }

  /** What comes back from the encoding: all of the descriptor, with the bases that
      are 0 gone. */
  lemma DecodesTo(d: Descriptor)
    requires WithinLimits(d)
    ensures Decode(Encode(d)) == Got(d.(apertures := Map(d.apertures, Settle)), |Encode(d)|)
  {
    hide EncodeAll;
    hide EncodeFields;
    hide ReadAll;
    hide ReadDevices;
    hide LittleEndian;
    hide FromLittleEndian;
    hide Settle;
    var p := Encode(d);
    var rest := LittleEndian(|d.devices|, 1) + (EncodeAll(d.devices, EncodeDevice) + LittleEndian(d.isrSlots, 4));
    assert StandsAt(p, 0, p);
    StandsSplit(p, 0, EncodeFields(HeaderFields(d)), EncodeAll(d.apertures, EncodeAperture) + rest);
    HeaderReads(p, d);
    StandsSplit(p, 14, EncodeAll(d.apertures, EncodeAperture), rest);
    AperturesReadBack(d.apertures);
    AllRead(p, 14, d.apertures, EncodeAperture, ReadAperture, Settle);
    DevicesRead(p, 14 + |EncodeAll(d.apertures, EncodeAperture)|, d.hash, Map(d.apertures, Settle), d.devices, d.isrSlots);
  }

  /** A descriptor within the caps comes back from its encoding, every byte used,
      exactly if none of its apertures has the base 0. */
  lemma RoundTripExactly(d: Descriptor)
    requires WithinLimits(d)
    ensures Decode(Encode(d)) == Got(d, |Encode(d)|) <==> forall k :: 0 <= k < |d.apertures| ==> d.apertures[k].base != Some(0)
  {
    hide Decode;
    hide Encode;
    DecodesTo(d);
    if forall k :: 0 <= k < |d.apertures| ==> d.apertures[k].base != Some(0) {
      assert Map(d.apertures, Settle) == d.apertures;
    }
  }

  // ---- the cursor over the buffer ----

  /** The output buffer of the encoder and its cursor. */
  class Writer {
    const out: array<Byte>
    var p: nat

    ghost predicate Valid()
      reads this
    {
      p <= out.Length
    }

    ghost function Written(): (bytes: seq<Byte>)
      requires Valid()
      reads this, out
      ensures |bytes| == p
    {
      out[..p]
    }

    constructor (buffer: array<Byte>)
      ensures out == buffer && p == 0 && Valid() && Written() == []
    {
      out := buffer;
      p := 0;
    }

    method Put(b: Byte)
      requires Valid() && p < out.Length
      modifies this`p, out
      ensures Valid() && Written() == old(Written()) + [b]
    {
      out[p] := b;
      p := p + 1;
      assert out[..p] == old(out[..p]) + [b];
    }

    method PutNumber(value: nat, width: nat)
      requires Valid() && p + width <= out.Length
      modifies this`p, out
      ensures Valid() && Written() == old(Written()) + LittleEndian(value, width)
    {
      var v, k := value, 0;
      while k < width
        invariant k <= width && Valid() && p == old(p) + k
        invariant Written() + LittleEndian(v, width - k) == old(Written()) + LittleEndian(value, width)
      {
        ghost var before := Written();
        Put(v % 256);
        assert before + ([v % 256] + LittleEndian(v / 256, width - k - 1)) == Written() + LittleEndian(v / 256, width - k - 1);
        v := v / 256;
        k := k + 1;
      }
    }

    method PutName(n: Name)
      requires Valid() && p + 1 + |n| <= out.Length
      modifies this`p, out
      ensures Valid() && Written() == old(Written()) + EncodeField(Text(n))
    {
      Put(|n| % 256);
      var k := 0;
      while k < |n|
        invariant k <= |n| && Valid() && p == old(p) + 1 + k
        invariant Written() == old(Written()) + ([|n| % 256] + n[..k])
      {
        Put(n[k]);
        assert n[..k + 1] == n[..k] + [n[k]];
        k := k + 1;
      }
      assert n[..k] == n;
    }

    method PutFields(fs: seq<Field>)
      requires Valid() && p + |EncodeFields(fs)| <= out.Length
      modifies this`p, out
      ensures Valid() && Written() == old(Written()) + EncodeFields(fs)
    {
      hide EncodeField;
      var k := 0;
      assert fs[0..] == fs;
      while k < |fs|
        invariant k <= |fs| && Valid() && p + |EncodeFields(fs[k..])| <= out.Length
        invariant Written() + EncodeFields(fs[k..]) == old(Written()) + EncodeFields(fs)
      {
        ghost var before := Written();
        assert fs[k..][1..] == fs[k + 1..];
        PutField(fs[k]);
        assert before + (EncodeField(fs[k]) + EncodeFields(fs[k + 1..])) == Written() + EncodeFields(fs[k + 1..]);
        k := k + 1;
      }
    }

    method PutField(f: Field)
      requires Valid() && p + |EncodeField(f)| <= out.Length
      modifies this`p, out
      ensures Valid() && Written() == old(Written()) + EncodeField(f)
    {
      match f
      case Num(v, w) => PutNumber(v, w);
      case Text(n) => PutName(n);
    }

    method PutRegisters(rs: seq<Register>)
      requires Valid() && p + |EncodeAll(rs, EncodeRegister)| <= out.Length
      modifies this`p, out
      ensures Valid() && Written() == old(Written()) + EncodeAll(rs, EncodeRegister)
    {
      hide RegisterFields;
      hide EncodeFields;
      var k := 0;
      assert rs[0..] == rs;
      while k < |rs|
        invariant k <= |rs| && Valid() && p + |EncodeAll(rs[k..], EncodeRegister)| <= out.Length
        invariant Written() + EncodeAll(rs[k..], EncodeRegister) == old(Written()) + EncodeAll(rs, EncodeRegister)
      {
        ghost var before := Written();
        assert rs[k..][1..] == rs[k + 1..];
        PutFields(RegisterFields(rs[k]));
        Reassociate(before, EncodeRegister(rs[k]), EncodeAll(rs[k + 1..], EncodeRegister));
        k := k + 1;
      }
    }

    method PutDevices(ds: seq<Device>)
      requires Valid() && p + |EncodeAll(ds, EncodeDevice)| <= out.Length
      modifies this`p, out
      ensures Valid() && Written() == old(Written()) + EncodeAll(ds, EncodeDevice)
    {
      hide DeviceFields;
      hide EncodeFields;
      hide EncodeRegister;
      var k := 0;
      assert ds[0..] == ds;
      while k < |ds|
        invariant k <= |ds| && Valid() && p + |EncodeAll(ds[k..], EncodeDevice)| <= out.Length
        invariant Written() + EncodeAll(ds[k..], EncodeDevice) == old(Written()) + EncodeAll(ds, EncodeDevice)
      {
        ghost var before := Written();
        assert ds[k..][1..] == ds[k + 1..];
        PutFields(DeviceFields(ds[k]));
        PutRegisters(ds[k].registers);
        Reassociate(before, EncodeFields(DeviceFields(ds[k])), EncodeAll(ds[k].registers, EncodeRegister));
        Reassociate(before, EncodeDevice(ds[k]), EncodeAll(ds[k + 1..], EncodeDevice));
        k := k + 1;
      }
    }

    method PutApertures(as_: seq<Aperture>)
      requires Valid() && p + |EncodeAll(as_, EncodeAperture)| <= out.Length
      modifies this`p, out
      ensures Valid() && Written() == old(Written()) + EncodeAll(as_, EncodeAperture)
    {
      hide ApertureFields;
      hide EncodeFields;
      var k := 0;
      assert as_[0..] == as_;
      while k < |as_|
        invariant k <= |as_| && Valid() && p + |EncodeAll(as_[k..], EncodeAperture)| <= out.Length
        invariant Written() + EncodeAll(as_[k..], EncodeAperture) == old(Written()) + EncodeAll(as_, EncodeAperture)
      {
        ghost var before := Written();
        assert as_[k..][1..] == as_[k + 1..];
        PutFields(ApertureFields(as_[k]));
        Reassociate(before, EncodeAperture(as_[k]), EncodeAll(as_[k + 1..], EncodeAperture));
        k := k + 1;
      }
    }
  }

  lemma Reassociate(a: seq<Byte>, b: seq<Byte>, c: seq<Byte>)
    ensures a + (b + c) == (a + b) + c
  {
  }

  // ---- the length that is checked for ----

  datatype EncodeError = TooManyOfApertures | TooManyOfDevices | TooManyOfRegisters | BufferTooSmall

  /** A write past the end of the buffer ends the program. */
  datatype Encoded = Wrote(n: nat) | Refused(error: EncodeError) | OutOfBounds

  /** What the encoder counts for a register leaves out its interrupt and its line,
      two bytes each. */
  function CountedRegister(r: Register): nat {
    4 + 1 + |r.name| + 1 + 1 + 1 + 1 + 1 + 8 + 8 + 1
  }

  function CountedRegisters(rs: seq<Register>): nat {
    if rs == [] then 0 else CountedRegister(rs[0]) + CountedRegisters(rs[1..])
  }

  function CountedDevices(ds: seq<Device>): nat {
    if ds == [] then 0
    else 1 + |ds[0].mapName| + 1 + |ds[0].instance| + 2 + 4 + 1 + CountedRegisters(ds[0].registers) + CountedDevices(ds[1..])
  }

  function CountedApertures(as_: seq<Aperture>): nat {
    if as_ == [] then 0 else 2 + 1 + |as_[0].name| + 1 + 1 + 8 + 4 + CountedApertures(as_[1..])
  }

  function CountedLength(d: Descriptor): nat {
    15 + CountedApertures(d.apertures) + CountedDevices(d.devices) + 4
  }

  predicate TooManyIn(ds: seq<Device>) {
    exists k :: 0 <= k < |ds| && |ds[k].registers| > REGISTER_CAP
  }

  /** What is refused before the length is looked at. */
  function Refusal(d: Descriptor): Option<EncodeError> {
    if |d.apertures| > APERTURE_CAP then Some(TooManyOfApertures)
    else if |d.devices| > DEVICE_CAP then Some(TooManyOfDevices)
    else if TooManyIn(d.devices) then Some(TooManyOfRegisters)
    else None
  }

  function RegisterTotal(ds: seq<Device>): nat {
    if ds == [] then 0 else |ds[0].registers| + RegisterTotal(ds[1..])
  }

  function SizeFrom(fs: seq<Field>, k: nat): nat
    requires k <= |fs|
    decreases |fs| - k
  {
    if k == |fs| then 0 else |EncodeField(fs[k])| + SizeFrom(fs, k + 1)
  }

  lemma {:induction false} FieldsSize(fs: seq<Field>, k: nat)
    requires k <= |fs|
    ensures |EncodeFields(fs[k..])| == SizeFrom(fs, k)
    decreases |fs| - k
  {
    hide EncodeField;
    if k < |fs| {
      FieldsSize(fs, k + 1);
      assert fs[k..][1..] == fs[k + 1..];
    }
  }

  lemma ApertureSize(a: Aperture)
    ensures |EncodeAperture(a)| == 2 + 1 + |a.name| + 1 + 1 + 8 + 4
  {
    var fs := ApertureFields(a);
    FieldsSize(fs, 0);
    assert fs[0..] == fs && SizeFrom(fs, 5) == 4;
    assert SizeFrom(fs, 4) == 12;
    assert SizeFrom(fs, 2) == 14;
  }

  lemma RegisterSize(r: Register)
    ensures |EncodeRegister(r)| == CountedRegister(r) + 4
  {
    var fs := RegisterFields(r);
    FieldsSize(fs, 0);
    assert fs[0..] == fs && SizeFrom(fs, 11) == 2;
    assert SizeFrom(fs, 10) == 4;
    assert SizeFrom(fs, 8) == 13;
    assert SizeFrom(fs, 6) == 22;
    assert SizeFrom(fs, 4) == 24;
    assert SizeFrom(fs, 2) == 26;
  }

  lemma DeviceHeadSize(d: Device)
    ensures |EncodeFields(DeviceFields(d))| == 1 + |d.mapName| + 1 + |d.instance| + 2 + 4 + 1
  {
    var fs := DeviceFields(d);
    FieldsSize(fs, 0);
    assert fs[0..] == fs && SizeFrom(fs, 4) == 1;
    assert SizeFrom(fs, 3) == 5;
    assert SizeFrom(fs, 1) == 1 + |d.instance| + 7;
  }

  lemma {:induction false} RegistersSize(rs: seq<Register>)
    ensures |EncodeAll(rs, EncodeRegister)| == CountedRegisters(rs) + 4 * |rs|
    decreases |rs|
  {
    hide EncodeRegister;
    hide CountedRegister;
    if rs != [] {
      RegisterSize(rs[0]);
      RegistersSize(rs[1..]);
    }
  }

  lemma {:induction false} DevicesSize(ds: seq<Device>)
    ensures |EncodeAll(ds, EncodeDevice)| == CountedDevices(ds) + 4 * RegisterTotal(ds)
    decreases |ds|
  {
    hide EncodeFields;
    hide DeviceFields;
    hide EncodeRegister;
    hide CountedRegisters;
    if ds != [] {
      DeviceHeadSize(ds[0]);
      RegistersSize(ds[0].registers);
      DevicesSize(ds[1..]);
    }
  }

  lemma {:induction false} AperturesSize(as_: seq<Aperture>)
    ensures |EncodeAll(as_, EncodeAperture)| == CountedApertures(as_)
    decreases |as_|
  {
    hide EncodeAperture;
    if as_ != [] {
      ApertureSize(as_[0]);
      AperturesSize(as_[1..]);
    }
  }

  /** The encoding is four bytes longer than counted for each register. */
  lemma CountedIsShort(d: Descriptor)
    ensures |Encode(d)| == CountedLength(d) + 4 * RegisterTotal(d.devices)
  {
    hide EncodeAll;
    hide CountedApertures;
    hide CountedDevices;
    AperturesSize(d.apertures);
    DevicesSize(d.devices);
    var fs := HeaderFields(d);
    FieldsSize(fs, 0);
    assert fs[0..] == fs && SizeFrom(fs, 3) == 1;
    assert SizeFrom(fs, 2) == 9;
  }

  /** So the length check keeps every write inside the buffer, whatever its length,
      if and only if there are no registers. */
  lemma LengthCheckExactly(d: Descriptor)
    ensures (forall n: nat {:trigger Fit(d, n)} :: CountedLength(d) <= n ==> Fit(d, n)) <==> RegisterTotal(d.devices) == 0
  {
    hide Encode;
    hide CountedLength;
    CountedIsShort(d);
    if forall n: nat {:trigger Fit(d, n)} :: CountedLength(d) <= n ==> Fit(d, n) {
      assert Fit(d, CountedLength(d));
    }
  }

  predicate Fit(d: Descriptor, n: nat) {
    |Encode(d)| <= n
  }

  /** `serialized_len`, over the records. */
  method SerializedLen(d: Descriptor) returns (e: Option<EncodeError>, len: nat)
    ensures e == Refusal(d) && (e.None? ==> len == CountedLength(d))
  {
    hide CountedRegister;
    len := 0;
    if |d.apertures| > APERTURE_CAP {
      return Some(TooManyOfApertures), 0;
    }
    if |d.devices| > DEVICE_CAP {
      return Some(TooManyOfDevices), 0;
    }
    len := 15;
    var k := 0;
    assert d.apertures[0..] == d.apertures;
    while k < |d.apertures|
      invariant k <= |d.apertures| && len + CountedApertures(d.apertures[k..]) == 15 + CountedApertures(d.apertures)
    {
      assert d.apertures[k..][1..] == d.apertures[k + 1..];
      len := len + (2 + 1 + |d.apertures[k].name| + 1 + 1 + 8 + 4);
      k := k + 1;
    }
    k := 0;
    ghost var before := len;
    assert d.devices[0..] == d.devices;
    while k < |d.devices|
      invariant k <= |d.devices| && len + CountedDevices(d.devices[k..]) == before + CountedDevices(d.devices)
      invariant forall j :: 0 <= j < k ==> |d.devices[j].registers| <= REGISTER_CAP
    {
      assert d.devices[k..][1..] == d.devices[k + 1..];
      if |d.devices[k].registers| > REGISTER_CAP {
        return Some(TooManyOfRegisters), 0;
      }
      var more := RegistersLen(d.devices[k].registers);
      len := len + (1 + |d.devices[k].mapName| + 1 + |d.devices[k].instance| + 2 + 4 + 1) + more;
      k := k + 1;
    }
    len := len + 4;
    return None, len;
  }

  method RegistersLen(rs: seq<Register>) returns (len: nat)
    ensures len == CountedRegisters(rs)
  {
    hide CountedRegister;
    len := 0;
    var k := 0;
    assert rs[0..] == rs;
    while k < |rs|
      invariant k <= |rs| && len + CountedRegisters(rs[k..]) == CountedRegisters(rs)
    {
      assert rs[k..][1..] == rs[k + 1..];
      len := len + CountedRegister(rs[k]);
      k := k + 1;
    }
  }

  /** The encoder, into any buffer: refused, or out of bounds where the length check
      lets through what does not fit, or the encoding. */
  method EncodeDescriptor(d: Descriptor, buffer: array<Byte>) returns (r: Encoded)
    modifies buffer
    ensures Refusal(d).Some? ==> r == Refused(Refusal(d).value) && buffer[..] == old(buffer[..])
    ensures Refusal(d).None? && buffer.Length < CountedLength(d) ==> r == Refused(BufferTooSmall) && buffer[..] == old(buffer[..])
    ensures Refusal(d).None? && CountedLength(d) <= buffer.Length < |Encode(d)| ==> r == OutOfBounds
    ensures Refusal(d).None? && |Encode(d)| <= buffer.Length ==> r == Wrote(|Encode(d)|) && buffer[..|Encode(d)|] == Encode(d)
  {
    hide Encode;
    CountedIsShort(d);
    var e, needed := SerializedLen(d);
    if e.Some? {
      return Refused(e.value);
    }
    if buffer.Length < needed {
      return Refused(BufferTooSmall);
    }
    if buffer.Length < |Encode(d)| {
      return OutOfBounds;
    }
    var n := WriteDescriptor(d, buffer);
    return Wrote(n);
  }

  /** The writes, into a buffer that is long enough. */
  method WriteDescriptor(d: Descriptor, buffer: array<Byte>) returns (n: nat)
    requires |Encode(d)| <= buffer.Length
    modifies buffer
    ensures n == |Encode(d)| && buffer[..n] == Encode(d)
  {
    hide EncodeFields;
    hide EncodeAll;
    hide LittleEndian;
    hide HeaderFields;
    var w := new Writer(buffer);
    w.PutFields(HeaderFields(d));
    w.PutApertures(d.apertures);
    w.PutNumber(|d.devices|, 1);
    w.PutDevices(d.devices);
    w.PutNumber(d.isrSlots, 4);
    assert w.Written() == Encode(d);
    return w.p;
  }

  // ---- the decoder's loops ----

  /** Records read so far and the outcome of the rest. */
  function Prepend<T>(done: seq<T>, r: Reading<seq<T>>): Reading<seq<T>> {
    match r
    case Got(rest, next) => Got(done + rest, next)
    case Fails(e) => Fails(e)
    case Panics => Panics
  }

  lemma PrependNothing<T>(r: Reading<seq<T>>)
    ensures Prepend([], r) == r
  {
    if r.Got? {
      assert [] + r.value == r.value;
    }
  }

  lemma PrependOne<T>(done: seq<T>, x: T, r: Reading<seq<T>>)
    ensures Prepend(done, Prepend([x], r)) == Prepend(done + [x], r)
  {
    if r.Got? {
      assert done + ([x] + r.value) == (done + [x]) + r.value;
    }
  }

  // The fields of a record, read one after the other: what has been read, and the
  // reading of the rest from where the cursor stands.

  ghost predicate SoFar(ss: seq<Shape>, b: seq<Byte>, start: nat, done: seq<Field>, p: nat) {
    |done| <= |ss| && ReadFields(ss, b, start) == Prepend(done, ReadFields(ss[|done|..], b, p))
  }

  lemma Begins(ss: seq<Shape>, b: seq<Byte>, start: nat)
    ensures SoFar(ss, b, start, [], start)
  {
    assert ss[0..] == ss;
    PrependNothing(ReadFields(ss, b, start));
  }

  /** The next field is there. */
  lemma ReadsOne(ss: seq<Shape>, b: seq<Byte>, start: nat, done: seq<Field>, p: nat, f: Field, next: nat)
    requires SoFar(ss, b, start, done, p) && |done| < |ss| && ReadField(ss[|done|], b, p) == Got(f, next)
    ensures SoFar(ss, b, start, done + [f], next)
  {
    hide ReadField;
    var k := |done|;
    assert ss[k..][1..] == ss[k + 1..] && ss[k..][0] == ss[k];
    PrependOne(done, f, ReadFields(ss[k + 1..], b, next));
  }

  /** The next field is not. */
  lemma ReadsNone(ss: seq<Shape>, b: seq<Byte>, start: nat, done: seq<Field>, p: nat)
    requires SoFar(ss, b, start, done, p) && |done| < |ss| && !ReadField(ss[|done|], b, p).Got?
    ensures match ReadField(ss[|done|], b, p)
            case Fails(e) => ReadFields(ss, b, start) == Fails(e)
            case Panics => ReadFields(ss, b, start) == Panics
            case Got(_, _) => true
  {
    hide ReadField;
    var k := |done|;
    assert ss[k..][0] == ss[k];
  }

  function Widths(ss: seq<Shape>): nat
    requires forall k :: 0 <= k < |ss| ==> ss[k].Number?
  {
    if ss == [] then 0 else ss[0].width + Widths(ss[1..])
  }

  predicate CheckedNumbers(ss: seq<Shape>) {
    forall k :: 0 <= k < |ss| ==> ss[k].Number? && ss[k].checked
  }

  /** Numbers whose bytes are checked for at once: where the sum of their widths is
      not there, one of them is missing. */
  lemma {:induction false} GroupMissing(ss: seq<Shape>, rest: seq<Shape>, b: seq<Byte>, p: nat)
    requires CheckedNumbers(ss) && |b| < p + Widths(ss) && p <= |b|
    ensures ReadFields(ss + rest, b, p) == Fails(Truncated)
    decreases |ss|
  {
    hide FromLittleEndian;
    if ss != [] {
      assert (ss + rest)[0] == ss[0] && (ss + rest)[1..] == ss[1..] + rest;
      if p + ss[0].width <= |b| {
        GroupMissing(ss[1..], rest, b, p + ss[0].width);
      }
    }
  }

  lemma GroupFails(ss: seq<Shape>, b: seq<Byte>, start: nat, done: seq<Field>, p: nat, group: seq<Shape>)
    requires SoFar(ss, b, start, done, p) && CheckedNumbers(group) && p <= |b| < p + Widths(group)
    requires |done| + |group| <= |ss| && ss[|done|..|done| + |group|] == group
    ensures ReadFields(ss, b, start) == Fails(Truncated)
  {
    var k := |done|;
    assert ss[k..] == group + ss[k + |group|..];
    GroupMissing(group, ss[k + |group|..], b, p);
  }

  /** A name: its length and its bytes. */
  method TakeName(b: seq<Byte>, start: nat) returns (r: Reading<Name>)
    ensures match r
            case Got(n, next) => ReadField(NameField, b, start) == Got(Text(n), next) && next <= |b|
            case Fails(e) => ReadField(NameField, b, start) == Fails(e)
            case Panics => false
  {
    var p := start;
    if p >= |b| {
      return Fails(Truncated);
    }
    var len := b[p];
    p := p + 1;
    if len > NAME_CAP || |b| < p + len {
      return Fails(BadNameLen);
    }
    return Got(b[p..p + len], p + len);
  }

  lemma Ended(ss: seq<Shape>, b: seq<Byte>, start: nat, done: seq<Field>, p: nat)
    requires SoFar(ss, b, start, done, p) && |done| == |ss|
    ensures ReadFields(ss, b, start) == Got(done, p)
  {
    assert done + [] == done;
  }

  /** The fields read with one more. */
  lemma Took(ss: seq<Shape>, b: seq<Byte>, start: nat, done: seq<Field>, p: nat, f: Field, next: nat) returns (more: seq<Field>)
    requires SoFar(ss, b, start, done, p) && |done| < |ss| && ReadField(ss[|done|], b, p) == Got(f, next)
    ensures more == done + [f] && SoFar(ss, b, start, more, next)
  {
    ReadsOne(ss, b, start, done, p, f, next);
    more := done + [f];
  }

  /** The next number of a record whose bytes are there. */
  lemma TookNumber(ss: seq<Shape>, b: seq<Byte>, start: nat, done: seq<Field>, p: nat, v: nat, w: nat) returns (more: seq<Field>)
    requires SoFar(ss, b, start, done, p) && |done| < |ss| && ss[|done|].Number? && ss[|done|].width == w
    requires p + w <= |b| && v == FromLittleEndian(b, p, w)
    ensures more == done + [Num(v, w)] && SoFar(ss, b, start, more, p + w)
  {
    more := Took(ss, b, start, done, p, Num(v, w), p + w);
  }

  /** A discriminant that is there and known. */
  lemma TookDisc(ss: seq<Shape>, b: seq<Byte>, start: nat, done: seq<Field>, p: nat) returns (more: seq<Field>)
    requires SoFar(ss, b, start, done, p) && |done| < |ss| && ss[|done|].Disc? && p < |b| && b[p] < ss[|done|].limit
    ensures more == done + [Num(b[p], 1)] && SoFar(ss, b, start, more, p + 1)
  {
    more := Took(ss, b, start, done, p, Num(b[p], 1), p + 1);
  }

  /** One that is not. */
  lemma DiscFails(ss: seq<Shape>, b: seq<Byte>, start: nat, done: seq<Field>, p: nat)
    requires SoFar(ss, b, start, done, p) && |done| < |ss| && ss[|done|].Disc? && (p >= |b| || b[p] >= ss[|done|].limit)
    ensures ReadFields(ss, b, start) == if p < |b| then Fails(BadKind) else if ss[|done|].checked then Fails(Truncated) else Panics
  {
    ReadsNone(ss, b, start, done, p);
  }

  /** A number that is missing and not checked for. */
  lemma NumberPanics(ss: seq<Shape>, b: seq<Byte>, start: nat, done: seq<Field>, p: nat)
    requires SoFar(ss, b, start, done, p) && |done| < |ss| && ss[|done|].Number? && !ss[|done|].checked && p + ss[|done|].width > |b|
    ensures ReadFields(ss, b, start) == Panics
  {
    ReadsNone(ss, b, start, done, p);
  }

  lemma ReadingFails<T>(r: Reading<seq<Field>>, make: seq<Field> -> Reading<T>)
    requires !r.Got?
    ensures Rebuilt(r, make) == match r case Fails(e) => Fails(e) case _ => Panics
  {
  }

  method DecodeAperture(b: seq<Byte>, start: nat) returns (r: Reading<Aperture>)
    requires start <= |b|
    ensures r == ReadAperture(b, start) && (r.Got? ==> r.next <= |b|)
  {
    hide ReadFields;
    hide ReadField;
    hide FromLittleEndian;
    hide SoFar;
    hide ToAperture;
    hide Pow256;
    var p := start;
    ghost var ss, done := ApertureShapes(), [];
    Begins(ss, b, start);
    if |b| < p + 2 {
      GroupFails(ss, b, start, done, p, [Number(2, true)]);
      return Fails(Truncated);
    }
    var id := FromLittleEndian(b, p, 2);
    done := TookNumber(ss, b, start, done, p, id, 2);
    p := p + 2;
    var name := TakeName(b, p);
    if name.Fails? {
      ReadsNone(ss, b, start, done, p);
      return Fails(name.error);
    }
    done := Took(ss, b, start, done, p, Text(name.value), name.next);
    p := name.next;
    if p >= |b| {
      DiscFails(ss, b, start, done, p);
      return Fails(Truncated);
    }
    var kind := b[p];
    if kind >= 2 {
      DiscFails(ss, b, start, done, p);
      return Fails(BadKind);
    }
    done := TookDisc(ss, b, start, done, p);
    p := p + 1;
    if p >= |b| {
      DiscFails(ss, b, start, done, p);
      return Panics;
    }
    var reloc := b[p];
    if reloc >= 3 {
      DiscFails(ss, b, start, done, p);
      return Fails(BadKind);
    }
    done := TookDisc(ss, b, start, done, p);
    p := p + 1;
    if |b| < p + 12 {
      GroupFails(ss, b, start, done, p, [Number(8, true), Number(4, true)]);
      return Fails(Truncated);
    }
    var base := FromLittleEndian(b, p, 8);
    done := TookNumber(ss, b, start, done, p, base, 8);
    p := p + 8;
    var size := FromLittleEndian(b, p, 4);
    done := TookNumber(ss, b, start, done, p, size, 4);
    p := p + 4;
    Ended(ss, b, start, done, p);
    SmallNumber(b, p - 12, 8);
    Powers();
    ApertureMade(id, name.value, kind, reloc, base, size);
    assert done == [Num(id, 2), Text(name.value), Num(kind, 1), Num(reloc, 1), Num(base, 8), Num(size, 4)];
    return Got(Aperture(id, name.value, kind, reloc, if base == 0 then None else Some(base), size), p);
  }

  lemma ApertureMade(id: nat, name: Name, kind: nat, reloc: nat, base: U64, size: nat)
    ensures ToAperture([Num(id, 2), Text(name), Num(kind, 1), Num(reloc, 1), Num(base, 8), Num(size, 4)]) ==
      Got(Aperture(id, name, kind, reloc, if base == 0 then None else Some(base), size), 0)
  {
  }

  lemma {:induction false} SmallNumber(p: seq<Byte>, i: nat, k: nat)
    requires i + k <= |p|
    ensures FromLittleEndian(p, i, k) < Pow256(k)
    decreases k
  {
    if k > 0 {
      SmallNumber(p, i + 1, k - 1);
    }
  }

  lemma RegisterMade(fs: seq<Field>)
    requires |fs| == 12 && fs[1].Text? && forall k :: 0 <= k < 12 && k != 1 ==> fs[k].Num?
    ensures ToRegister(fs) ==
      Got(Register(fs[0].value, fs[1].name, fs[2].value, fs[3].value, fs[4].value, fs[5].value, fs[6].value,
                   fs[7].value, fs[8].value, fs[9].value, fs[10].value, fs[11].value), 0)
  {
  }

  /** The five bytes of a register that say how it may be used. */
  datatype Kinds = Kinds(width: nat, access: nat, writeKind: nat, readKind: nat, atomicMax: nat)

  lemma KindShapes()
    ensures |RegisterShapes()| == 12 && forall k :: 2 <= k < 7 ==> RegisterShapes()[k] == Number(1, true)
  {
  }

  lemma KindsMissing(b: seq<Byte>, start: nat, done: seq<Field>, p: nat)
    requires SoFar(RegisterShapes(), b, start, done, p) && |done| == 2 && p <= |b| < p + 5
    ensures ReadFields(RegisterShapes(), b, start) == Fails(Truncated)
  {
    hide ReadFields;
    hide SoFar;
    var one := [Number(1, true)];
    assert Widths(one) == 1 && Widths(one + one) == 2 && Widths(one + one + one) == 3 && Widths(one + one + one + one) == 4 by {
      assert one[1..] == [] && (one + one)[1..] == one && (one + one + one)[1..] == one + one;
      assert (one + one + one + one)[1..] == one + one + one;
    }
    var group := one + one + one + one + one;
    assert group[1..] == one + one + one + one;
    GroupFails(RegisterShapes(), b, start, done, p, group);
  }

  method TakeKinds(b: seq<Byte>, start: nat, at: nat, ghost done: seq<Field>) returns (r: Reading<Kinds>, ghost more: seq<Field>)
    requires SoFar(RegisterShapes(), b, start, done, at) && |done| == 2 && at <= |b|
    ensures !r.Panics?
    ensures r.Fails? ==> ReadFields(RegisterShapes(), b, start) == Fails(r.error)
    ensures r.Got? ==> r.next == at + 5 <= |b| && SoFar(RegisterShapes(), b, start, more, r.next)
    ensures r.Got? ==> more == done + [Num(r.value.width, 1), Num(r.value.access, 1), Num(r.value.writeKind, 1), Num(r.value.readKind, 1), Num(r.value.atomicMax, 1)]
  {
    hide ReadFields;
    hide ReadField;
    hide FromLittleEndian;
    hide SoFar;
    hide RegisterShapes;
    hide Widths;
    var p := at;
    ghost var ss := RegisterShapes();
    more := done;
    KindShapes();
    if |b| < p + 5 {
      KindsMissing(b, start, done, p);
      return Fails(Truncated), done;
    }
    var width := FromLittleEndian(b, p, 1);
    more := TookNumber(ss, b, start, more, p, width, 1);
    p := p + 1;
    var access := FromLittleEndian(b, p, 1);
    more := TookNumber(ss, b, start, more, p, access, 1);
    p := p + 1;
    var writeKind := FromLittleEndian(b, p, 1);
    more := TookNumber(ss, b, start, more, p, writeKind, 1);
    p := p + 1;
    var readKind := FromLittleEndian(b, p, 1);
    more := TookNumber(ss, b, start, more, p, readKind, 1);
    p := p + 1;
    var atomicMax := FromLittleEndian(b, p, 1);
    more := TookNumber(ss, b, start, more, p, atomicMax, 1);
    p := p + 1;
    return Got(Kinds(width, access, writeKind, readKind, atomicMax), p), more;
  }

  /** The rest of a register: its masks, its barrier, its interrupt and line. */
  datatype Tail = Tail(mask: nat, reset: nat, barrier: nat, interrupt: nat, irq: nat)

  lemma TailShapes()
    ensures
      var ss := RegisterShapes();
      && |ss| == 12 && ss[7..9] == [Number(8, true), Number(8, true)] && ss[9] == Number(1, false)
      && ss[10..12] == [Number(2, true), Number(2, true)]
      && ss[7] == ss[8] == Number(8, true) && ss[10] == ss[11] == Number(2, true)
  {
    var ss := RegisterShapes();
    assert ss[7..9] == [ss[7], ss[8]] && ss[10..12] == [ss[10], ss[11]];
  }

  lemma TwoWidths(w: nat)
    ensures Widths([Number(w, true), Number(w, true)]) == 2 * w
  {
    assert [Number(w, true), Number(w, true)][1..] == [Number(w, true)];
    assert [Number(w, true)][1..] == [] && Widths([Number(w, true)]) == w;
  }

  method TakeTail(b: seq<Byte>, start: nat, at: nat, ghost done: seq<Field>) returns (r: Reading<Tail>, ghost more: seq<Field>)
    requires SoFar(RegisterShapes(), b, start, done, at) && |done| == 7 && at <= |b|
    ensures r.Fails? ==> ReadFields(RegisterShapes(), b, start) == Fails(r.error)
    ensures r.Panics? ==> ReadFields(RegisterShapes(), b, start) == Panics
    ensures r.Got? ==> r.next <= |b| && SoFar(RegisterShapes(), b, start, more, r.next)
    ensures r.Got? ==> more == done + [Num(r.value.mask, 8), Num(r.value.reset, 8), Num(r.value.barrier, 1), Num(r.value.interrupt, 2), Num(r.value.irq, 2)]
  {
    hide ReadFields;
    hide ReadField;
    hide FromLittleEndian;
    hide SoFar;
    hide RegisterShapes;
    hide Widths;
    var p := at;
    ghost var ss := RegisterShapes();
    more := done;
    TailShapes();
    TwoWidths(8);
    TwoWidths(2);
    if |b| < p + 16 {
      GroupFails(ss, b, start, more, p, [Number(8, true), Number(8, true)]);
      return Fails(Truncated), done;
    }
    var mask := FromLittleEndian(b, p, 8);
    more := TookNumber(ss, b, start, more, p, mask, 8);
    p := p + 8;
    var reset := FromLittleEndian(b, p, 8);
    more := TookNumber(ss, b, start, more, p, reset, 8);
    p := p + 8;
    if p >= |b| {
      NumberPanics(ss, b, start, more, p);
      return Panics, done;
    }
    var barrier := FromLittleEndian(b, p, 1);
    more := TookNumber(ss, b, start, more, p, barrier, 1);
    p := p + 1;
    if |b| < p + 4 {
      GroupFails(ss, b, start, more, p, [Number(2, true), Number(2, true)]);
      return Fails(Truncated), done;
    }
    var interrupt := FromLittleEndian(b, p, 2);
    more := TookNumber(ss, b, start, more, p, interrupt, 2);
    p := p + 2;
    var irq := FromLittleEndian(b, p, 2);
    more := TookNumber(ss, b, start, more, p, irq, 2);
    p := p + 2;
    return Got(Tail(mask, reset, barrier, interrupt, irq), p), more;
  }

  method DecodeRegister(b: seq<Byte>, start: nat) returns (r: Reading<Register>)
    requires start <= |b|
    ensures r == ReadRegister(b, start) && (r.Got? ==> r.next <= |b|)
  {
    hide ReadFields;
    hide ReadField;
    hide FromLittleEndian;
    hide SoFar;
    hide ToRegister;
    var p := start;
    ghost var ss, done := RegisterShapes(), [];
    Begins(ss, b, start);
    if |b| < p + 4 {
      GroupFails(ss, b, start, done, p, [Number(4, true)]);
      return Fails(Truncated);
    }
    var offset := FromLittleEndian(b, p, 4);
    done := TookNumber(ss, b, start, done, p, offset, 4);
    p := p + 4;
    var name := TakeName(b, p);
    if name.Fails? {
      ReadsNone(ss, b, start, done, p);
      return Fails(name.error);
    }
    done := Took(ss, b, start, done, p, Text(name.value), name.next);
    p := name.next;
    var kinds;
    kinds, done := TakeKinds(b, start, p, done);
    if kinds.Fails? {
      return Fails(kinds.error);
    }
    var Kinds(width, access, writeKind, readKind, atomicMax) := kinds.value;
    p := kinds.next;
    var tail;
    tail, done := TakeTail(b, start, p, done);
    if !tail.Got? {
      return if tail.Panics? then Panics else Fails(tail.error);
    }
    var Tail(mask, reset, barrier, interrupt, irq) := tail.value;
    p := tail.next;
    Ended(ss, b, start, done, p);
    RegisterMade(done);
    return Got(Register(offset, name.value, width, access, writeKind, readKind, atomicMax, mask, reset, barrier, interrupt, irq), p);
  }

  method DecodeApertures(b: seq<Byte>, start: nat, n: nat) returns (r: Reading<seq<Aperture>>)
    requires start <= |b|
    ensures r == ReadAll(b, start, n, ReadAperture) && (r.Got? ==> r.next <= |b|)
  {
    hide ReadAperture;
    var done: seq<Aperture>, p: nat, k: nat := [], start, 0;
    PrependNothing(ReadAll(b, start, n, ReadAperture));
    while k < n
      invariant k <= n && p <= |b| && ReadAll(b, start, n, ReadAperture) == Prepend(done, ReadAll(b, p, n - k, ReadAperture))
    {
      var one := DecodeAperture(b, p);
      match one {
        case Fails(e) => return Fails(e);
        case Panics => return Panics;
        case Got(x, next) =>
          PrependOne(done, x, ReadAll(b, next, n - k - 1, ReadAperture));
          done := done + [x];
          p := next;
      }
      k := k + 1;
    }
    assert done + [] == done;
    return Got(done, p);
  }

  method DecodeRegisters(b: seq<Byte>, start: nat, n: nat) returns (r: Reading<seq<Register>>)
    requires start <= |b|
    ensures r == ReadAll(b, start, n, ReadRegister) && (r.Got? ==> r.next <= |b|)
  {
    hide ReadRegister;
    var done: seq<Register>, p: nat, k: nat := [], start, 0;
    PrependNothing(ReadAll(b, start, n, ReadRegister));
    while k < n
      invariant k <= n && p <= |b| && ReadAll(b, start, n, ReadRegister) == Prepend(done, ReadAll(b, p, n - k, ReadRegister))
    {
      var one := DecodeRegister(b, p);
      match one {
        case Fails(e) => return Fails(e);
        case Panics => return Panics;
        case Got(x, next) =>
          PrependOne(done, x, ReadAll(b, next, n - k - 1, ReadRegister));
          done := done + [x];
          p := next;
      }
      k := k + 1;
    }
    assert done + [] == done;
    return Got(done, p);
  }

  /** What comes before the registers of a device. */
  datatype DeviceHead = DeviceHead(mapName: Name, instance: Name, aperture: nat, baseOffset: nat, registers: nat)

  lemma DeviceTail()
    ensures |DeviceShapes()| == 5 && DeviceShapes()[2..4] == [Number(2, true), Number(4, true)] && DeviceShapes()[4] == Number(1, false)
    ensures DeviceShapes()[0] == DeviceShapes()[1] == NameField && Widths([Number(2, true), Number(4, true)]) == 6
  {
    var ss := DeviceShapes();
    assert ss[2..4] == [ss[2], ss[3]];
    assert [Number(2, true), Number(4, true)][1..] == [Number(4, true)];
    assert [Number(4, true)][1..] == [];
  }

  method DecodeDeviceHead(b: seq<Byte>, start: nat) returns (r: Reading<DeviceHead>)
    requires start <= |b|
    ensures match r
            case Got(h, next) =>
              && next <= |b|
              && ReadFields(DeviceShapes(), b, start) ==
                   Got([Text(h.mapName), Text(h.instance), Num(h.aperture, 2), Num(h.baseOffset, 4), Num(h.registers, 1)], next)
            case Fails(e) => ReadFields(DeviceShapes(), b, start) == Fails(e)
            case Panics => ReadFields(DeviceShapes(), b, start) == Panics
  {
    hide ReadFields;
    hide ReadField;
    hide FromLittleEndian;
    hide SoFar;
    hide DeviceShapes;
    hide Widths;
    var p := start;
    ghost var ss, done := DeviceShapes(), [];
    Begins(ss, b, start);
    DeviceTail();
    var mapName := TakeName(b, p);
    if mapName.Fails? {
      ReadsNone(ss, b, start, done, p);
      return Fails(mapName.error);
    }
    done := Took(ss, b, start, done, p, Text(mapName.value), mapName.next);
    p := mapName.next;
    var instance := TakeName(b, p);
    if instance.Fails? {
      ReadsNone(ss, b, start, done, p);
      return Fails(instance.error);
    }
    done := Took(ss, b, start, done, p, Text(instance.value), instance.next);
    p := instance.next;
    if |b| < p + 6 {
      GroupFails(ss, b, start, done, p, [Number(2, true), Number(4, true)]);
      return Fails(Truncated);
    }
    var aperture := FromLittleEndian(b, p, 2);
    done := TookNumber(ss, b, start, done, p, aperture, 2);
    p := p + 2;
    var baseOffset := FromLittleEndian(b, p, 4);
    done := TookNumber(ss, b, start, done, p, baseOffset, 4);
    p := p + 4;
    if p >= |b| {
      NumberPanics(ss, b, start, done, p);
      return Panics;
    }
    var registers := FromLittleEndian(b, p, 1);
    done := TookNumber(ss, b, start, done, p, registers, 1);
    p := p + 1;
    Ended(ss, b, start, done, p);
    assert done == [Text(mapName.value), Text(instance.value), Num(aperture, 2), Num(baseOffset, 4), Num(registers, 1)];
    return Got(DeviceHead(mapName.value, instance.value, aperture, baseOffset, registers), p);
  }

  method DecodeDevice(b: seq<Byte>, start: nat) returns (r: Reading<Device>)
    requires start <= |b|
    ensures r == ReadDevice(b, start) && (r.Got? ==> r.next <= |b|)
  {
    hide ReadFields;
    hide ReadAll;
    hide DeviceShapes;
    hide ReadRegister;
    var head := DecodeDeviceHead(b, start);
    if !head.Got? {
      return if head.Panics? then Panics else Fails(head.error);
    }
    var DeviceHead(mapName, instance, aperture, baseOffset, n) := head.value;
    if n > REGISTER_CAP {
      return Fails(TooManyRegisters);
    }
    var rs := DecodeRegisters(b, head.next, n);
    match rs {
      case Got(registers, end) => return Got(Device(mapName, instance, aperture, baseOffset, registers), end);
      case Fails(e) => return Fails(e);
      case Panics => return Panics;
    }
  }

  method DecodeDevices(b: seq<Byte>, start: nat, n: nat) returns (r: Reading<seq<Device>>)
    requires start <= |b|
    ensures r == ReadAll(b, start, n, ReadDevice) && (r.Got? ==> r.next <= |b|)
  {
    hide ReadDevice;
    var done: seq<Device>, p: nat, k: nat := [], start, 0;
    PrependNothing(ReadAll(b, start, n, ReadDevice));
    while k < n
      invariant k <= n && p <= |b| && ReadAll(b, start, n, ReadDevice) == Prepend(done, ReadAll(b, p, n - k, ReadDevice))
    {
      var one := DecodeDevice(b, p);
      match one {
        case Fails(e) => return Fails(e);
        case Panics => return Panics;
        case Got(x, next) =>
          PrependOne(done, x, ReadAll(b, next, n - k - 1, ReadDevice));
          done := done + [x];
          p := next;
      }
      k := k + 1;
    }
    assert done + [] == done;
    return Got(done, p);
  }

  /** The decoder over the whole of the bytes. */
  method DecodeDescriptor(b: seq<Byte>) returns (r: Reading<Descriptor>)
    ensures r == Decode(b)
  {
    hide ReadAll;
    hide ReadAperture;
    hide ReadDevice;
    hide FromLittleEndian;
    if |b| < 14 {
      return Fails(Truncated);
    }
    if FromLittleEndian(b, 0, 4) != MAGIC {
      return Fails(BadMagic);
    }
    if b[4] != FORMAT_VER {
      return Fails(BadVersion);
    }
    var hash, p := FromLittleEndian(b, 5, 8), 14;
    if b[13] > APERTURE_CAP {
      return Fails(TooManyApertures);
    }
    var as_ := DecodeApertures(b, p, b[13]);
    if !as_.Got? {
      return if as_.Panics? then Panics else Fails(as_.error);
    }
    p := as_.next;
    if p >= |b| {
      return Fails(Truncated);
    }
    var n := b[p];
    p := p + 1;
    if n > DEVICE_CAP {
      return Fails(TooManyDevices);
    }
    var ds := DecodeDevices(b, p, n);
    if !ds.Got? {
      return if ds.Panics? then Panics else Fails(ds.error);
    }
    p := ds.next;
    if |b| < p + 4 {
      return Fails(Truncated);
    }
    var isrSlots := FromLittleEndian(b, p, 4);
    p := p + 4;
    if |b| != p {
      return Fails(TrailingBytes);
    }
    return Got(Descriptor(hash, as_.value, ds.value, isrSlots), p);
  }
}
