/** The wire form of a descriptor byte by byte, and what is not one: every proper
    beginning and every extension of bytes that decode is rejected. */
module DescriptorWire {
  import opened Rings
  import opened Ir
  import opened Leb
  import opened Descriptors
  import opened DescriptorCodec

  // ---- where each field stands ----

  /** Byte `i` of a number, the lowest first. */
  function ByteOf(v: nat, i: nat): Byte {
    if i == 0 then v % 256 else ByteOf(v / 256, i - 1)
  }

  lemma {:induction false} LowestFirst(v: nat, k: nat, i: nat)
    requires i < k
    ensures LittleEndian(v, k)[i] == ByteOf(v, i)
    decreases k
  {
    if i > 0 {
      LowestFirst(v / 256, k - 1, i - 1);
    }
  }

  function NameBytes(n: Name): seq<Byte> {
    [|n| % 256] + n
  }

  lemma OneMore(f: Field, fs: seq<Field>)
    ensures EncodeFields([f] + fs) == EncodeField(f) + EncodeFields(fs)
  {
    assert ([f] + fs)[1..] == fs;
  }

  lemma NoMore()
    ensures EncodeFields([]) == []
  {
  }

  /** An aperture: id, name, kind, relocation, base and size. */
  lemma ApertureLayout(a: Aperture)
    ensures EncodeAperture(a) ==
      LittleEndian(a.id, 2) + (NameBytes(a.name) + (LittleEndian(a.kind, 1) + (LittleEndian(a.reloc, 1) +
      (LittleEndian(match a.base case None => 0 case Some(b) => b, 8) + (LittleEndian(a.size, 4) + [])))))
  {
    hide EncodeFields;
    hide LittleEndian;
    var fs := ApertureFields(a);
    NoMore();
    assert fs[6..] == [];
    Peel(fs, 5);
    Peel(fs, 4);
    Peel(fs, 3);
    Peel(fs, 2);
    Peel(fs, 1);
    Peel(fs, 0);
    assert fs[0..] == fs;
  }

  lemma Peel(fs: seq<Field>, k: nat)
    requires k < |fs|
    ensures EncodeFields(fs[k..]) == EncodeField(fs[k]) + EncodeFields(fs[k + 1..])
  {
    assert fs[k..] == [fs[k]] + fs[k + 1..];
    OneMore(fs[k], fs[k + 1..]);
  }

  /** A register: offset, name, five bytes of kinds, mask, reset value, barrier,
      interrupt and line. */
  lemma RegisterLayout(r: Register)
    ensures EncodeRegister(r) ==
      LittleEndian(r.offset, 4) + (NameBytes(r.name) + (LittleEndian(r.width, 1) + (LittleEndian(r.access, 1) +
      (LittleEndian(r.writeKind, 1) + (LittleEndian(r.readKind, 1) + (LittleEndian(r.atomicMax, 1) +
      (LittleEndian(r.mask, 8) + (LittleEndian(r.reset, 8) + (LittleEndian(r.barrier, 1) +
      (LittleEndian(r.interrupt, 2) + (LittleEndian(r.irq, 2) + [])))))))))))
  {
    hide EncodeFields;
    hide LittleEndian;
    var fs := RegisterFields(r);
    NoMore();
    assert fs[12..] == [];
    Peel(fs, 11);
    Peel(fs, 10);
    Peel(fs, 9);
    Peel(fs, 8);
    Peel(fs, 7);
    Peel(fs, 6);
    Peel(fs, 5);
    Peel(fs, 4);
    Peel(fs, 3);
    Peel(fs, 2);
    Peel(fs, 1);
    Peel(fs, 0);
    assert fs[0..] == fs;
  }

  /** A device: its names, its aperture, its offset, and its registers with their
      number before them. */
  lemma DeviceLayout(d: Device)
    ensures EncodeDevice(d) ==
      (NameBytes(d.mapName) + (NameBytes(d.instance) + (LittleEndian(d.aperture, 2) + (LittleEndian(d.baseOffset, 4) +
      (LittleEndian(|d.registers|, 1) + []))))) + EncodeAll(d.registers, EncodeRegister)
  {
    hide EncodeFields;
    hide LittleEndian;
    hide EncodeAll;
    var fs := DeviceFields(d);
    NoMore();
    assert fs[5..] == [];
    Peel(fs, 4);
    Peel(fs, 3);
    Peel(fs, 2);
    Peel(fs, 1);
    Peel(fs, 0);
    assert fs[0..] == fs;
  }

  /** The whole: a header of 14 bytes, the apertures, the number of devices, the
      devices, and the grant. */
  lemma DescriptorLayout(d: Descriptor)
    requires |d.apertures| <= APERTURE_CAP
    ensures Encode(d) ==
      (LittleEndian(0x50445954, 4) + (LittleEndian(6, 1) + (LittleEndian(d.hash, 8) + LittleEndian(|d.apertures|, 1)))) +
      (EncodeAll(d.apertures, EncodeAperture) +
       (LittleEndian(|d.devices|, 1) + (EncodeAll(d.devices, EncodeDevice) + LittleEndian(d.isrSlots, 4))))
  {
    hide EncodeAll;
    hide LittleEndian;
    HeaderBytes(d);
  }

  // ---- bytes behind the end ----

  /** What is read is read alike with more bytes behind. */
  ghost predicate Stays<T>(p: seq<Byte>, x: seq<Byte>, i: nat, read: (seq<Byte>, nat) -> Reading<T>) {
    read(p, i).Got? ==> read(p + x, i) == read(p, i) && i <= read(p, i).next <= |p|
  }

  lemma {:induction false} NumberStays(p: seq<Byte>, x: seq<Byte>, i: nat, k: nat)
    requires i + k <= |p|
    ensures FromLittleEndian(p + x, i, k) == FromLittleEndian(p, i, k)
    decreases k
  {
    if k > 0 {
      NumberStays(p, x, i + 1, k - 1);
    }
  }

  lemma FieldStays(s: Shape, p: seq<Byte>, x: seq<Byte>, i: nat)
    requires ReadField(s, p, i).Got?
    ensures ReadField(s, p + x, i) == ReadField(s, p, i) && i <= ReadField(s, p, i).next <= |p|
  {
    match s
    case Number(w, _) => NumberStays(p, x, i, w);
    case Disc(_, _) =>
    case NameField => assert (p + x)[i + 1..i + 1 + p[i]] == p[i + 1..i + 1 + p[i]];
  }

  lemma {:induction false} FieldsStay(ss: seq<Shape>, p: seq<Byte>, x: seq<Byte>, i: nat)
    requires ReadFields(ss, p, i).Got? && i <= |p|
    ensures ReadFields(ss, p + x, i) == ReadFields(ss, p, i) && i <= ReadFields(ss, p, i).next <= |p|
    decreases |ss|
  {
    hide ReadField;
    if ss != [] {
      FieldStays(ss[0], p, x, i);
      FieldsStay(ss[1..], p, x, ReadField(ss[0], p, i).next);
    }
  }

  lemma {:induction false} AllStay<T>(p: seq<Byte>, x: seq<Byte>, i: nat, n: nat, read: (seq<Byte>, nat) -> Reading<T>)
    requires ReadAll(p, i, n, read).Got? && i <= |p|
    requires forall j: nat {:trigger Stays(p, x, j, read)} :: j <= |p| ==> Stays(p, x, j, read)
    ensures ReadAll(p + x, i, n, read) == ReadAll(p, i, n, read) && i <= ReadAll(p, i, n, read).next <= |p|
    decreases n
  {
    if n > 0 {
      assert Stays(p, x, i, read);
      AllStay(p, x, read(p, i).next, n - 1, read);
    }
  }

  lemma ApertureStays(p: seq<Byte>, x: seq<Byte>, i: nat)
    requires i <= |p|
    ensures Stays(p, x, i, ReadAperture)
  {
    hide ReadFields;
    hide ToAperture;
    hide ApertureShapes;
    if ReadFields(ApertureShapes(), p, i).Got? {
      FieldsStay(ApertureShapes(), p, x, i);
    }
  }

  lemma RegisterStays(p: seq<Byte>, x: seq<Byte>, i: nat)
    requires i <= |p|
    ensures Stays(p, x, i, ReadRegister)
  {
    hide ReadFields;
    hide ToRegister;
    hide RegisterShapes;
    if ReadFields(RegisterShapes(), p, i).Got? {
      FieldsStay(RegisterShapes(), p, x, i);
    }
  }

  lemma DeviceStays(p: seq<Byte>, x: seq<Byte>, i: nat)
    requires i <= |p|
    ensures Stays(p, x, i, ReadDevice)
  {
    hide ReadFields;
    hide DeviceShapes;
    hide ReadAll;
    hide ReadRegister;
    DeviceTail();
    if ReadFields(DeviceShapes(), p, i).Got? {
      FieldsStay(DeviceShapes(), p, x, i);
      var fs, next := ReadFields(DeviceShapes(), p, i).value, ReadFields(DeviceShapes(), p, i).next;
      forall j: nat | j <= |p| ensures Stays(p, x, j, ReadRegister) {
        RegisterStays(p, x, j);
      }
      if fs[4].Num? && ReadAll(p, next, fs[4].value, ReadRegister).Got? {
        AllStay(p, x, next, fs[4].value, ReadRegister);
      }
    }
  }

  lemma EndStays(p: seq<Byte>, x: seq<Byte>, i: nat, hash: nat, as_: seq<Aperture>)
    requires ReadDevices(p, i, hash, as_).Got? && x != [] && i <= |p|
    ensures ReadDevices(p + x, i, hash, as_) == Fails(TrailingBytes) && ReadDevices(p, i, hash, as_).next == |p|
  {
    hide ReadAll;
    hide ReadDevice;
    forall j: nat | j <= |p| ensures Stays(p, x, j, ReadDevice) {
      DeviceStays(p, x, j);
    }
    AllStay(p, x, i + 1, p[i], ReadDevice);
  }

  /** Bytes that decode do not decode with more behind them: the error says so. */
  lemma ExtensionIsRejected(p: seq<Byte>, x: seq<Byte>)
    requires Decode(p).Got? && x != []
    ensures Decode(p + x) == Fails(TrailingBytes) && Decode(p).next == |p|
  {
    hide ReadAll;
    hide ReadAperture;
    hide ReadDevices;
    NumberStays(p, x, 0, 4);
    NumberStays(p, x, 5, 8);
    forall j: nat | j <= |p| ensures Stays(p, x, j, ReadAperture) {
      ApertureStays(p, x, j);
    }
    AllStay(p, x, 14, p[13], ReadAperture);
    var as_ := ReadAll(p, 14, p[13], ReadAperture);
    EndStays(p, x, as_.next, FromLittleEndian(p, 5, 8), as_.value);
  }

  // ---- bytes cut off ----

  /** What reading gives where the bytes end too soon: it says so, it finds a name too
      long for what is left, or it reads a byte it has not checked for. */
  predicate CutOff<T>(r: Reading<T>) {
    r == Fails(Truncated) || r == Fails(BadNameLen) || r.Panics?
  }

  /** What is read from the first `n` bytes is the same, or is cut off. */
  ghost predicate Cuts<T>(p: seq<Byte>, n: nat, i: nat, read: (seq<Byte>, nat) -> Reading<T>)
    requires n <= |p|
  {
    read(p, i).Got? ==>
      && i <= read(p, i).next <= |p|
      && if read(p, i).next <= n then read(p[..n], i) == read(p, i) else CutOff(read(p[..n], i))
  }

  lemma FieldCuts(s: Shape, p: seq<Byte>, n: nat, i: nat)
    requires i <= n <= |p| && ReadField(s, p, i).Got?
    ensures i <= ReadField(s, p, i).next <= |p|
    ensures if ReadField(s, p, i).next <= n then ReadField(s, p[..n], i) == ReadField(s, p, i) else CutOff(ReadField(s, p[..n], i))
  {
    if ReadField(s, p, i).next <= n {
      match s
      case Number(w, _) =>
        NumberStays(p[..n], p[n..], i, w);
        assert p[..n] + p[n..] == p;
      case Disc(_, _) =>
      case NameField => assert p[..n][i + 1..i + 1 + p[i]] == p[i + 1..i + 1 + p[i]];
    }
  }

  lemma {:induction false} FieldsCut(ss: seq<Shape>, p: seq<Byte>, n: nat, i: nat)
    requires i <= n <= |p| && ReadFields(ss, p, i).Got?
    ensures i <= ReadFields(ss, p, i).next <= |p|
    ensures if ReadFields(ss, p, i).next <= n then ReadFields(ss, p[..n], i) == ReadFields(ss, p, i) else CutOff(ReadFields(ss, p[..n], i))
    decreases |ss|
  {
    hide ReadField;
    if ss != [] {
      var next := ReadField(ss[0], p, i).next;
      FieldCuts(ss[0], p, n, i);
      FieldsStay(ss[1..], p, [], next);
      if next <= n {
        FieldsCut(ss[1..], p, n, next);
      }
    }
  }

  lemma {:induction false} AllCut<T>(p: seq<Byte>, n: nat, i: nat, count: nat, read: (seq<Byte>, nat) -> Reading<T>)
    requires i <= n <= |p| && ReadAll(p, i, count, read).Got?
    requires forall j: nat {:trigger Cuts(p, n, j, read)} :: j <= n ==> Cuts(p, n, j, read)
    requires forall j: nat {:trigger Stays(p, [], j, read)} :: j <= |p| ==> Stays(p, [], j, read)
    ensures i <= ReadAll(p, i, count, read).next <= |p|
    ensures
      if ReadAll(p, i, count, read).next <= n then ReadAll(p[..n], i, count, read) == ReadAll(p, i, count, read)
      else CutOff(ReadAll(p[..n], i, count, read))
    decreases count
  {
    if count > 0 {
      var next := read(p, i).next;
      assert Cuts(p, n, i, read);
      AllStay(p, [], next, count - 1, read);
      if next <= n {
        AllCut(p, n, next, count - 1, read);
      }
    }
  }

  lemma ApertureCuts(p: seq<Byte>, n: nat, i: nat)
    requires i <= n <= |p|
    ensures Cuts(p, n, i, ReadAperture)
  {
    hide ReadFields;
    hide ToAperture;
    hide ApertureShapes;
    if ReadFields(ApertureShapes(), p, i).Got? {
      FieldsCut(ApertureShapes(), p, n, i);
    }
  }

  lemma RegisterCuts(p: seq<Byte>, n: nat, i: nat)
    requires i <= n <= |p|
    ensures Cuts(p, n, i, ReadRegister)
  {
    hide ReadFields;
    hide ToRegister;
    hide RegisterShapes;
    if ReadFields(RegisterShapes(), p, i).Got? {
      FieldsCut(RegisterShapes(), p, n, i);
    }
  }

  lemma DeviceCuts(p: seq<Byte>, n: nat, i: nat)
    requires i <= n <= |p|
    ensures Cuts(p, n, i, ReadDevice)
  {
    hide ReadFields;
    hide DeviceShapes;
    hide ReadAll;
    hide ReadRegister;
    DeviceTail();
    if ReadDevice(p, i).Got? {
      FieldsCut(DeviceShapes(), p, n, i);
      var fs, next := ReadFields(DeviceShapes(), p, i).value, ReadFields(DeviceShapes(), p, i).next;
      forall j: nat | j <= |p| ensures Stays(p, [], j, ReadRegister) {
        RegisterStays(p, [], j);
      }
      AllStay(p, [], next, fs[4].value, ReadRegister);
      if next <= n {
        forall j: nat | j <= n ensures Cuts(p, n, j, ReadRegister) {
          RegisterCuts(p, n, j);
        }
        AllCut(p, n, next, fs[4].value, ReadRegister);
      }
    }
  }

  lemma EndCuts(p: seq<Byte>, n: nat, i: nat, hash: nat, as_: seq<Aperture>)
    requires i <= n < |p| && ReadDevices(p, i, hash, as_).Got?
    ensures CutOff(ReadDevices(p[..n], i, hash, as_))
  {
    hide ReadAll;
    hide ReadDevice;
    if i < n {
      forall j: nat | j <= |p| ensures Stays(p, [], j, ReadDevice) {
        DeviceStays(p, [], j);
      }
      forall j: nat | j <= n ensures Cuts(p, n, j, ReadDevice) {
        DeviceCuts(p, n, j);
      }
      AllCut(p, n, i + 1, p[i], ReadDevice);
    }
  }

  /** No proper beginning of bytes that decode decodes. */
  lemma PrefixIsRejected(p: seq<Byte>, n: nat)
    requires Decode(p).Got? && n < |p|
    ensures CutOff(Decode(p[..n])) && (n < 14 ==> Decode(p[..n]) == Fails(Truncated))
  {
    hide ReadAll;
    hide ReadAperture;
    hide ReadDevices;
    if n >= 14 {
      assert p[..n] + p[n..] == p;
      NumberStays(p[..n], p[n..], 0, 4);
      NumberStays(p[..n], p[n..], 5, 8);
      forall j: nat | j <= |p| ensures Stays(p, [], j, ReadAperture) {
        ApertureStays(p, [], j);
      }
      forall j: nat | j <= n ensures Cuts(p, n, j, ReadAperture) {
        ApertureCuts(p, n, j);
      }
      AllCut(p, n, 14, p[13], ReadAperture);
      var as_ := ReadAll(p, 14, p[13], ReadAperture);
      if as_.next <= n {
        EndCuts(p, n, as_.next, FromLittleEndian(p, 5, 8), as_.value);
      }
    }
  }

  /** So for the encoding of any descriptor within the caps. */
  lemma EncodingsAreWhole(d: Descriptor, n: nat, x: seq<Byte>)
    requires WithinLimits(d)
    ensures n < |Encode(d)| ==> CutOff(Decode(Encode(d)[..n]))
    ensures x != [] ==> Decode(Encode(d) + x) == Fails(TrailingBytes)
  {
    hide Decode;
    hide Encode;
    DecodesTo(d);
    if n < |Encode(d)| {
      PrefixIsRejected(Encode(d), n);
    }
    if x != [] {
      ExtensionIsRejected(Encode(d), x);
    }
  }
}
