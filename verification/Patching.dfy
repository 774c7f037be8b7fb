/** The index space of the module's functions, and the patching of call operands:
    an operand is five bytes left open while code is emitted and overwritten when
    the index of its callee is known. */
module Patching {
  import opened Rings
  import opened Ir
  import opened Leb

  const CALL_LEB_WIDTH: nat := 5

  const IMPORT_WRITE_BYTE: nat := 0
  const IMPORT_TRAP: nat := 1
  const IMPORT_EXIT: nat := 2
  const IMPORT_PERIPH_READ: nat := 3
  const IMPORT_PERIPH_WRITE: nat := 4
  const IMPORT_BARRIER: nat := 5
  const HELPERS: nat := 5

  datatype Import = WriteByte | Trap | Exit | PeriphRead | PeriphWrite | Barrier

  /** What stands at an index: an import, a word, a helper, or the wrapper. */
  datatype Entity = Imported(kind: Import) | Defined(name: string) | Helper(id: nat) | Wrapper

  datatype Callee = ToImport(index: nat) | ToExit | ToRead | ToWrite | ToBarrier | ToWord(name: string) | ToHelper(id: nat)

  /** What the emission of the words found used. `names` are the words in their
      order, `used` says which helpers are called. */
  datatype Usage = Usage(exit: bool, mmio: bool, barrier: bool, names: seq<string>, used: seq<bool>)

  predicate WellFormed(u: Usage) {
    |u.used| == HELPERS && |u.names| < TWO64 / 0x1_0000_0000
  }

  // ---- the index space, as the sections list it ----

  function Imports(u: Usage): (es: seq<Entity>) {
    [Imported(WriteByte), Imported(Trap)]
    + (if u.exit then [Imported(Exit)] else [])
    + (if u.mmio then [Imported(PeriphRead), Imported(PeriphWrite)] else [])
    + (if u.barrier then [Imported(Barrier)] else [])
  }

  function Words(names: seq<string>): (es: seq<Entity>)
    ensures |es| == |names| && forall i :: 0 <= i < |names| ==> es[i] == Defined(names[i])
  {
    seq(|names|, i requires 0 <= i < |names| => Defined(names[i]))
  }

  /** The used helpers among the first `n`, in their fixed order. */
  function UsedHelpers(used: seq<bool>, n: nat): (es: seq<Entity>)
    requires n <= |used|
  {
    if n == 0 then []
    else UsedHelpers(used, n - 1) + (if used[n - 1] then [Helper(n - 1)] else [])
  }

  function Space(u: Usage): (es: seq<Entity>)
    requires WellFormed(u)
  {
    Imports(u) + (Words(u.names) + (UsedHelpers(u.used, HELPERS) + [Wrapper]))
  }

  // ---- the index an operand is patched to ----

  function ImportCount(u: Usage): nat {
    2 + (if u.exit then 1 else 0) + (if u.mmio then 2 else 0) + (if u.barrier then 1 else 0)
  }

  /** The entries of the key map, imports first. */
  datatype Key = Key(name: string, index: nat)

  function ImportKeys(u: Usage): seq<Key> {
    var e := if u.exit then 1 else 0;
    var m := if u.mmio then 2 else 0;
    [Key("$import:write_byte", 0), Key("$import:trap", 1)]
    + (if u.exit then [Key("$import:exit", 2)] else [])
    + (if u.mmio then [Key("$import:periph_read", 2 + e), Key("$import:periph_write", 3 + e)] else [])
    + (if u.barrier then [Key("$import:barrier", 2 + e + m)] else [])
  }

  function WordKeys(names: seq<string>, first: nat): (ks: seq<Key>)
    ensures |ks| == |names| && forall i :: 0 <= i < |names| ==> ks[i] == Key(names[i], first + i)
  {
    seq(|names|, i requires 0 <= i < |names| => Key(names[i], first + i))
  }

  /** The first entry with a name. */
  function Find(keys: seq<Key>, name: string): (r: Option<nat>) {
    if keys == [] then None
    else if keys[0].name == name then Some(keys[0].index)
    else Find(keys[1..], name)
  }

  /** How many of the helpers before `id` are used. */
  function Rank(used: seq<bool>, id: nat): nat
    requires id <= |used|
  {
    if id == 0 then 0 else Rank(used, id - 1) + (if used[id - 1] then 1 else 0)
  }

  /** The index of a callee, or an unresolved name. */
  function IndexOf(u: Usage, c: Callee): Option<nat>
    requires WellFormed(u) && (c.ToHelper? ==> c.id < HELPERS)
  {
    var e := if u.exit then 1 else 0;
    match c
    case ToImport(i) => Some(i)
    case ToExit => Some(IMPORT_EXIT)
    case ToRead => Some(IMPORT_PERIPH_READ + e - 1)
    case ToWrite => Some(IMPORT_PERIPH_WRITE + e - 1)
    case ToBarrier => Some(IMPORT_BARRIER + e - 1)
    case ToWord(name) => Find(ImportKeys(u) + WordKeys(u.names, ImportCount(u)), name)
    case ToHelper(id) => Some(ImportCount(u) + |u.names| + Rank(u.used, id))
  }

  /** What a callee means. */
  function Meant(c: Callee): Entity {
    match c
    case ToImport(i) => if i == 0 then Imported(WriteByte) else Imported(Trap)
    case ToExit => Imported(Exit)
    case ToRead => Imported(PeriphRead)
    case ToWrite => Imported(PeriphWrite)
    case ToBarrier => Imported(Barrier)
    case ToWord(name) => Defined(name)
    case ToHelper(id) => Helper(id)
  }

  /** A callee the emission can record: what it uses has been marked used. */
  predicate Recorded(u: Usage, c: Callee)
    requires WellFormed(u)
  {
    match c
    case ToImport(i) => i <= 1
    case ToExit => u.exit
    case ToRead => u.mmio
    case ToWrite => u.mmio
    case ToBarrier => u.barrier
    case ToWord(name) => name in u.names && !IsKeyName(name)
    case ToHelper(id) => id < HELPERS && u.used[id]
  }

  /** Names of the key map that no word of the language can have. */
  predicate IsKeyName(name: string) {
    name != [] && name[0] == '$'
  }

  ghost predicate Distinct(names: seq<string>) {
    forall i, j :: 0 <= i < j < |names| ==> names[i] != names[j]
  }

  // ---- an index names what is meant ----

  lemma ImportsLength(u: Usage)
    ensures |Imports(u)| == ImportCount(u)
  {
  }

  lemma SpaceAt(u: Usage, i: nat)
    requires WellFormed(u)
    ensures |Space(u)| == ImportCount(u) + |u.names| + |UsedHelpers(u.used, HELPERS)| + 1
    ensures i < ImportCount(u) ==> Space(u)[i] == Imports(u)[i]
    ensures i < |u.names| ==> Space(u)[ImportCount(u) + i] == Defined(u.names[i])
    ensures i < |UsedHelpers(u.used, HELPERS)| ==> Space(u)[ImportCount(u) + |u.names| + i] == UsedHelpers(u.used, HELPERS)[i]
  {
    hide UsedHelpers;
    ImportsLength(u);
  }

  lemma {:induction false} HelperAt(used: seq<bool>, id: nat, n: nat)
    requires id < n <= |used| && used[id]
    ensures Rank(used, id) < |UsedHelpers(used, n)| && UsedHelpers(used, n)[Rank(used, id)] == Helper(id)
  {
    if id == n - 1 {
      RankIsLength(used, id);
    } else {
      HelperAt(used, id, n - 1);
    }
  }

  lemma {:induction false} RankIsLength(used: seq<bool>, n: nat)
    requires n <= |used|
    ensures Rank(used, n) == |UsedHelpers(used, n)|
  {
    if n > 0 {
      RankIsLength(used, n - 1);
    }
  }

  lemma {:induction false} FindIn(keys: seq<Key>, i: nat)
    requires i < |keys| && forall j :: 0 <= j < i ==> keys[j].name != keys[i].name
    ensures Find(keys, keys[i].name) == Some(keys[i].index)
  {
    if i > 0 {
      FindIn(keys[1..], i - 1);
    }
  }

  lemma ImportKeysMarked(u: Usage)
    ensures |ImportKeys(u)| == ImportCount(u)
    ensures forall j :: 0 <= j < |ImportKeys(u)| ==> IsKeyName(ImportKeys(u)[j].name)
  {
  }

  lemma WordFound(u: Usage, i: nat)
    requires WellFormed(u) && i < |u.names| && Distinct(u.names) && !IsKeyName(u.names[i])
    ensures IndexOf(u, ToWord(u.names[i])) == Some(ImportCount(u) + i)
  {
    hide ImportKeys;
    ImportKeysMarked(u);
    var first := ImportKeys(u);
    var keys := first + WordKeys(u.names, ImportCount(u));
    var k := |first| + i;
    assert keys[k] == Key(u.names[i], ImportCount(u) + i);
    forall j | 0 <= j < k ensures keys[j].name != keys[k].name {
      if j < |first| {
        assert keys[j] == first[j];
      }
    }
    FindIn(keys, k);
  }

  /** The imports from the third on move with `testio.exit` alone. */
  lemma ImportIndex(u: Usage, c: Callee)
    requires WellFormed(u) && Recorded(u, c) && !c.ToWord? && !c.ToHelper?
    ensures IndexOf(u, c).Some?
    ensures (IndexOf(u, c).value < |Imports(u)| && Imports(u)[IndexOf(u, c).value] == Meant(c)) <==> (c.ToBarrier? ==> u.mmio)
  {
  }

  /** Every recorded call resolves to the position of its callee in the function
      index space, whatever is used, exactly if barriers are only called by
      modules that also call peripherals. */
  lemma CallsResolve(u: Usage, c: Callee)
    requires WellFormed(u) && Recorded(u, c) && Distinct(u.names)
    ensures IndexOf(u, c).Some? && IndexOf(u, c).value < TWO64
    ensures (IndexOf(u, c).value < |Space(u)| && Space(u)[IndexOf(u, c).value] == Meant(c)) <==> (c.ToBarrier? ==> u.mmio)
  {
    hide Space;
    hide Imports;
    if c.ToWord? {
      var i :| 0 <= i < |u.names| && u.names[i] == c.name;
      WordFound(u, i);
      SpaceAt(u, i);
    } else if c.ToHelper? {
      HelperAt(u.used, c.id, HELPERS);
      RankIsLength(u.used, c.id);
      RankBound(u.used, c.id);
      SpaceAt(u, Rank(u.used, c.id));
    } else {
      ImportIndex(u, c);
      ImportsLength(u);
      ImportOrNot(u, IndexOf(u, c).value, Meant(c));
    }
  }

  lemma RankBound(used: seq<bool>, n: nat)
    requires n <= |used|
    ensures Rank(used, n) <= n
  {
  }

  /** An import stands among the imports and nowhere else. */
  lemma ImportOrNot(u: Usage, i: nat, e: Entity)
    requires WellFormed(u) && e.Imported?
    ensures (i < |Space(u)| && Space(u)[i] == e) <==> (i < |Imports(u)| && Imports(u)[i] == e)
  {
    hide Imports;
    ImportsLength(u);
    SpaceAt(u, i);
    var n := ImportCount(u);
    if n <= i < n + |u.names| {
      SpaceAt(u, i - n);
    } else if n + |u.names| <= i < |Space(u)| - 1 {
      SpaceAt(u, i - n - |u.names|);
      HelpersOnly(u.used, HELPERS, i - n - |u.names|);
    } else if i == |Space(u)| - 1 {
      WrapperLast(u);
    }
  }

  lemma WrapperLast(u: Usage)
    requires WellFormed(u)
    ensures Space(u)[|Space(u)| - 1] == Wrapper
  {
  }

  lemma {:induction false} HelpersOnly(used: seq<bool>, n: nat, i: nat)
    requires n <= |used| && i < |UsedHelpers(used, n)|
    ensures UsedHelpers(used, n)[i].Helper?
  {
    if i < |UsedHelpers(used, n - 1)| {
      HelpersOnly(used, n - 1, i);
    }
  }

  // ---- the scan that marks what is used ----

  /** What the scan of an operation sees: does it touch a peripheral, and with
      which barrier. Only peripheral accesses carry one. */
  datatype Scanned = Peripheral(barrier: bool) | Leaves | Other

  function Scan(u: Usage, ops: seq<Scanned>): Usage
    decreases |ops|
  {
    if ops == [] then u
    else match ops[0]
      case Peripheral(b) => Scan(u.(mmio := true, barrier := u.barrier || b), ops[1..])
      case Leaves => Scan(u.(exit := true), ops[1..])
      case Other => Scan(u, ops[1..])
  }

  /** So a module that uses barriers uses peripherals, and every call resolves. */
  lemma {:induction false} ScanMarksBoth(u: Usage, ops: seq<Scanned>)
    requires u.barrier ==> u.mmio
    ensures Scan(u, ops).barrier ==> Scan(u, ops).mmio
    decreases |ops|
  {
    if ops != [] {
      match ops[0]
      case Peripheral(b) => ScanMarksBoth(u.(mmio := true, barrier := u.barrier || b), ops[1..]);
      case Leaves => ScanMarksBoth(u.(exit := true), ops[1..]);
      case Other => ScanMarksBoth(u, ops[1..]);
    }
  }

  // ---- the overwriting ----

  datatype Site = Site(off: nat, callee: Callee)

  /** Operands do not overlap: each was appended after the one before. */
  ghost predicate Spaced(sites: seq<Site>, length: nat) {
    && (forall i :: 0 <= i < |sites| ==> sites[i].off + CALL_LEB_WIDTH <= length)
    && (forall i, j :: 0 <= i < j < |sites| ==> sites[i].off + CALL_LEB_WIDTH <= sites[j].off)
  }

  ghost predicate AllRecorded(u: Usage, sites: seq<Site>)
    requires WellFormed(u)
  {
    forall i :: 0 <= i < |sites| ==> Recorded(u, sites[i].callee)
  }

  /** The operand of a site decodes, in five bytes, to the index of its callee. */
  ghost predicate Decodes(u: Usage, body: seq<Byte>, s: Site)
    requires WellFormed(u) && Recorded(u, s.callee)
  {
    IndexOf(u, s.callee).Some? && UlebAt(body, s.off) == Some(Read(IndexOf(u, s.callee).value, s.off + CALL_LEB_WIDTH))
  }

  ghost predicate InOperand(sites: seq<Site>, k: nat, b: int)
    requires k <= |sites|
  {
    exists i :: 0 <= i < k && sites[i].off <= b < sites[i].off + CALL_LEB_WIDTH
  }

  lemma IndexFits(u: Usage, c: Callee)
    requires WellFormed(u) && Recorded(u, c) && Distinct(u.names)
    ensures IndexOf(u, c).Some? && IndexOf(u, c).value < Pow128(CALL_LEB_WIDTH)
  {
    hide ImportKeys;
    assert Pow128(2) == 16384;
    assert Pow128(5) == 0x8_0000_0000;
    if c.ToWord? {
      var i :| 0 <= i < |u.names| && u.names[i] == c.name;
      WordFound(u, i);
    } else if c.ToHelper? {
      RankBound(u.used, c.id);
    }
  }

  /** Decoding looks only at the bytes of the operand. */
  lemma {:induction false} DecodesTheSame(p: seq<Byte>, q: seq<Byte>, i: nat, k: nat, acc: nat, end: nat)
    requires |p| == |q| && UlebFrom(p, i, k, acc).Some? && UlebFrom(p, i, k, acc).value.next <= end <= |p|
    requires forall b :: i <= b < end ==> p[b] == q[b]
    ensures UlebFrom(q, i, k, acc) == UlebFrom(p, i, k, acc)
    decreases 10 - k
  {
    hide Contribution;
    if p[i] >= 128 {
      DecodesTheSame(p, q, i + 1, k + 1, acc + Contribution(k, p[i]), end);
    }
  }

  lemma KeepsDecoding(u: Usage, p: seq<Byte>, q: seq<Byte>, s: Site)
    requires WellFormed(u) && Recorded(u, s.callee) && Decodes(u, p, s) && |p| == |q|
    requires forall b :: s.off <= b < s.off + CALL_LEB_WIDTH && b < |p| ==> p[b] == q[b]
    ensures Decodes(u, q, s)
  {
    DecodesTheSame(p, q, s.off, 0, 0, s.off + CALL_LEB_WIDTH);
  }

  /** The operand of a site is the padded index of its callee. */
  ghost predicate Stands(u: Usage, body: seq<Byte>, s: Site)
    requires WellFormed(u) && Recorded(u, s.callee)
  {
    IndexOf(u, s.callee).Some? && StandsAt(body, s.off, Padded(IndexOf(u, s.callee).value, CALL_LEB_WIDTH))
  }

  lemma KeepsStanding(u: Usage, p: seq<Byte>, q: seq<Byte>, s: Site)
    requires WellFormed(u) && Recorded(u, s.callee) && Stands(u, p, s) && |p| == |q|
    requires forall b :: s.off <= b < s.off + CALL_LEB_WIDTH && b < |p| ==> p[b] == q[b]
    ensures Stands(u, q, s)
  {
    assert p[s.off..s.off + CALL_LEB_WIDTH] == q[s.off..s.off + CALL_LEB_WIDTH];
  }

  lemma PatchedDecodes(u: Usage, body: seq<Byte>, s: Site)
    requires WellFormed(u) && Recorded(u, s.callee) && Distinct(u.names) && IndexOf(u, s.callee).Some?
    requires StandsAt(body, s.off, Padded(IndexOf(u, s.callee).value, CALL_LEB_WIDTH))
    ensures Decodes(u, body, s)
  {
    hide UlebFrom;
    IndexFits(u, s.callee);
    PaddedInverts(body, s.off, IndexOf(u, s.callee).value, CALL_LEB_WIDTH);
  }

  /** `copy_from_slice` of an encoded operand. */
  method Overwrite(body: array<Byte>, off: nat, bytes: seq<Byte>)
    requires off + |bytes| <= body.Length
    modifies body
    ensures StandsAt(body[..], off, bytes)
    ensures forall b :: 0 <= b < body.Length && !(off <= b < off + |bytes|) ==> body[b] == old(body[b])
  {
    var k := 0;
    while k < |bytes|
      invariant k <= |bytes|
      invariant forall b :: 0 <= b < k ==> body[off + b] == bytes[b]
      invariant forall b :: 0 <= b < body.Length && !(off <= b < off + k) ==> body[b] == old(body[b])
    {
      body[off + k] := bytes[k];
      k := k + 1;
    }
    assert body[..][off..off + |bytes|] == bytes;
  }

  /** The patching of one function body, in place: every operand decodes to the
      index of its callee and no other byte changes. */
  method Patch(u: Usage, body: array<Byte>, sites: seq<Site>)
    requires WellFormed(u) && Distinct(u.names) && AllRecorded(u, sites) && Spaced(sites, body.Length)
    modifies body
    ensures forall i :: 0 <= i < |sites| ==> Decodes(u, body[..], sites[i]) && Stands(u, body[..], sites[i])
    ensures forall b :: 0 <= b < body.Length && !InOperand(sites, |sites|, b) ==> body[b] == old(body[b])
  {
    hide UlebAt;
    hide Padded;
    hide IndexOf;
    var k := 0;
    while k < |sites|
      invariant k <= |sites|
      invariant forall i :: 0 <= i < k ==> Decodes(u, body[..], sites[i]) && Stands(u, body[..], sites[i])
      invariant forall b :: 0 <= b < body.Length && !InOperand(sites, k, b) ==> body[b] == old(body[b])
    {
      var s := sites[k];
      IndexFits(u, s.callee);
      var enc := EmitPadded([], IndexOf(u, s.callee).value, CALL_LEB_WIDTH);
      assert enc == Padded(IndexOf(u, s.callee).value, CALL_LEB_WIDTH);
      ghost var before := body[..];
      Overwrite(body, s.off, enc);
      PatchedDecodes(u, body[..], s);
      forall i | 0 <= i < k ensures Decodes(u, body[..], sites[i]) && Stands(u, body[..], sites[i]) {
        KeepsDecoding(u, before, body[..], sites[i]);
        KeepsStanding(u, before, body[..], sites[i]);
      }
      forall b | 0 <= b < body.Length && !InOperand(sites, k + 1, b)
        ensures body[b] == old(body[b])
      {
        assert !(sites[k].off <= b < sites[k].off + CALL_LEB_WIDTH);
        assert !InOperand(sites, k, b);
        assert body[b] == before[b];
      }
      k := k + 1;
    }
  }
}
