/** Two region heaps with the same table of sixteen slots: the hosted one gets
    each region from the operating system, the WebAssembly one from a bump arena
    in a memory that grows. A slot of size 0 is free. Sizes and addresses are
    64-bit words and wrap. */
module Regions {
  import opened Rings
  import opened Ir
  import opened Words

  const SLOTS: nat := 16
  const ARENA_BASE: nat := 0x4_0000
  const PAGE: nat := 0x1_0000
  const MIN_PAGES: nat := 16
  const MAX_PAGES: nat := 256
  const ARENA_END: nat := 0x100_0000
  const TWO32: nat := 0x1_0000_0000

  const UNREACHABLE: nat := 23
  const REGION_EXHAUSTED: nat := 26

  datatype Slot = Slot(base: U64, size: U64, off: U64)

  datatype Answer = Handle(handle: nat) | Address(at: U64) | Done | Trap(code: nat)

  datatype Call = Create(size: U64) | Alloc(handle: U64, size: U64) | Reset(handle: U64) | Destroy(handle: U64)

  const FREE: Slot := Slot(0, 0, 0)

  /** `(size + 7) & -8`. */
  function Align8(size: U64): U64 {
    var x := AddWord(size, 7);
    x - x % 8
  }

  /** The first free slot, or the number of slots. */
  function FirstFree(slots: seq<Slot>): (k: nat)
    ensures k <= |slots|
    ensures k < |slots| ==> slots[k].size == 0
    ensures forall i :: 0 <= i < k ==> slots[i].size != 0
  {
    if slots == [] || slots[0].size == 0 then 0 else 1 + FirstFree(slots[1..])
  }

  /** The checks on a handle, in their order, and its slot. */
  predicate IsLive(slots: seq<Slot>, h: U64)
    requires |slots| == SLOTS
  {
    h < SLOTS && slots[h].size != 0
  }

  function AllocIn(slots: seq<Slot>, h: U64, size: U64): (seq<Slot>, Answer)
    requires |slots| == SLOTS
  {
    if h >= SLOTS || size == 0 || slots[h].size == 0 then (slots, Trap(UNREACHABLE))
    else
      var s := slots[h];
      var after := AddWord(s.off, Align8(size));
      if after > s.size then (slots, Trap(REGION_EXHAUSTED))
      else (slots[h := s.(off := after)], Address(AddWord(s.base, s.off)))
  }

  function ResetIn(slots: seq<Slot>, h: U64): (seq<Slot>, Answer)
    requires |slots| == SLOTS
  {
    if IsLive(slots, h) then (slots[h := slots[h].(off := 0)], Done) else (slots, Trap(UNREACHABLE))
  }

  // ---- the arena ----

  datatype Arena = Arena(slots: seq<Slot>, cursor: U64, pages: nat)

  /** The pages that cover the memory up to `cursor + size`. */
  function PagesFor(cursor: U64, size: U64): nat {
    AddWord(AddWord(cursor, size), 65535) / PAGE
  }

  /** The memory after it is made to cover `need` pages; `memory.grow` takes a
      32-bit count and refuses to pass the maximum, or for want of memory. */
  function Grow(pages: nat, need: nat, granted: bool): (r: Option<nat>)
  {
    if need <= pages then Some(pages)
    else
      var delta := (need - pages) % TWO32;
      if pages + delta <= MAX_PAGES && granted then Some(pages + delta) else None
  }

  function CreateIn(a: Arena, size: U64, granted: bool): (Arena, Answer)
    requires |a.slots| == SLOTS
  {
    var len, k := Align8(size), FirstFree(a.slots);
    if len == 0 then (a, Trap(UNREACHABLE))
    else if k == SLOTS then (a, Trap(REGION_EXHAUSTED))
    else match Grow(a.pages, PagesFor(a.cursor, len), granted)
      case None => (a, Trap(UNREACHABLE))
      case Some(pages) => (Arena(a.slots[k := Slot(a.cursor, len, 0)], AddWord(a.cursor, len), pages), Handle(k))
  }

  function DestroyIn(slots: seq<Slot>, h: U64): (seq<Slot>, Answer)
    requires |slots| == SLOTS
  {
    if IsLive(slots, h) then (slots[h := FREE], Done) else (slots, Trap(UNREACHABLE))
  }

  function WithSlots(a: Arena, o: (seq<Slot>, Answer)): (Arena, Answer) {
    (a.(slots := o.0), o.1)
  }

  function ArenaStep(a: Arena, c: Call, granted: bool): (r: (Arena, Answer))
    requires |a.slots| == SLOTS
    ensures |r.0.slots| == SLOTS
  {
    match c
    case Create(size) => CreateIn(a, size, granted)
    case Alloc(h, size) => WithSlots(a, AllocIn(a.slots, h, size))
    case Reset(h) => WithSlots(a, ResetIn(a.slots, h))
    case Destroy(h) => WithSlots(a, DestroyIn(a.slots, h))
  }

  // ---- the hosted heap ----

  /** `next` is the number of slots ever used. */
  datatype Hosted = Hosted(slots: seq<Slot>, next: nat)

  /** `mapped` is the address the system grants, if it does. */
  function HostedCreate(h: Hosted, size: U64, mapped: Option<U64>): (Hosted, Answer)
    requires |h.slots| == SLOTS
  {
    if size == 0 then (h, Trap(UNREACHABLE))
    else
      var free := FirstFree(h.slots);
      var k := if free < SLOTS then free else h.next;
      if k >= SLOTS then (h, Trap(REGION_EXHAUSTED))
      else
        var next := if k + 1 <= h.next then h.next else k + 1;
        match mapped
        case None => (Hosted(h.slots, next), Trap(UNREACHABLE))
        case Some(base) => (Hosted(h.slots[k := Slot(base, Align8(size), 0)], next), Handle(k))
  }

  /** `unmapped` is whether the system takes the region back. */
  function HostedDestroy(h: Hosted, handle: U64, unmapped: bool): (Hosted, Answer)
    requires |h.slots| == SLOTS
  {
    if IsLive(h.slots, handle) && unmapped then (h.(slots := h.slots[handle := FREE]), Done) else (h, Trap(UNREACHABLE))
  }

  function HostedWith(h: Hosted, o: (seq<Slot>, Answer)): (Hosted, Answer) {
    (h.(slots := o.0), o.1)
  }

  function HostedStep(h: Hosted, c: Call, mapped: Option<U64>, unmapped: bool): (r: (Hosted, Answer))
    requires |h.slots| == SLOTS
    ensures |r.0.slots| == SLOTS
  {
    match c
    case Create(size) => HostedCreate(h, size, mapped)
    case Alloc(handle, size) => HostedWith(h, AllocIn(h.slots, handle, size))
    case Reset(handle) => HostedWith(h, ResetIn(h.slots, handle))
    case Destroy(handle) => HostedDestroy(h, handle, unmapped)
  }

  function FreeSlots(): seq<Slot> {
    seq(SLOTS, _ => FREE)
  }

  function BootArena(): Arena {
    Arena(FreeSlots(), ARENA_BASE, MIN_PAGES)
  }

  function BootHosted(): Hosted {
    Hosted(FreeSlots(), 0)
  }
}

/** The invariants of both heaps, exactly when the arena keeps its own, and that
    the two answer alike. */
module RegionTheorems {
  import opened Rings
  import opened Ir
  import opened Words
  import opened Regions

  // ---- the arena's invariant ----

  ghost predicate Apart(a: Slot, b: Slot) {
    a.base + a.size <= b.base || b.base + b.size <= a.base
  }

  /** A live region lies in the arena below the cursor. */
  ghost predicate RegionOk(s: Slot, cursor: nat) {
    s.size != 0 ==>
      && s.base >= ARENA_BASE && s.base + s.size <= cursor
      && s.base % 8 == 0 && s.size % 8 == 0 && s.off % 8 == 0 && s.off <= s.size
  }

  ghost predicate BothLive(slots: seq<Slot>, i: nat, j: nat)
    requires i < |slots| && j < |slots|
  {
    slots[i].size != 0 && slots[j].size != 0
  }

  ghost predicate AllApart(slots: seq<Slot>) {
    forall i: nat, j: nat {:trigger BothLive(slots, i, j)} :: i < j < |slots| && BothLive(slots, i, j) ==> Apart(slots[i], slots[j])
  }

  ghost predicate AllRegionsOk(slots: seq<Slot>, cursor: nat) {
    forall i: nat {:trigger slots[i]} :: i < |slots| ==> RegionOk(slots[i], cursor)
  }

  ghost predicate Sound(a: Arena) {
    && |a.slots| == SLOTS
    && ARENA_BASE <= a.cursor <= a.pages * PAGE && a.cursor % 8 == 0
    && MIN_PAGES <= a.pages <= MAX_PAGES
    && AllRegionsOk(a.slots, a.cursor) && AllApart(a.slots)
  }

  lemma BootIsSound()
    ensures Sound(BootArena()) && HostedSound(BootHosted())
  {
  }

  lemma AlignFacts(size: U64)
    ensures Align8(size) % 8 == 0
    ensures size + 7 < TWO64 ==> size <= Align8(size) <= size + 7
    ensures size + 7 >= TWO64 ==> Align8(size) == 0
    ensures Align8(size) == 0 <==> size == 0 || size + 7 >= TWO64
  {
  }

  lemma PagesCover(cursor: U64, len: U64)
    requires cursor + len + 65535 < TWO64
    ensures cursor + len <= PagesFor(cursor, len) * PAGE < cursor + len + PAGE
  {
  }

  lemma GrowCovers(a: Arena, len: U64, granted: bool)
    requires a.cursor + len <= ARENA_END && a.cursor <= a.pages * PAGE && a.pages <= MAX_PAGES
    requires Grow(a.pages, PagesFor(a.cursor, len), granted).Some?
    ensures
      var p := Grow(a.pages, PagesFor(a.cursor, len), granted).value;
      a.pages <= p <= MAX_PAGES && a.cursor + len <= p * PAGE
  {
    PagesCover(a.cursor, len);
  }

  /** A new region after the last one keeps the table in order. */
  lemma PlaceRegion(slots: seq<Slot>, k: nat, cursor: nat, len: U64, after: nat)
    requires k < |slots| && after == cursor + len && ARENA_BASE <= cursor < TWO64 && cursor % 8 == 0 && len % 8 == 0
    requires AllRegionsOk(slots, cursor) && AllApart(slots)
    ensures AllRegionsOk(slots[k := Slot(cursor, len, 0)], after) && AllApart(slots[k := Slot(cursor, len, 0)])
  {
    var t := slots[k := Slot(cursor, len, 0)];
    forall i: nat, j: nat | i < j < |t| && BothLive(t, i, j)
      ensures Apart(t[i], t[j])
    {
      if i != k && j != k {
        assert BothLive(slots, i, j);
      }
    }
  }

  /** Creating a region either traps and changes nothing, or keeps the heap sound
      exactly if the region fits into the largest memory there can be: for a size
      close to 2^64 the sum wraps and the memory is not grown at all. */
  lemma CreateKeepsExactly(a: Arena, size: U64, granted: bool)
    requires Sound(a)
    ensures
      var (b, r) := CreateIn(a, size, granted);
      && (r.Trap? ==> b == a)
      && (!r.Trap? ==>
            && r.Handle? && r.handle < SLOTS && a.slots[r.handle].size == 0 && b.slots[r.handle].size != 0
            && (Sound(b) <==> a.cursor + Align8(size) <= ARENA_END))
  {
    var (b, r) := CreateIn(a, size, granted);
    var len := Align8(size);
    AlignFacts(size);
    if r.Handle? {
      var k := r.handle;
      if a.cursor + len <= ARENA_END {
        GrowCovers(a, len, granted);
        PlaceRegion(a.slots, k, a.cursor, len, a.cursor + len);
      } else {
        assert Sound(b) ==> RegionOk(b.slots[k], b.cursor);
      }
    }
  }

  const SIZE_LIMIT: nat := 0x8000_0000_0000

  /** For sizes up to 2^47 a region that is created fits. */
  lemma SmallSizesFit(a: Arena, size: U64, granted: bool)
    requires Sound(a) && size <= SIZE_LIMIT && CreateIn(a, size, granted).1.Handle?
    ensures a.cursor + Align8(size) <= ARENA_END
  {
    AlignFacts(size);
    PagesCover(a.cursor, Align8(size));
  }

  /** At boot a size of 2^64 - 2^18 is granted: the region would end past the end
      of the address space, and the cursor comes back to the table at 0. */
  lemma HugeCreateBreaksTheArena()
    ensures
      var (b, r) := CreateIn(BootArena(), TWO64 - ARENA_BASE, true);
      r == Handle(0) && b.cursor == 0 && b.pages == MIN_PAGES && !Sound(b)
  {
  }

  // ---- allocations ----

  /** What an allocation was given, from the base of its region. */
  datatype Extent = Extent(start: nat, len: nat)

  /** Allocations follow each other without overlap and end by `off`. */
  ghost predicate Stacked(es: seq<Extent>, off: nat) {
    && (forall i {:trigger es[i]} :: 0 <= i < |es| ==> es[i].start % 8 == 0 && es[i].len > 0 && es[i].start + es[i].len <= off)
    && (forall i, j {:trigger es[i], es[j]} :: 0 <= i < j < |es| ==> es[i].start + es[i].len <= es[j].start)
  }

  function RoundUp(n: nat): nat {
    (n + 7) / 8 * 8
  }

  lemma AlignRounds(size: U64)
    ensures RoundUp(size) < TWO64 ==> Align8(size) == RoundUp(size)
    ensures RoundUp(size) >= TWO64 ==> Align8(size) == 0
  {
  }

  lemma StackOne(es: seq<Extent>, off: nat, size: nat, after: nat)
    requires Stacked(es, off) && off % 8 == 0 && size > 0
    ensures off <= after && off + size <= after ==> Stacked(es + [Extent(off, size)], after)
    ensures off + size > after ==> !Stacked(es + [Extent(off, size)], after)
  {
    var more := es + [Extent(off, size)];
    assert more[|es|] == Extent(off, size);
  }

  lemma NewOffset(off: U64, size: U64)
    requires off % 8 == 0 && size > 0
    ensures
      var after := AddWord(off, Align8(size));
      && after % 8 == 0
      && (off + RoundUp(size) < TWO64 ==> after == off + RoundUp(size) >= off + size)
      && (off + RoundUp(size) >= TWO64 ==> after < off + size)
  {
    AlignRounds(size);
  }

  /** An allocation either traps and changes nothing, or gets the space from the
      old offset on. What it gets is its own, and inside the region, exactly if
      the new offset did not wrap. */
  lemma AllocKeepsExactly(slots: seq<Slot>, h: U64, size: U64, es: seq<Extent>)
    requires |slots| == SLOTS
    requires h < SLOTS ==> Stacked(es, slots[h].off) && slots[h].off % 8 == 0
    ensures AllocIn(slots, h, size).1.Trap? ==> AllocIn(slots, h, size).0 == slots
    ensures !AllocIn(slots, h, size).1.Trap? ==>
      var t, s := AllocIn(slots, h, size).0, slots[h];
      && AllocIn(slots, h, size).1 == Address(AddWord(s.base, s.off))
      && t == slots[h := s.(off := t[h].off)] && t[h].off <= s.size && t[h].off % 8 == 0
      && (Stacked(es + [Extent(s.off, size)], t[h].off) <==> s.off + RoundUp(size) < TWO64)
  {
    if AllocIn(slots, h, size).1.Address? {
      var off := slots[h].off;
      NewOffset(off, size);
      StackOne(es, off, size, AddWord(off, Align8(size)));
    }
  }

  // ---- whole runs of the arena ----

  /** The heap and what has been allocated in each region since its last reset. */
  datatype Traced = Traced(arena: Arena, extents: seq<seq<Extent>>)

  ghost predicate ExtentsOk(t: Traced, i: nat)
    requires i < |t.arena.slots| && i < |t.extents|
  {
    Stacked(t.extents[i], t.arena.slots[i].off) && (t.arena.slots[i].size == 0 ==> t.extents[i] == [])
  }

  ghost predicate TracedSound(t: Traced) {
    && Sound(t.arena) && |t.extents| == SLOTS
    && forall i: nat {:trigger ExtentsOk(t, i)} :: i < SLOTS ==> ExtentsOk(t, i)
  }

  /** What a call that goes through adds to the record or takes off it. */
  ghost function Recorded(t: Traced, c: Call, r: Answer): seq<seq<Extent>>
    requires |t.arena.slots| == SLOTS && |t.extents| == SLOTS
  {
    match c
    case Create(_) => if r.Handle? && r.handle < SLOTS then t.extents[r.handle := []] else t.extents
    case Alloc(h, size) => if r.Address? && h < SLOTS then t.extents[h := t.extents[h] + [Extent(t.arena.slots[h].off, size)]] else t.extents
    case Reset(h) => if r.Done? && h < SLOTS then t.extents[h := []] else t.extents
    case Destroy(h) => if r.Done? && h < SLOTS then t.extents[h := []] else t.extents
  }

  ghost function TracedStep(t: Traced, c: Call, granted: bool): (Traced, Answer)
    requires |t.arena.slots| == SLOTS && |t.extents| == SLOTS
  {
    var (a, r) := ArenaStep(t.arena, c, granted);
    (Traced(a, Recorded(t, c, r)), r)
  }

  ghost predicate Modest(c: Call) {
    (c.Create? || c.Alloc?) ==> c.size <= SIZE_LIMIT
  }

  /** A slot changed in place without growing its region. */
  lemma ReplaceSlot(a: Arena, h: nat, s: Slot)
    requires Sound(a) && h < SLOTS && RegionOk(s, a.cursor)
    requires s.size == 0 || (s.base == a.slots[h].base && s.size == a.slots[h].size)
    ensures Sound(a.(slots := a.slots[h := s]))
  {
    var t := a.slots[h := s];
    forall i: nat, j: nat | i < j < |t| && BothLive(t, i, j)
      ensures Apart(t[i], t[j])
    {
      assert BothLive(a.slots, i, j);
    }
  }

  lemma ReplaceExtents(t: Traced, u: Traced, h: nat)
    requires TracedSound(t) && Sound(u.arena) && h < SLOTS && |u.extents| == SLOTS && ExtentsOk(u, h)
    requires forall i :: 0 <= i < SLOTS && i != h ==> u.arena.slots[i] == t.arena.slots[i] && u.extents[i] == t.extents[i]
    ensures TracedSound(u)
  {
    forall i: nat | i < SLOTS ensures ExtentsOk(u, i) {
      if i != h {
        assert ExtentsOk(t, i);
      }
    }
  }

  lemma CreateKeeps(t: Traced, size: U64, granted: bool)
    requires TracedSound(t) && size <= SIZE_LIMIT
    ensures TracedSound(TracedStep(t, Create(size), granted).0)
    ensures TracedStep(t, Create(size), granted).1.Trap? ==> TracedStep(t, Create(size), granted).0 == t
  {
    hide CreateIn;
    var (u, r) := TracedStep(t, Create(size), granted);
    CreateKeepsExactly(t.arena, size, granted);
    if r.Handle? {
      SmallSizesFit(t.arena, size, granted);
      CreateChangesOne(t.arena, size, granted);
      ReplaceExtents(t, u, r.handle);
    }
  }

  lemma CreateChangesOne(a: Arena, size: U64, granted: bool)
    requires |a.slots| == SLOTS && CreateIn(a, size, granted).1.Handle?
    ensures
      var k, b := CreateIn(a, size, granted).1.handle, CreateIn(a, size, granted).0;
      k < SLOTS && b.slots == a.slots[k := b.slots[k]] && b.slots[k].off == 0
  {
  }

  lemma AllocKeeps(t: Traced, h: U64, size: U64, granted: bool)
    requires TracedSound(t) && size <= SIZE_LIMIT
    ensures TracedSound(TracedStep(t, Alloc(h, size), granted).0)
    ensures TracedStep(t, Alloc(h, size), granted).1.Trap? ==> TracedStep(t, Alloc(h, size), granted).0 == t
  {
    var (u, r) := TracedStep(t, Alloc(h, size), granted);
    if r.Address? {
      assert ExtentsOk(t, h) && RegionOk(t.arena.slots[h], t.arena.cursor);
      AllocKeepsExactly(t.arena.slots, h, size, t.extents[h]);
      ReplaceSlot(t.arena, h, u.arena.slots[h]);
      ReplaceExtents(t, u, h);
    }
  }

  /** Every call keeps the heap and the record sound, and a call that traps
      changes nothing. */
  lemma StepKeeps(t: Traced, c: Call, granted: bool)
    requires TracedSound(t) && Modest(c)
    ensures
      var (u, r) := TracedStep(t, c, granted);
      TracedSound(u) && (r.Trap? ==> u == t)
  {
    hide CreateIn;
    hide AllocIn;
    var (u, r) := TracedStep(t, c, granted);
    match c
    case Create(size) => CreateKeeps(t, size, granted);
    case Alloc(h, size) => AllocKeeps(t, h, size, granted);
    case Reset(h) =>
      if r.Done? {
        assert RegionOk(t.arena.slots[h], t.arena.cursor);
        ReplaceSlot(t.arena, h, u.arena.slots[h]);
        ReplaceExtents(t, u, h);
      }
    case Destroy(h) =>
      if r.Done? {
        ReplaceSlot(t.arena, h, FREE);
        ReplaceExtents(t, u, h);
      }
  }

  /** The heap after some calls; a trap ends the program. */
  ghost function ArenaRun(t: Traced, calls: seq<(Call, bool)>): Traced
    requires |t.arena.slots| == SLOTS && |t.extents| == SLOTS
    decreases |calls|
  {
    if calls == [] then t
    else
      var (u, r) := TracedStep(t, calls[0].0, calls[0].1);
      if r.Trap? then u else ArenaRun(u, calls[1..])
  }

  lemma {:induction false} RunKeeps(t: Traced, calls: seq<(Call, bool)>)
    requires TracedSound(t) && forall i :: 0 <= i < |calls| ==> Modest(calls[i].0)
    ensures TracedSound(ArenaRun(t, calls))
    decreases |calls|
  {
    if calls != [] {
      StepKeeps(t, calls[0].0, calls[0].1);
      var (u, r) := TracedStep(t, calls[0].0, calls[0].1);
      if !r.Trap? {
        RunKeeps(u, calls[1..]);
      }
    }
  }

  ghost predicate Allocated(t: Traced, i: nat, k: nat) {
    i < |t.extents| && i < |t.arena.slots| && k < |t.extents[i]|
  }

  ghost function FirstByte(t: Traced, i: nat, k: nat): nat
    requires Allocated(t, i, k)
  {
    t.arena.slots[i].base + t.extents[i][k].start
  }

  ghost function EndByte(t: Traced, i: nat, k: nat): nat
    requires Allocated(t, i, k)
  {
    FirstByte(t, i, k) + t.extents[i][k].len
  }

  ghost predicate InGrownMemory(t: Traced, i: nat, k: nat)
    requires Allocated(t, i, k)
  {
    ARENA_BASE <= FirstByte(t, i, k) < EndByte(t, i, k) <= t.arena.pages * PAGE <= ARENA_END && FirstByte(t, i, k) % 8 == 0
  }

  ghost predicate NoOverlap(t: Traced, i: nat, k: nat, j: nat, l: nat)
    requires Allocated(t, i, k) && Allocated(t, j, l)
  {
    EndByte(t, i, k) <= FirstByte(t, j, l) || EndByte(t, j, l) <= FirstByte(t, i, k)
  }

  ghost function BootTraced(): Traced {
    Traced(BootArena(), seq(SLOTS, _ => []))
  }

  lemma BootIsTraced()
    ensures TracedSound(BootTraced())
  {
    BootIsSound();
  }

  /** In every reachable heap the allocations since the last resets lie in the
      grown memory above the fixed areas, are aligned, and no two overlap. */
  lemma ReachableIsSound(calls: seq<(Call, bool)>)
    requires forall n :: 0 <= n < |calls| ==> Modest(calls[n].0)
    ensures TracedSound(ArenaRun(BootTraced(), calls))
  {
    BootIsTraced();
    RunKeeps(BootTraced(), calls);
  }

  lemma AllocationsAreDisjoint(t: Traced, calls: seq<(Call, bool)>, i: nat, k: nat, j: nat, l: nat)
    requires t == ArenaRun(BootTraced(), calls) && forall n :: 0 <= n < |calls| ==> Modest(calls[n].0)
    requires Allocated(t, i, k) && Allocated(t, j, l)
    ensures InGrownMemory(t, i, k) && ((i, k) != (j, l) ==> NoOverlap(t, i, k, j, l))
  {
    ReachableIsSound(calls);
    DisjointWhenSound(t, i, k, j, l);
  }

  lemma SumAligned(a: nat, b: nat)
    requires a % 8 == 0 && b % 8 == 0
    ensures (a + b) % 8 == 0
  {
  }

  lemma InItsRegion(t: Traced, i: nat, k: nat)
    requires TracedSound(t) && Allocated(t, i, k)
    ensures t.arena.slots[i].size != 0 && RegionOk(t.arena.slots[i], t.arena.cursor)
    ensures FirstByte(t, i, k) % 8 == 0
    ensures t.arena.slots[i].base <= FirstByte(t, i, k) < EndByte(t, i, k) <= t.arena.slots[i].base + t.arena.slots[i].size
  {
    hide AllApart;
    assert ExtentsOk(t, i);
    var s, e := t.arena.slots[i], t.extents[i][k];
    assert RegionOk(s, t.arena.cursor);
    SumAligned(s.base, e.start);
  }

  lemma DisjointWhenSound(t: Traced, i: nat, k: nat, j: nat, l: nat)
    requires TracedSound(t) && Allocated(t, i, k) && Allocated(t, j, l)
    ensures InGrownMemory(t, i, k) && (i != j || k != l ==> NoOverlap(t, i, k, j, l))
  {
    InItsRegion(t, i, k);
    InItsRegion(t, j, l);
    if i == j {
      assert ExtentsOk(t, i);
    } else {
      assert BothLive(t.arena.slots, i, j) && BothLive(t.arena.slots, j, i);
    }
  }

  // ---- the hosted heap ----

  /** No slot at or above `next` has been used, and every region the table holds
      is whole. */
  ghost predicate HostedSound(h: Hosted) {
    && |h.slots| == SLOTS && h.next <= SLOTS
    && (forall i: nat {:trigger h.slots[i]} :: h.next <= i < SLOTS ==> h.slots[i].size == 0)
    && (forall i: nat {:trigger h.slots[i]} :: i < SLOTS && h.slots[i].size != 0 ==> h.slots[i].off <= h.slots[i].size)
  }

  lemma HostedKeeps(h: Hosted, c: Call, mapped: Option<U64>, unmapped: bool)
    requires HostedSound(h)
    ensures HostedSound(HostedStep(h, c, mapped, unmapped).0)
    ensures
      var (g, r) := HostedStep(h, c, mapped, unmapped);
      r.Trap? ==> g.slots == h.slots && (g == h || (c.Create? && mapped.None? && g.next > h.next))
  {
  }

  /** The second way to a slot, over `next`, is never taken to the end: when no
      slot is free every slot has been used, so it only traps. */
  lemma SecondPathOnlyTraps(h: Hosted, size: U64, mapped: Option<U64>)
    requires HostedSound(h) && size != 0
    ensures FirstFree(h.slots) == SLOTS ==> h.next == SLOTS && HostedCreate(h, size, mapped) == (h, Trap(REGION_EXHAUSTED))
    ensures HostedCreate(h, size, mapped).1.Handle? ==> HostedCreate(h, size, mapped).1.handle == FirstFree(h.slots)
  {
    assert h.next < SLOTS ==> h.slots[h.next].size == 0;
  }

  // ---- both give the same answers ----

  ghost predicate SameShape(s: Slot, t: Slot) {
    s.size == t.size && s.off == t.off
  }

  ghost predicate Alike(a: Arena, h: Hosted) {
    && |a.slots| == SLOTS && |h.slots| == SLOTS
    && forall i: nat {:trigger SameShape(a.slots[i], h.slots[i])} :: i < SLOTS ==> SameShape(a.slots[i], h.slots[i])
  }

  /** What the caller sees, with an address measured from its region's base. */
  datatype Visible = SeesHandle(handle: nat) | SeesOffset(offset: int) | SeesDone | SeesTrap(code: nat)

  ghost function View(slots: seq<Slot>, c: Call, r: Answer): Visible
    requires |slots| == SLOTS
  {
    match r
    case Handle(k) => SeesHandle(k)
    case Done => SeesDone
    case Trap(code) => SeesTrap(code)
    case Address(at) => if c.Alloc? && c.handle < SLOTS then SeesOffset(SubWord(at, slots[c.handle].base)) else SeesDone
  }

  lemma {:induction false} FirstFreeAlike(s: seq<Slot>, t: seq<Slot>)
    requires |s| == |t| && forall i :: 0 <= i < |s| ==> s[i].size == t[i].size
    ensures FirstFree(s) == FirstFree(t)
    decreases |s|
  {
    if s != [] {
      FirstFreeAlike(s[1..], t[1..]);
    }
  }

  /** The system grants the hosted heap a mapping exactly when the memory can be
      grown; it maps nothing of length 0. */
  ghost predicate SameGrants(a: Arena, c: Call, granted: bool, mapped: Option<U64>) {
    c.Create? ==>
      (mapped.Some? <==> Align8(c.size) != 0 && Grow(a.pages, PagesFor(a.cursor, Align8(c.size)), granted).Some?)
  }

  lemma OffsetSeen(base: U64, off: U64)
    ensures SubWord(AddWord(base, off), base) == off
  {
  }

  /** The only call the two heaps answer differently: a size so close to 2^64
      that it rounds up to 0, when the table is full. There the arena looks at the
      size first, the hosted heap at the table. */
  ghost predicate Diverges(a: Arena, c: Call)
    requires |a.slots| == SLOTS
  {
    c.Create? && c.size != 0 && Align8(c.size) == 0 && FirstFree(a.slots) == SLOTS
  }

  lemma CreateAlike(a: Arena, h: Hosted, size: U64, granted: bool, mapped: Option<U64>)
    requires Alike(a, h) && HostedSound(h) && SameGrants(a, Create(size), granted, mapped)
    ensures
      var (b, r) := CreateIn(a, size, granted);
      var (g, q) := HostedCreate(h, size, mapped);
      Alike(b, g) && (r == q <==> !Diverges(a, Create(size)))
  {
    forall i: nat | i < SLOTS ensures a.slots[i].size == h.slots[i].size {
      assert SameShape(a.slots[i], h.slots[i]);
    }
    FirstFreeAlike(a.slots, h.slots);
    if size != 0 {
      SecondPathOnlyTraps(h, size, mapped);
    }
  }

  /** One call on both heaps: the same handle, the same offset from the base, the
      same trap code, and again two heaps that answer alike; exactly when the call
      is not the one above. */
  lemma StepAlike(a: Arena, h: Hosted, c: Call, granted: bool, mapped: Option<U64>)
    requires Alike(a, h) && HostedSound(h) && SameGrants(a, c, granted, mapped)
    ensures
      var (b, r) := ArenaStep(a, c, granted);
      var (g, q) := HostedStep(h, c, mapped, true);
      Alike(b, g) && (View(a.slots, c, r) == View(h.slots, c, q) <==> !Diverges(a, c))
  {
    match c
    case Create(size) => CreateAlike(a, h, size, granted, mapped);
    case Alloc(k, size) =>
      if k < SLOTS {
        assert SameShape(a.slots[k], h.slots[k]);
        OffsetSeen(a.slots[k].base, a.slots[k].off);
        OffsetSeen(h.slots[k].base, h.slots[k].off);
      }
    case Reset(k) =>
      if k < SLOTS {
        assert SameShape(a.slots[k], h.slots[k]);
      }
    case Destroy(k) =>
      if k < SLOTS {
        assert SameShape(a.slots[k], h.slots[k]);
      }
  }

  lemma SameLists<T>(x: T, xs: seq<T>, y: T, ys: seq<T>)
    ensures [x] + xs == [y] + ys <==> x == y && xs == ys
  {
    if [x] + xs == [y] + ys {
      assert ([x] + xs)[0] == x && ([y] + ys)[0] == y;
      assert ([x] + xs)[1..] == xs && ([y] + ys)[1..] == ys;
    }
  }

  lemma TrapSeen(slots: seq<Slot>, c: Call, r: Answer)
    requires |slots| == SLOTS
    ensures r.Trap? <==> View(slots, c, r).SeesTrap?
  {
  }

  datatype Event = Event(call: Call, granted: bool, mapped: Option<U64>)

  /** The answers of the arena up to the first trap. */
  ghost function ArenaAnswers(a: Arena, es: seq<Event>): seq<Visible>
    requires |a.slots| == SLOTS
    decreases |es|
  {
    if es == [] then []
    else
      var (b, r) := ArenaStep(a, es[0].call, es[0].granted);
      [View(a.slots, es[0].call, r)] + (if r.Trap? then [] else ArenaAnswers(b, es[1..]))
  }

  ghost function HostedAnswers(h: Hosted, es: seq<Event>): seq<Visible>
    requires |h.slots| == SLOTS
    decreases |es|
  {
    if es == [] then []
    else
      var (g, r) := HostedStep(h, es[0].call, es[0].mapped, true);
      [View(h.slots, es[0].call, r)] + (if r.Trap? then [] else HostedAnswers(g, es[1..]))
  }

  /** Along the arena's run the system grants the hosted heap what the memory
      grants the arena. */
  ghost predicate GrantsMatch(a: Arena, es: seq<Event>)
    requires |a.slots| == SLOTS
    decreases |es|
  {
    es == [] ||
      (&& SameGrants(a, es[0].call, es[0].granted, es[0].mapped)
       && (var (b, r) := ArenaStep(a, es[0].call, es[0].granted); r.Trap? || GrantsMatch(b, es[1..])))
  }

  /** No call of the arena's run is the one the heaps answer differently. */
  ghost predicate NeverDiverges(a: Arena, es: seq<Event>)
    requires |a.slots| == SLOTS
    decreases |es|
  {
    es == [] ||
      (&& !Diverges(a, es[0].call)
       && (var (b, r) := ArenaStep(a, es[0].call, es[0].granted); r.Trap? || NeverDiverges(b, es[1..])))
  }

  /** The arena refines the hosted heap: driven by the same calls, of whatever
      sizes, they give the same handles, offsets and trap codes in the same order, if
      and only if none of the calls is the diverging one. */
  lemma {:induction false} RunsAlike(a: Arena, h: Hosted, es: seq<Event>)
    requires Alike(a, h) && HostedSound(h) && GrantsMatch(a, es)
    ensures ArenaAnswers(a, es) == HostedAnswers(h, es) <==> NeverDiverges(a, es)
    decreases |es|
  {
    hide ArenaStep;
    hide HostedStep;
    hide View;
    hide SameGrants;
    hide HostedSound;
    if es != [] {
      var e := es[0];
      StepAlike(a, h, e.call, e.granted, e.mapped);
      HostedKeeps(h, e.call, e.mapped, true);
      var (b, r) := ArenaStep(a, e.call, e.granted);
      var (g, q) := HostedStep(h, e.call, e.mapped, true);
      TrapSeen(a.slots, e.call, r);
      TrapSeen(h.slots, e.call, q);
      if !r.Trap? && !q.Trap? {
        RunsAlike(b, g, es[1..]);
      }
      SameLists(View(a.slots, e.call, r), if r.Trap? then [] else ArenaAnswers(b, es[1..]),
                View(h.slots, e.call, q), if q.Trap? then [] else HostedAnswers(g, es[1..]));
    }
  }
}
