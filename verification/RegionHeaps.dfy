/** The two region heaps as the programs that run: four words for each slot in
    arrays that the calls update in place. */
module RegionHeaps {
  import opened Rings
  import opened Ir
  import opened Words
  import opened Regions
  import opened RegionTheorems

  /** The scan of both heaps finds the first free slot. */
  lemma {:induction false} FirstFreeIs(slots: seq<Slot>, k: nat)
    requires k <= |slots| && (forall i :: 0 <= i < k ==> slots[i].size != 0) && (k < |slots| ==> slots[k].size == 0)
    ensures FirstFree(slots) == k
    decreases k
  {
    if k > 0 {
      FirstFreeIs(slots[1..], k - 1);
    }
  }

  /** The table of slots, `{base, size, off}` for each. */
  class SlotTable {
    const base: array<U64>
    const size: array<U64>
    const off: array<U64>

    ghost predicate Valid()
      reads this
    {
      && base.Length == SLOTS && size.Length == SLOTS && off.Length == SLOTS
      && base != size && base != off && size != off
    }

    function SlotAt(i: nat): Slot
      requires Valid() && i < SLOTS
      reads this, base, size, off
    {
      Slot(base[i], size[i], off[i])
    }

    ghost function View(): (slots: seq<Slot>)
      requires Valid()
      reads this, base, size, off
      ensures |slots| == SLOTS && forall i :: 0 <= i < SLOTS ==> slots[i] == SlotAt(i)
    {
      seq(SLOTS, i requires 0 <= i < SLOTS && Valid() reads this, base, size, off => SlotAt(i))
    }

    constructor ()
      ensures Valid() && View() == FreeSlots()
      ensures fresh(base) && fresh(size) && fresh(off)
    {
      base := new U64[SLOTS](_ => 0);
      size := new U64[SLOTS](_ => 0);
      off := new U64[SLOTS](_ => 0);
    }

    method FindFree() returns (k: nat)
      requires Valid()
      ensures k == FirstFree(View())
    {
      k := 0;
      while k < SLOTS && size[k] != 0
        invariant k <= SLOTS && forall i :: 0 <= i < k ==> View()[i].size != 0
      {
        k := k + 1;
      }
      FirstFreeIs(View(), k);
    }

    method Put(k: nat, b: U64, s: U64)
      requires Valid() && k < SLOTS
      modifies base, size, off
      ensures View() == old(View())[k := Slot(b, s, 0)]
    {
      base[k] := b;
      size[k] := s;
      off[k] := 0;
    }

    method Alloc(h: U64, want: U64) returns (r: Answer)
      requires Valid()
      modifies off
      ensures (View(), r) == AllocIn(old(View()), h, want)
    {
      if h >= SLOTS || want == 0 || size[h] == 0 {
        return Trap(UNREACHABLE);
      }
      var before := off[h];
      var after := AddWord(before, Align8(want));
      if after > size[h] {
        return Trap(REGION_EXHAUSTED);
      }
      off[h] := after;
      r := Address(AddWord(base[h], before));
      assert View() == old(View())[h := old(View())[h].(off := after)];
    }

    method Reset(h: U64) returns (r: Answer)
      requires Valid()
      modifies off
      ensures (View(), r) == ResetIn(old(View()), h)
    {
      if h >= SLOTS || size[h] == 0 {
        return Trap(UNREACHABLE);
      }
      off[h] := 0;
      r := Done;
      assert View() == old(View())[h := old(View())[h].(off := 0)];
    }
  }

  /** The heap in the memory of the WebAssembly module. */
  class ArenaHeap {
    const table: SlotTable
    var cursor: U64
    var pages: nat

    ghost predicate Valid()
      reads this, table
    {
      table.Valid()
    }

    ghost function View(): Arena
      requires Valid()
      reads this, table, table.base, table.size, table.off
    {
      Arena(table.View(), cursor, pages)
    }

    constructor ()
      ensures Valid() && View() == BootArena() && Sound(View())
    {
      table := new SlotTable();
      cursor := ARENA_BASE;
      pages := MIN_PAGES;
      new;
      BootIsSound();
    }

    /** `memory.grow` as far as it is needed; `granted` is whether the host has
        the memory. */
    method GrowToFit(need: nat, granted: bool) returns (ok: bool)
      modifies this`pages
      ensures match Grow(old(pages), need, granted) case None => !ok && pages == old(pages) case Some(p) => ok && pages == p
    {
      if need > pages {
        var delta := (need - pages) % TWO32;
        if pages + delta > MAX_PAGES || !granted {
          return false;
        }
        pages := pages + delta;
      }
      return true;
    }

    method Create(want: U64, granted: bool) returns (r: Answer)
      requires Valid()
      modifies this, table.base, table.size, table.off
      ensures Valid() && (View(), r) == CreateIn(old(View()), want, granted)
      ensures old(Sound(View())) && want <= SIZE_LIMIT ==> Sound(View())
    {
      ghost var before := View();
      CreateSafe(before, want, granted);
      var len := Align8(want);
      if len == 0 {
        return Trap(UNREACHABLE);
      }
      var k := table.FindFree();
      if k == SLOTS {
        return Trap(REGION_EXHAUSTED);
      }
      var ok := GrowToFit(PagesFor(cursor, len), granted);
      if !ok {
        return Trap(UNREACHABLE);
      }
      table.Put(k, cursor, len);
      cursor := AddWord(cursor, len);
      return Handle(k);
    }

    method Destroy(h: U64) returns (r: Answer)
      requires Valid()
      modifies table.base, table.size, table.off
      ensures Valid() && (table.View(), r) == DestroyIn(old(table.View()), h)
    {
      if h >= SLOTS || table.size[h] == 0 {
        return Trap(UNREACHABLE);
      }
      table.Put(h, 0, 0);
      return Done;
    }

    method Call(c: Call, granted: bool) returns (r: Answer)
      requires Valid()
      modifies this, table.base, table.size, table.off
      ensures Valid() && (View(), r) == ArenaStep(old(View()), c, granted)
    {
      match c
      case Create(want) => r := Create(want, granted);
      case Alloc(h, want) => r := table.Alloc(h, want);
      case Reset(h) => r := table.Reset(h);
      case Destroy(h) => r := Destroy(h);
    }
  }

  lemma CreateSafe(a: Arena, size: U64, granted: bool)
    requires |a.slots| == SLOTS
    ensures Sound(a) && size <= SIZE_LIMIT ==> Sound(CreateIn(a, size, granted).0)
  {
    if Sound(a) && size <= SIZE_LIMIT {
      CreateKeepsExactly(a, size, granted);
      if CreateIn(a, size, granted).1.Handle? {
        SmallSizesFit(a, size, granted);
      }
    }
  }

  /** The heap of the hosted runtime. */
  class HostedHeap {
    const table: SlotTable
    var next: nat

    ghost predicate Valid()
      reads this, table
    {
      table.Valid()
    }

    ghost function View(): Hosted
      requires Valid()
      reads this, table, table.base, table.size, table.off
    {
      Hosted(table.View(), next)
    }

    constructor ()
      ensures Valid() && View() == BootHosted() && HostedSound(View())
    {
      table := new SlotTable();
      next := 0;
      new;
      BootIsSound();
    }

    /** The first free slot, or the next one never used. */
    method Create(want: U64, mapped: Option<U64>) returns (r: Answer)
      requires Valid()
      modifies this, table.base, table.size, table.off
      ensures Valid() && (View(), r) == HostedCreate(old(View()), want, mapped)
      ensures old(HostedSound(View())) ==> HostedSound(View())
    {
      ghost var before := View();
      HostedSafe(before, want, mapped);
      if want == 0 {
        return Trap(UNREACHABLE);
      }
      var k := table.FindFree();
      if k == SLOTS {
        k := next;
        if k >= SLOTS {
          return Trap(REGION_EXHAUSTED);
        }
      }
      if k + 1 > next {
        next := k + 1;
      }
      if mapped.None? {
        return Trap(UNREACHABLE);
      }
      table.Put(k, mapped.value, Align8(want));
      return Handle(k);
    }

    method Destroy(h: U64, unmapped: bool) returns (r: Answer)
      requires Valid()
      modifies table.base, table.size, table.off
      ensures Valid() && (View(), r) == HostedDestroy(old(View()), h, unmapped)
    {
      if h >= SLOTS || table.size[h] == 0 || !unmapped {
        return Trap(UNREACHABLE);
      }
      table.Put(h, 0, 0);
      return Done;
    }

    method Call(c: Call, mapped: Option<U64>, unmapped: bool) returns (r: Answer)
      requires Valid()
      modifies this, table.base, table.size, table.off
      ensures Valid() && (View(), r) == HostedStep(old(View()), c, mapped, unmapped)
    {
      match c
      case Create(want) => r := Create(want, mapped);
      case Alloc(h, want) => r := table.Alloc(h, want);
      case Reset(h) => r := table.Reset(h);
      case Destroy(h) => r := Destroy(h, unmapped);
    }
  }

  lemma HostedSafe(h: Hosted, size: U64, mapped: Option<U64>)
    requires |h.slots| == SLOTS
    ensures HostedSound(h) ==> HostedSound(HostedCreate(h, size, mapped).0)
  {
    if HostedSound(h) {
      HostedKeeps(h, Create(size), mapped, true);
    }
  }
}
