/** The region heaps from outside: what was asked and answered. What a heap keeps in
    its table is proved to be what this history says, and so is every answer. */
module RegionHistory {
  import opened Rings
  import opened Ir
  import opened Words
  import opened Regions
  import opened RegionTheorems

  /** A call and its answer. `mapped` is the address the system gave a new hosted
      region. */
  datatype Past = Past(call: Call, answer: Answer, mapped: Option<U64>)

  predicate Creates(p: Past, h: nat) {
    p.call.Create? && p.answer == Handle(h)
  }

  predicate Ends(p: Past, h: nat) {
    p.call.Destroy? && p.call.handle == h && p.answer == Done
  }

  /** The size of region `h`, rounded up, while it lives; 0 when it does not. */
  ghost function SizeOf(ps: seq<Past>, h: nat): nat {
    if ps == [] then 0
    else
      var p := ps[|ps| - 1];
      if Creates(p, h) then RoundUp(p.call.size) else if Ends(p, h) then 0 else SizeOf(ps[..|ps| - 1], h)
  }

  /** The sum of the sizes, each rounded up, that were allocated in region `h` since
      it was created or last reset. */
  ghost function UsedOf(ps: seq<Past>, h: nat): nat {
    if ps == [] then 0
    else
      var p := ps[|ps| - 1];
      if Creates(p, h) || Ends(p, h) || (p.call.Reset? && p.call.handle == h && p.answer == Done) then 0
      else if p.call.Alloc? && p.call.handle == h && p.answer.Address? then UsedOf(ps[..|ps| - 1], h) + RoundUp(p.call.size)
      else UsedOf(ps[..|ps| - 1], h)
  }

  /** The end of the arena: all regions ever created lie one after the other. */
  ghost function EndOf(ps: seq<Past>): nat {
    if ps == [] then ARENA_BASE
    else
      var p := ps[|ps| - 1];
      EndOf(ps[..|ps| - 1]) + (if p.call.Create? && p.answer.Handle? then RoundUp(p.call.size) else 0)
  }

  /** Where region `h` begins in the arena: at its end when it was created. */
  ghost function BaseOf(ps: seq<Past>, h: nat): nat {
    if ps == [] then 0
    else if Creates(ps[|ps| - 1], h) then EndOf(ps[..|ps| - 1])
    else BaseOf(ps[..|ps| - 1], h)
  }

  /** Where the system put region `h`. */
  ghost function MappedOf(ps: seq<Past>, h: nat): Option<U64> {
    if ps == [] then None
    else if Creates(ps[|ps| - 1], h) then ps[|ps| - 1].mapped
    else MappedOf(ps[..|ps| - 1], h)
  }

  lemma Appended(ps: seq<Past>, p: Past)
    ensures (ps + [p])[|ps + [p]| - 1] == p && (ps + [p])[..|ps + [p]| - 1] == ps && ps + [p] != []
  {
  }

  // ---- the table is the history ----

  ghost predicate SlotTold(s: Slot, ps: seq<Past>, h: nat) {
    s.size == SizeOf(ps, h) && s.off == UsedOf(ps, h) <= s.size <= SIZE_LIMIT && s.size % 8 == 0 && s.off % 8 == 0
  }

  ghost predicate Told(slots: seq<Slot>, ps: seq<Past>) {
    |slots| == SLOTS && forall h: nat {:trigger SlotTold(slots[h], ps, h)} :: h < SLOTS ==> SlotTold(slots[h], ps, h)
  }

  /** The first region that does not live, or the number of slots. */
  ghost predicate IsLeastDead(ps: seq<Past>, k: nat) {
    k <= SLOTS && (forall h: nat {:trigger SizeOf(ps, h)} :: h < k ==> SizeOf(ps, h) != 0) && (k < SLOTS ==> SizeOf(ps, k) == 0)
  }

  /** What an allocation is answered, with `base` the address of its region. */
  ghost function AllocAnswer(ps: seq<Past>, h: nat, size: nat, base: nat): Answer {
    if h >= SLOTS || size == 0 || SizeOf(ps, h) == 0 then Trap(UNREACHABLE)
    else if UsedOf(ps, h) + RoundUp(size) > SizeOf(ps, h) then Trap(REGION_EXHAUSTED)
    else Address((base + UsedOf(ps, h)) % TWO64)
  }

  /** What a reset or the end of a region is answered. */
  ghost function LifeAnswer(ps: seq<Past>, h: nat): Answer {
    if h < SLOTS && SizeOf(ps, h) != 0 then Done else Trap(UNREACHABLE)
  }

  lemma RoundUpFacts(n: nat)
    ensures RoundUp(n) % 8 == 0 && n <= RoundUp(n) <= n + 7 && (RoundUp(n) == 0 <==> n == 0)
  {
  }

  lemma SumIs(a: U64, b: U64)
    ensures AddWord(a, b) == (a + b) % TWO64
  {
    ArithIs(Add, a, b);
  }

  /** An allocation is granted exactly if what was allocated since the last reset
      leaves room for it, and is then given the place behind it. */
  lemma AllocTold(slots: seq<Slot>, ps: seq<Past>, h: U64, size: U64, m: Option<U64>)
    requires Told(slots, ps) && size <= SIZE_LIMIT
    ensures AllocIn(slots, h, size).1 == AllocAnswer(ps, h, size, if h < SLOTS then slots[h].base else 0)
    ensures Told(AllocIn(slots, h, size).0, ps + [Past(Alloc(h, size), AllocIn(slots, h, size).1, m)])
    ensures forall i :: 0 <= i < SLOTS ==> AllocIn(slots, h, size).0[i].base == slots[i].base
  {
    var r := AllocIn(slots, h, size).1;
    var p := Past(Alloc(h, size), r, m);
    Appended(ps, p);
    RoundUpFacts(size);
    AlignRounds(size);
    if h < SLOTS {
      assert SlotTold(slots[h], ps, h);
      if size > 0 && slots[h].size != 0 {
        SumIs(slots[h].off, Align8(size));
        SumIs(slots[h].base, slots[h].off);
        NoWrap(slots[h].off, RoundUp(size), slots[h].size);
      }
    }
    forall i: nat | i < SLOTS ensures SlotTold(AllocIn(slots, h, size).0[i], ps + [p], i) {
      assert SlotTold(slots[i], ps, i);
    }
  }

  lemma NoWrap(off: nat, more: nat, size: U64)
    requires off <= size <= SIZE_LIMIT && more <= SIZE_LIMIT + 7
    ensures (off + more) % TWO64 > size <==> off + more > size
    ensures off + more <= size ==> (off + more) % TWO64 == off + more
  {
  }

  lemma ResetTold(slots: seq<Slot>, ps: seq<Past>, h: U64, m: Option<U64>)
    requires Told(slots, ps)
    ensures ResetIn(slots, h).1 == LifeAnswer(ps, h)
    ensures Told(ResetIn(slots, h).0, ps + [Past(Reset(h), ResetIn(slots, h).1, m)])
    ensures forall i :: 0 <= i < SLOTS ==> ResetIn(slots, h).0[i].base == slots[i].base
  {
    var p := Past(Reset(h), ResetIn(slots, h).1, m);
    Appended(ps, p);
    if h < SLOTS {
      assert SlotTold(slots[h], ps, h);
    }
    forall i: nat | i < SLOTS ensures SlotTold(ResetIn(slots, h).0[i], ps + [p], i) {
      assert SlotTold(slots[i], ps, i);
    }
  }

  /** The slot of a region that ends is free again. */
  lemma DestroyTold(slots: seq<Slot>, ps: seq<Past>, h: U64, m: Option<U64>)
    requires Told(slots, ps)
    ensures DestroyIn(slots, h).1 == LifeAnswer(ps, h)
    ensures Told(DestroyIn(slots, h).0, ps + [Past(Destroy(h), DestroyIn(slots, h).1, m)])
  {
    var p := Past(Destroy(h), DestroyIn(slots, h).1, m);
    Appended(ps, p);
    if h < SLOTS {
      assert SlotTold(slots[h], ps, h);
    }
    forall i: nat | i < SLOTS ensures SlotTold(DestroyIn(slots, h).0[i], ps + [p], i) {
      assert SlotTold(slots[i], ps, i);
    }
  }

  /** A new region takes the first slot that no region lives in. */
  lemma CreateTold(slots: seq<Slot>, ps: seq<Past>, k: nat, base: U64, size: U64, m: Option<U64>)
    requires Told(slots, ps) && k < SLOTS && 0 < size <= SIZE_LIMIT
    ensures Told(slots[k := Slot(base, Align8(size), 0)], ps + [Past(Create(size), Handle(k), m)])
    ensures Align8(size) == RoundUp(size)
  {
    var p := Past(Create(size), Handle(k), m);
    Appended(ps, p);
    RoundUpFacts(size);
    AlignRounds(size);
    RoundsBelow(size);
    var t := slots[k := Slot(base, Align8(size), 0)];
    forall i: nat | i < SLOTS ensures SlotTold(t[i], ps + [p], i) {
      assert SlotTold(slots[i], ps, i);
    }
  }

  lemma RoundsBelow(size: nat)
    requires size <= SIZE_LIMIT
    ensures RoundUp(size) <= SIZE_LIMIT
  {
  }

  lemma LeastDeadIs(slots: seq<Slot>, ps: seq<Past>)
    requires Told(slots, ps)
    ensures IsLeastDead(ps, FirstFree(slots))
  {
    var k := FirstFree(slots);
    forall h: nat | h < SLOTS && h <= k ensures SizeOf(ps, h) == slots[h].size {
      assert SlotTold(slots[h], ps, h);
    }
  }

  lemma LeastDeadIsOne(ps: seq<Past>, j: nat, k: nat)
    requires IsLeastDead(ps, j) && IsLeastDead(ps, k)
    ensures j == k
  {
  }

  /** A call that traps tells nothing new. */
  lemma TrapTold(slots: seq<Slot>, ps: seq<Past>, p: Past)
    requires Told(slots, ps) && p.answer.Trap?
    ensures Told(slots, ps + [p]) && EndOf(ps + [p]) == EndOf(ps)
    ensures forall h: nat :: BaseOf(ps + [p], h) == BaseOf(ps, h)
    ensures forall h: nat :: MappedOf(ps + [p], h) == MappedOf(ps, h)
  {
    Appended(ps, p);
    forall h: nat | h < SLOTS ensures SlotTold(slots[h], ps + [p], h) {
      assert SlotTold(slots[h], ps, h);
    }
  }

  // ---- the arena ----

  ghost predicate BaseTold(s: Slot, ps: seq<Past>, h: nat) {
    s.size != 0 ==> s.base == BaseOf(ps, h)
  }

  /** The pages that cover the arena up to `end`, never fewer than at the start. */
  function PagesTo(end: nat): nat {
    var need := (end + 65535) / PAGE;
    if need < MIN_PAGES then MIN_PAGES else need
  }

  ghost predicate ArenaTold(a: Arena, ps: seq<Past>) {
    && Sound(a) && Told(a.slots, ps) && a.cursor == EndOf(ps) && a.pages == PagesTo(EndOf(ps))
    && forall h: nat {:trigger BaseTold(a.slots[h], ps, h)} :: h < SLOTS ==> BaseTold(a.slots[h], ps, h)
  }

  /** What the creation of a region in the arena is answered: a size of 0 and a memory
      that cannot grow trap, and so does a full table. */
  ghost predicate CreateAnswer(ps: seq<Past>, size: nat, granted: bool, r: Answer) {
    if size == 0 then r == Trap(UNREACHABLE)
    else if IsLeastDead(ps, SLOTS) then r == Trap(REGION_EXHAUSTED)
    else
      var pages := PagesTo(EndOf(ps) + RoundUp(size));
      if pages == PagesTo(EndOf(ps)) || (granted && pages <= MAX_PAGES) then r.Handle? && IsLeastDead(ps, r.handle)
      else r == Trap(UNREACHABLE)
  }

  /** What any call on the arena is answered, by its history. */
  ghost predicate ArenaAnswer(ps: seq<Past>, c: Call, granted: bool, r: Answer) {
    match c
    case Create(size) => CreateAnswer(ps, size, granted, r)
    case Alloc(h, size) => r == AllocAnswer(ps, h, size, BaseOf(ps, h))
    case Reset(h) => r == LifeAnswer(ps, h)
    case Destroy(h) => r == LifeAnswer(ps, h)
  }

  lemma PagesAre(cursor: U64, size: U64)
    requires cursor <= ARENA_END && size <= SIZE_LIMIT
    ensures PagesFor(cursor, RoundUp(size)) == (cursor + RoundUp(size) + 65535) / PAGE < TWO32
  {
    RoundsBelow(size);
    SumIs(cursor, RoundUp(size));
    SumIs(cursor + RoundUp(size), 65535);
  }

  lemma GrowIs(pages: nat, need: nat, granted: bool)
    requires MIN_PAGES <= pages <= MAX_PAGES && need < TWO32
    ensures Grow(pages, need, granted) ==
      if need <= pages then Some(pages) else if granted && need <= MAX_PAGES then Some(need) else None
  {
  }

  lemma ArenaCreateTold(a: Arena, ps: seq<Past>, size: U64, granted: bool)
    requires ArenaTold(a, ps) && size <= SIZE_LIMIT
    ensures
      var (b, r) := CreateIn(a, size, granted);
      CreateAnswer(ps, size, granted, r) && ArenaTold(b, ps + [Past(Create(size), r, None)])
  {
    hide Grow;
    var (b, r) := CreateIn(a, size, granted);
    var p := Past(Create(size), r, None);
    Appended(ps, p);
    RoundUpFacts(size);
    RoundsBelow(size);
    AlignRounds(size);
    LeastDeadIs(a.slots, ps);
    CreateKeepsExactly(a, size, granted);
    if r.Handle? {
      SmallSizesFit(a, size, granted);
      CreateTold(a.slots, ps, r.handle, a.cursor, size, None);
      SumIs(a.cursor, Align8(size));
    } else {
      TrapTold(a.slots, ps, p);
    }
    if size > 0 {
      PagesAre(a.cursor, size);
      GrowIs(a.pages, PagesFor(a.cursor, RoundUp(size)), granted);
      if FirstFree(a.slots) < SLOTS {
        NotAllLive(ps, FirstFree(a.slots));
      }
    }
    forall h: nat | h < SLOTS ensures BaseTold(b.slots[h], ps + [p], h) {
      assert BaseTold(a.slots[h], ps, h);
    }
  }

  lemma NotAllLive(ps: seq<Past>, k: nat)
    requires IsLeastDead(ps, k) && k < SLOTS
    ensures !IsLeastDead(ps, SLOTS)
  {
  }

  lemma NothingCreated(ps: seq<Past>, p: Past)
    requires !p.call.Create?
    ensures EndOf(ps + [p]) == EndOf(ps)
    ensures forall h: nat :: BaseOf(ps + [p], h) == BaseOf(ps, h)
    ensures forall h: nat :: MappedOf(ps + [p], h) == MappedOf(ps, h)
  {
    Appended(ps, p);
  }

  /** A changed table in which every region is told and lies where it lay. */
  lemma ArenaChanged(a: Arena, ps: seq<Past>, h: nat, s: Slot, p: Past)
    requires ArenaTold(a, ps) && h < SLOTS && !p.call.Create? && Told(a.slots[h := s], ps + [p])
    requires s == FREE || (s.base == a.slots[h].base && s.size == a.slots[h].size)
    ensures ArenaTold(a.(slots := a.slots[h := s]), ps + [p])
  {
    NothingCreated(ps, p);
    var t := a.slots[h := s];
    assert SlotTold(t[h], ps + [p], h);
    assert RegionOk(a.slots[h], a.cursor);
    ReplaceSlot(a, h, s);
    forall i: nat | i < SLOTS ensures BaseTold(t[i], ps + [p], i) {
      assert BaseTold(a.slots[i], ps, i);
    }
  }

  lemma ArenaTrapped(a: Arena, ps: seq<Past>, p: Past)
    requires ArenaTold(a, ps) && p.answer.Trap?
    ensures ArenaTold(a, ps + [p])
  {
    TrapTold(a.slots, ps, p);
    forall i: nat | i < SLOTS ensures BaseTold(a.slots[i], ps + [p], i) {
      assert BaseTold(a.slots[i], ps, i);
    }
  }

  lemma ArenaAllocTold(a: Arena, ps: seq<Past>, h: U64, size: U64)
    requires ArenaTold(a, ps) && size <= SIZE_LIMIT
    ensures
      var (t, r) := AllocIn(a.slots, h, size);
      r == AllocAnswer(ps, h, size, BaseOf(ps, h)) && ArenaTold(a.(slots := t), ps + [Past(Alloc(h, size), r, None)])
  {
    var (t, r) := AllocIn(a.slots, h, size);
    var p := Past(Alloc(h, size), r, None);
    AllocTold(a.slots, ps, h, size, None);
    if h < SLOTS {
      assert SlotTold(a.slots[h], ps, h) && BaseTold(a.slots[h], ps, h);
    }
    if r.Trap? {
      ArenaTrapped(a, ps, p);
    } else {
      assert t == a.slots[h := t[h]];
      ArenaChanged(a, ps, h, t[h], p);
    }
  }

  lemma ArenaResetTold(a: Arena, ps: seq<Past>, h: U64)
    requires ArenaTold(a, ps)
    ensures
      var (t, r) := ResetIn(a.slots, h);
      r == LifeAnswer(ps, h) && ArenaTold(a.(slots := t), ps + [Past(Reset(h), r, None)])
  {
    var (t, r) := ResetIn(a.slots, h);
    var p := Past(Reset(h), r, None);
    ResetTold(a.slots, ps, h, None);
    if r.Trap? {
      ArenaTrapped(a, ps, p);
    } else {
      ArenaChanged(a, ps, h, t[h], p);
    }
  }

  lemma ArenaDestroyTold(a: Arena, ps: seq<Past>, h: U64)
    requires ArenaTold(a, ps)
    ensures
      var (t, r) := DestroyIn(a.slots, h);
      r == LifeAnswer(ps, h) && ArenaTold(a.(slots := t), ps + [Past(Destroy(h), r, None)])
  {
    var (t, r) := DestroyIn(a.slots, h);
    var p := Past(Destroy(h), r, None);
    DestroyTold(a.slots, ps, h, None);
    if r.Trap? {
      ArenaTrapped(a, ps, p);
    } else {
      ArenaChanged(a, ps, h, FREE, p);
    }
  }

  /** Every call on the arena is answered as the history says, and leaves what the
      longer history says. */
  lemma ArenaStepTold(a: Arena, ps: seq<Past>, c: Call, granted: bool)
    requires ArenaTold(a, ps) && Modest(c)
    ensures
      var (b, r) := ArenaStep(a, c, granted);
      ArenaAnswer(ps, c, granted, r) && ArenaTold(b, ps + [Past(c, r, None)])
  {
    hide CreateIn;
    hide AllocIn;
    hide ResetIn;
    hide DestroyIn;
    hide Sound;
    hide Told;
    hide CreateAnswer;
    match c
    case Create(size) => ArenaCreateTold(a, ps, size, granted);
    case Alloc(h, size) => ArenaAllocTold(a, ps, h, size);
    case Reset(h) => ArenaResetTold(a, ps, h);
    case Destroy(h) => ArenaDestroyTold(a, ps, h);
  }

  // ---- runs ----

  /** A run of the arena: the states, and what was asked and answered between them. */
  ghost predicate IsArenaRun(as_: seq<Arena>, ps: seq<Past>, granted: seq<bool>) {
    && |as_| == |ps| + 1 == |granted| + 1 && as_[0] == BootArena()
    && forall i :: 0 <= i < |ps| ==> ArenaStepAt(as_, ps, granted, i)
  }

  ghost predicate ArenaStepAt(as_: seq<Arena>, ps: seq<Past>, granted: seq<bool>, i: nat)
    requires |as_| == |ps| + 1 == |granted| + 1 && i < |ps|
  {
    && |as_[i].slots| == SLOTS && Modest(ps[i].call) && ps[i].mapped == None
    && ArenaStep(as_[i], ps[i].call, granted[i]) == (as_[i + 1], ps[i].answer)
  }

  lemma BootArenaTold()
    ensures ArenaTold(BootArena(), [])
  {
    BootIsSound();
    forall h: nat | h < SLOTS ensures SlotTold(BootArena().slots[h], [], h) && BaseTold(BootArena().slots[h], [], h) {
    }
  }

  /** Over every run of the arena with sizes up to 2^47: the table is what the history
      says, and so is every answer. */
  lemma {:induction false} ArenaAnswersAreHistory(as_: seq<Arena>, ps: seq<Past>, granted: seq<bool>, k: nat)
    requires IsArenaRun(as_, ps, granted) && k <= |ps|
    ensures ArenaTold(as_[k], ps[..k])
    ensures k < |ps| ==> ArenaAnswer(ps[..k], ps[k].call, granted[k], ps[k].answer)
    decreases k
  {
    hide ArenaTold;
    hide ArenaStep;
    hide ArenaAnswer;
    if k == 0 {
      BootArenaTold();
      assert ps[..0] == [];
    } else {
      ArenaAnswersAreHistory(as_, ps, granted, k - 1);
      assert ArenaStepAt(as_, ps, granted, k - 1);
      ArenaStepTold(as_[k - 1], ps[..k - 1], ps[k - 1].call, granted[k - 1]);
      assert ps[..k] == ps[..k - 1] + [ps[k - 1]];
    }
    if k < |ps| {
      assert ArenaStepAt(as_, ps, granted, k);
      ArenaStepTold(as_[k], ps[..k], ps[k].call, granted[k]);
    }
  }

  // ---- the hosted heap ----

  ghost predicate MapTold(s: Slot, ps: seq<Past>, h: nat) {
    s.size != 0 ==> MappedOf(ps, h) == Some(s.base)
  }

  ghost predicate HostedTold(g: Hosted, ps: seq<Past>) {
    && HostedSound(g) && Told(g.slots, ps)
    && forall h: nat {:trigger MapTold(g.slots[h], ps, h)} :: h < SLOTS ==> MapTold(g.slots[h], ps, h)
  }

  /** What a call on the hosted heap is answered. */
  ghost predicate HostedAnswer(ps: seq<Past>, c: Call, mapped: Option<U64>, unmapped: bool, r: Answer) {
    match c
    case Create(size) =>
      if size == 0 then r == Trap(UNREACHABLE)
      else if IsLeastDead(ps, SLOTS) then r == Trap(REGION_EXHAUSTED)
      else if mapped.Some? then r.Handle? && IsLeastDead(ps, r.handle)
      else r == Trap(UNREACHABLE)
    case Alloc(h, size) => r == AllocAnswer(ps, h, size, if MappedOf(ps, h).Some? then MappedOf(ps, h).value else 0)
    case Reset(h) => r == LifeAnswer(ps, h)
    case Destroy(h) => r == if unmapped then LifeAnswer(ps, h) else Trap(UNREACHABLE)
  }

  lemma HostedTrapped(g: Hosted, after: Hosted, ps: seq<Past>, p: Past)
    requires HostedTold(g, ps) && p.answer.Trap? && after.slots == g.slots && HostedSound(after)
    ensures HostedTold(after, ps + [p])
  {
    TrapTold(g.slots, ps, p);
    forall i: nat | i < SLOTS ensures MapTold(g.slots[i], ps + [p], i) {
      assert MapTold(g.slots[i], ps, i);
    }
  }

  lemma HostedChanged(g: Hosted, after: Hosted, ps: seq<Past>, p: Past)
    requires HostedTold(g, ps) && !p.call.Create? && HostedSound(after) && Told(after.slots, ps + [p])
    requires forall i :: 0 <= i < SLOTS ==> after.slots[i].size == 0 || (after.slots[i].base == g.slots[i].base && g.slots[i].size != 0)
    ensures HostedTold(after, ps + [p])
  {
    NothingCreated(ps, p);
    forall i: nat | i < SLOTS ensures MapTold(after.slots[i], ps + [p], i) {
      assert MapTold(g.slots[i], ps, i);
    }
  }

  lemma HostedCreateTold(g: Hosted, ps: seq<Past>, size: U64, mapped: Option<U64>)
    requires HostedTold(g, ps) && size <= SIZE_LIMIT
    ensures
      var (after, r) := HostedCreate(g, size, mapped);
      HostedAnswer(ps, Create(size), mapped, true, r) && HostedTold(after, ps + [Past(Create(size), r, mapped)])
  {
    var (after, r) := HostedCreate(g, size, mapped);
    var p := Past(Create(size), r, mapped);
    Appended(ps, p);
    HostedKeeps(g, Create(size), mapped, true);
    LeastDeadIs(g.slots, ps);
    if size > 0 {
      SecondPathOnlyTraps(g, size, mapped);
      if FirstFree(g.slots) < SLOTS {
        NotAllLive(ps, FirstFree(g.slots));
      }
    }
    if r.Handle? {
      CreateTold(g.slots, ps, r.handle, mapped.value, size, mapped);
      forall i: nat | i < SLOTS ensures MapTold(after.slots[i], ps + [p], i) {
        assert MapTold(g.slots[i], ps, i);
      }
    } else {
      HostedTrapped(g, after, ps, p);
    }
  }

  lemma HostedStepTold(g: Hosted, ps: seq<Past>, c: Call, mapped: Option<U64>, unmapped: bool)
    requires HostedTold(g, ps) && Modest(c)
    ensures
      var (after, r) := HostedStep(g, c, mapped, unmapped);
      HostedAnswer(ps, c, mapped, unmapped, r) && HostedTold(after, ps + [Past(c, r, mapped)])
  {
    match c
    case Create(size) => HostedCreateTold(g, ps, size, mapped);
    case Alloc(h, size) => HostedAllocTold(g, ps, h, size, mapped);
    case Reset(h) => HostedResetTold(g, ps, h, mapped);
    case Destroy(h) => HostedDestroyTold(g, ps, h, mapped, unmapped);
  }

  lemma HostedAllocTold(g: Hosted, ps: seq<Past>, h: U64, size: U64, mapped: Option<U64>)
    requires HostedTold(g, ps) && size <= SIZE_LIMIT
    ensures
      var (after, r) := HostedStep(g, Alloc(h, size), mapped, true);
      HostedAnswer(ps, Alloc(h, size), mapped, true, r) && HostedTold(after, ps + [Past(Alloc(h, size), r, mapped)])
  {
    var (after, r) := HostedStep(g, Alloc(h, size), mapped, true);
    var p := Past(Alloc(h, size), r, mapped);
    HostedKeeps(g, Alloc(h, size), mapped, true);
    AllocTold(g.slots, ps, h, size, mapped);
    if h < SLOTS {
      assert SlotTold(g.slots[h], ps, h) && MapTold(g.slots[h], ps, h);
    }
    if r.Trap? {
      HostedTrapped(g, after, ps, p);
    } else {
      HostedChanged(g, after, ps, p);
    }
  }

  lemma HostedResetTold(g: Hosted, ps: seq<Past>, h: U64, mapped: Option<U64>)
    requires HostedTold(g, ps)
    ensures
      var (after, r) := HostedStep(g, Reset(h), mapped, true);
      HostedAnswer(ps, Reset(h), mapped, true, r) && HostedTold(after, ps + [Past(Reset(h), r, mapped)])
  {
    var (after, r) := HostedStep(g, Reset(h), mapped, true);
    var p := Past(Reset(h), r, mapped);
    HostedKeeps(g, Reset(h), mapped, true);
    ResetTold(g.slots, ps, h, mapped);
    if r.Trap? {
      HostedTrapped(g, after, ps, p);
    } else {
      HostedChanged(g, after, ps, p);
    }
  }

  lemma HostedDestroyTold(g: Hosted, ps: seq<Past>, h: U64, mapped: Option<U64>, unmapped: bool)
    requires HostedTold(g, ps)
    ensures
      var (after, r) := HostedStep(g, Destroy(h), mapped, unmapped);
      HostedAnswer(ps, Destroy(h), mapped, unmapped, r) && HostedTold(after, ps + [Past(Destroy(h), r, mapped)])
  {
    var (after, r) := HostedStep(g, Destroy(h), mapped, unmapped);
    var p := Past(Destroy(h), r, mapped);
    HostedKeeps(g, Destroy(h), mapped, unmapped);
    DestroyTold(g.slots, ps, h, mapped);
    if r.Trap? {
      HostedTrapped(g, after, ps, p);
    } else {
      HostedChanged(g, after, ps, p);
    }
  }

  ghost predicate IsHostedRun(gs: seq<Hosted>, ps: seq<Past>, unmapped: seq<bool>) {
    && |gs| == |ps| + 1 == |unmapped| + 1 && gs[0] == BootHosted()
    && forall i :: 0 <= i < |ps| ==> HostedStepAt(gs, ps, unmapped, i)
  }

  ghost predicate HostedStepAt(gs: seq<Hosted>, ps: seq<Past>, unmapped: seq<bool>, i: nat)
    requires |gs| == |ps| + 1 == |unmapped| + 1 && i < |ps|
  {
    && |gs[i].slots| == SLOTS && Modest(ps[i].call)
    && HostedStep(gs[i], ps[i].call, ps[i].mapped, unmapped[i]) == (gs[i + 1], ps[i].answer)
  }

  lemma BootHostedTold()
    ensures HostedTold(BootHosted(), [])
  {
    BootIsSound();
    forall h: nat | h < SLOTS ensures SlotTold(BootHosted().slots[h], [], h) && MapTold(BootHosted().slots[h], [], h) {
    }
  }

  /** The same of the hosted heap. */
  lemma {:induction false} HostedAnswersAreHistory(gs: seq<Hosted>, ps: seq<Past>, unmapped: seq<bool>, k: nat)
    requires IsHostedRun(gs, ps, unmapped) && k <= |ps|
    ensures HostedTold(gs[k], ps[..k])
    ensures k < |ps| ==> HostedAnswer(ps[..k], ps[k].call, ps[k].mapped, unmapped[k], ps[k].answer)
    decreases k
  {
    hide HostedTold;
    hide HostedStep;
    hide HostedAnswer;
    if k == 0 {
      BootHostedTold();
      assert ps[..0] == [];
    } else {
      HostedAnswersAreHistory(gs, ps, unmapped, k - 1);
      assert HostedStepAt(gs, ps, unmapped, k - 1);
      HostedStepTold(gs[k - 1], ps[..k - 1], ps[k - 1].call, ps[k - 1].mapped, unmapped[k - 1]);
      assert ps[..k] == ps[..k - 1] + [ps[k - 1]];
    }
    if k < |ps| {
      assert HostedStepAt(gs, ps, unmapped, k);
      HostedStepTold(gs[k], ps[..k], ps[k].call, ps[k].mapped, unmapped[k]);
    }
  }

  /** After a reset the first allocation that fits the region gets its base. */
  lemma FreshAfterReset(ps: seq<Past>, p: Past, size: nat, base: U64)
    requires p.call.Reset? && p.answer == Done && size > 0 && p.call.handle < SLOTS && SizeOf(ps, p.call.handle) != 0
    ensures AllocAnswer(ps + [p], p.call.handle, size, base) ==
      if RoundUp(size) <= SizeOf(ps, p.call.handle) then Address(base) else Trap(REGION_EXHAUSTED)
  {
    Appended(ps, p);
  }
}
