/** The validation of a platform descriptor: what it must reject is said of the
    descriptor as a whole, while the code sorts in place and compares neighbours. */
module Descriptors {
  import opened Rings
  import opened Ir
  import opened Leb

  type Name = seq<Byte>

  /** Kinds and relocations are given by their numbers on the wire. */
  datatype Aperture = Aperture(id: nat, name: Name, kind: nat, reloc: nat, base: Option<U64>, size: nat)

  datatype Register = Register(offset: nat, name: Name, width: nat, access: nat, writeKind: nat, readKind: nat, atomicMax: nat,
                               mask: nat, reset: nat, barrier: nat, interrupt: nat, irq: nat)

  datatype Device = Device(mapName: Name, instance: Name, aperture: nat, baseOffset: nat, registers: seq<Register>)

  datatype Descriptor = Descriptor(hash: nat, apertures: seq<Aperture>, devices: seq<Device>, isrSlots: nat)

  datatype Error = ApertureIdGap | ApertureSizeZero | ApertureOverlap | DeviceUnknownAperture | DeviceDuplicate

  // ---- what is to be rejected ----

  function Ids(as_: seq<Aperture>): (ids: seq<nat>)
    ensures |ids| == |as_| && forall i :: 0 <= i < |as_| ==> ids[i] == as_[i].id
  {
    seq(|as_|, i requires 0 <= i < |as_| => as_[i].id)
  }

  function UpTo(n: nat): (s: seq<nat>)
    ensures |s| == n && forall i :: 0 <= i < n ==> s[i] == i
  {
    seq(n, i => i)
  }

  /** The ids are 0, 1, ... in some order. */
  ghost predicate DenseIds(as_: seq<Aperture>) {
    multiset(Ids(as_)) == multiset(UpTo(|as_|))
  }

  ghost predicate SizesPositive(as_: seq<Aperture>) {
    forall i :: 0 <= i < |as_| ==> as_[i].size > 0
  }

  /** The addresses from `lo` on and below `hi`. */
  datatype Range = Range(lo: nat, hi: nat)

  const TOP: nat := 0xFFFF_FFFF_FFFF_FFFF

  /** The end of an aperture, saturated. */
  function RangeOf(base: U64, size: nat): Range {
    Range(base, if base + size > TOP then TOP else base + size)
  }

  function Ranges(as_: seq<Aperture>): (rs: seq<Range>) {
    if as_ == [] then []
    else match as_[0].base
      case None => Ranges(as_[1..])
      case Some(b) => [RangeOf(b, as_[0].size)] + Ranges(as_[1..])
  }

  predicate ApartRanges(r: Range, s: Range) {
    r.hi <= s.lo || s.hi <= r.lo
  }

  /** A relation between any two members. */
  ghost predicate Pairwise<T(!new)>(s: seq<T>, related: (T, T) -> bool) {
    forall i, j {:trigger s[i], s[j]} :: 0 <= i < j < |s| ==> related(s[i], s[j])
  }

  predicate Declared(as_: seq<Aperture>, id: nat) {
    exists i :: 0 <= i < |as_| && as_[i].id == id
  }

  ghost predicate AllDeclared(d: Descriptor) {
    forall i :: 0 <= i < |d.devices| ==> Declared(d.apertures, d.devices[i].aperture)
  }

  function Instances(ds: seq<Device>): (ns: seq<Name>)
    ensures |ns| == |ds| && forall i :: 0 <= i < |ds| ==> ns[i] == ds[i].instance
  {
    seq(|ds|, i requires 0 <= i < |ds| => ds[i].instance)
  }

  predicate Differ(a: Name, b: Name) {
    a != b
  }

  /** The first thing wrong, in the order in which things are looked at. */
  ghost function Verdict(d: Descriptor): Option<Error> {
    if !DenseIds(d.apertures) then Some(ApertureIdGap)
    else if !SizesPositive(d.apertures) then Some(ApertureSizeZero)
    else if !Pairwise(Ranges(d.apertures), ApartRanges) then Some(ApertureOverlap)
    else if !AllDeclared(d) then Some(DeviceUnknownAperture)
    else if !Pairwise(Instances(d.devices), Differ) then Some(DeviceDuplicate)
    else None
  }

  // ---- insertion sort in place ----

  /** `after` is a strict order in which any two things compare. */
  ghost predicate Orders<T(!new)>(after: (T, T) -> bool) {
    && (forall a, b {:trigger after(a, b)} :: after(a, b) ==> !after(b, a))
    && (forall a, b, c {:trigger after(a, b), after(b, c)} :: !after(a, b) && !after(b, c) ==> !after(a, c))
  }

  ghost predicate SortedBy<T(!new)>(s: seq<T>, after: (T, T) -> bool) {
    forall i, j {:trigger s[i], s[j]} :: 0 <= i < j < |s| ==> !after(s[i], s[j])
  }

  /** Sorted up to `i`, but for the element at `j`, which is not after those that
      follow it. */
  ghost predicate Sinking<T(!new)>(s: seq<T>, after: (T, T) -> bool, i: nat, j: nat)
    requires i < |s|
  {
    && j <= i
    && (forall a, b {:trigger s[a], s[b]} :: 0 <= a < b <= i && a != j && b != j ==> !after(s[a], s[b]))
    && (forall b {:trigger s[b]} :: j < b <= i ==> !after(s[j], s[b]))
  }

  function Swapped<T>(s: seq<T>, j: nat): seq<T>
    requires 0 < j < |s|
  {
    s[j - 1 := s[j]][j := s[j - 1]]
  }

  lemma SwapKeepsElements<T>(s: seq<T>, j: nat)
    requires 0 < j < |s|
    ensures multiset(Swapped(s, j)) == multiset(s)
  {
  }

  lemma SinkOne<T(!new)>(s: seq<T>, after: (T, T) -> bool, i: nat, j: nat)
    requires Orders(after) && i < |s| && 0 < j && Sinking(s, after, i, j) && after(s[j - 1], s[j])
    ensures Sinking(Swapped(s, j), after, i, j - 1)
  {
    var t := Swapped(s, j);
    forall a, b | 0 <= a < b <= i && a != j - 1 && b != j - 1
      ensures !after(t[a], t[b])
    {
      assert t[a] == if a == j then s[j - 1] else s[a];
      assert t[b] == if b == j then s[j - 1] else s[b];
    }
    forall b | j - 1 < b <= i ensures !after(t[j - 1], t[b]) {
    }
  }

  lemma Settled<T(!new)>(s: seq<T>, after: (T, T) -> bool, i: nat, j: nat)
    requires Orders(after) && i < |s| && Sinking(s, after, i, j) && (j == 0 || !after(s[j - 1], s[j]))
    ensures SortedBy(s[..i + 1], after)
  {
    forall a, b | 0 <= a < b <= i ensures !after(s[a], s[b]) {
      if b == j && a < j - 1 {
        assert !after(s[a], s[j - 1]);
      }
    }
  }

  method Sort<T(!new)>(v: array<T>, after: (T, T) -> bool)
    requires Orders(after)
    modifies v
    ensures SortedBy(v[..], after) && multiset(v[..]) == multiset(old(v[..]))
  {
    var i := 1;
    while i < v.Length
      invariant 1 <= i && (i <= v.Length || v.Length == 0)
      invariant SortedBy(v[..if i <= v.Length then i else v.Length], after)
      invariant multiset(v[..]) == multiset(old(v[..]))
    {
      var j := i;
      while j > 0 && after(v[j - 1], v[j])
        invariant j <= i && Sinking(v[..], after, i, j)
        invariant multiset(v[..]) == multiset(old(v[..]))
      {
        ghost var before := v[..];
        SinkOne(before, after, i, j);
        SwapKeepsElements(before, j);
        v[j - 1], v[j] := v[j], v[j - 1];
        assert v[..] == Swapped(before, j);
        j := j - 1;
      }
      Settled(v[..], after, i, j);
      assert v[..][..i + 1] == v[..i + 1];
      i := i + 1;
    }
    assert v[..] == v[..v.Length];
  }

  // ---- relations between any two do not depend on the order ----

  lemma {:induction false} TwoOf<T(!new)>(s: seq<T>, x: T) returns (i: nat, j: nat)
    requires multiset(s)[x] >= 2
    ensures i < j < |s| && s[i] == x && s[j] == x
  {
    var n := |s| - 1;
    assert s == s[..n] + [s[n]];
    if s[n] == x {
      assert x in multiset(s[..n]);
      i :| 0 <= i < n && s[i] == x;
      j := n;
    } else {
      i, j := TwoOf(s[..n], x);
    }
  }

  lemma CountTwo<T(!new)>(s: seq<T>, i: nat, j: nat)
    requires i < j < |s| && s[i] == s[j]
    ensures multiset(s)[s[i]] >= 2
  {
    assert s == s[..j] + ([s[j]] + s[j + 1..]);
    assert s[..j][i] == s[i] && s[i] in multiset(s[..j]);
  }

  lemma PairwisePermutes<T(!new)>(s: seq<T>, t: seq<T>, related: (T, T) -> bool)
    requires multiset(s) == multiset(t) && Pairwise(s, related)
    requires forall a, b {:trigger related(a, b)} :: related(a, b) ==> related(b, a)
    ensures Pairwise(t, related)
  {
    forall i, j | 0 <= i < j < |t| ensures related(t[i], t[j]) {
      assert t[i] in multiset(t) && t[j] in multiset(t);
      if t[i] == t[j] {
        CountTwo(t, i, j);
        var k, l := TwoOf(s, t[i]);
      } else {
        var k :| 0 <= k < |s| && s[k] == t[i];
        var l :| 0 <= l < |s| && s[l] == t[j];
      }
    }
  }

  lemma PairwiseOfSorted<T(!new)>(s: seq<T>, t: seq<T>, related: (T, T) -> bool)
    requires multiset(s) == multiset(t)
    requires forall a, b {:trigger related(a, b)} :: related(a, b) ==> related(b, a)
    ensures Pairwise(s, related) <==> Pairwise(t, related)
  {
    if Pairwise(s, related) {
      PairwisePermutes(s, t, related);
    }
    if Pairwise(t, related) {
      PairwisePermutes(t, s, related);
    }
  }

  // ---- ids ----

  predicate Above(a: nat, b: nat) {
    a > b
  }

  lemma WithoutLast<T(!new)>(s: seq<T>, t: seq<T>)
    requires |s| == |t| > 0 && multiset(s) == multiset(t) && s[|s| - 1] == t[|t| - 1]
    ensures multiset(s[..|s| - 1]) == multiset(t[..|t| - 1])
  {
    var n := |s| - 1;
    assert s == s[..n] + [s[n]] && t == t[..n] + [t[n]];
    assert multiset(s[..n]) == multiset(s) - multiset{s[n]};
    assert multiset(t[..n]) == multiset(t) - multiset{t[n]};
  }

  lemma SameLast(s: seq<nat>, t: seq<nat>)
    requires multiset(s) == multiset(t) && SortedBy(s, Above) && SortedBy(t, Above) && |s| == |t| > 0
    ensures s[|s| - 1] == t[|t| - 1]
  {
    var n := |s| - 1;
    assert s[n] in multiset(t) && t[n] in multiset(s);
    var i :| 0 <= i < |t| && t[i] == s[n];
    var j :| 0 <= j < |s| && s[j] == t[n];
    assert i == n || !Above(t[i], t[n]);
    assert j == n || !Above(s[j], s[n]);
  }

  lemma {:induction false} SameSorted(s: seq<nat>, t: seq<nat>)
    requires multiset(s) == multiset(t) && SortedBy(s, Above) && SortedBy(t, Above)
    ensures s == t
    decreases |s|
  {
    SameLength(s, t);
    if s != [] {
      var n := |s| - 1;
      SameLast(s, t);
      WithoutLast(s, t);
      SameSorted(s[..n], t[..n]);
      assert s == s[..n] + [s[n]] && t == t[..n] + [t[n]];
    }
  }

  lemma SameLength<T(!new)>(s: seq<T>, t: seq<T>)
    requires multiset(s) == multiset(t)
    ensures |s| == |t|
  {
    assert |multiset(s)| == |s| && |multiset(t)| == |t|;
  }

  /** Sorted ids are dense exactly if each is its own position. */
  lemma DenseWhenSorted(as_: seq<Aperture>, s: seq<nat>)
    requires multiset(s) == multiset(Ids(as_)) && SortedBy(s, Above)
    ensures |s| == |as_| && (DenseIds(as_) <==> forall i :: 0 <= i < |s| ==> s[i] == i)
  {
    SameLength(s, Ids(as_));
    var n := |as_|;
    if DenseIds(as_) {
      SameSorted(s, UpTo(n));
    }
    if forall i :: 0 <= i < |s| ==> s[i] == i {
      assert s == UpTo(n);
    }
  }

  // ---- ranges ----

  predicate StartsAfter(a: Range, b: Range) {
    a.lo > b.lo
  }

  /** A range with addresses in it, or the empty one at the very top. */
  predicate Proper(r: Range) {
    r.lo < r.hi <= TOP || (r.lo == TOP && r.hi == TOP)
  }

  lemma {:induction false} RangesProper(as_: seq<Aperture>)
    requires SizesPositive(as_)
    ensures forall r :: r in Ranges(as_) ==> Proper(r)
  {
    if as_ != [] {
      RangesProper(as_[1..]);
    }
  }

  /** No neighbours overlap. */
  ghost predicate NeighboursApart(rs: seq<Range>) {
    forall i {:trigger rs[i]} :: 0 <= i < |rs| - 1 ==> rs[i].hi <= rs[i + 1].lo
  }

  /** Of ranges sorted by their start it is enough to compare neighbours. */
  lemma NeighboursSuffice(rs: seq<Range>)
    requires SortedBy(rs, StartsAfter) && forall r :: r in rs ==> Proper(r)
    ensures Pairwise(rs, ApartRanges) <==> NeighboursApart(rs)
  {
    if NeighboursApart(rs) {
      forall i, j | 0 <= i < j < |rs| ensures ApartRanges(rs[i], rs[j]) {
        assert rs[i].hi <= rs[i + 1].lo;
        assert i + 1 == j || !StartsAfter(rs[i + 1], rs[j]);
      }
    }
    if Pairwise(rs, ApartRanges) {
      forall i | 0 <= i < |rs| - 1 ensures rs[i].hi <= rs[i + 1].lo {
        assert ApartRanges(rs[i], rs[i + 1]) && !StartsAfter(rs[i], rs[i + 1]);
        assert rs[i] in rs && rs[i + 1] in rs;
      }
    }
  }

  // ---- names ----

  predicate LexAfter(a: Name, b: Name) {
    a != [] && (b == [] || a[0] > b[0] || (a[0] == b[0] && LexAfter(a[1..], b[1..])))
  }

  lemma {:induction false} LexIsTotal(a: Name, b: Name)
    ensures LexAfter(a, b) ==> !LexAfter(b, a)
    ensures !LexAfter(a, b) && !LexAfter(b, a) ==> a == b
    decreases |a|
  {
    if a != [] && b != [] && a[0] == b[0] {
      LexIsTotal(a[1..], b[1..]);
      assert a == [a[0]] + a[1..] && b == [b[0]] + b[1..];
    }
  }

  lemma {:induction false} LexSteps(a: Name, b: Name, c: Name)
    requires !LexAfter(a, b) && !LexAfter(b, c)
    ensures !LexAfter(a, c)
    decreases |a|
  {
    if a != [] && b != [] && c != [] && a[0] == b[0] == c[0] {
      LexSteps(a[1..], b[1..], c[1..]);
    }
  }

  lemma LexOrders()
    ensures Orders(LexAfter)
  {
    forall a, b | LexAfter(a, b) ensures !LexAfter(b, a) {
      LexIsTotal(a, b);
    }
    forall a, b, c | !LexAfter(a, b) && !LexAfter(b, c) ensures !LexAfter(a, c) {
      LexSteps(a, b, c);
    }
  }

  ghost predicate NeighboursDiffer(ns: seq<Name>) {
    forall i {:trigger ns[i]} :: 0 <= i < |ns| - 1 ==> ns[i] != ns[i + 1]
  }

  /** Of sorted names it is enough to compare neighbours. */
  lemma DuplicatesAreNeighbours(ns: seq<Name>)
    requires SortedBy(ns, LexAfter)
    ensures Pairwise(ns, Differ) <==> NeighboursDiffer(ns)
  {
    if NeighboursDiffer(ns) {
      forall i, j | 0 <= i < j < |ns| ensures Differ(ns[i], ns[j]) {
        assert ns[i] != ns[i + 1];
        if ns[i] == ns[j] {
          LexIsTotal(ns[i], ns[i + 1]);
        }
      }
    }
    if Pairwise(ns, Differ) {
      forall i | 0 <= i < |ns| - 1 ensures ns[i] != ns[i + 1] {
        assert Differ(ns[i], ns[i + 1]);
      }
    }
  }

  // ---- the passes ----

  method IdsAreDense(as_: seq<Aperture>) returns (ok: bool)
    ensures ok <==> DenseIds(as_)
  {
    var ids := new nat[|as_|](i requires 0 <= i < |as_| => as_[i].id);
    assert ids[..] == Ids(as_);
    Sort(ids, Above);
    DenseWhenSorted(as_, ids[..]);
    var i := 0;
    while i < ids.Length
      invariant i <= ids.Length && forall k :: 0 <= k < i ==> ids[k] == k
    {
      if ids[i] != i {
        assert ids[..][i] != i;
        return false;
      }
      i := i + 1;
    }
    return true;
  }

  method CollectRanges(as_: seq<Aperture>) returns (rs: seq<Range>)
    ensures rs == Ranges(as_)
  {
    rs := [];
    var i := 0;
    while i < |as_|
      invariant i <= |as_| && rs + Ranges(as_[i..]) == Ranges(as_)
    {
      assert as_[i..][1..] == as_[i + 1..];
      if as_[i].base.Some? {
        var r := RangeOf(as_[i].base.value, as_[i].size);
        assert rs + ([r] + Ranges(as_[i + 1..])) == (rs + [r]) + Ranges(as_[i + 1..]);
        rs := rs + [r];
      }
      i := i + 1;
    }
    assert rs + [] == rs;
  }

  method RangesAreApart(as_: seq<Aperture>) returns (ok: bool)
    requires SizesPositive(as_)
    ensures ok <==> Pairwise(Ranges(as_), ApartRanges)
  {
    var rs := CollectRanges(as_);
    var v := new Range[|rs|](i requires 0 <= i < |rs| => rs[i]);
    assert v[..] == rs;
    Sort(v, StartsAfter);
    SortedRanges(as_, rs, v[..]);
    ok := NoNeighboursOverlap(v);
  }

  lemma SortedRanges(as_: seq<Aperture>, rs: seq<Range>, s: seq<Range>)
    requires SizesPositive(as_) && rs == Ranges(as_) && multiset(s) == multiset(rs) && SortedBy(s, StartsAfter)
    ensures Pairwise(rs, ApartRanges) <==> NeighboursApart(s)
  {
    RangesProper(as_);
    forall r | r in s ensures Proper(r) {
      assert r in multiset(s);
    }
    PairwiseOfSorted(s, rs, ApartRanges);
    NeighboursSuffice(s);
  }

  method NoNeighboursOverlap(v: array<Range>) returns (ok: bool)
    ensures ok <==> NeighboursApart(v[..])
  {
    var i := 0;
    while i + 1 < v.Length
      invariant i == 0 || i < v.Length
      invariant forall k {:trigger v[k]} :: 0 <= k < i ==> v[k].hi <= v[k + 1].lo
    {
      if v[i].hi > v[i + 1].lo {
        assert v[..][i].hi > v[..][i + 1].lo;
        return false;
      }
      i := i + 1;
    }
    return true;
  }

  method NoNeighboursAlike(v: array<Name>) returns (ok: bool)
    ensures ok <==> NeighboursDiffer(v[..])
  {
    var i := 0;
    while i + 1 < v.Length
      invariant i == 0 || i < v.Length
      invariant forall k {:trigger v[k]} :: 0 <= k < i ==> v[k] != v[k + 1]
    {
      if v[i] == v[i + 1] {
        assert v[..][i] == v[..][i + 1];
        return false;
      }
      i := i + 1;
    }
    return true;
  }

  method IsDeclared(as_: seq<Aperture>, id: nat) returns (ok: bool)
    ensures ok <==> Declared(as_, id)
  {
    var i := 0;
    while i < |as_|
      invariant i <= |as_| && forall k :: 0 <= k < i ==> as_[k].id != id
    {
      if as_[i].id == id {
        return true;
      }
      i := i + 1;
    }
    return false;
  }

  method NamesDiffer(ds: seq<Device>) returns (ok: bool)
    ensures ok <==> Pairwise(Instances(ds), Differ)
  {
    var v := new Name[|ds|](i requires 0 <= i < |ds| => ds[i].instance);
    assert v[..] == Instances(ds);
    LexOrders();
    Sort(v, LexAfter);
    PairwiseOfSorted(v[..], Instances(ds), Differ);
    DuplicatesAreNeighbours(v[..]);
    ok := NoNeighboursAlike(v);
  }

  /** The validation gives exactly the verdict on the descriptor. */
  method Validate(d: Descriptor) returns (e: Option<Error>)
    ensures e == Verdict(d)
  {
    var dense := IdsAreDense(d.apertures);
    if !dense {
      return Some(ApertureIdGap);
    }
    var i := 0;
    while i < |d.apertures|
      invariant i <= |d.apertures| && forall k :: 0 <= k < i ==> d.apertures[k].size > 0
    {
      if d.apertures[i].size == 0 {
        return Some(ApertureSizeZero);
      }
      i := i + 1;
    }
    var apart := RangesAreApart(d.apertures);
    if !apart {
      return Some(ApertureOverlap);
    }
    i := 0;
    while i < |d.devices|
      invariant i <= |d.devices| && forall k :: 0 <= k < i ==> Declared(d.apertures, d.devices[k].aperture)
    {
      var known := IsDeclared(d.apertures, d.devices[i].aperture);
      if !known {
        return Some(DeviceUnknownAperture);
      }
      i := i + 1;
    }
    var differ := NamesDiffer(d.devices);
    if !differ {
      return Some(DeviceDuplicate);
    }
    return None;
  }

  // ---- what saturation hides ----

  /** Two apertures have an address in common. */
  predicate Collide(a: Aperture, b: Aperture) {
    && a.base.Some? && b.base.Some?
    && a.base.value < b.base.value + b.size && b.base.value < a.base.value + a.size
  }

  /** The saturated ranges are apart exactly if the apertures do not collide, or
      one of them begins at the very last address. */
  lemma ApartMeansDisjoint(a: Aperture, b: Aperture)
    requires a.base.Some? && b.base.Some? && a.size > 0 && b.size > 0
    ensures ApartRanges(RangeOf(a.base.value, a.size), RangeOf(b.base.value, b.size)) <==>
      !Collide(a, b) || a.base.value == TOP || b.base.value == TOP
  {
  }

  /** What the comparison of saturated ends makes of two apertures. */
  predicate KeptApart(a: Aperture, b: Aperture) {
    !Collide(a, b) || a.base == Some(TOP) || b.base == Some(TOP)
  }

  lemma PairwiseCons<T(!new)>(x: T, s: seq<T>, related: (T, T) -> bool)
    ensures Pairwise([x] + s, related) <==> (forall i :: 0 <= i < |s| ==> related(x, s[i])) && Pairwise(s, related)
  {
    var t := [x] + s;
    if Pairwise(t, related) {
      forall i | 0 <= i < |s| ensures related(x, s[i]) {
        assert related(t[0], t[i + 1]);
      }
      forall i, j | 0 <= i < j < |s| ensures related(s[i], s[j]) {
        assert related(t[i + 1], t[j + 1]);
      }
    }
  }

  /** An aperture against the ranges of others is that aperture against the
      others: those without a base collide with nothing. */
  lemma {:induction false} ApartFromAll(a: Aperture, as_: seq<Aperture>)
    requires a.base.Some? && a.size > 0 && SizesPositive(as_)
    ensures
      (forall i :: 0 <= i < |Ranges(as_)| ==> ApartRanges(RangeOf(a.base.value, a.size), Ranges(as_)[i])) <==>
      (forall i :: 0 <= i < |as_| ==> KeptApart(a, as_[i]))
  {
    if as_ != [] {
      var b, rest := as_[0], as_[1..];
      assert as_ == [b] + rest;
      ApartFromAll(a, rest);
      ForallCons(b, rest, x => KeptApart(a, x));
      if b.base.Some? {
        ApartMeansDisjoint(a, b);
        var x := RangeOf(b.base.value, b.size);
        assert Ranges(as_) == [x] + Ranges(rest);
        ForallCons(x, Ranges(rest), r => ApartRanges(RangeOf(a.base.value, a.size), r));
      } else {
        assert KeptApart(a, b) && Ranges(as_) == Ranges(rest);
      }
    }
  }

  lemma ForallCons<T(!new)>(x: T, s: seq<T>, holds: T -> bool)
    ensures (forall i :: 0 <= i < |[x] + s| ==> holds(([x] + s)[i])) <==> holds(x) && forall i :: 0 <= i < |s| ==> holds(s[i])
  {
    var t := [x] + s;
    if forall i :: 0 <= i < |t| ==> holds(t[i]) {
      assert holds(t[0]);
      forall i | 0 <= i < |s| ensures holds(s[i]) {
        assert holds(t[i + 1]);
      }
    }
  }

  /** The ranges of a descriptor are pairwise apart exactly if no two apertures
      collide, but for those that begin at the last address. */
  lemma {:induction false} RangesAreApertures(as_: seq<Aperture>)
    requires SizesPositive(as_)
    ensures Pairwise(Ranges(as_), ApartRanges) <==> Pairwise(as_, KeptApart)
  {
    if as_ != [] {
      var a, rest := as_[0], as_[1..];
      assert as_ == [a] + rest;
      RangesAreApertures(rest);
      PairwiseCons(a, rest, KeptApart);
      if a.base.Some? {
        PairwiseCons(RangeOf(a.base.value, a.size), Ranges(rest), ApartRanges);
        ApartFromAll(a, rest);
      }
    }
  }

  /** The validation accepts exactly the descriptors whose ids are 0, 1, ... in
      some order, whose apertures have addresses, no two of which collide unless one
      begins at the last address, and whose devices name declared apertures and
      differ in their instances. */
  lemma AcceptedExactly(d: Descriptor)
    ensures Verdict(d) == None <==>
      (&& DenseIds(d.apertures) && SizesPositive(d.apertures)
       && (forall i, j :: 0 <= i < j < |d.apertures| ==>
             !Collide(d.apertures[i], d.apertures[j]) || d.apertures[i].base == Some(TOP) || d.apertures[j].base == Some(TOP))
       && AllDeclared(d)
       && (forall i, j :: 0 <= i < j < |d.devices| ==> d.devices[i].instance != d.devices[j].instance))
  {
    var as_, ds := d.apertures, d.devices;
    if SizesPositive(as_) {
      RangesAreApertures(as_);
    }
    assert Pairwise(as_, KeptApart) <==>
      forall i, j :: 0 <= i < j < |as_| ==> !Collide(as_[i], as_[j]) || as_[i].base == Some(TOP) || as_[j].base == Some(TOP);
    InstancesDiffer(ds);
  }

  lemma InstancesDiffer(ds: seq<Device>)
    ensures Pairwise(Instances(ds), Differ) <==> forall i, j :: 0 <= i < j < |ds| ==> ds[i].instance != ds[j].instance
  {
    var ns := Instances(ds);
    if Pairwise(ns, Differ) {
      forall i, j | 0 <= i < j < |ds| ensures ds[i].instance != ds[j].instance {
        assert Differ(ns[i], ns[j]);
      }
    }
    if forall i, j :: 0 <= i < j < |ds| ==> ds[i].instance != ds[j].instance {
      forall i, j | 0 <= i < j < |ns| ensures Differ(ns[i], ns[j]) {
        assert ds[i].instance != ds[j].instance;
      }
    }
  }

  /** An aperture ends at or below the last address. */
  predicate EndsInSpace(a: Aperture) {
    a.base.Some? ==> a.base.value + a.size <= TOP
  }

  /** Where every aperture ends below 2^64 the overlap check is exact: the
      descriptor is accepted exactly if the apertures with a base are pairwise
      disjoint and the rest holds. */
  lemma AcceptedBelowTop(d: Descriptor)
    requires forall i :: 0 <= i < |d.apertures| ==> EndsInSpace(d.apertures[i])
    ensures Verdict(d) == None <==>
      (&& DenseIds(d.apertures) && SizesPositive(d.apertures)
       && (forall i, j :: 0 <= i < j < |d.apertures| ==> !Collide(d.apertures[i], d.apertures[j]))
       && AllDeclared(d)
       && (forall i, j :: 0 <= i < j < |d.devices| ==> d.devices[i].instance != d.devices[j].instance))
  {
    AcceptedExactly(d);
    var as_ := d.apertures;
    if SizesPositive(as_) {
      forall i | 0 <= i < |as_| ensures as_[i].base != Some(TOP) {
        assert EndsInSpace(as_[i]);
      }
    }
  }

  /** An overlap is reported exactly if ids and sizes are right and two apertures
      collide, neither of which begins at the last address. */
  lemma OverlapReported(d: Descriptor)
    ensures Verdict(d) == Some(ApertureOverlap) <==>
      (&& DenseIds(d.apertures) && SizesPositive(d.apertures)
       && exists i, j :: 0 <= i < j < |d.apertures| && Collide(d.apertures[i], d.apertures[j]) &&
            d.apertures[i].base != Some(TOP) && d.apertures[j].base != Some(TOP))
  {
    var as_ := d.apertures;
    if SizesPositive(as_) {
      RangesAreApertures(as_);
    }
    assert Pairwise(as_, KeptApart) <==>
      forall i, j :: 0 <= i < j < |as_| ==> !Collide(as_[i], as_[j]) || as_[i].base == Some(TOP) || as_[j].base == Some(TOP);
  }

  /** Apertures that the overlap check keeps. */
  ghost predicate NoneCollide(as_: seq<Aperture>) {
    forall i, j :: 0 <= i < j < |as_| ==> !Collide(as_[i], as_[j]) || as_[i].base == Some(TOP) || as_[j].base == Some(TOP)
  }

  ghost predicate OneOfAKind(ds: seq<Device>) {
    forall i, j :: 0 <= i < j < |ds| ==> ds[i].instance != ds[j].instance
  }

  /** Each error is reported exactly if what is looked at before it is right and what
      it names is not. */
  lemma ErrorsReported(d: Descriptor)
    ensures Verdict(d) == Some(ApertureIdGap) <==> !DenseIds(d.apertures)
    ensures Verdict(d) == Some(ApertureSizeZero) <==> DenseIds(d.apertures) && exists i :: 0 <= i < |d.apertures| && d.apertures[i].size == 0
    ensures Verdict(d) == Some(DeviceUnknownAperture) <==>
      && DenseIds(d.apertures) && SizesPositive(d.apertures) && NoneCollide(d.apertures)
      && exists i :: 0 <= i < |d.devices| && forall k :: 0 <= k < |d.apertures| ==> d.apertures[k].id != d.devices[i].aperture
    ensures Verdict(d) == Some(DeviceDuplicate) <==>
      DenseIds(d.apertures) && SizesPositive(d.apertures) && NoneCollide(d.apertures) && AllDeclared(d) && !OneOfAKind(d.devices)
  {
    hide DenseIds;
    var as_, ds := d.apertures, d.devices;
    if SizesPositive(as_) {
      RangesAreApertures(as_);
      assert Pairwise(as_, KeptApart) <==> NoneCollide(as_);
    }
    InstancesDiffer(ds);
    assert !AllDeclared(d) <==> exists i :: 0 <= i < |ds| && !Declared(as_, ds[i].aperture);
    forall i | 0 <= i < |ds|
      ensures Declared(as_, ds[i].aperture) <==> !forall k :: 0 <= k < |as_| ==> as_[k].id != ds[i].aperture
    {
    }
  }

  /** The addresses of an aperture are numbers from its base on; two apertures
      collide exactly if some address is in both. */
  predicate Covers(a: Aperture, x: nat) {
    a.base.Some? && a.base.value <= x < a.base.value + a.size
  }

  lemma CollideSharesAnAddress(a: Aperture, b: Aperture)
    requires a.size > 0 && b.size > 0
    ensures Collide(a, b) <==> exists x :: Covers(a, x) && Covers(b, x)
  {
    if Collide(a, b) {
      var x := if a.base.value < b.base.value then b.base.value else a.base.value;
      assert Covers(a, x) && Covers(b, x);
    }
  }

  /** At the top of the address space the saturated ends lose a collision: two
      apertures of one byte at the same, last address are accepted. */
  lemma LastByteIsShared()
    ensures
      var a, b := Aperture(0, [], 0, 0, Some(TOP), 1), Aperture(1, [], 0, 0, Some(TOP), 1);
      Collide(a, b) && Verdict(Descriptor(0, [a, b], [], 0)) == None
  {
    var a, b := Aperture(0, [], 0, 0, Some(TOP), 1), Aperture(1, [], 0, 0, Some(TOP), 1);
    var as_ := [a, b];
    assert Ids(as_) == UpTo(2);
    assert as_[1..] == [b] && as_[1..][1..] == [];
    assert Ranges([b]) == [RangeOf(TOP, 1)] by {
      assert [b][1..] == [];
    }
    assert Ranges(as_) == [RangeOf(TOP, 1), RangeOf(TOP, 1)];
  }
}
