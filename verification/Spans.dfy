/** The span table: the records that map code offsets to source spans, encoded as
    a version, a count and three numbers for each. */
module Spans {
  import opened Rings
  import opened Ir
  import opened Leb

  const VERSION: nat := 1
  const U32_MAX: nat := 0xFFFF_FFFF

  datatype Record = Record(offset: nat, start: nat, len: nat)

  predicate IsU32(r: Record) {
    r.offset <= U32_MAX && r.start <= U32_MAX && r.len <= U32_MAX
  }

  function EncodeRecord(r: Record): seq<Byte> {
    Uleb(r.offset) + (Uleb(r.start) + Uleb(r.len))
  }

  function EncodeRecords(rs: seq<Record>): seq<Byte> {
    if rs == [] then [] else EncodeRecord(rs[0]) + EncodeRecords(rs[1..])
  }

  function Encode(rs: seq<Record>): seq<Byte> {
    Uleb(VERSION) + (Uleb(|rs|) + EncodeRecords(rs))
  }

  datatype RecordRead = RecordRead(record: Record, next: nat)

  /** Three numbers, each of 32 bits. */
  function ReadRecord(p: seq<Byte>, i: nat): (r: Option<RecordRead>)
    ensures r.Some? ==> i < r.value.next <= |p| && IsU32(r.value.record)
  {
    match UlebAt(p, i)
    case None => None
    case Some(a) =>
      match UlebAt(p, a.next)
      case None => None
      case Some(b) =>
        match UlebAt(p, b.next)
        case None => None
        case Some(c) =>
          var r := Record(a.value, b.value, c.value);
          if IsU32(r) then Some(RecordRead(r, c.next)) else None
  }

  datatype TableRead = TableRead(records: seq<Record>, next: nat)

  function ReadRecords(p: seq<Byte>, i: nat, count: nat): (r: Option<TableRead>)
    ensures r.Some? ==> |r.value.records| == count
    decreases count
  {
    if count == 0 then Some(TableRead([], i))
    else match ReadRecord(p, i)
      case None => None
      case Some(head) =>
        match ReadRecords(p, head.next, count - 1)
        case None => None
        case Some(rest) => Some(TableRead([head.record] + rest.records, rest.next))
  }

  /** The decoder: the version, the records, and nothing after them. */
  function Decode(p: seq<Byte>): Option<seq<Record>> {
    match UlebAt(p, 0)
    case None => None
    case Some(v) =>
      if v.value != VERSION then None
      else match UlebAt(p, v.next)
        case None => None
        case Some(n) =>
          match ReadRecords(p, n.next, n.value)
          case None => None
          case Some(t) => if t.next == |p| then Some(t.records) else None
  }

  // ---- round trip ----

  lemma RecordInverts(p: seq<Byte>, i: nat, r: Record)
    requires IsU32(r) && StandsAt(p, i, EncodeRecord(r))
    ensures ReadRecord(p, i) == Some(RecordRead(r, i + |EncodeRecord(r)|))
  {
    hide UlebAt;
    StandsSplit(p, i, Uleb(r.offset), Uleb(r.start) + Uleb(r.len));
    StandsSplit(p, i + |Uleb(r.offset)|, Uleb(r.start), Uleb(r.len));
    UlebInverts(p, i, r.offset);
    UlebInverts(p, i + |Uleb(r.offset)|, r.start);
    UlebInverts(p, i + |Uleb(r.offset)| + |Uleb(r.start)|, r.len);
  }

  ghost predicate AllU32(rs: seq<Record>) {
    forall k :: 0 <= k < |rs| ==> IsU32(rs[k])
  }

  lemma {:induction false} RecordsInvert(p: seq<Byte>, i: nat, rs: seq<Record>)
    requires AllU32(rs) && StandsAt(p, i, EncodeRecords(rs))
    ensures ReadRecords(p, i, |rs|) == Some(TableRead(rs, i + |EncodeRecords(rs)|))
    decreases |rs|
  {
    hide ReadRecord;
    hide EncodeRecord;
    if rs != [] {
      StandsSplit(p, i, EncodeRecord(rs[0]), EncodeRecords(rs[1..]));
      RecordInverts(p, i, rs[0]);
      RecordsInvert(p, i + |EncodeRecord(rs[0])|, rs[1..]);
      assert [rs[0]] + rs[1..] == rs;
    }
  }

  /** Every table of 32-bit records comes back from its encoding. */
  lemma RoundTrip(rs: seq<Record>)
    requires AllU32(rs) && |rs| < TWO64
    ensures Decode(Encode(rs)) == Some(rs)
  {
    hide UlebAt;
    hide ReadRecords;
    hide EncodeRecords;
    var p := Encode(rs);
    assert StandsAt(p, 0, Uleb(VERSION) + (Uleb(|rs|) + EncodeRecords(rs)));
    StandsSplit(p, 0, Uleb(VERSION), Uleb(|rs|) + EncodeRecords(rs));
    StandsSplit(p, |Uleb(VERSION)|, Uleb(|rs|), EncodeRecords(rs));
    UlebInverts(p, 0, VERSION);
    UlebInverts(p, |Uleb(VERSION)|, |rs|);
    RecordsInvert(p, |Uleb(VERSION)| + |Uleb(|rs|)|, rs);
  }

  // ---- no decodable table continues another ----

  lemma {:induction false} UlebLocal(p: seq<Byte>, q: seq<Byte>, i: nat, k: nat, acc: nat)
    requires p <= q && UlebFrom(p, i, k, acc).Some?
    ensures UlebFrom(q, i, k, acc) == UlebFrom(p, i, k, acc)
    decreases 10 - k
  {
    hide Contribution;
    assert q[i] == p[i];
    if p[i] >= 128 {
      UlebLocal(p, q, i + 1, k + 1, acc + Contribution(k, p[i]));
    }
  }

  lemma RecordLocal(p: seq<Byte>, q: seq<Byte>, i: nat)
    requires p <= q && ReadRecord(p, i).Some?
    ensures ReadRecord(q, i) == ReadRecord(p, i)
  {
    hide UlebFrom;
    var a := UlebAt(p, i).value;
    var b := UlebAt(p, a.next).value;
    UlebLocal(p, q, i, 0, 0);
    UlebLocal(p, q, a.next, 0, 0);
    UlebLocal(p, q, b.next, 0, 0);
  }

  lemma {:induction false} RecordsLocal(p: seq<Byte>, q: seq<Byte>, i: nat, count: nat)
    requires p <= q && ReadRecords(p, i, count).Some?
    ensures ReadRecords(q, i, count) == ReadRecords(p, i, count)
    decreases count
  {
    hide ReadRecord;
    if count > 0 {
      RecordLocal(p, q, i);
      RecordsLocal(p, q, ReadRecord(p, i).value.next, count - 1);
    }
  }

  /** Of two decodable tables neither is a proper beginning of the other. */
  lemma PrefixFree(p: seq<Byte>, q: seq<Byte>)
    requires p <= q && Decode(p).Some? && Decode(q).Some?
    ensures p == q
  {
    hide UlebFrom;
    hide ReadRecords;
    UlebLocal(p, q, 0, 0, 0);
    var v := UlebAt(p, 0).value;
    UlebLocal(p, q, v.next, 0, 0);
    var n := UlebAt(p, v.next).value;
    RecordsLocal(p, q, n.next, n.value);
  }

  /** A truncated table is rejected, and so is one with bytes after it. */
  lemma TruncatedAndPaddedAreRejected(rs: seq<Record>, cut: nat, more: seq<Byte>)
    requires AllU32(rs) && |rs| < TWO64
    ensures cut < |Encode(rs)| ==> Decode(Encode(rs)[..cut]) == None
    ensures more != [] ==> Decode(Encode(rs) + more) == None
  {
    hide Decode;
    hide Encode;
    RoundTrip(rs);
    var p := Encode(rs);
    if cut < |p| && Decode(p[..cut]).Some? {
      PrefixFree(p[..cut], p);
    }
    if more != [] && Decode(p + more).Some? {
      PrefixFree(p, p + more);
    }
  }

  /** Another version is rejected whatever follows. */
  lemma OtherVersionsAreRejected(version: U64, rest: seq<Byte>)
    requires version != VERSION
    ensures Decode(Uleb(version) + rest) == None
  {
    hide Uleb;
    hide UlebAt;
    var p := Uleb(version) + rest;
    assert p[0..|Uleb(version)|] == Uleb(version);
    UlebInverts(p, 0, version);
  }

  // ---- the loops ----

  lemma EncodeMore(rs: seq<Record>, k: nat)
    requires k < |rs|
    ensures EncodeRecords(rs[k..]) == EncodeRecord(rs[k]) + EncodeRecords(rs[k + 1..])
  {
    assert rs[k..][1..] == rs[k + 1..];
  }

  method EncodeTable(rs: seq<Record>) returns (out: seq<Byte>)
    ensures out == Encode(rs)
  {
    hide Uleb;
    hide EncodeRecords;
    out := EmitUleb([], VERSION);
    out := EmitUleb(out, |rs|);
    var k := 0;
    NoneLeft(rs);
    while k < |rs|
      invariant k <= |rs| && out + EncodeRecords(rs[k..]) == Encode(rs)
    {
      ghost var before := out;
      out := EmitUleb(out, rs[k].offset);
      out := EmitUleb(out, rs[k].start);
      out := EmitUleb(out, rs[k].len);
      EncodeMore(rs, k);
      assert out == before + EncodeRecord(rs[k]);
      k := k + 1;
    }
    assert out + [] == out;
  }

  lemma NoneLeft(rs: seq<Record>)
    ensures rs[0..] == rs && EncodeRecords(rs[|rs|..]) == []
  {
  }

  method DecodeTable(p: seq<Byte>) returns (r: Option<seq<Record>>)
    ensures r == Decode(p)
  {
    hide UlebAt;
    var version, i := DecodeUleb(p, 0);
    if version.None? || version.value != VERSION {
      return None;
    }
    var count, j := DecodeUleb(p, i);
    if count.None? {
      return None;
    }
    ghost var first := j;
    var out: seq<Record>, k := [], 0;
    NothingRead(ReadRecords(p, j, count.value));
    while k < count.value
      invariant k <= count.value
      invariant ReadRecords(p, first, count.value) ==
        match ReadRecords(p, j, count.value - k) case None => None case Some(t) => Some(TableRead(out + t.records, t.next))
    {
      var a, b, c;
      a, i := DecodeUleb(p, j);
      if a.None? {
        return None;
      }
      b, i := DecodeUleb(p, i);
      if b.None? {
        return None;
      }
      c, i := DecodeUleb(p, i);
      if c.None? || a.value > U32_MAX || b.value > U32_MAX || c.value > U32_MAX {
        return None;
      }
      var record := Record(a.value, b.value, c.value);
      Regroup(out, record, p, i, count.value - k - 1);
      out := out + [record];
      j := i;
      k := k + 1;
    }
    assert out + [] == out;
    if j != |p| {
      return None;
    }
    return Some(out);
  }

  lemma NothingRead(r: Option<TableRead>)
    ensures r == match r case None => None case Some(t) => Some(TableRead([] + t.records, t.next))
  {
    if r.Some? {
      assert [] + r.value.records == r.value.records;
    }
  }

  lemma Regroup(out: seq<Record>, r: Record, p: seq<Byte>, i: nat, count: nat)
    ensures match ReadRecords(p, i, count) case None => true case Some(t) => out + ([r] + t.records) == (out + [r]) + t.records
  {
  }

  // ---- exactly what decodes ----

  /** The numbers that the bytes from `i` on are, to the last byte. */
  ghost function Numbers(p: seq<Byte>, i: nat): Option<seq<nat>>
    decreases |p| - i
  {
    if i >= |p| then (if i == |p| then Some([]) else None)
    else match UlebAt(p, i)
      case None => None
      case Some(v) => match Numbers(p, v.next) case None => None case Some(rest) => Some([v.value] + rest)
  }

  /** The numbers of the records, three for each. */
  function Flat(rs: seq<Record>): (ns: seq<nat>)
    ensures |ns| == 3 * |rs|
  {
    if rs == [] then [] else [rs[0].offset, rs[0].start, rs[0].len] + Flat(rs[1..])
  }

  lemma NumbersHead(p: seq<Byte>, i: nat, v: nat, rest: seq<nat>)
    requires i <= |p|
    ensures Numbers(p, i) == Some([v] + rest) <==> UlebAt(p, i).Some? && UlebAt(p, i).value.value == v && Numbers(p, UlebAt(p, i).value.next) == Some(rest)
  {
    hide UlebAt;
    if Numbers(p, i) == Some([v] + rest) {
      var u := UlebAt(p, i).value;
      var more := Numbers(p, u.next).value;
      assert ([u.value] + more)[0] == ([v] + rest)[0] && ([u.value] + more)[1..] == more && ([v] + rest)[1..] == rest;
    }
  }

  lemma NumbersThree(p: seq<Byte>, i: nat, r: Record, rest: seq<nat>)
    requires i <= |p|
    ensures Numbers(p, i) == Some([r.offset, r.start, r.len] + rest) && IsU32(r) <==>
      ReadRecord(p, i).Some? && ReadRecord(p, i).value.record == r && Numbers(p, ReadRecord(p, i).value.next) == Some(rest)
  {
    hide UlebAt;
    hide Numbers;
    assert [r.offset, r.start, r.len] + rest == [r.offset] + ([r.start] + ([r.len] + rest));
    NumbersHead(p, i, r.offset, [r.start] + ([r.len] + rest));
    if UlebAt(p, i).Some? {
      var j := UlebAt(p, i).value.next;
      NumbersHead(p, j, r.start, [r.len] + rest);
      if UlebAt(p, j).Some? {
        NumbersHead(p, UlebAt(p, j).value.next, r.len, rest);
      }
    }
  }

  lemma {:induction false} RecordsAreNumbers(p: seq<Byte>, i: nat, rs: seq<Record>)
    requires i <= |p|
    ensures Numbers(p, i) == Some(Flat(rs)) && AllU32(rs) <==> ReadRecords(p, i, |rs|) == Some(TableRead(rs, |p|))
    decreases |rs|
  {
    hide ReadRecord;
    hide UlebAt;
    if rs != [] {
      NumbersThree(p, i, rs[0], Flat(rs[1..]));
      assert [rs[0]] + rs[1..] == rs;
      assert AllU32(rs) <==> IsU32(rs[0]) && AllU32(rs[1..]) by {
        assert AllU32(rs) ==> IsU32(rs[0]);
        assert AllU32(rs) ==> AllU32(rs[1..]);
        if IsU32(rs[0]) && AllU32(rs[1..]) {
          forall k | 0 <= k < |rs| ensures IsU32(rs[k]) {
            assert k > 0 ==> rs[k] == rs[1..][k - 1];
          }
        }
      }
      if ReadRecord(p, i).Some? {
        RecordsAreNumbers(p, ReadRecord(p, i).value.next, rs[1..]);
        SameTable(rs, ReadRecord(p, i).value.record, ReadRecords(p, ReadRecord(p, i).value.next, |rs| - 1), |p|);
      }
    }
  }

  lemma SameTable(rs: seq<Record>, head: Record, tail: Option<TableRead>, end: nat)
    requires rs != []
    ensures (match tail case None => None case Some(t) => Some(TableRead([head] + t.records, t.next))) == Some(TableRead(rs, end)) <==>
      head == rs[0] && tail == Some(TableRead(rs[1..], end))
  {
    assert [rs[0]] + rs[1..] == rs;
    if tail.Some? && [head] + tail.value.records == rs {
      assert ([head] + tail.value.records)[0] == head && ([head] + tail.value.records)[1..] == tail.value.records;
    }
  }

  /** The bytes decode to a table exactly if they are, to the last one, the version, the
      number of records, and the records' offsets, starts and lengths in turn, all of 32
      bits. */
  lemma DecodedExactly(p: seq<Byte>, rs: seq<Record>)
    ensures Decode(p) == Some(rs) <==> Numbers(p, 0) == Some([1, |rs|] + Flat(rs)) && AllU32(rs)
  {
    hide UlebAt;
    hide ReadRecords;
    hide Numbers;
    assert [1, |rs|] + Flat(rs) == [1] + ([|rs|] + Flat(rs));
    NumbersHead(p, 0, 1, [|rs|] + Flat(rs));
    if UlebAt(p, 0).Some? {
      var i := UlebAt(p, 0).value.next;
      NumbersHead(p, i, |rs|, Flat(rs));
      if UlebAt(p, i).Some? {
        RecordsAreNumbers(p, UlebAt(p, i).value.next, rs);
      }
    }
  }
}
