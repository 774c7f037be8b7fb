/** LEB128: the encoders of the back end, the decoder of the span table, and the
    signed decoder of section 5.2.2 of the WebAssembly Core Specification. */
module Leb {
  import opened Rings
  import opened Ir

  type Byte = b: nat | b < 256

  // ---- the encodings as functions ----

  function Uleb(v: nat): (bytes: seq<Byte>)
    ensures |bytes| >= 1
  {
    if v < 128 then [v] else [128 + v % 128] + Uleb(v / 128)
  }

  /** Exactly `width` groups, all but the last one continued. */
  function Padded(v: nat, width: nat): (bytes: seq<Byte>)
    ensures |bytes| == width
  {
    if width == 0 then []
    else if width == 1 then [v % 128]
    else [128 + v % 128] + Padded(v / 128, width - 1)
  }

  /** The size of a number, for the recursion of its signed encoding. */
  function Magnitude(v: int): nat {
    if v < 0 then -1 - v else v
  }

  function Sleb(v: int): (bytes: seq<Byte>)
    ensures |bytes| >= 1
    decreases Magnitude(v)
  {
    var b, rest := v % 128, v / 128;
    if (rest == 0 && b < 64) || (rest == -1 && b >= 64) then [b]
    else [128 + b] + Sleb(rest)
  }

  function Pow128(k: nat): (p: nat)
    ensures p > 0
  {
    if k == 0 then 1 else 128 * Pow128(k - 1)
  }

  /** The worth of `v` in group `k`. */
  function Weighted(v: nat, k: nat): nat {
    v * Pow128(k)
  }

  // ---- the decoders as functions ----

  /** What the group number `k` adds to a 64-bit result: the tenth group has only
      one bit left. */
  function Contribution(k: nat, b: Byte): nat {
    if k < 9 then Weighted(b % 128, k) else (b % 2) * (TWO64 / 2)
  }

  datatype Read = Read(value: nat, next: nat)

  /** The decoder from byte `i` on, with `k` groups already in `acc`. */
  function UlebFrom(p: seq<Byte>, i: nat, k: nat, acc: nat): (r: Option<Read>)
    ensures r.Some? ==> i < r.value.next <= |p|
    decreases 10 - k
  {
    if k >= 10 || i >= |p| then None
    else
      var sum := acc + Contribution(k, p[i]);
      if p[i] < 128 then Some(Read(sum, i + 1)) else UlebFrom(p, i + 1, k + 1, sum)
  }

  function UlebAt(p: seq<Byte>, i: nat): (r: Option<Read>)
    ensures r.Some? ==> i < r.value.next <= |p|
  {
    UlebFrom(p, i, 0, 0)
  }

  datatype SignedRead = SignedRead(value: int, next: nat)

  function SlebAt(p: seq<Byte>, i: nat): (r: Option<SignedRead>)
    decreases |p| - i
  {
    if i >= |p| then None
    else
      var b: int := p[i];
      if b < 64 then Some(SignedRead(b, i + 1))
      else if b < 128 then Some(SignedRead(b - 128, i + 1))
      else match SlebAt(p, i + 1)
        case None => None
        case Some(r) => Some(SignedRead(128 * r.value + (b - 128), r.next))
  }

  // ---- they are inverse ----

  /** `part` stands in `p` at `i`. */
  ghost predicate StandsAt(p: seq<Byte>, i: nat, part: seq<Byte>) {
    i + |part| <= |p| && p[i..i + |part|] == part
  }

  lemma StandsSplit(p: seq<Byte>, i: nat, a: seq<Byte>, b: seq<Byte>)
    requires StandsAt(p, i, a + b)
    ensures StandsAt(p, i, a) && StandsAt(p, i + |a|, b)
  {
    assert p[i..i + |a|] == (a + b)[..|a|] == a;
    assert p[i + |a|..i + |a + b|] == (a + b)[|a|..] == b;
  }

  lemma StandsHead(p: seq<Byte>, i: nat, b: Byte, rest: seq<Byte>)
    requires StandsAt(p, i, [b] + rest)
    ensures i < |p| && p[i] == b && StandsAt(p, i + 1, rest)
  {
    StandsSplit(p, i, [b], rest);
    assert p[i] == p[i..i + 1][0];
  }

  lemma Groups(v: nat, k: nat)
    ensures Weighted(v, k) == Weighted(v / 128, k + 1) + Weighted(v % 128, k)
  {
    var q, r, s := v / 128, v % 128, Pow128(k);
    assert v == 128 * q + r;
    assert Pow128(k + 1) == 128 * s;
    assert (128 * q + r) * s == q * (128 * s) + r * s;
  }

  lemma NinthPower()
    ensures Pow128(9) == TWO64 / 2
    ensures Pow128(10) > TWO64
  {
    assert Pow128(2) == 16384;
    assert Pow128(4) == 0x1000_0000;
    assert Pow128(6) == 0x400_0000_0000;
    assert Pow128(8) == 0x100_0000_0000_0000;
  }

  lemma AtLeastOne(q: nat, s: nat)
    requires q >= 1
    ensures q * s >= s
  {
  }

  lemma TooManyGroups(v: nat)
    ensures v >= 2 ==> Weighted(v, 9) >= TWO64
    ensures v < 2 ==> Weighted(v, 9) == v * (TWO64 / 2)
  {
    NinthPower();
    if v >= 2 {
      AtLeastOne(v - 1, Pow128(9));
      assert v * Pow128(9) == (v - 1) * Pow128(9) + Pow128(9);
    }
  }

  /** A number that fits over `k` groups leaves room for its next group. */
  lemma RoomForMore(v: nat, k: nat)
    requires k <= 9 && v >= 128 && Weighted(v, k) < TWO64
    ensures k < 9
  {
    TooManyGroups(v);
  }

  lemma LastGroup(v: nat, k: nat)
    requires k <= 9 && v < 128 && Weighted(v, k) < TWO64
    ensures Contribution(k, v) == Weighted(v, k)
  {
    hide Weighted;
    TooManyGroups(v);
    if k < 9 {
      assert v % 128 == v;
    }
  }

  lemma MiddleGroup(v: nat, k: nat)
    requires k < 9
    ensures Contribution(k, 128 + v % 128) == Weighted(v % 128, k)
  {
  }

  /** The decoder over a group that is continued. */
  lemma ReadsOn(p: seq<Byte>, i: nat, k: nat, acc: nat, v: nat, rest: seq<Byte>)
    requires k < 9 && StandsAt(p, i, [128 + v % 128] + rest)
    ensures UlebFrom(p, i, k, acc) == UlebFrom(p, i + 1, k + 1, acc + Weighted(v % 128, k)) && StandsAt(p, i + 1, rest)
  {
    hide Contribution;
    hide Weighted;
    StandsHead(p, i, 128 + v % 128, rest);
    MiddleGroup(v, k);
  }

  /** The decoder over a last group. */
  lemma ReadsLast(p: seq<Byte>, i: nat, k: nat, acc: nat, b: Byte)
    requires k < 10 && b < 128 && StandsAt(p, i, [b])
    ensures UlebFrom(p, i, k, acc) == Some(Read(acc + Contribution(k, b), i + 1))
  {
    hide Contribution;
    assert [b] + [] == [b];
    StandsHead(p, i, b, []);
  }

  lemma {:induction false} UlebReads(p: seq<Byte>, i: nat, k: nat, acc: nat, v: nat)
    requires k <= 9 && Weighted(v, k) < TWO64 && StandsAt(p, i, Uleb(v))
    ensures UlebFrom(p, i, k, acc) == Some(Read(acc + Weighted(v, k), i + |Uleb(v)|))
    decreases v
  {
    hide Contribution;
    hide Weighted;
    hide StandsAt;
    hide UlebFrom;
    if v < 128 {
      ReadsLast(p, i, k, acc, v);
      LastGroup(v, k);
    } else {
      RoomForMore(v, k);
      Groups(v, k);
      ReadsOn(p, i, k, acc, v, Uleb(v / 128));
      UlebReads(p, i + 1, k + 1, acc + Weighted(v % 128, k), v / 128);
    }
  }

  /** `uleb_at` inverts `uleb` on every 64-bit number, wherever it stands. */
  lemma UlebInverts(p: seq<Byte>, i: nat, v: U64)
    requires StandsAt(p, i, Uleb(v))
    ensures UlebAt(p, i) == Some(Read(v, i + |Uleb(v)|))
  {
    assert Weighted(v, 0) == v;
    UlebReads(p, i, 0, 0, v);
  }

  /** What a padded encoding keeps of a number. */
  function Kept(v: nat, width: nat): nat {
    v % Pow128(width)
  }

  lemma KeptOne(v: nat)
    ensures Kept(v, 1) == v % 128
  {
    assert Pow128(1) == 128;
  }

  lemma {:induction false} PaddedReads(p: seq<Byte>, i: nat, k: nat, acc: nat, v: nat, width: nat)
    requires 1 <= width && k + width <= 9 && StandsAt(p, i, Padded(v, width))
    ensures UlebFrom(p, i, k, acc) == Some(Read(acc + Weighted(Kept(v, width), k), i + width))
    decreases width
  {
    hide Contribution;
    hide Weighted;
    hide StandsAt;
    hide Kept;
    hide UlebFrom;
    if width == 1 {
      KeptOne(v);
      ReadsLast(p, i, k, acc, v % 128);
      LowGroup(v, k);
    } else {
      ReadsOn(p, i, k, acc, v, Padded(v / 128, width - 1));
      PaddedReads(p, i + 1, k + 1, acc + Weighted(v % 128, k), v / 128, width - 1);
      SplitMod(v, width);
      Groups(Kept(v, width), k);
    }
  }

  lemma LowGroup(v: nat, k: nat)
    requires k < 9
    ensures Contribution(k, v % 128) == Weighted(v % 128, k)
  {
  }

  lemma SplitMod(v: nat, width: nat)
    requires width > 1
    ensures Kept(v, width) % 128 == v % 128 && Kept(v, width) / 128 == Kept(v / 128, width - 1)
  {
    var m, q, r := Pow128(width - 1), v / 128, v % 128;
    var a, b := q / m, q % m;
    assert q == a * m + b;
    assert v == 128 * (a * m + b) + r;
    assert 128 * (a * m + b) + r == a * (128 * m) + (128 * b + r);
    ModIs(v, 128 * m, a, 128 * b + r);
  }

  lemma ModIs(v: nat, m: nat, a: nat, r: nat)
    requires m > 0 && v == a * m + r && r < m
    ensures v % m == r
  {
    DivIs(v, m, a, r);
  }

  lemma NoSmallMultiple(d: int, m: nat)
    requires 0 < d * m + m && d * m < m
    ensures d == 0
  {
    assert (-d) * m == -(d * m);
    if d >= 1 {
      AtLeastOne(d, m);
    } else if d <= -1 {
      AtLeastOne(-d, m);
    }
  }

  lemma DivIs(v: nat, m: nat, a: nat, r: nat)
    requires m > 0 && v == a * m + r && r < m
    ensures v / m == a
  {
    var q := v / m;
    assert v == q * m + v % m;
    assert (a - q) * m == a * m - q * m;
    NoSmallMultiple(a - q, m);
  }

  lemma ModSame(v: nat, m: nat)
    requires m > 0
    ensures v % m == v <==> v < m
  {
    if v < m {
      ModIs(v, m, 0, v);
    }
  }

  /** A padded operand decodes to its number exactly if the number fits. */
  lemma PaddedInverts(p: seq<Byte>, i: nat, v: nat, width: nat)
    requires 1 <= width <= 9 && StandsAt(p, i, Padded(v, width))
    ensures UlebAt(p, i).Some? && UlebAt(p, i).value.next == i + width
    ensures UlebAt(p, i).value.value == v <==> v < Pow128(width)
  {
    hide UlebFrom;
    hide Padded;
    PaddedReads(p, i, 0, 0, v, width);
    assert Weighted(Kept(v, width), 0) == Kept(v, width);
    ModSame(v, Pow128(width));
  }

  lemma {:induction false} SlebInverts(p: seq<Byte>, i: nat, v: int)
    requires StandsAt(p, i, Sleb(v))
    ensures SlebAt(p, i) == Some(SignedRead(v, i + |Sleb(v)|))
    decreases Magnitude(v)
  {
    hide StandsAt;
    var b, rest := v % 128, v / 128;
    if (rest == 0 && b < 64) || (rest == -1 && b >= 64) {
      assert Sleb(v) == [b] + [];
      StandsHead(p, i, b, []);
    } else {
      StandsHead(p, i, 128 + b, Sleb(rest));
      SlebInverts(p, i + 1, rest);
    }
  }

  lemma PowStep(k: nat)
    requires k >= 1
    ensures Pow128(k) == 128 * Pow128(k - 1) && (k == 1 ==> Pow128(k) == 128) && Pow128(k) % 2 == 0
  {
  }

  lemma OneByte(v: int)
    requires -64 <= v < 64
    ensures |Sleb(v)| == 1
  {
    assert v >= 0 ==> v / 128 == 0 && v % 128 == v;
    assert v < 0 ==> v / 128 == -1 && v % 128 == v + 128;
  }

  lemma SlebGrows(v: int)
    ensures |Sleb(v)| <= 1 + |Sleb(v / 128)|
  {
  }

  lemma Shrinks(v: int, p: nat)
    requires 0 <= 2 * v + 128 * p && 2 * v < 128 * p && p % 2 == 0
    ensures 0 <= 2 * (v / 128) + p && 2 * (v / 128) < p
  {
  }

  /** A number of `7 * k` bits with its sign takes at most `k` bytes, so one of 64
      bits at most ten. */
  lemma {:induction false} SlebLength(v: int, k: nat)
    requires 1 <= k && 0 <= 2 * v + Pow128(k) && 2 * v < Pow128(k)
    ensures |Sleb(v)| <= k
    decreases k
  {
    hide Pow128;
    PowStep(k);
    if k == 1 {
      OneByte(v);
    } else {
      SlebGrows(v);
      PowStep(k - 1);
      Shrinks(v, Pow128(k - 1));
      SlebLength(v / 128, k - 1);
    }
  }

  // ---- exactly what decodes ----

  /** A number stands from `i` to `j`: at most ten bytes, all continued but the last. */
  ghost predicate NumberAt(p: seq<Byte>, i: nat, j: nat) {
    i <= j < |p| && j < i + 10 && p[j] < 128 && forall m :: i <= m < j ==> p[m] >= 128
  }

  /** The sum of the groups from byte `i` to byte `j`, the first with weight 128^k. */
  ghost function GroupSum(p: seq<Byte>, i: nat, j: nat, k: nat): nat
    requires i <= j < |p|
    decreases j - i
  {
    Weighted(p[i] % 128, k) + (if i == j then 0 else GroupSum(p, i + 1, j, k + 1))
  }

  /** What a group adds is its worth, up to a multiple of 2^64. */
  lemma ContributionIs(k: nat, b: Byte) returns (q: nat)
    requires k < 10
    ensures Weighted(b % 128, k) == Contribution(k, b) + q * TWO64
  {
    q := 0;
    if k == 9 {
      NinthPower();
      var g := b % 128;
      q := g / 2;
      assert g == 2 * q + b % 2;
      assert g * (TWO64 / 2) == q * TWO64 + (b % 2) * (TWO64 / 2);
    }
  }

  lemma {:induction false} UlebFromIs(p: seq<Byte>, i: nat, k: nat, acc: nat, j: nat) returns (q: nat)
    requires i <= j < |p| && j - i + k < 10 && p[j] < 128 && forall m :: i <= m < j ==> p[m] >= 128
    ensures UlebFrom(p, i, k, acc).Some? && UlebFrom(p, i, k, acc).value.next == j + 1
    ensures acc + GroupSum(p, i, j, k) == UlebFrom(p, i, k, acc).value.value + q * TWO64
    decreases j - i
  {
    q := ContributionIs(k, p[i]);
    if i < j {
      var more := UlebFromIs(p, i + 1, k + 1, acc + Contribution(k, p[i]), j);
      q := q + more;
    }
  }

  lemma {:induction false} NoNumber(p: seq<Byte>, i: nat, k: nat, acc: nat)
    requires k <= 10 && UlebFrom(p, i, k, acc).Some?
    ensures
      var j := UlebFrom(p, i, k, acc).value.next - 1;
      i <= j < |p| && j - i + k < 10 && p[j] < 128 && forall m :: i <= m < j ==> p[m] >= 128
    decreases 10 - k
  {
    if p[i] >= 128 {
      NoNumber(p, i + 1, k + 1, acc + Contribution(k, p[i]));
    }
  }

  lemma OneGroupMore(g: nat, w: nat)
    requires g < 128
    ensures g * w + w <= 128 * w
  {
    assert 128 * w == (127 - g) * w + g * w + w;
  }

  lemma GroupFits(k: nat, b: Byte, acc: nat)
    requires k < 9 && acc < Pow128(k)
    ensures acc + Contribution(k, b) < Pow128(k + 1)
  {
    OneGroupMore(b % 128, Pow128(k));
    NextPower(k);
  }

  lemma NextPower(k: nat)
    ensures Pow128(k + 1) == 128 * Pow128(k)
  {
  }

  lemma LastGroupFits(b: Byte, acc: nat)
    requires acc < TWO64 / 2
    ensures acc + Contribution(9, b) < TWO64
  {
  }

  lemma {:induction false} UlebIsSmall(p: seq<Byte>, i: nat, k: nat, acc: nat)
    requires k < 10 && acc < Pow128(k) && UlebFrom(p, i, k, acc).Some?
    ensures UlebFrom(p, i, k, acc).value.value < TWO64
    decreases 10 - k
  {
    hide Contribution;
    hide Pow128;
    if k == 9 {
      NinthPower();
      LastGroupFits(p[i], acc);
    } else {
      GroupFits(k, p[i], acc);
      PowerGrows(k + 1);
      if p[i] >= 128 {
        UlebIsSmall(p, i + 1, k + 1, acc + Contribution(k, p[i]));
      }
    }
  }

  lemma {:induction false} PowerGrows(k: nat)
    requires k <= 9
    ensures Pow128(k) <= TWO64 / 2
    decreases 9 - k
  {
    if k == 9 {
      NinthPower();
    } else {
      PowerGrows(k + 1);
      NextPower(k);
    }
  }

  /** Decoding succeeds exactly where at most ten bytes, all continued but the last,
      stand; it gives the sum of their groups up to a multiple of 2^64 and stops behind
      them. */
  lemma UlebDecodesExactly(p: seq<Byte>, i: nat, j: nat) returns (q: nat)
    ensures UlebAt(p, i).Some? ==> NumberAt(p, i, UlebAt(p, i).value.next - 1)
    ensures NumberAt(p, i, j) ==>
      && UlebAt(p, i).Some? && UlebAt(p, i).value.next == j + 1 && UlebAt(p, i).value.value < TWO64
      && GroupSum(p, i, j, 0) == UlebAt(p, i).value.value + q * TWO64
  {
    q := 0;
    if UlebAt(p, i).Some? {
      NoNumber(p, i, 0, 0);
    }
    if NumberAt(p, i, j) {
      q := UlebFromIs(p, i, 0, 0, j);
      UlebIsSmall(p, i, 0, 0);
    }
  }

  // ---- the loops ----

  /** Appends the bytes of a number, lowest group first. */
  method EmitUleb(out: seq<Byte>, value: nat) returns (r: seq<Byte>)
    ensures r == out + Uleb(value)
  {
    var v := value;
    r := out;
    while true
      invariant r + Uleb(v) == out + Uleb(value)
      decreases v
    {
      var b := v % 128;
      var rest := v / 128;
      if rest == 0 {
        assert Uleb(v) == [b];
        r := r + [b];
        return;
      }
      assert r + Uleb(v) == (r + [128 + b]) + Uleb(rest);
      r := r + [128 + b];
      v := rest;
    }
  }

  method EmitPadded(out: seq<Byte>, value: nat, width: nat) returns (r: seq<Byte>)
    ensures r == out + Padded(value, width)
  {
    var v, i := value, 0;
    r := out;
    while i < width
      invariant i <= width
      invariant r + Padded(v, width - i) == out + Padded(value, width)
    {
      var b: Byte := v % 128;
      if i + 1 < width {
        assert Padded(v, width - i) == [128 + b] + Padded(v / 128, width - i - 1);
        assert r + Padded(v, width - i) == (r + [128 + b]) + Padded(v / 128, width - i - 1);
        r := r + [128 + b];
      } else {
        assert Padded(v, 1) == [b];
        r := r + [b];
      }
      v := v / 128;
      i := i + 1;
    }
  }

  method EmitSleb(out: seq<Byte>, value: int) returns (r: seq<Byte>)
    ensures r == out + Sleb(value)
  {
    var v := value;
    r := out;
    while true
      invariant r + Sleb(v) == out + Sleb(value)
      decreases Magnitude(v)
    {
      var b := v % 128;
      var rest := v / 128;
      if (rest == 0 && b < 64) || (rest == -1 && b >= 64) {
        assert Sleb(v) == [b];
        r := r + [b];
        return;
      }
      assert Sleb(v) == [128 + b] + Sleb(rest);
      assert r + Sleb(v) == (r + [128 + b]) + Sleb(rest);
      r := r + [128 + b];
      v := rest;
    }
  }

  /** `uleb_at`: the index stops behind the number; it fails at the end of the
      bytes and after ten continued groups. */
  method DecodeUleb(p: seq<Byte>, start: nat) returns (v: Option<nat>, i: nat)
    ensures match UlebAt(p, start) case None => v == None case Some(r) => v == Some(r.value) && i == r.next
  {
    i := start;
    var result: nat, k: nat := 0, 0;
    while true
      invariant k <= 9 && UlebFrom(p, i, k, result) == UlebAt(p, start)
      decreases 10 - k
    {
      if i >= |p| {
        return None, i;
      }
      var b := p[i];
      i := i + 1;
      result := result + Contribution(k, b);
      if b < 128 {
        return Some(result), i;
      }
      k := k + 1;
      if k >= 10 {
        return None, i;
      }
    }
  }
}
