/** Arithmetic on 64-bit machine words. */
module Words {
  import opened Rings
  import opened Ir

  function AddWord(a: U64, b: U64): U64 {
    if a + b < TWO64 then a + b else a + b - TWO64
  }

  function SubWord(a: U64, b: U64): U64 {
    if b <= a then a - b else a + TWO64 - b
  }

  /** The low word of the product, by shifting and adding. */
  function MulWord(a: U64, b: U64): U64 {
    if b == 0 then 0
    else
      var half := MulWord(a, b / 2);
      var twice := AddWord(half, half);
      if b % 2 == 1 then AddWord(twice, a) else twice
  }

  lemma Doubling(p: nat, q: nat, m: U64, a: U64, odd: bool) returns (q': nat)
    requires p == q * TWO64 + m
    ensures 2 * p + (if odd then a else 0) == q' * TWO64 + (if odd then AddWord(AddWord(m, m), a) else AddWord(m, m))
  {
    q' := 2 * q + (if m + m < TWO64 then 0 else 1);
    if odd && AddWord(m, m) + a >= TWO64 {
      q' := q' + 1;
    }
  }

  /** `MulWord` is the product of `a` and `b` up to a multiple of 2^64; the
      product itself is written as repeated addition. */
  function Times(a: nat, b: nat): nat {
    if b == 0 then 0 else Times(a, b - 1) + a
  }

  lemma {:induction false} TimesHalves(a: nat, h: nat)
    ensures Times(a, 2 * h) == 2 * Times(a, h)
  {
    if h > 0 {
      TimesHalves(a, h - 1);
      assert Times(a, 2 * h) == Times(a, 2 * h - 1) + a == Times(a, 2 * h - 2) + a + a;
    }
  }

  lemma {:induction false} MulIsProduct(a: U64, b: U64) returns (q: nat)
    ensures Times(a, b) == q * TWO64 + MulWord(a, b)
    decreases b
  {
    q := 0;
    if b > 0 {
      var h, odd := b / 2, b % 2 == 1;
      q := MulIsProduct(a, h);
      q := Doubling(Times(a, h), q, MulWord(a, h), a, odd);
      TimesHalves(a, h);
      assert b == 2 * h + (if odd then 1 else 0);
    }
  }

  /** The two's complement reading of a word. */
  function Signed(x: U64): int {
    if x < TWO64 / 2 then x else x - TWO64
  }

  /** The bitwise operations, bit by bit from the top. */
  function AndBits(a: nat, b: nat, width: nat): (r: nat)
    ensures r <= a
  {
    if width == 0 then 0
    else 2 * AndBits(a / 2, b / 2, width - 1) + (if a % 2 == 1 && b % 2 == 1 then 1 else 0)
  }

  function OrBits(a: nat, b: nat, width: nat): (r: nat)
    ensures r <= a + b
  {
    if width == 0 then 0
    else 2 * OrBits(a / 2, b / 2, width - 1) + (if a % 2 == 1 || b % 2 == 1 then 1 else 0)
  }

  function AndWord(a: U64, b: U64): U64 {
    AndBits(a, b, 64)
  }

  function OrWord(a: U64, b: U64): U64 {
    OrBits(a, b, 64) % TWO64
  }

  function ArithWord(k: ArithKind, a: U64, b: U64): U64 {
    match k
    case Add => AddWord(a, b)
    case Sub => SubWord(a, b)
    case Mul => MulWord(a, b)
  }

  predicate Compare(k: CmpKind, a: U64, b: U64) {
    match k
    case Lt => Signed(a) < Signed(b)
    case Le => Signed(a) <= Signed(b)
    case Gt => Signed(a) > Signed(b)
    case Ge => Signed(a) >= Signed(b)
    case Eq => a == b
    case Ne => a != b
  }

  function Flag(b: bool): U64 {
    if b then 1 else 0
  }

  // ---- what the operations compute ----

  /** Repeated addition is multiplication. */
  lemma {:induction false} TimesIs(a: nat, b: nat)
    ensures Times(a, b) == a * b
  {
    if b > 0 {
      TimesIs(a, b - 1);
      assert a * b == a * (b - 1) + a;
    }
  }

  /** The number below 2^64 that differs from `n` by a multiple of it. */
  lemma ModIsUnique(n: int, q: int, r: U64)
    requires n == q * TWO64 + r
    ensures n % TWO64 == r
  {
    var m, k := n % TWO64, n / TWO64;
    assert (k - q) * TWO64 == r - m;
  }

  /** Sum, difference and product of the two numbers modulo 2^64, the first operand
      less the second one. */
  lemma ArithIs(k: ArithKind, a: U64, b: U64)
    ensures ArithWord(k, a, b) == (match k case Add => a + b case Sub => a - b case Mul => a * b) % TWO64
    ensures AddWord(ArithWord(Sub, a, b), b) == a
  {
    match k
    case Add => ModIsUnique(a + b, if a + b < TWO64 then 0 else 1, AddWord(a, b));
    case Sub => ModIsUnique(a - b, if b <= a then 0 else -1, SubWord(a, b));
    case Mul =>
      var q := MulIsProduct(a, b);
      TimesIs(a, b);
      ModIsUnique(a * b, q, MulWord(a, b));
  }

  /** Bit `i` of a number: the lowest one after `i` halvings. */
  predicate Bit(x: nat, i: nat) {
    Halved(x, i) % 2 == 1
  }

  function Halved(x: nat, i: nat): nat {
    if i == 0 then x else Halved(x / 2, i - 1)
  }

  function Pow2(n: nat): nat {
    if n == 0 then 1 else 2 * Pow2(n - 1)
  }

  lemma {:induction false} AndBitsAt(a: nat, b: nat, width: nat, i: nat)
    ensures AndBits(a, b, width) < Pow2(width)
    ensures i < width ==> (Bit(AndBits(a, b, width), i) <==> Bit(a, i) && Bit(b, i))
    decreases width
  {
    if width > 0 {
      AndBitsAt(a / 2, b / 2, width - 1, if i > 0 then i - 1 else 0);
    }
  }

  lemma {:induction false} OrBitsAt(a: nat, b: nat, width: nat, i: nat)
    ensures OrBits(a, b, width) < Pow2(width)
    ensures i < width ==> (Bit(OrBits(a, b, width), i) <==> Bit(a, i) || Bit(b, i))
    decreases width
  {
    if width > 0 {
      OrBitsAt(a / 2, b / 2, width - 1, if i > 0 then i - 1 else 0);
    }
  }

  lemma Pow2Byte(n: nat)
    ensures Pow2(n + 8) == 256 * Pow2(n)
  {
    assert Pow2(n + 2) == 2 * Pow2(n + 1) == 4 * Pow2(n);
    assert Pow2(n + 4) == 2 * Pow2(n + 3) == 4 * Pow2(n + 2);
    assert Pow2(n + 6) == 2 * Pow2(n + 5) == 4 * Pow2(n + 4);
    assert Pow2(n + 8) == 2 * Pow2(n + 7) == 4 * Pow2(n + 6);
  }

  lemma Pow2Word()
    ensures Pow2(64) == TWO64
  {
    Pow2Byte(0);
    Pow2Byte(8);
    Pow2Byte(16);
    Pow2Byte(24);
    Pow2Byte(32);
    Pow2Byte(40);
    Pow2Byte(48);
    Pow2Byte(56);
  }

  /** The bitwise operations, bit by bit. */
  lemma BitwiseIs(a: U64, b: U64, i: nat)
    requires i < 64
    ensures Bit(AndWord(a, b), i) <==> Bit(a, i) && Bit(b, i)
    ensures Bit(OrWord(a, b), i) <==> Bit(a, i) || Bit(b, i)
  {
    Pow2Word();
    AndBitsAt(a, b, 64, i);
    OrBitsAt(a, b, 64, i);
    ModIsUnique(OrBits(a, b, 64), 0, OrBits(a, b, 64));
  }

  /** A number is 0 exactly if none of its bits is set. */
  lemma {:induction false} SomeBit(x: nat, width: nat)
    requires x < Pow2(width)
    ensures x != 0 <==> exists i: nat :: i < width && Bit(x, i)
    decreases width
  {
    if width > 0 {
      SomeBit(x / 2, width - 1);
      if i: nat :| i < width && Bit(x, i) {
        assert i > 0 ==> Bit(x / 2, i - 1);
      }
      if x != 0 {
        if x % 2 == 1 {
          var i: nat := 0;
          assert i < width && Bit(x, i);
        } else {
          var i: nat :| i < width - 1 && Bit(x / 2, i);
          assert Bit(x, i + 1);
        }
      }
    }
  }

  // ---- comparisons as the processor makes them ----

  /** What a comparison leaves of the 64-bit difference: is it zero, is its top bit
      set, did the signed subtraction overflow. */
  datatype Conditions = Conditions(zero: bool, sign: bool, overflow: bool)

  predicate TopBit(x: U64) {
    x >= TWO64 / 2
  }

  function CompareWords(a: U64, b: U64): Conditions {
    var d := (a - b) % TWO64;
    Conditions(d == 0, TopBit(d), TopBit(a) != TopBit(b) && TopBit(d) != TopBit(a))
  }

  /** The conditions of `setl`, `setle`, `setg`, `setge`, `sete` and `setne`. */
  predicate SetOn(k: CmpKind, c: Conditions) {
    match k
    case Lt => c.sign != c.overflow
    case Le => c.zero || c.sign != c.overflow
    case Gt => !c.zero && c.sign == c.overflow
    case Ge => c.sign == c.overflow
    case Eq => c.zero
    case Ne => !c.zero
  }

  /** The comparison of the signed numbers is the condition after the comparison of
      the words. */
  lemma CompareIs(k: CmpKind, a: U64, b: U64)
    ensures Compare(k, a, b) <==> SetOn(k, CompareWords(a, b))
  {
    ModIsUnique(a - b, if b <= a then 0 else -1, SubWord(a, b));
    var d := SubWord(a, b);
    assert (a - b) % TWO64 == d;
    CompareByDifference(k, a, b, d);
    assert CompareWords(a, b) == Conditions(d == 0, TopBit(d), TopBit(a) != TopBit(b) && TopBit(d) != TopBit(a));
  }

  lemma CompareByDifference(k: CmpKind, a: U64, b: U64, d: U64)
    requires d == SubWord(a, b)
    ensures Compare(k, a, b) <==> SetOn(k, Conditions(d == 0, TopBit(d), TopBit(a) != TopBit(b) && TopBit(d) != TopBit(a)))
  {
  }

  /** Exactly one of less, equal and greater; the others by these. */
  lemma CompareOrders(a: U64, b: U64)
    ensures !Compare(Lt, a, a) && Compare(Eq, a, a)
    ensures Compare(Lt, a, b) <==> !Compare(Eq, a, b) && !Compare(Gt, a, b)
    ensures Compare(Eq, a, b) <==> !Compare(Lt, a, b) && !Compare(Gt, a, b)
    ensures Compare(Gt, a, b) <==> Compare(Lt, b, a)
    ensures Compare(Le, a, b) <==> Compare(Lt, a, b) || Compare(Eq, a, b)
    ensures Compare(Ge, a, b) <==> !Compare(Lt, a, b)
    ensures Compare(Ne, a, b) <==> !Compare(Eq, a, b)
  {
  }
}
