/** The folded bound is the true peak, no run exceeds it, and where it fits the
    guards can be dropped. */
module StackTheorems {
  import opened Rings
  import opened Ir
  import opened Words
  import opened StackBounds

  // ---- the bound without machine integers ----

  function Max(a: int, b: int): int {
    if a < b then b else a
  }

  /** The change in depth of a piece of code. */
  function Net(code: Code): int {
    match code
    case Do(op) => NetDelta(op)
    case Seq(a, b) => Net(a) + Net(b)
    case If(yes, _) => Net(yes) - 1
    case While(_, _) => 0
    case Call(_, ins, outs) => outs - ins
  }

  /** The most slots any way through the code has above its entry. */
  function Height(code: Code): (h: nat) {
    match code
    case Do(op) => Max(0, NetDelta(op))
    case Seq(a, b) => Max(Height(a), Net(a) + Height(b))
    case If(yes, no) => Max(0, Max(Height(yes), Height(no)) - 1)
    case While(cond, body) => Max(Height(cond), Height(body))
    case Call(callee, _, _) => Height(callee)
  }

  /** The same without the conditions of loops. */
  function Counted(code: Code): (h: nat) {
    match code
    case Do(op) => Max(0, NetDelta(op))
    case Seq(a, b) => Max(Counted(a), Net(a) + Counted(b))
    case If(yes, no) => Max(0, Max(Counted(yes), Counted(no)) - 1)
    case While(_, body) => Counted(body)
    case Call(callee, _, _) => Counted(callee)
  }

  /** The most slots above the entry while the condition of a loop is computed. */
  function InConditions(code: Code): (h: nat) {
    match code
    case Do(_) => 0
    case Seq(a, b) => Max(InConditions(a), Max(0, Net(a) + InConditions(b)))
    case If(yes, no) => Max(0, Max(InConditions(yes), InConditions(no)) - 1)
    case While(cond, body) => Max(Height(cond), InConditions(body))
    case Call(callee, _, _) => InConditions(callee)
  }

  lemma EitherInTurn(n: int, a: nat, c: nat, b: nat, e: nat)
    ensures Max(Max(a, c), n + Max(b, e)) == Max(Max(a, n + b), Max(c, Max(0, n + e)))
  {
  }

  lemma EitherSide(a: nat, c: nat, b: nat, e: nat)
    ensures Max(0, Max(Max(a, c), Max(b, e)) - 1) == Max(Max(0, Max(a, b) - 1), Max(0, Max(c, e) - 1))
  {
  }

  /** Every slot is counted or in the condition of a loop. */
  lemma {:induction false} HeightIsEither(code: Code)
    ensures Height(code) == Max(Counted(code), InConditions(code))
    decreases code
  {
    match code
    case Do(_) =>
    case Seq(a, b) =>
      HeightIsEither(a);
      HeightIsEither(b);
      EitherInTurn(Net(a), Counted(a), InConditions(a), Counted(b), InConditions(b));
    case If(yes, no) =>
      HeightIsEither(yes);
      HeightIsEither(no);
      EitherSide(Counted(yes), InConditions(yes), Counted(no), InConditions(no));
    case While(cond, body) => HeightIsEither(body);
    case Call(callee, _, _) => HeightIsEither(callee);
  }

  /** Branches leave the same depth, and words do what they declare. */
  predicate Balanced(code: Code) {
    match code
    case Do(op) => IsNative(op)
    case Seq(a, b) => Balanced(a) && Balanced(b)
    case If(yes, no) => Balanced(yes) && Balanced(no) && Net(yes) == Net(no)
    case While(cond, body) => Balanced(cond) && Balanced(body) && Net(cond) == 1 && Net(body) == 0
    case Call(callee, ins, outs) => Balanced(callee) && Net(callee) == outs - ins
  }

  // ---- the fold is exact ----

  /** Numbers the fold does not wrap. */
  predicate NetFits(net: int) {
    -32768 < net <= 32767
  }

  predicate HighFits(high: int) {
    high + 32768 < TWO31
  }

  /** Along the fold from depth `net` with peak `high`, depths stay in 16 bits and
      peaks in 31. */
  predicate Fits(net: int, high: nat, code: Code)
    decreases code
  {
    && NetFits(net + Net(code)) && HighFits(Max(high, net + Counted(code)))
    && match code
       case Do(_) => true
       case Seq(a, b) => Fits(net, high, a) && Fits(net + Net(a), Max(high, net + Counted(a)), b)
       case If(yes, no) => NetFits(net - 1) && Fits(net - 1, high, yes) && Fits(net - 1, high, no)
       case While(_, body) => Fits(net, high, body)
       case Call(callee, _, _) => Fits(0, 0, callee)
  }

  /** The bound of code after some other code, in whole numbers. */
  function Exact(net: int, high: nat, code: Code): Bound {
    Bound(net + Net(code), Slots(Max(high, net + Counted(code))))
  }

  lemma ComposeExact(net: int, high: nat, more: int, extra: nat)
    requires NetFits(net) && NetFits(net + more) && extra < TWO31
    ensures Compose(Bound(net, Slots(high)), Bound(more, Slots(extra))) == Bound(net + more, Slots(Max(high, net + extra)))
  {
  }

  lemma WrapTwice(net: int, more: int)
    requires NetFits(net) && NetFits(net + more)
    ensures WrapI16(net + WrapI16(more)) == net + more
  {
    assert WrapI16(more) == more || WrapI16(more) == more - TWO16 || WrapI16(more) == more + TWO16;
  }

  lemma DeltaHigh(net: int, high: nat, more: int, extra: nat)
    requires NetFits(net) && net <= high && HighFits(Max(high, net + extra))
    ensures BoundDelta(Bound(net, Slots(high)), Bound(net + more, Slots(Max(high, net + extra)))) ==
      Bound(WrapI16(more), Slots(Max(high, net + extra) - net))
  {
  }

  lemma ComposeJoined(net: int, high: nat, more: int, da: nat, db: nat)
    requires NetFits(net) && NetFits(net + more) && HighFits(net + da) && HighFits(net + db)
    ensures Compose(Bound(net, Slots(high)), BranchMax(Bound(WrapI16(more), Slots(da)), Bound(WrapI16(more), Slots(db)))) ==
      Bound(net + more, Slots(Max(high, net + Max(da, db))))
  {
    WrapTwice(net, more);
  }

  /** The join of two branches, each measured from its start. */
  lemma JoinExact(net: int, high: nat, more: int, a: nat, b: nat)
    requires NetFits(net) && NetFits(net + more) && net <= high
    requires HighFits(Max(high, net + a)) && HighFits(Max(high, net + b))
    ensures
      Joined(Bound(net, Slots(high)), Bound(net + more, Slots(Max(high, net + a))), Bound(net + more, Slots(Max(high, net + b)))) ==
        Bound(net + more, Slots(Max(high, net + Max(a, b))))
  {
    hide Compose;
    hide BoundDelta;
    hide WrapI16;
    DeltaHigh(net, high, more, a);
    DeltaHigh(net, high, more, b);
    ComposeJoined(net, high, more, Max(high, net + a) - net, Max(high, net + b) - net);
  }

  lemma {:induction false} NetBelowCounted(code: Code)
    requires Balanced(code)
    ensures Net(code) <= Counted(code)
    decreases code
  {
    match code
    case Do(op) =>
    case Seq(a, b) => NetBelowCounted(a); NetBelowCounted(b);
    case If(yes, no) => NetBelowCounted(yes);
    case While(_, _) =>
    case Call(callee, _, _) => NetBelowCounted(callee);
  }

  lemma BranchExact(net: int, high: nat, yes: Code, no: Code)
    requires Balanced(If(yes, no)) && NetFits(net) && net <= high && Fits(net, high, If(yes, no))
    requires Fold(Bound(net - 1, Slots(high)), yes) == Exact(net - 1, high, yes)
    requires Fold(Bound(net - 1, Slots(high)), no) == Exact(net - 1, high, no)
    ensures Fold(Bound(net, Slots(high)), If(yes, no)) == Exact(net, high, If(yes, no))
  {
    hide Compose;
    hide WrapI16;
    hide ShiftHigh;
    hide BoundDelta;
    hide Joined;
    ComposeExact(net, high, -1, 0);
    var before := Bound(net - 1, Slots(high));
    assert Compose(Bound(net, Slots(high)), POP) == before;
    assert Fold(Bound(net, Slots(high)), If(yes, no)) == Joined(before, Fold(before, yes), Fold(before, no));
    JoinExact(net - 1, high, Net(yes), Counted(yes), Counted(no));
  }

  lemma OpExact(net: int, high: nat, op: Op)
    requires IsNative(op) && NetFits(net) && net <= high && Fits(net, high, Do(op))
    ensures Fold(Bound(net, Slots(high)), Do(op)) == Exact(net, high, Do(op))
  {
    hide Compose;
    hide WrapI16;
    ComposeExact(net, high, NetDelta(op), if NetDelta(op) > 0 then 1 else 0);
  }

  lemma CallExact(net: int, high: nat, callee: Code, ins: nat, outs: nat)
    requires NetFits(net) && net <= high && Fits(net, high, Code.Call(callee, ins, outs))
    requires Fold(ID, callee) == Exact(0, 0, callee)
    ensures Fold(Bound(net, Slots(high)), Code.Call(callee, ins, outs)) == Exact(net, high, Code.Call(callee, ins, outs))
  {
    hide Compose;
    hide WrapI16;
    ComposeExact(net, high, outs - ins, Counted(callee));
  }

  lemma LoopExact(net: int, high: nat, code: Code)
    requires code.While? && NetFits(net) && net <= high && Fits(net, high, code)
    requires Fold(Bound(net, Slots(high)), code.body) == Exact(net, high, code.body) && Net(code.body) == 0
    ensures Fold(Bound(net, Slots(high)), code) == Exact(net, high, code)
  {
    hide Compose;
    hide BoundDelta;
    hide WrapI16;
    hide Fits;
    hide Fold;
    var most := Max(high, net + Counted(code.body));
    FitsHere(net, high, code);
    FoldUnfolds(Bound(net, Slots(high)), code);
    DeltaHigh(net, high, 0, Counted(code.body));
    ComposeExact(net, high, 0, most - net);
  }

  lemma FitsHere(net: int, high: nat, code: Code)
    requires Fits(net, high, code)
    ensures NetFits(net + Net(code)) && HighFits(Max(high, net + Counted(code)))
    ensures code.Seq? ==> Fits(net, high, code.first) && Fits(net + Net(code.first), Max(high, net + Counted(code.first)), code.second)
  {
    hide HighFits;
    hide NetFits;
    hide Counted;
    hide Net;
  }

  lemma FoldUnfolds(acc: Bound, code: Code)
    requires IsI16(acc.net)
    ensures code.Seq? ==> Fold(acc, code) == Fold(Fold(acc, code.first), code.second)
    ensures code.While? ==> Fold(acc, code) == Compose(acc, Bound(0, BoundDelta(acc, Fold(acc, code.body)).high))
  {
    hide Compose;
    hide BoundDelta;
    hide Joined;
  }

  lemma SeqExact(net: int, high: nat, a: Code, b: Code)
    requires Balanced(a) && NetFits(net) && net <= high && Fits(net, high, Seq(a, b))
    ensures
      var mid := Max(high, net + Counted(a));
      && NetFits(net + Net(a)) && HighFits(mid) && net + Net(a) <= mid
      && Fits(net, high, a) && Fits(net + Net(a), mid, b)
      && Fold(Bound(net, Slots(high)), Seq(a, b)) == Fold(Fold(Bound(net, Slots(high)), a), b)
      && Exact(net, high, a) == Bound(net + Net(a), Slots(mid))
      && Exact(net + Net(a), mid, b) == Exact(net, high, Seq(a, b))
  {
    hide Fits;
    hide Fold;
    hide Balanced;
    FitsHere(net, high, Seq(a, b));
    FitsHere(net, high, a);
    FoldUnfolds(Bound(net, Slots(high)), Seq(a, b));
    NetBelowCounted(a);
  }

  lemma FitsInside(net: int, high: nat, code: Code)
    requires Balanced(code) && NetFits(net) && Fits(net, high, code)
    ensures code.If? ==> Fits(net - 1, high, code.yes) && Fits(net - 1, high, code.no) && NetFits(net - 1) && Balanced(code.yes) && Balanced(code.no)
    ensures code.While? ==> Fits(net, high, code.body) && Balanced(code.body) && Net(code.body) == 0
    ensures code.Call? ==> Fits(0, 0, code.callee) && Balanced(code.callee)
    ensures code.Seq? ==> Balanced(code.first) && Balanced(code.second)
    ensures code.Do? ==> IsNative(code.op)
  {
  }

  /** Where nothing wraps, the compiler's fold is the net change and the counted
      height of the code, through branches, loops and calls. */
  lemma {:induction false} FoldIsExact(net: int, high: nat, code: Code)
    requires Balanced(code) && NetFits(net) && HighFits(high) && net <= high && Fits(net, high, code)
    ensures Fold(Bound(net, Slots(high)), code) == Exact(net, high, code)
    decreases code
  {
    hide Compose;
    hide Joined;
    hide WrapI16;
    hide Counted;
    hide Exact;
    hide Fits;
    hide Fold;
    hide Balanced;
    FitsInside(net, high, code);
    match code
    case Do(op) => OpExact(net, high, op);
    case Seq(a, b) =>
      SeqExact(net, high, a, b);
      FoldIsExact(net, high, a);
      FoldIsExact(net + Net(a), Max(high, net + Counted(a)), b);
    case If(yes, no) =>
      FoldIsExact(net - 1, high, yes);
      FoldIsExact(net - 1, high, no);
      BranchExact(net, high, yes, no);
    case While(_, body) =>
      FoldIsExact(net, high, body);
      LoopExact(net, high, code);
    case Call(callee, ins, outs) =>
      FoldIsExact(0, 0, callee);
      CallExact(net, high, callee, ins, outs);
  }

  /** The whole of a word. Its bound is its height if and only if no condition of
      a loop rises above all that is counted. */
  lemma WordBound(code: Code)
    requires Balanced(code) && Fits(0, 0, code)
    ensures Fold(ID, code) == Bound(Net(code), Slots(Counted(code)))
    ensures Fold(ID, code) == Bound(Net(code), Slots(Height(code))) <==> InConditions(code) <= Counted(code)
  {
    FoldIsExact(0, 0, code);
    HeightIsEither(code);
  }

  // ---- when nothing wraps ----

  /** The slots of the type stack of the verifier: an operation finds at most as
      many values of its word. */
  const SLOTS: nat := 64

  /** Checked as a part of a word: from depth `depth` on the word has between 0
      and 64 values of its own at every operation. A callee starts on its inputs. */
  predicate WithinSlots(depth: int, code: Code)
    decreases code
  {
    && 0 <= depth <= SLOTS && 0 <= depth + Net(code) <= SLOTS
    && match code
       case Do(_) => true
       case Seq(a, b) => WithinSlots(depth, a) && WithinSlots(depth + Net(a), b)
       case If(yes, no) => WithinSlots(depth - 1, yes) && WithinSlots(depth - 1, no)
       case While(cond, body) => WithinSlots(depth, cond) && WithinSlots(depth, body)
       case Call(callee, ins, _) => ins <= depth && WithinSlots(ins, callee)
  }

  /** How deep calls are nested. */
  function Nesting(code: Code): (n: nat) {
    match code
    case Do(_) => 0
    case Seq(a, b) => Max(Nesting(a), Nesting(b))
    case If(yes, no) => Max(Nesting(yes), Nesting(no))
    case While(cond, body) => Max(Nesting(cond), Nesting(body))
    case Call(callee, _, _) => 1 + Nesting(callee)
  }

  lemma {:induction false} CountedOfChecked(depth: int, code: Code)
    requires WithinSlots(depth, code)
    ensures depth + Counted(code) <= SLOTS * (1 + Nesting(code))
    decreases code
  {
    match code
    case Do(_) =>
    case Seq(a, b) => CountedOfChecked(depth, a); CountedOfChecked(depth + Net(a), b);
    case If(yes, no) => CountedOfChecked(depth - 1, yes); CountedOfChecked(depth - 1, no);
    case While(_, body) => CountedOfChecked(depth, body);
    case Call(callee, ins, _) => CountedOfChecked(ins, callee);
  }

  /** A part of a checked word ends below any bound on the whole. */
  lemma CheckedPart(ins: nat, depth: int, high: nat, most: nat, code: Code)
    requires WithinSlots(depth, code) && ins <= SLOTS && high <= most
    requires SLOTS * (1 + Nesting(code)) <= most && HighFits(most)
    ensures NetFits(depth - ins + Net(code)) && Max(high, depth - ins + Counted(code)) <= most
    ensures HighFits(Max(high, depth - ins + Counted(code)))
  {
    CountedOfChecked(depth, code);
  }

  lemma {:induction false} CheckedFits(ins: nat, depth: int, high: nat, most: nat, code: Code)
    requires WithinSlots(depth, code) && ins <= SLOTS && high <= most
    requires SLOTS * (1 + Nesting(code)) <= most && HighFits(most)
    ensures Fits(depth - ins, high, code)
    decreases code
  {
    hide Counted;
    hide HighFits;
    CheckedPart(ins, depth, high, most, code);
    match code
    case Do(_) =>
    case Seq(a, b) =>
      CheckedPart(ins, depth, high, most, a);
      CheckedFits(ins, depth, high, most, a);
      CheckedFits(ins, depth + Net(a), Max(high, depth - ins + Counted(a)), most, b);
    case If(yes, no) =>
      CheckedPart(ins, depth - 1, high, most, yes);
      CheckedFits(ins, depth - 1, high, most, yes);
      CheckedFits(ins, depth - 1, high, most, no);
    case While(_, body) => CheckedFits(ins, depth, high, most, body);
    case Call(callee, n, _) => CheckedFits(n, n, 0, most, callee);
  }

  /** In a checked word nothing wraps: as long as calls are nested less than 33553919 deep,
      its bound is its net change and its counted height. */
  lemma CheckedWordBound(ins: nat, code: Code)
    requires Balanced(code) && WithinSlots(ins, code) && Nesting(code) < 0x1FF_FDFF
    ensures Fits(0, 0, code) && Fold(ID, code) == Bound(Net(code), Slots(Counted(code)))
  {
    CheckedFits(ins, ins, 0, SLOTS * (1 + Nesting(code)), code);
    WordBound(code);
  }

  // ---- when something wraps ----

  /** One composition is exact if and only if the net change fits 16 bits, the
      shifted peak 32 bits, and a bound with the least net change is not followed by
      a peak that rises above what came before. */
  lemma ComposeExactly(net: int, high: nat, more: int, extra: nat)
    requires IsI16(net) && IsI16(more) && high < TWO32 && extra < TWO32
    ensures Compose(Bound(net, Slots(high)), Bound(more, Slots(extra))) == Bound(net + more, Slots(Max(high, net + extra))) <==>
      IsI16(net + more) && net + extra < TWO32 && (net == -32768 ==> net + extra <= high)
  {
    assert WrapI16(net + more) == net + more <==> IsI16(net + more);
  }

  /** `n` pushes in a row. */
  function Pushes(n: nat): Code
    requires n > 0
  {
    if n == 1 then Do(ConstI64(0)) else Seq(Pushes(n - 1), Do(ConstI64(0)))
  }

  function Peak16(n: nat): nat {
    if n <= 32768 then n else 32768
  }

  lemma OneMorePush(n: nat)
    ensures Compose(Bound(WrapI16(n), Slots(Peak16(n))), Bound(1, Slots(1))) == Bound(WrapI16(n + 1), Slots(Peak16(n + 1)))
  {
    assert WrapI16(WrapI16(n) + 1) == WrapI16(n + 1);
  }

  /** The code of `n` pushes has height `n`. Its folded bound is right up to 32768
      pushes; past that the net change has wrapped below zero and the bound stays at
      32768 slots, however many follow. */
  lemma {:induction false} BoundOfPushes(n: nat)
    requires n > 0
    ensures Balanced(Pushes(n)) && Net(Pushes(n)) == n && Height(Pushes(n)) == n
    ensures Fold(ID, Pushes(n)) == Bound(WrapI16(n), Slots(Peak16(n)))
    ensures Fold(ID, Pushes(n)).high == Slots(Height(Pushes(n))) <==> n <= 32768
  {
    hide Compose;
    OneMorePush(n - 1);
    if n > 1 {
      BoundOfPushes(n - 1);
    }
  }

  // ---- runs ----

  /** The greatest depth of the stack while the code runs without guards, its
      depth at the start included. */
  function Peak(g: Geometry, code: Code, d: Ds, rounds: nat): nat
    decreases rounds, code, 0
  {
    match code
    case Do(op) =>
      if !IsNative(op) then |d.stack|
      else
        (match Perform(g, op, d, false)
         case Went(after) => if |after.stack| > |d.stack| then |after.stack| else |d.stack|
         case _ => |d.stack|)
    case Seq(a, b) =>
      (match Execute(g, a, d, false, rounds)
       case Went(after) => Max(Peak(g, a, d, rounds), Peak(g, b, after, rounds))
       case _ => Peak(g, a, d, rounds))
    case If(yes, no) =>
      if d.stack == [] then 0
      else Max(|d.stack|, if TopIsTrue(d) then Peak(g, yes, Popped(d), rounds) else Peak(g, no, Popped(d), rounds))
    case While(cond, body) =>
      (match Execute(g, cond, d, false, rounds)
       case Went(tested) =>
         Max(Peak(g, cond, d, rounds), if tested.stack == [] || !TopIsTrue(tested) then 0 else PeakRound(g, code, Popped(tested), rounds))
       case _ => Peak(g, cond, d, rounds))
    case Call(callee, _, _) => Peak(g, callee, d.(locals := map[]), rounds)
  }

  /** The same from the body of a loop on. */
  function PeakRound(g: Geometry, code: Code, d: Ds, rounds: nat): nat
    requires code.While?
    decreases rounds, code.body, 1
  {
    match Execute(g, code.body, d, false, rounds)
    case Went(after) => Max(Peak(g, code.body, d, rounds), if rounds == 0 then 0 else Peak(g, code, after, rounds - 1))
    case _ => Peak(g, code.body, d, rounds)
  }

  lemma PerformDepth(g: Geometry, op: Op, d: Ds)
    requires IsNative(op)
    ensures Perform(g, op, d, false) != Overflowed
    ensures Perform(g, op, d, false).Went? ==> |Perform(g, op, d, false).ds.stack| == |d.stack| + NetDelta(op)
  {
  }

  /** No run goes above the height, and one that ends leaves the net change. */
  lemma {:induction false} PeakIsBounded(g: Geometry, code: Code, d: Ds, rounds: nat)
    requires Balanced(code)
    ensures |d.stack| <= Peak(g, code, d, rounds) <= |d.stack| + Height(code)
    ensures Execute(g, code, d, false, rounds) != Overflowed
    ensures Execute(g, code, d, false, rounds).Went? ==> |Execute(g, code, d, false, rounds).ds.stack| == |d.stack| + Net(code)
    decreases rounds, code, 0
  {
    hide Perform;
    match code
    case Do(op) => PerformDepth(g, op, d);
    case Seq(a, b) =>
      PeakIsBounded(g, a, d, rounds);
      if Execute(g, a, d, false, rounds).Went? {
        PeakIsBounded(g, b, Execute(g, a, d, false, rounds).ds, rounds);
      }
    case If(yes, no) =>
      if d.stack != [] {
        PeakIsBounded(g, if TopIsTrue(d) then yes else no, Popped(d), rounds);
      }
    case While(cond, body) =>
      PeakIsBounded(g, cond, d, rounds);
      var tested := Execute(g, cond, d, false, rounds);
      if tested.Went? && TopIsTrue(tested.ds) {
        RoundIsBounded(g, code, Popped(tested.ds), rounds);
      }
    case Call(callee, _, _) => PeakIsBounded(g, callee, d.(locals := map[]), rounds);
  }

  lemma {:induction false} RoundIsBounded(g: Geometry, code: Code, d: Ds, rounds: nat)
    requires Balanced(code) && code.While?
    ensures PeakRound(g, code, d, rounds) <= |d.stack| + Height(code)
    ensures Execute(g, code.body, d, false, rounds) != Overflowed
    ensures
      var after := Execute(g, code.body, d, false, rounds);
      after.Went? && rounds > 0 ==>
        && |after.ds.stack| == |d.stack|
        && Execute(g, code, after.ds, false, rounds - 1) != Overflowed
        && (Execute(g, code, after.ds, false, rounds - 1).Went? ==>
              |Execute(g, code, after.ds, false, rounds - 1).ds.stack| == |d.stack|)
    decreases rounds, code.body, 1
  {
    PeakIsBounded(g, code.body, d, rounds);
    var after := Execute(g, code.body, d, false, rounds);
    if after.Went? && rounds > 0 {
      PeakIsBounded(g, code, after.ds, rounds - 1);
    }
  }

  predicate StraightLine(code: Code) {
    match code
    case Do(op) => true
    case Seq(a, b) => StraightLine(a) && StraightLine(b)
    case If(_, _) => false
    case While(_, _) => false
    case Call(callee, _, _) => StraightLine(callee)
  }

  /** Without branches and loops a run to the end reaches exactly the height. */
  lemma {:induction false} StraightLineIsExact(g: Geometry, code: Code, d: Ds, rounds: nat)
    requires Balanced(code) && StraightLine(code) && Execute(g, code, d, false, rounds).Went?
    ensures Peak(g, code, d, rounds) == |d.stack| + Height(code)
    decreases code
  {
    hide Perform;
    match code
    case Do(op) => PerformDepth(g, op, d);
    case Seq(a, b) =>
      var after := Execute(g, a, d, false, rounds).ds;
      StraightLineIsExact(g, a, d, rounds);
      StraightLineIsExact(g, b, after, rounds);
      PeakIsBounded(g, a, d, rounds);
    case Call(callee, _, _) => StraightLineIsExact(g, callee, d.(locals := map[]), rounds);
  }

  lemma {:induction false} StraightLineIsCounted(code: Code)
    requires StraightLine(code)
    ensures InConditions(code) <= Counted(code) == Height(code)
    decreases code
  {
    match code
    case Do(_) =>
    case Seq(a, b) => StraightLineIsCounted(a); StraightLineIsCounted(b);
    case Call(callee, _, _) => StraightLineIsCounted(callee);
  }

  // ---- the guards ----

  lemma Room(g: Geometry, n: nat)
    requires g.base <= g.limit
    ensures Address(g, n) + 8 <= g.limit <==> n + 1 <= Capacity(g)
  {
  }

  lemma PerformGuarded(g: Geometry, op: Op, d: Ds)
    requires IsNative(op) && g.base <= g.limit && |d.stack| <= Capacity(g)
    ensures Perform(g, op, d, true) ==
      if Peak(g, Do(op), d, 0) <= Capacity(g) then Perform(g, op, d, false) else Overflowed
  {
    Room(g, |d.stack|);
    if |d.stack| >= 1 {
      Room(g, |d.stack| - 1);
    }
    if |d.stack| >= 2 {
      Room(g, |d.stack| - 2);
    }
  }

  /** The guards catch exactly the runs that need more slots than there are; on
      all others the builds with and without them do the same. */
  lemma {:induction false} GuardsCatchExactly(g: Geometry, code: Code, d: Ds, rounds: nat)
    requires Balanced(code) && g.base <= g.limit && |d.stack| <= Capacity(g)
    ensures Execute(g, code, d, true, rounds) ==
      if Peak(g, code, d, rounds) <= Capacity(g) then Execute(g, code, d, false, rounds) else Overflowed
    decreases rounds, code, 0
  {
    hide Perform;
    hide Capacity;
    match code
    case Do(op) => PerformGuarded(g, op, d);
    case Seq(a, b) =>
      GuardsCatchExactly(g, a, d, rounds);
      var after := Execute(g, a, d, false, rounds);
      if after.Went? {
        PeakAtEnd(g, a, d, rounds);
        PeakIsBounded(g, b, after.ds, rounds);
        if Peak(g, a, d, rounds) <= Capacity(g) {
          GuardsCatchExactly(g, b, after.ds, rounds);
        }
      }
    case If(yes, no) =>
      if d.stack != [] {
        GuardsCatchExactly(g, if TopIsTrue(d) then yes else no, Popped(d), rounds);
      }
    case While(cond, body) =>
      GuardsCatchExactly(g, cond, d, rounds);
      var tested := Execute(g, cond, d, false, rounds);
      if tested.Went? {
        PeakAtEnd(g, cond, d, rounds);
        PeakIsBounded(g, cond, d, rounds);
        if TopIsTrue(tested.ds) && Peak(g, cond, d, rounds) <= Capacity(g) {
          RoundsCaught(g, code, Popped(tested.ds), rounds);
        }
      }
    case Call(callee, _, _) => GuardsCatchExactly(g, callee, d.(locals := map[]), rounds);
  }

  /** From the body of a loop on. */
  function ExecuteRound(g: Geometry, code: Code, d: Ds, guard: bool, rounds: nat): Outcome
    requires code.While?
  {
    match Execute(g, code.body, d, guard, rounds)
    case Went(after) => if rounds == 0 then Unfinished else Execute(g, code, after, guard, rounds - 1)
    case other => other
  }

  lemma {:induction false} RoundsCaught(g: Geometry, code: Code, d: Ds, rounds: nat)
    requires Balanced(code) && code.While? && g.base <= g.limit && |d.stack| <= Capacity(g)
    ensures ExecuteRound(g, code, d, true, rounds) ==
      if PeakRound(g, code, d, rounds) <= Capacity(g) then ExecuteRound(g, code, d, false, rounds) else Overflowed
    decreases rounds, code.body, 1
  {
    hide Perform;
    hide Capacity;
    GuardsCatchExactly(g, code.body, d, rounds);
    PeakIsBounded(g, code.body, d, rounds);
    var after := Execute(g, code.body, d, false, rounds);
    if after.Went? && rounds > 0 {
      GuardsCatchExactly(g, code, after.ds, rounds - 1);
      PeakIsBounded(g, code, after.ds, rounds - 1);
    }
  }

  /** The depth at the end is one of those the peak is over. */
  lemma {:induction false} PeakAtEnd(g: Geometry, code: Code, d: Ds, rounds: nat)
    requires Balanced(code) && Execute(g, code, d, false, rounds).Went?
    ensures |Execute(g, code, d, false, rounds).ds.stack| <= Peak(g, code, d, rounds)
    decreases code
  {
    hide Perform;
    match code
    case Do(op) => PerformDepth(g, op, d);
    case Seq(a, b) => PeakAtEnd(g, b, Execute(g, a, d, false, rounds).ds, rounds);
    case If(yes, no) => PeakAtEnd(g, if TopIsTrue(d) then yes else no, Popped(d), rounds);
    case While(_, _) => PeakIsBounded(g, code, d, rounds);
    case Call(callee, _, _) => PeakAtEnd(g, callee, d.(locals := map[]), rounds);
  }

  /** The verdict that lets the guards go: the bound of the program is known and
      fits the slots between base and limit. If the bound counts all there is, no
      run changes, however long. */
  lemma ElisionIsSound(g: Geometry, code: Code, d: Ds, rounds: nat)
    requires Balanced(code) && Fits(0, 0, code) && g.base <= g.limit
    requires Fold(ID, code).high.Slots? && |d.stack| + Fold(ID, code).high.extra <= Capacity(g)
    requires InConditions(code) <= Counted(code)
    ensures Execute(g, code, d, true, rounds) == Execute(g, code, d, false, rounds) != Overflowed
  {
    WordBound(code);
    PeakIsBounded(g, code, d, rounds);
    GuardsCatchExactly(g, code, d, rounds);
  }

  /** For a loop the verdict is right if and only if the slots hold the condition
      too, which the fold has dropped: where they do not, the build with guards
      overflows and the one without them does not. */
  lemma ElisionOfLoop(g: Geometry, cond: Code, body: Code, d: Ds, rounds: nat)
    requires Balanced(While(cond, body)) && StraightLine(cond) && StraightLine(body) && Fits(0, 0, While(cond, body))
    requires g.base <= g.limit && Fold(ID, While(cond, body)).high.Slots?
    requires |d.stack| + Fold(ID, While(cond, body)).high.extra <= Capacity(g)
    requires Execute(g, cond, d, false, rounds).Went?
    ensures Execute(g, While(cond, body), d, true, rounds) == Execute(g, While(cond, body), d, false, rounds) <==>
      |d.stack| + Height(cond) <= Capacity(g)
  {
    var code := While(cond, body);
    WordBound(code);
    StraightLineIsExact(g, cond, d, rounds);
    StraightLineIsCounted(body);
    PeakIsBounded(g, code, d, rounds);
    GuardsCatchExactly(g, code, d, rounds);
  }

  /** A loop whose condition is one constant and whose body does nothing. */
  const IDLE: Code := While(Do(ConstBool(false)), Do(Bitcast(TY_I64, TY_I64)))

  lemma IdleFacts()
    ensures Balanced(IDLE) && Fits(0, 0, IDLE) && Net(IDLE) == 0 && Counted(IDLE) == 0 && Height(IDLE) == 1
  {
  }

  lemma IdleRuns(g: Geometry, d: Ds)
    requires d.stack == []
    ensures Execute(g, IDLE, d, false, 0).Went? && Peak(g, IDLE, d, 0) == 1
  {
    assert ([] + [Flag(false)])[..0] == [];
  }

  /** The bound of this loop is 0 slots, and with none there the build with guards
      overflows where the other one ends. */
  lemma LoopConditionIsDropped(g: Geometry, d: Ds)
    requires d.stack == [] && Capacity(g) == 0 && g.base <= g.limit
    ensures Balanced(IDLE) && Fits(0, 0, IDLE) && Fold(ID, IDLE) == Bound(0, Slots(0))
    ensures Execute(g, IDLE, d, true, 0) == Overflowed && Execute(g, IDLE, d, false, 0).Went?
  {
    hide Execute;
    hide Peak;
    hide Fold;
    hide Capacity;
    hide Fits;
    IdleFacts();
    IdleRuns(g, d);
    WordBound(IDLE);
    GuardsCatchExactly(g, IDLE, d, 0);
  }

  // ---- the recorded peak ----

  /** The slots the recorded stack pointer stands for; before the first push none
      is recorded. */
  function RecordedSlots(g: Geometry, high: nat): nat {
    if high < g.base then 0 else (high - g.base) / 8
  }

  /** A recorded pointer is the address of a depth. */
  predicate WellRecorded(g: Geometry, d: Ds) {
    (d.high < g.base && d.stack == []) || (d.high == Address(g, RecordedSlots(g, d.high)) && |d.stack| <= RecordedSlots(g, d.high))
  }

  lemma RaiseSlots(g: Geometry, high: nat, n: nat)
    requires high < g.base || high == Address(g, RecordedSlots(g, high))
    ensures
      var after := Raise(high, Address(g, n));
      RecordedSlots(g, after) == Max(RecordedSlots(g, high), n) && after == Address(g, RecordedSlots(g, after))
  {
  }

  /** One push or put-back to depth `n`. */
  lemma RecordOne(g: Geometry, d: Ds, after: Ds)
    requires WellRecorded(g, d)
    requires after.high == d.high || after.high == Raise(d.high, Address(g, |after.stack|))
    requires after.high == d.high ==> |after.stack| <= |d.stack| || Address(g, |after.stack|) <= d.high
    ensures WellRecorded(g, after)
    ensures RecordedSlots(g, after.high) == Max(RecordedSlots(g, d.high), Max(|d.stack|, |after.stack|))
  {
    RaiseSlots(g, d.high, |after.stack|);
  }

  lemma PerformRecords(g: Geometry, op: Op, d: Ds)
    requires IsNative(op) && WellRecorded(g, d) && Perform(g, op, d, false).Went?
    ensures
      var after := Perform(g, op, d, false).ds;
      && WellRecorded(g, after)
      && RecordedSlots(g, after.high) == Max(RecordedSlots(g, d.high), Peak(g, Do(op), d, 0))
  {
    hide WellRecorded;
    hide RecordedSlots;
    RecordOne(g, d, Perform(g, op, d, false).ds);
  }

  /** `__lang_ds_high` stands for the true peak of the run. */
  lemma {:induction false} HighRecordsThePeak(g: Geometry, code: Code, d: Ds, rounds: nat)
    requires Balanced(code) && WellRecorded(g, d) && Execute(g, code, d, false, rounds).Went?
    ensures
      var after := Execute(g, code, d, false, rounds).ds;
      && WellRecorded(g, after)
      && RecordedSlots(g, after.high) == Max(RecordedSlots(g, d.high), Peak(g, code, d, rounds))
    decreases rounds, code, 0
  {
    hide Perform;
    hide RecordedSlots;
    match code
    case Do(op) => PerformRecords(g, op, d);
    case Seq(a, b) =>
      HighRecordsThePeak(g, a, d, rounds);
      HighRecordsThePeak(g, b, Execute(g, a, d, false, rounds).ds, rounds);
    case If(yes, no) =>
      RecordedCovers(g, d);
      PopStaysRecorded(g, d);
      HighRecordsThePeak(g, if TopIsTrue(d) then yes else no, Popped(d), rounds);
    case While(cond, body) =>
      HighRecordsThePeak(g, cond, d, rounds);
      var tested := Execute(g, cond, d, false, rounds).ds;
      PopStaysRecorded(g, tested);
      if TopIsTrue(tested) {
        RoundsRecord(g, code, Popped(tested), rounds);
      }
    case Call(callee, _, _) => HighRecordsThePeak(g, callee, d.(locals := map[]), rounds);
  }

  lemma {:induction false} RoundsRecord(g: Geometry, code: Code, d: Ds, rounds: nat)
    requires Balanced(code) && code.While? && WellRecorded(g, d) && ExecuteRound(g, code, d, false, rounds).Went?
    ensures
      var after := ExecuteRound(g, code, d, false, rounds).ds;
      && WellRecorded(g, after)
      && RecordedSlots(g, after.high) == Max(RecordedSlots(g, d.high), PeakRound(g, code, d, rounds))
    decreases rounds, code.body, 1
  {
    hide RecordedSlots;
    HighRecordsThePeak(g, code.body, d, rounds);
    HighRecordsThePeak(g, code, Execute(g, code.body, d, false, rounds).ds, rounds - 1);
  }

  lemma PopStaysRecorded(g: Geometry, d: Ds)
    requires WellRecorded(g, d) && d.stack != []
    ensures WellRecorded(g, Popped(d)) && Popped(d).high == d.high
  {
  }

  lemma RecordedCovers(g: Geometry, d: Ds)
    requires WellRecorded(g, d)
    ensures |d.stack| <= RecordedSlots(g, d.high)
  {
  }

  /** From an empty stack with nothing recorded, the record at the end is the
      peak, and without branches it is the bound. */
  lemma RecordedFromStart(g: Geometry, code: Code, locals: map<nat, U64>, rounds: nat)
    requires Balanced(code) && g.base > 0 && Execute(g, code, Ds([], locals, 0), false, rounds).Went?
    ensures
      var after := Execute(g, code, Ds([], locals, 0), false, rounds).ds;
      && RecordedSlots(g, after.high) == Peak(g, code, Ds([], locals, 0), rounds) <= Height(code)
      && (StraightLine(code) ==> RecordedSlots(g, after.high) == Height(code))
  {
    var d := Ds([], locals, 0);
    HighRecordsThePeak(g, code, d, rounds);
    PeakIsBounded(g, code, d, rounds);
    if StraightLine(code) {
      StraightLineIsExact(g, code, d, rounds);
    }
  }
}
