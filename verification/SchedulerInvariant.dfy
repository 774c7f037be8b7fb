/** What every step of the scheduler and the channels keeps. */
module SchedulerInvariant {
  import opened Rings
  import opened Scheduler

  // ---- how often a task occurs in a family of queues ----

  ghost function Tally(qs: seq<seq<U64>>, t: U64): nat {
    if qs == [] then 0 else multiset(qs[0])[t] + Tally(qs[1..], t)
  }

  lemma {:induction false} TallyUpdate(qs: seq<seq<U64>>, i: nat, q: seq<U64>, t: U64)
    requires i < |qs|
    ensures Tally(qs[i := q], t) == Tally(qs, t) - multiset(qs[i])[t] + multiset(q)[t]
  {
    if i == 0 {
      assert qs[i := q][1..] == qs[1..];
    } else {
      assert qs[i := q][1..] == qs[1..][i - 1 := q];
      TallyUpdate(qs[1..], i - 1, q, t);
    }
  }

  lemma {:induction false} TallyMember(qs: seq<seq<U64>>, t: U64)
    ensures Tally(qs, t) == 0 <==> forall i :: 0 <= i < |qs| ==> t !in qs[i]
    ensures forall i :: 0 <= i < |qs| ==> multiset(qs[i])[t] <= Tally(qs, t)
  {
    if qs != [] {
      TallyMember(qs[1..], t);
      assert forall i :: 1 <= i < |qs| ==> qs[i] == qs[1..][i - 1];
      assert t in qs[0] <==> t in multiset(qs[0]);
    }
  }

  lemma PushCount(q: seq<U64>, x: U64, t: U64)
    ensures multiset(q + [x])[t] == multiset(q)[t] + (if x == t then 1 else 0)
  {
  }

  lemma PopCount(q: seq<U64>, t: U64)
    requires q != []
    ensures multiset(q[1..])[t] == multiset(q)[t] - (if q[0] == t then 1 else 0)
  {
    assert q == [q[0]] + q[1..];
  }

  /** Occurrences of a task on the five run rings. */
  ghost function RunCount(rt: Rt, t: U64): nat {
    Tally(rt.local, t) + multiset(rt.global)[t]
  }

  /** Occurrences of a task on the thirty-two wait rings. */
  ghost function WaitCount(rt: Rt, t: U64): nat {
    Tally(rt.recvq, t) + Tally(rt.sendq, t)
  }

  // ---- woken waiters ----

  /** Tasks that are inside a receive on `c` and not on a wait ring: woken, or
      resumed and about to look at the channel again. */
  ghost function WokenReceivers(rt: Rt, c: U64): (s: set<nat>)
    requires Shape(rt)
  {
    set t: nat | t < TASKS && rt.pend[t] == Receiving(c) && rt.state[t] != BLOCKED
  }

  ghost function WokenSenders(rt: Rt, c: U64): (s: set<nat>)
    requires Shape(rt)
  {
    set t: nat | t < TASKS && rt.pend[t].Sending? && rt.pend[t].chan == c && rt.state[t] != BLOCKED
  }

  // ---- the invariant ----

  /** A task is ready iff it is on exactly one run ring, exactly once; blocked
      iff it is on exactly one wait ring, exactly once; and at most one runs. */
  ghost predicate TaskConserved(rt: Rt, t: U64)
    requires Shape(rt) && t < TASKS
  {
    && rt.state[t] <= BLOCKED
    && RunCount(rt, t) == (if rt.state[t] == READY then 1 else 0)
    && WaitCount(rt, t) == (if rt.state[t] == BLOCKED then 1 else 0)
    && (rt.state[t] == RUNNING ==> t == rt.cur)
    && (rt.state[t] == FREE || rt.state[t] == DONE ==> t == rt.cur || rt.pend[t] == Idle)
  }

  ghost predicate Conserved(rt: Rt)
    requires Shape(rt)
  {
    forall t: U64 :: t < TASKS ==> TaskConserved(rt, t)
  }

  /** A task on a wait ring is inside the matching loop. */
  ghost predicate WaitersOf(rt: Rt, c: U64)
    requires Shape(rt) && c < CHANNELS
  {
    && (forall t :: t in rt.recvq[c] ==> rt.pend[t] == Receiving(c))
    && (forall t :: t in rt.sendq[c] ==> rt.pend[t].Sending? && rt.pend[t].chan == c)
  }

  ghost predicate WaitersMatch(rt: Rt)
    requires Shape(rt)
  {
    forall c: U64 :: c < CHANNELS ==> WaitersOf(rt, c)
  }

  /** What was sent is what was received followed by what is buffered. */
  ghost predicate ChannelInOrder(rt: Rt, c: U64)
    requires Shape(rt) && c < CHANNELS
  {
    && rt.sent[c] == rt.got[c] + rt.msgs[c]
    && rt.open[c] <= 1
    && (rt.open[c] == 0 ==> rt.msgs[c] == [])
  }

  ghost predicate InOrder(rt: Rt)
    requires Shape(rt)
  {
    forall c: U64 :: c < CHANNELS ==> ChannelInOrder(rt, c)
  }

  /** No wake-up is lost: receivers only wait while every buffered message has
      a woken receiver coming for it, senders only while every free place has a
      woken sender. */
  ghost predicate WakesKept(rt: Rt, c: U64)
    requires Shape(rt) && c < CHANNELS
  {
    && (rt.recvq[c] != [] ==> |rt.msgs[c]| <= |WokenReceivers(rt, c)|)
    && (rt.sendq[c] != [] ==> MSG_CAP - |rt.msgs[c]| <= |WokenSenders(rt, c)|)
  }

  ghost predicate NoLostWake(rt: Rt)
    requires Shape(rt)
  {
    forall c: U64 :: c < CHANNELS ==> WakesKept(rt, c)
  }

  ghost predicate Core(rt: Rt) {
    Shape(rt) && PendingShape(rt) && Conserved(rt) && WaitersMatch(rt) && InOrder(rt) && NoLostWake(rt)
  }

  /** The current task is the running one. Task 0 starts out running with the
      state word 0. */
  ghost predicate CurrentRuns(rt: Rt)
    requires Shape(rt)
  {
    rt.state[rt.cur] == RUNNING || (rt.cur == 0 && rt.state[0] == FREE)
  }

  ghost predicate Inv(rt: Rt) {
    Core(rt) && CurrentRuns(rt)
  }

  // ---- room on the global ring ----

  lemma {:induction false} DistinctFit(q: seq<U64>, ids: set<U64>)
    requires forall i :: 0 <= i < |q| ==> q[i] in ids
    requires forall t :: t in q ==> multiset(q)[t] <= 1
    ensures |q| <= |ids|
  {
    if q != [] {
      var t := q[0];
      assert q == [t] + q[1..];
      assert multiset(q) == multiset{t} + multiset(q[1..]);
      assert multiset(q)[t] == 1 + multiset(q[1..])[t];
      forall u | u in q[1..] ensures multiset(q[1..])[u] <= 1 {
        assert u in q;
      }
      DistinctFit(q[1..], ids - {t});
    }
  }

  ghost function IdsBelow(n: U64): (ids: set<U64>)
    ensures |ids| == n
    ensures forall t: U64 :: t in ids <==> t < n
  {
    if n == 0 then {} else IdsBelow(n - 1) + {n - 1}
  }

  /** Distinct ids below `n`, one of them missing. */
  lemma DistinctBelow(q: seq<U64>, n: U64, t: U64)
    requires t < n && t !in q
    requires forall u :: u in q ==> u < n && multiset(q)[u] <= 1
    ensures |q| < n
  {
    forall i | 0 <= i < |q|
      ensures q[i] in IdsBelow(n) - {t}
    {
      assert q[i] in q;
    }
    DistinctFit(q, IdsBelow(n) - {t});
  }

  /** A task that is not ready always finds room on the global ring. */
  lemma GlobalHasRoom(rt: Rt, t: U64)
    requires Shape(rt) && Conserved(rt) && t < TASKS && rt.state[t] != READY
    ensures |rt.global| < GLOBAL_CAP
  {
    assert TaskConserved(rt, t);
    forall u | u in rt.global
      ensures u < TASKS && multiset(rt.global)[u] <= 1 && u != t
    {
      assert u < TASKS && u in multiset(rt.global);
      assert TaskConserved(rt, u);
    }
    DistinctBelow(rt.global, TASKS, t);
  }

  /** Room for one more on the running worker's ring or the global one, even
      once the task's own state word says ready. */
  lemma EnqueueFits(rt: Rt, t: U64)
    requires Shape(rt) && Conserved(rt) && t < TASKS && rt.state[t] != READY
    ensures |rt.global| < GLOBAL_CAP
    ensures forall u: U64 :: u < TASKS ==>
      RunCount(Enqueue(rt, t), u) == RunCount(rt, u) + (if u == t then 1 else 0)
  {
    GlobalHasRoom(rt, t);
    forall u: U64 | u < TASKS
      ensures RunCount(Enqueue(rt, t), u) == RunCount(rt, u) + (if u == t then 1 else 0)
    {
      var mine := rt.local[rt.worker];
      TallyUpdate(rt.local, rt.worker, mine + [t], u);
      PushCount(mine, t, u);
      PushCount(rt.global, t, u);
    }
  }
}
