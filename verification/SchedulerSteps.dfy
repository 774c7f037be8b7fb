/** Every step of the scheduler keeps the invariant. One lemma for each way the
    state changes, in the order the emitted code changes it. */
module SchedulerSteps {
  import opened Rings
  import opened Scheduler
  import opened SchedulerInvariant

  // ---- reading the invariant ----

  /** A task that is not blocked is on no wait ring. */
  lemma NotWaiting(rt: Rt, t: U64, c: U64)
    requires Shape(rt) && Conserved(rt) && t < TASKS && c < CHANNELS && rt.state[t] != BLOCKED
    ensures t !in rt.recvq[c] && t !in rt.sendq[c]
  {
    assert TaskConserved(rt, t);
    TallyMember(rt.recvq, t);
    TallyMember(rt.sendq, t);
  }

  lemma WaiterIsBlocked(rt: Rt, c: U64, t: U64)
    requires Shape(rt) && Conserved(rt) && c < CHANNELS && t < TASKS && (t in rt.recvq[c] || t in rt.sendq[c])
    ensures rt.state[t] == BLOCKED
  {
    if rt.state[t] != BLOCKED {
      NotWaiting(rt, t, c);
    }
  }

  lemma CurrentNotWaiting(rt: Rt)
    requires Shape(rt) && Conserved(rt) && CurrentRuns(rt)
    ensures rt.state[rt.cur] != READY && rt.state[rt.cur] != BLOCKED
    ensures forall c: U64 :: c < CHANNELS ==> rt.cur !in rt.recvq[c] && rt.cur !in rt.sendq[c]
  {
    forall c: U64 | c < CHANNELS
      ensures rt.cur !in rt.recvq[c] && rt.cur !in rt.sendq[c]
    {
      NotWaiting(rt, rt.cur, c);
    }
  }

  lemma ChosenIsReady(rt: Rt, c: Choice)
    requires Shape(rt) && Conserved(rt) && Available(rt, c)
    ensures rt.state[Chosen(rt, c)] == READY
  {
    var t := Chosen(rt, c);
    assert TaskConserved(rt, t);
    if c.FromLocal? {
      TallyMember(rt.local, t);
      assert t in rt.local[c.worker];
    } else {
      assert t in rt.global;
      assert t in multiset(rt.global);
    }
  }

  // ---- changes that leave the wait rings alone ----

  ghost predicate SameChannels(rt: Rt, after: Rt) {
    && after.open == rt.open && after.msgs == rt.msgs && after.recvq == rt.recvq && after.sendq == rt.sendq
    && after.sent == rt.sent && after.got == rt.got && after.pend == rt.pend
  }

  /** With the same channels, loops and blocked tasks, the waiters and the woken
      tasks are the same. */
  lemma SameWaiters(rt: Rt, after: Rt)
    requires Core(rt) && Shape(after) && SameChannels(rt, after)
    requires forall t: nat :: t < TASKS ==> (rt.state[t] == BLOCKED <==> after.state[t] == BLOCKED)
    ensures PendingShape(after) && WaitersMatch(after) && InOrder(after) && NoLostWake(after)
  {
    forall t | 0 <= t < TASKS ensures LoopShape(after, t) {
      assert LoopShape(rt, t);
    }
    forall c: U64 | c < CHANNELS
      ensures WaitersOf(after, c) && ChannelInOrder(after, c) && WakesKept(after, c)
    {
      assert WaitersOf(rt, c) && ChannelInOrder(rt, c) && WakesKept(rt, c);
      assert WokenReceivers(after, c) == WokenReceivers(rt, c);
      assert WokenSenders(after, c) == WokenSenders(rt, c);
    }
  }

  lemma DispatchRunCount(rt: Rt, c: Choice, u: U64)
    requires Shape(rt) && Available(rt, c)
    ensures RunCount(Dispatch(rt, c), u) == RunCount(rt, u) - (if u == Chosen(rt, c) then 1 else 0)
  {
    if c.FromLocal? {
      TallyUpdate(rt.local, c.worker, rt.local[c.worker][1..], u);
      PopCount(rt.local[c.worker], u);
    } else {
      PopCount(rt.global, u);
    }
  }

  /** Handing the processor to a ready task. */
  lemma DispatchKeeps(rt: Rt, c: Choice)
    requires Core(rt) && Available(rt, c)
    requires rt.state[rt.cur] != RUNNING
    requires rt.state[rt.cur] == FREE || rt.state[rt.cur] == DONE ==> rt.pend[rt.cur] == Idle
    ensures Inv(Dispatch(rt, c))
  {
    var after := Dispatch(rt, c);
    ChosenIsReady(rt, c);
    forall u: U64 | u < TASKS
      ensures TaskConserved(after, u)
    {
      assert TaskConserved(rt, u);
      DispatchRunCount(rt, c, u);
    }
    SameWaiters(rt, after);
  }

  lemma EnqueueConserves(rt: Rt, t: U64, u: U64)
    requires Core(rt) && t < TASKS && u < TASKS && rt.state[t] != READY && rt.state[t] != BLOCKED
    requires Shape(Enqueue(rt.(state := rt.state[t := READY]), t))
    ensures TaskConserved(Enqueue(rt.(state := rt.state[t := READY]), t), u)
  {
    var after := Enqueue(rt.(state := rt.state[t := READY]), t);
    EnqueueFits(rt, t);
    assert after.local == Enqueue(rt, t).local && after.global == Enqueue(rt, t).global;
    assert TaskConserved(rt, u);
    assert RunCount(after, u) == RunCount(Enqueue(rt, t), u);
  }

  /** Making a task ready that is neither ready nor blocked: the running task
      at the first half of a yield, or a new one. */
  lemma EnqueueKeeps(rt: Rt, t: U64)
    requires Core(rt) && t < TASKS && rt.state[t] != READY && rt.state[t] != BLOCKED
    ensures Core(Enqueue(rt.(state := rt.state[t := READY]), t))
  {
    var after := Enqueue(rt.(state := rt.state[t := READY]), t);
    EnqueueFits(rt, t);
    forall u: U64 | u < TASKS
      ensures TaskConserved(after, u)
    {
      EnqueueConserves(rt, t, u);
    }
    SameWaiters(rt, after);
  }

  /** A state word that neither becomes nor stops being ready or blocked. */
  lemma SetStateKeeps(rt: Rt, t: U64, st: U64)
    requires Core(rt) && t < TASKS
    requires rt.state[t] != READY && rt.state[t] != BLOCKED && (st == FREE || st == DONE)
    requires t == rt.cur || rt.pend[t] == Idle
    ensures Core(rt.(state := rt.state[t := st]))
  {
    var after := rt.(state := rt.state[t := st]);
    forall u: U64 | u < TASKS
      ensures TaskConserved(after, u)
    {
      assert TaskConserved(rt, u);
      assert RunCount(after, u) == RunCount(rt, u) && WaitCount(after, u) == WaitCount(rt, u);
    }
    SameWaiters(rt, after);
  }

  /** What a call of `__task_yield` leaves, from a running task, one that has
      just blocked itself or one that has just finished. */
  lemma SwitchKeeps(rt: Rt)
    requires Core(rt)
    requires CurrentRuns(rt) || rt.state[rt.cur] == BLOCKED || (rt.state[rt.cur] == DONE && rt.pend[rt.cur] == Idle)
    ensures Switch(rt).1 == Switched ==> Inv(Switch(rt).0)
    ensures Switch(rt).1 != Switched ==> Switch(rt).0 == rt && AllRingsEmpty(rt)
    ensures CurrentRuns(rt) ==> Switch(rt).1 == Switched
    ensures Switch(rt).1 == Stuck ==> rt.state[rt.cur] == BLOCKED
    ensures Switch(rt).1 == Returned ==> rt.state[rt.cur] == DONE
  {
    if CurrentRuns(rt) {
      EnqueueKeeps(rt, rt.cur);
    }
    var queued := Requeue(rt);
    var c := Pick(queued);
    if c != Nobody {
      DispatchKeeps(queued, c);
    }
  }

  ghost predicate AllRingsEmpty(rt: Rt)
    requires Shape(rt)
  {
    rt.global == [] && forall w :: 0 <= w < WORKERS ==> rt.local[w] == []
  }

  // ---- changes of the running task's own loop ----

  ghost predicate ReceivesAwake(rt: Rt, t: nat, c: U64)
    requires Shape(rt) && t < TASKS
  {
    rt.pend[t] == Receiving(c) && rt.state[t] != BLOCKED
  }

  ghost predicate SendsAwake(rt: Rt, t: nat, c: U64)
    requires Shape(rt) && t < TASKS
  {
    rt.pend[t].Sending? && rt.pend[t].chan == c && rt.state[t] != BLOCKED
  }

  ghost predicate OnlyTask(rt: Rt, after: Rt, t: nat)
    requires Shape(rt) && Shape(after) && t < TASKS
  {
    forall u :: 0 <= u < TASKS && u != t ==> after.pend[u] == rt.pend[u] && after.state[u] == rt.state[u]
  }

  lemma Members(s: set<nat>, r: set<nat>, t: nat)
    requires forall u: nat :: u != t ==> (u in r <==> u in s)
    ensures |r| == |s| + (if t in r then 1 else 0) - (if t in s then 1 else 0)
    ensures (t in r <==> t in s) ==> r == s
  {
    assert r - {t} == s - {t};
    assert |r| == |r - {t}| + (if t in r then 1 else 0) by {
      if t in r { assert r == (r - {t}) + {t}; } else { assert r == r - {t}; }
    }
    assert |s| == |s - {t}| + (if t in s then 1 else 0) by {
      if t in s { assert s == (s - {t}) + {t}; } else { assert s == s - {t}; }
    }
  }

  /** When only task `t` changes, the number of woken tasks of a channel moves
      by whether `t` is one of them before and after. */
  lemma WokenCount(rt: Rt, after: Rt, t: nat, c: U64)
    requires Shape(rt) && Shape(after) && t < TASKS && OnlyTask(rt, after, t)
    ensures |WokenReceivers(after, c)| == |WokenReceivers(rt, c)|
      + (if ReceivesAwake(after, t, c) then 1 else 0) - (if ReceivesAwake(rt, t, c) then 1 else 0)
    ensures |WokenSenders(after, c)| == |WokenSenders(rt, c)|
      + (if SendsAwake(after, t, c) then 1 else 0) - (if SendsAwake(rt, t, c) then 1 else 0)
  {
    Members(WokenReceivers(rt, c), WokenReceivers(after, c), t);
    Members(WokenSenders(rt, c), WokenSenders(after, c), t);
  }

  /** Occurrences on the wait rings after the running task joins one or a task
      leaves one. */
  lemma AppendTally(qs: seq<seq<U64>>, c: nat, t: U64, u: U64)
    requires c < |qs|
    ensures Tally(qs[c := qs[c] + [t]], u) == Tally(qs, u) + (if t == u then 1 else 0)
  {
    TallyUpdate(qs, c, qs[c] + [t], u);
    PushCount(qs[c], t, u);
  }

  lemma RemoveTally(qs: seq<seq<U64>>, c: nat, u: U64)
    requires c < |qs| && qs[c] != []
    ensures Tally(qs[c := qs[c][1..]], u) == Tally(qs, u) - (if qs[c][0] == u then 1 else 0)
  {
    TallyUpdate(qs, c, qs[c][1..], u);
    PopCount(qs[c], u);
  }

  /** Entering or leaving a loop that waits on no channel. */
  lemma SetLoopKeeps(rt: Rt, p: Pending)
    requires Inv(rt)
    requires rt.pend[rt.cur].Idle? || rt.pend[rt.cur].Joining?
    requires p.Idle? || (p.Joining? && p.task < TASKS)
    ensures Inv(rt.(pend := rt.pend[rt.cur := p]))
  {
    var after := rt.(pend := rt.pend[rt.cur := p]);
    CurrentNotWaiting(rt);
    forall u: U64 | u < TASKS
      ensures TaskConserved(after, u) && LoopShape(after, u)
    {
      assert TaskConserved(rt, u) && LoopShape(rt, u);
      assert RunCount(after, u) == RunCount(rt, u) && WaitCount(after, u) == WaitCount(rt, u);
    }
    forall c: U64 | c < CHANNELS
      ensures WaitersOf(after, c) && ChannelInOrder(after, c) && WakesKept(after, c)
    {
      assert WaitersOf(rt, c) && ChannelInOrder(rt, c) && WakesKept(rt, c);
      WokenCount(rt, after, rt.cur, c);
    }
  }

  // ---- blocking on a channel ----

  /** The loop a task may already be inside of when it tries channel `c`. */
  ghost predicate MayReceive(rt: Rt, c: U64)
    requires Shape(rt)
  {
    Live(rt, c) && (rt.pend[rt.cur] == Idle || rt.pend[rt.cur] == Receiving(c))
  }

  ghost predicate MaySend(rt: Rt, c: U64, v: U64)
    requires Shape(rt)
  {
    Live(rt, c) && (rt.pend[rt.cur] == Idle || rt.pend[rt.cur] == Sending(c, v))
  }

  ghost function BlockedReceiver(rt: Rt, c: U64): (r: Rt)
    requires Shape(rt) && c < CHANNELS && |rt.recvq[c]| < WAIT_CAP
    ensures Shape(r)
  {
    AwaitMessage(rt, c).(pend := rt.pend[rt.cur := Receiving(c)])
  }

  ghost function BlockedSender(rt: Rt, c: U64, v: U64): (r: Rt)
    requires Shape(rt) && c < CHANNELS && |rt.sendq[c]| < WAIT_CAP
    ensures Shape(r)
  {
    AwaitRoom(rt, c).(pend := rt.pend[rt.cur := Sending(c, v)])
  }

  /** Blocking the running task on one more wait ring keeps the counts. */
  lemma BlockConserves(rt: Rt, after: Rt)
    requires Shape(rt) && Conserved(rt) && PendingShape(rt) && CurrentRuns(rt) && Shape(after)
    requires after.state == rt.state[rt.cur := BLOCKED] && after.cur == rt.cur && after.open == rt.open
    requires after.local == rt.local && after.global == rt.global && OnlyTask(rt, after, rt.cur)
    requires LoopShape(after, after.cur)
    requires forall u: U64 :: WaitCount(after, u) == WaitCount(rt, u) + (if u == rt.cur then 1 else 0)
    ensures Conserved(after) && PendingShape(after)
  {
    forall u: U64 | u < TASKS
      ensures TaskConserved(after, u) && LoopShape(after, u)
    {
      assert TaskConserved(rt, u) && LoopShape(rt, u);
      assert RunCount(after, u) == RunCount(rt, u);
    }
  }

  /** A receiver that finds its channel empty waits; that is the only way a
      receive queue grows, and then the buffer is empty. */
  lemma BlockReceiverKeeps(rt: Rt, c: U64)
    requires Inv(rt) && MayReceive(rt, c) && rt.msgs[c] == [] && |rt.recvq[c]| < WAIT_CAP
    ensures Core(BlockedReceiver(rt, c))
  {
    var after := BlockedReceiver(rt, c);
    forall u: U64
      ensures WaitCount(after, u) == WaitCount(rt, u) + (if u == rt.cur then 1 else 0)
    {
      AppendTally(rt.recvq, c, rt.cur, u);
    }
    BlockConserves(rt, after);
    CurrentNotWaiting(rt);
    forall d: U64 | d < CHANNELS
      ensures WaitersOf(after, d) && ChannelInOrder(after, d) && WakesKept(after, d)
    {
      assert WaitersOf(rt, d) && ChannelInOrder(rt, d) && WakesKept(rt, d);
      WokenCount(rt, after, rt.cur, d);
    }
  }

  lemma BlockSenderKeeps(rt: Rt, c: U64, v: U64)
    requires Inv(rt) && MaySend(rt, c, v) && |rt.msgs[c]| == MSG_CAP && |rt.sendq[c]| < WAIT_CAP
    ensures Core(BlockedSender(rt, c, v))
  {
    var after := BlockedSender(rt, c, v);
    forall u: U64
      ensures WaitCount(after, u) == WaitCount(rt, u) + (if u == rt.cur then 1 else 0)
    {
      AppendTally(rt.sendq, c, rt.cur, u);
    }
    BlockConserves(rt, after);
    CurrentNotWaiting(rt);
    forall d: U64 | d < CHANNELS
      ensures WaitersOf(after, d) && ChannelInOrder(after, d) && WakesKept(after, d)
    {
      assert WaitersOf(rt, d) && ChannelInOrder(rt, d) && WakesKept(rt, d);
      WokenCount(rt, after, rt.cur, d);
    }
  }

  // ---- waking ----

  lemma WakeConserves(rt: Rt, after: Rt, t: U64)
    requires Shape(rt) && Conserved(rt) && PendingShape(rt) && Shape(after) && t < TASKS && rt.state[t] == BLOCKED
    requires after.state == rt.state[t := READY] && after.global == rt.global + [t]
    requires after.cur == rt.cur && after.pend == rt.pend && after.local == rt.local && after.open == rt.open
    requires forall u: U64 :: WaitCount(after, u) == WaitCount(rt, u) - (if u == t then 1 else 0)
    ensures Conserved(after) && PendingShape(after)
  {
    forall u: U64 | u < TASKS
      ensures TaskConserved(after, u) && LoopShape(after, u)
    {
      assert TaskConserved(rt, u) && LoopShape(rt, u);
      PushCount(rt.global, t, u);
    }
  }

  /** What waking the oldest receiver changes: one more woken receiver of the
      channel, and nothing else about who waits and who is woken. */
  lemma WakeReceiverEffect(rt: Rt, c: U64)
    requires Shape(rt) && PendingShape(rt) && Conserved(rt) && WaitersMatch(rt) && c < CHANNELS && rt.recvq[c] != []
    ensures |rt.global| < GLOBAL_CAP
    ensures
      var after := WakeReceiver(rt, c);
      && PendingShape(after) && Conserved(after) && WaitersMatch(after)
      && forall d: U64 :: d < CHANNELS ==>
           && |WokenReceivers(after, d)| == |WokenReceivers(rt, d)| + (if d == c then 1 else 0)
           && |WokenSenders(after, d)| == |WokenSenders(rt, d)|
  {
    var t := rt.recvq[c][0];
    WaiterIsBlocked(rt, c, t);
    GlobalHasRoom(rt, t);
    var after := WakeReceiver(rt, c);
    forall u: U64
      ensures WaitCount(after, u) == WaitCount(rt, u) - (if u == t then 1 else 0)
    {
      RemoveTally(rt.recvq, c, u);
    }
    WakeConserves(rt, after, t);
    assert WaitersOf(rt, c);
    forall d: U64 | d < CHANNELS
      ensures WaitersOf(after, d)
      ensures |WokenReceivers(after, d)| == |WokenReceivers(rt, d)| + (if d == c then 1 else 0)
      ensures |WokenSenders(after, d)| == |WokenSenders(rt, d)|
    {
      assert WaitersOf(rt, d);
      WokenCount(rt, after, t, d);
    }
  }

  lemma WakeSenderEffect(rt: Rt, c: U64)
    requires Shape(rt) && PendingShape(rt) && Conserved(rt) && WaitersMatch(rt) && c < CHANNELS && rt.sendq[c] != []
    ensures |rt.global| < GLOBAL_CAP
    ensures
      var after := WakeSender(rt, c);
      && PendingShape(after) && Conserved(after) && WaitersMatch(after)
      && forall d: U64 :: d < CHANNELS ==>
           && |WokenSenders(after, d)| == |WokenSenders(rt, d)| + (if d == c then 1 else 0)
           && |WokenReceivers(after, d)| == |WokenReceivers(rt, d)|
  {
    var t := rt.sendq[c][0];
    WaiterIsBlocked(rt, c, t);
    GlobalHasRoom(rt, t);
    var after := WakeSender(rt, c);
    forall u: U64
      ensures WaitCount(after, u) == WaitCount(rt, u) - (if u == t then 1 else 0)
    {
      RemoveTally(rt.sendq, c, u);
    }
    WakeConserves(rt, after, t);
    assert WaitersOf(rt, c);
    forall d: U64 | d < CHANNELS
      ensures WaitersOf(after, d)
      ensures |WokenSenders(after, d)| == |WokenSenders(rt, d)| + (if d == c then 1 else 0)
      ensures |WokenReceivers(after, d)| == |WokenReceivers(rt, d)|
    {
      assert WaitersOf(rt, d);
      WokenCount(rt, after, t, d);
    }
  }

  // ---- moving a message ----

  /** Leaving a loop with the rings and the state words as they are. */
  lemma LeavingConserves(rt: Rt, after: Rt)
    requires Inv(rt) && Shape(after)
    requires after.pend == rt.pend[rt.cur := Idle] && after.state == rt.state && after.cur == rt.cur
    requires after.local == rt.local && after.global == rt.global && after.open == rt.open
    requires after.recvq == rt.recvq && after.sendq == rt.sendq
    ensures PendingShape(after) && Conserved(after) && WaitersMatch(after) && CurrentRuns(after)
  {
    CurrentNotWaiting(rt);
    forall u: U64 | u < TASKS
      ensures TaskConserved(after, u) && LoopShape(after, u)
    {
      assert TaskConserved(rt, u) && LoopShape(rt, u);
      assert RunCount(after, u) == RunCount(rt, u) && WaitCount(after, u) == WaitCount(rt, u);
    }
    forall c: U64 | c < CHANNELS
      ensures WaitersOf(after, c)
    {
      assert WaitersOf(rt, c);
    }
  }

  /** A message in the buffer: all is kept but, when receivers wait, that each
      buffered message has a woken receiver. One wake-up is then owed. */
  lemma StoredKeeps(rt: Rt, c: U64, v: U64)
    requires Inv(rt) && MaySend(rt, c, v) && |rt.msgs[c]| < MSG_CAP
    ensures
      var after := Stored(rt, c, v);
      && PendingShape(after) && Conserved(after) && WaitersMatch(after) && InOrder(after) && CurrentRuns(after)
      && (forall d: U64 :: d < CHANNELS && d != c ==> WakesKept(after, d))
      && (rt.recvq[c] != [] ==> |after.msgs[c]| <= |WokenReceivers(after, c)| + 1)
      && (rt.sendq[c] != [] ==> MSG_CAP - |after.msgs[c]| <= |WokenSenders(after, c)|)
  {
    var after := Stored(rt, c, v);
    LeavingConserves(rt, after);
    forall d: U64 | d < CHANNELS
      ensures ChannelInOrder(after, d)
      ensures d != c ==> WakesKept(after, d)
    {
      assert ChannelInOrder(rt, d) && WakesKept(rt, d);
      WokenCount(rt, after, rt.cur, d);
    }
    assert WakesKept(rt, c);
    WokenCount(rt, after, rt.cur, c);
  }

  lemma TakenKeeps(rt: Rt, c: U64)
    requires Inv(rt) && MayReceive(rt, c) && rt.msgs[c] != []
    ensures
      var after := Taken(rt, c);
      && PendingShape(after) && Conserved(after) && WaitersMatch(after) && InOrder(after) && CurrentRuns(after)
      && (forall d: U64 :: d < CHANNELS && d != c ==> WakesKept(after, d))
      && (rt.sendq[c] != [] ==> MSG_CAP - |after.msgs[c]| <= |WokenSenders(after, c)| + 1)
      && (rt.recvq[c] != [] ==> |after.msgs[c]| <= |WokenReceivers(after, c)|)
  {
    var after := Taken(rt, c);
    LeavingConserves(rt, after);
    forall d: U64 | d < CHANNELS
      ensures ChannelInOrder(after, d)
      ensures d != c ==> WakesKept(after, d)
    {
      assert ChannelInOrder(rt, d) && WakesKept(rt, d);
      WokenCount(rt, after, rt.cur, d);
      if d == c {
        assert rt.msgs[c] == [rt.msgs[c][0]] + rt.msgs[c][1..];
        assert after.got[c] + after.msgs[c] == rt.got[c] + rt.msgs[c];
      }
    }
    assert WakesKept(rt, c);
    WokenCount(rt, after, rt.cur, c);
  }

  /** A message that finds nobody waiting. */
  lemma SendDelivers(rt: Rt, c: U64, v: U64)
    requires Inv(rt) && MaySend(rt, c, v) && |rt.msgs[c]| < MSG_CAP && rt.recvq[c] == []
    ensures Inv(Stored(rt, c, v))
  {
    StoredKeeps(rt, c, v);
    assert WakesKept(Stored(rt, c, v), c);
  }

  lemma RecvDelivers(rt: Rt, c: U64)
    requires Inv(rt) && MayReceive(rt, c) && rt.msgs[c] != [] && rt.sendq[c] == []
    ensures Inv(Taken(rt, c))
  {
    TakenKeeps(rt, c);
    assert WakesKept(Taken(rt, c), c);
  }

  /** A message that finds waiting receivers wakes the oldest one. */
  lemma SendWakes(rt: Rt, c: U64, v: U64)
    requires Inv(rt) && MaySend(rt, c, v) && |rt.msgs[c]| < MSG_CAP && rt.recvq[c] != []
    ensures |rt.global| < GLOBAL_CAP
    ensures Inv(WakeReceiver(Stored(rt, c, v), c))
  {
    var stored := Stored(rt, c, v);
    StoredKeeps(rt, c, v);
    WakeReceiverEffect(stored, c);
    WaiterIsBlocked(rt, c, rt.recvq[c][0]);
    var after := WakeReceiver(stored, c);
    forall d: U64 | d < CHANNELS
      ensures ChannelInOrder(after, d) && WakesKept(after, d)
    {
      assert ChannelInOrder(stored, d);
      assert d != c ==> WakesKept(stored, d);
    }
  }

  lemma RecvWakes(rt: Rt, c: U64)
    requires Inv(rt) && MayReceive(rt, c) && rt.msgs[c] != [] && rt.sendq[c] != []
    ensures |rt.global| < GLOBAL_CAP
    ensures Inv(WakeSender(Taken(rt, c), c))
  {
    var taken := Taken(rt, c);
    TakenKeeps(rt, c);
    WakeSenderEffect(taken, c);
    WaiterIsBlocked(rt, c, rt.sendq[c][0]);
    var after := WakeSender(taken, c);
    forall d: U64 | d < CHANNELS
      ensures ChannelInOrder(after, d) && WakesKept(after, d)
    {
      assert ChannelInOrder(taken, d);
      assert d != c ==> WakesKept(taken, d);
    }
  }
}
