/** Safety of whole runs of the scheduler and the channels. */
module SchedulerTheorems {
  import opened Rings
  import opened Scheduler
  import opened SchedulerInvariant
  import opened SchedulerSteps

  // ---- every operation keeps the invariant ----

  lemma BootIsSafe()
    ensures Inv(Boot())
  {
    var rt := Boot();
    forall t: U64 | t < TASKS
      ensures TaskConserved(rt, t) && LoopShape(rt, t)
    {
      EmptyTally(rt.local, t);
      EmptyTally(rt.recvq, t);
      EmptyTally(rt.sendq, t);
    }
  }

  lemma EmptyTally(qs: seq<seq<U64>>, t: U64)
    requires forall i :: 0 <= i < |qs| ==> qs[i] == []
    ensures Tally(qs, t) == 0
  {
    TallyMember(qs, t);
  }

  /** Spawning fails only when every task slot is taken. */
  lemma SpawnKeeps(rt: Rt)
    requires Inv(rt) && rt.pend[rt.cur] == Idle
    ensures
      var (after, o) := DoSpawn(rt);
      if exists t :: 1 <= t < TASKS && rt.state[t] == FREE
      then o.Finished? && Inv(after) && 1 <= o.value < TASKS && rt.state[o.value] == FREE && after.state[o.value] == READY
      else o == Trap(UNREACHABLE)
  {
    var t := FirstFree(rt.state, 1);
    if t < TASKS {
      EnqueueFits(rt, t);
      EnqueueKeeps(rt, t);
    }
  }

  /** A finished operation or a hand-over keeps the invariant; the only trap is
      a deadlock, raised from a state that keeps all of it but the running task. */
  ghost predicate Kept(r: (Rt, Outcome)) {
    match r.1
    case Finished(_) => Inv(r.0)
    case Parked => Inv(r.0)
    case Halt => Core(r.0) && r.0.state[r.0.cur] == DONE && AllRingsEmpty(r.0)
    case Trap(code) =>
      code == UNREACHABLE || (code == DEADLOCK && Core(r.0) && r.0.state[r.0.cur] == BLOCKED && AllRingsEmpty(r.0))
  }

  lemma JoinKeeps(rt: Rt, t: U64)
    requires Inv(rt) && t < TASKS && (rt.pend[rt.cur] == Idle || rt.pend[rt.cur] == Joining(t))
    ensures Kept(TryJoin(rt, t))
    ensures TryJoin(rt, t).1 == (if rt.state[t] == DONE then Finished(0) else Parked)
  {
    assert TaskConserved(rt, t);
    if rt.state[t] == DONE {
      SetLoopKeeps(rt, Idle);
      SetStateKeeps(rt.(pend := rt.pend[rt.cur := Idle]), t, FREE);
    } else {
      SetLoopKeeps(rt, Joining(t));
      SwitchKeeps(rt.(pend := rt.pend[rt.cur := Joining(t)]));
    }
  }

  lemma YieldKeeps(rt: Rt)
    requires Inv(rt) && rt.pend[rt.cur] == Idle
    ensures Kept(DoYield(rt)) && DoYield(rt).1 == Parked
  {
    SetLoopKeeps(rt, Idle);
    SwitchKeeps(rt.(pend := rt.pend[rt.cur := Idle]));
  }

  lemma ExitKeeps(rt: Rt)
    requires Inv(rt) && rt.pend[rt.cur] == Idle
    ensures Kept(DoExit(rt))
    ensures DoExit(rt).1 == (if AllRingsEmpty(rt) then Halt else Parked)
  {
    SetStateKeeps(rt, rt.cur, DONE);
    SwitchKeeps(rt.(state := rt.state[rt.cur := DONE]));
  }

  lemma {:induction false} ScanMissesNothing(open: seq<U64>, c: U64, tries: nat, d: U64)
    requires |open| == CHANNELS && c < CHANNELS && tries <= CHANNELS
    requires FirstClosed(open, c, tries) == CHANNELS
    requires d < CHANNELS && (c <= d < c + tries || d + CHANNELS < c + tries)
    ensures open[d] != 0
    decreases tries
  {
    if c != d {
      ScanMissesNothing(open, NextChan(c), tries - 1, d);
    }
  }

  /** Opening a channel that is not in use: its ring is empty already. */
  lemma OpenKeeps(rt: Rt, c: U64)
    requires Inv(rt) && c < CHANNELS && rt.open[c] == 0
    ensures Inv(rt.(open := rt.open[c := 1], msgs := rt.msgs, nextChan := NextChan(c)))
  {
    var after := rt.(open := rt.open[c := 1], msgs := rt.msgs, nextChan := NextChan(c));
    forall u: U64 | u < TASKS
      ensures TaskConserved(after, u) && LoopShape(after, u)
    {
      assert TaskConserved(rt, u) && LoopShape(rt, u);
      assert RunCount(after, u) == RunCount(rt, u) && WaitCount(after, u) == WaitCount(rt, u);
    }
    forall d: U64 | d < CHANNELS
      ensures WaitersOf(after, d) && ChannelInOrder(after, d) && WakesKept(after, d)
    {
      assert WaitersOf(rt, d) && ChannelInOrder(rt, d) && WakesKept(rt, d);
      WokenCount(rt, after, rt.cur, d);
    }
  }

  /** Making a channel fails only when all sixteen are in use. */
  lemma MakeChanKeeps(rt: Rt)
    requires Inv(rt)
    ensures Kept(DoMakeChan(rt))
    ensures
      var (after, o) := DoMakeChan(rt);
      if exists c: U64 :: c < CHANNELS && rt.open[c] == 0
      then o.Finished? && o.value < CHANNELS && rt.open[o.value] == 0 && after.open == rt.open[o.value := 1] && after.msgs == rt.msgs
      else o == Trap(UNREACHABLE)
  {
    var c := FirstClosed(rt.open, rt.nextChan, CHANNELS);
    if c < CHANNELS {
      assert ChannelInOrder(rt, c);
      assert rt.msgs[c := []] == rt.msgs;
      OpenKeeps(rt, c);
    } else {
      forall d: U64 | d < CHANNELS
        ensures rt.open[d] != 0
      {
        ScanMissesNothing(rt.open, rt.nextChan, CHANNELS, d);
      }
    }
  }

  lemma SendKeeps(rt: Rt, c: U64, v: U64)
    requires Inv(rt) && MaySend(rt, c, v)
    ensures Kept(TrySend(rt, c, v))
    ensures TrySend(rt, c, v).1 == Trap(UNREACHABLE) <==> |rt.msgs[c]| == MSG_CAP && |rt.sendq[c]| == WAIT_CAP
    ensures TrySend(rt, c, v).1.Finished? <==> |rt.msgs[c]| < MSG_CAP
  {
    if |rt.msgs[c]| < MSG_CAP {
      if rt.recvq[c] != [] {
        SendWakes(rt, c, v);
      } else {
        SendDelivers(rt, c, v);
      }
    } else if |rt.sendq[c]| < WAIT_CAP {
      BlockSenderKeeps(rt, c, v);
      SwitchKeeps(BlockedSender(rt, c, v));
    }
  }

  lemma RecvKeeps(rt: Rt, c: U64)
    requires Inv(rt) && MayReceive(rt, c)
    ensures Kept(TryRecv(rt, c))
    ensures TryRecv(rt, c).1 == Trap(UNREACHABLE) <==> rt.msgs[c] == [] && |rt.recvq[c]| == WAIT_CAP
    ensures TryRecv(rt, c).1.Finished? <==> rt.msgs[c] != []
  {
    if rt.msgs[c] != [] {
      if rt.sendq[c] != [] {
        RecvWakes(rt, c);
      } else {
        RecvDelivers(rt, c);
      }
    } else if |rt.recvq[c]| < WAIT_CAP {
      BlockReceiverKeeps(rt, c);
      SwitchKeeps(BlockedReceiver(rt, c));
    }
  }

  lemma StepKeeps(rt: Rt, op: Op)
    requires Inv(rt)
    ensures Kept(Step(rt, op))
  {
    assert LoopShape(rt, rt.cur);
    match rt.pend[rt.cur]
    case Joining(t) => JoinKeeps(rt, t);
    case Sending(c, v) => SendKeeps(rt, c, v);
    case Receiving(c) => RecvKeeps(rt, c);
    case Idle =>
      match op
      case Spawn => SpawnKeeps(rt);
      case Yield => YieldKeeps(rt);
      case Exit => ExitKeeps(rt);
      case Join(t) => if t < TASKS { JoinKeeps(rt, t); }
      case MakeChan => MakeChanKeeps(rt);
      case Send(c, v) => if Live(rt, c) { SendKeeps(rt, c, v); }
      case Recv(c) => if Live(rt, c) { RecvKeeps(rt, c); }
  }

  // ---- runs ----

  ghost predicate Goes(o: Outcome) {
    o.Finished? || o.Parked?
  }

  ghost predicate Follows(rt: Rt, op: Op, next: Rt, o: Outcome) {
    Shape(rt) && PendingShape(rt) && Step(rt, op) == (next, o) && Goes(o)
  }

  /** The tasks do `ops` one after the other and none ends the process: `ss` are
      the states on the way, `os` how the steps ended. */
  ghost predicate IsRun(ss: seq<Rt>, ops: seq<Op>, os: seq<Outcome>) {
    && |ss| == |ops| + 1 == |os| + 1
    && forall i :: 0 <= i < |ops| ==> StepAt(ss, ops, os, i)
  }

  ghost predicate StepAt(ss: seq<Rt>, ops: seq<Op>, os: seq<Outcome>, i: nat)
    requires |ss| == |ops| + 1 == |os| + 1 && i < |ops|
  {
    Follows(ss[i], ops[i], ss[i + 1], os[i])
  }

  lemma FollowingIsSafe(rt: Rt, op: Op, next: Rt, o: Outcome)
    requires Inv(rt) && Follows(rt, op, next, o)
    ensures Inv(next)
  {
    StepKeeps(rt, op);
  }

  lemma {:induction false} RunIsSafe(ss: seq<Rt>, ops: seq<Op>, os: seq<Outcome>, i: nat)
    requires IsRun(ss, ops, os) && Inv(ss[0]) && i < |ss|
    ensures Inv(ss[i])
  {
    if i > 0 {
      assert StepAt(ss, ops, os, i - 1);
      RunIsSafe(ss, ops, os, i - 1);
      FollowingIsSafe(ss[i - 1], ops[i - 1], ss[i], os[i - 1]);
    }
  }

  ghost predicate Reachable(rt: Rt) {
    exists ss, ops, os :: IsRun(ss, ops, os) && ss[0] == Boot() && ss[|ops|] == rt
  }

  lemma ReachableIsSafe(rt: Rt)
    requires Reachable(rt)
    ensures Inv(rt)
  {
    BootIsSafe();
    var ss, ops, os :| IsRun(ss, ops, os) && ss[0] == Boot() && ss[|ops|] == rt;
    RunIsSafe(ss, ops, os, |ops|);
  }

  /** In every reachable state a task is ready iff it is on the run rings, and
      then exactly once; blocked iff it is on the wait rings, and then exactly
      once; and no two tasks run. */
  lemma TasksAreConserved(rt: Rt, t: U64)
    requires Reachable(rt) && t < TASKS
    ensures Shape(rt)
    ensures rt.state[t] == READY <==> RunCount(rt, t) == 1
    ensures rt.state[t] != READY <==> RunCount(rt, t) == 0
    ensures rt.state[t] == BLOCKED <==> WaitCount(rt, t) == 1
    ensures rt.state[t] != BLOCKED <==> WaitCount(rt, t) == 0
    ensures rt.state[t] == RUNNING ==> t == rt.cur
  {
    ReachableIsSafe(rt);
    assert TaskConserved(rt, t);
  }

  /** No run ever reaches a full run ring: the queue-overflow trap is never
      raised, nothing is dropped, and spawning fails only for want of a slot. */
  lemma QueuesNeverOverflow(rt: Rt, op: Op)
    requires Reachable(rt)
    ensures Inv(rt)
    ensures Step(rt, op).1 != Trap(TASK_QUEUE_OVERFLOW)
    ensures |rt.global| < GLOBAL_CAP
    ensures rt.pend[rt.cur] == Idle && op == Spawn ==>
      (Step(rt, op).1 == Trap(UNREACHABLE) <==> forall t :: 1 <= t < TASKS ==> rt.state[t] != FREE)
  {
    ReachableIsSafe(rt);
    StepKeeps(rt, op);
    GlobalHasRoom(rt, rt.cur);
    if rt.pend[rt.cur] == Idle {
      SpawnKeeps(rt);
    }
  }

  /** Messages arrive in the order they were sent, none lost and none twice. */
  lemma ChannelsKeepOrder(rt: Rt, c: U64)
    requires Reachable(rt) && c < CHANNELS
    ensures Shape(rt)
    ensures rt.sent[c] == rt.got[c] + rt.msgs[c]
    ensures |rt.msgs[c]| <= MSG_CAP
  {
    ReachableIsSafe(rt);
    assert ChannelInOrder(rt, c);
  }

  /** While receivers wait there are at most as many messages as receivers that
      have been woken and not come yet, so for a message that is there a task is
      awake that will come for it; and the same for senders and free places. */
  lemma WaitersAreServed(rt: Rt, c: U64)
    requires Reachable(rt) && c < CHANNELS
    ensures Shape(rt)
    ensures rt.recvq[c] != [] ==> |rt.msgs[c]| <= |WokenReceivers(rt, c)|
    ensures rt.sendq[c] != [] ==> MSG_CAP - |rt.msgs[c]| <= |WokenSenders(rt, c)|
    ensures rt.recvq[c] != [] && rt.msgs[c] != [] ==>
      exists t: nat :: t < TASKS && rt.pend[t] == Receiving(c) && (rt.state[t] == READY || t == rt.cur)
    ensures rt.sendq[c] != [] && |rt.msgs[c]| < MSG_CAP ==>
      exists t: nat :: t < TASKS && rt.pend[t].Sending? && rt.pend[t].chan == c && (rt.state[t] == READY || t == rt.cur)
  {
    ReachableIsSafe(rt);
    assert WakesKept(rt, c);
    if rt.recvq[c] != [] && rt.msgs[c] != [] {
      var t: nat :| t in WokenReceivers(rt, c);
      assert TaskConserved(rt, t);
    }
    if rt.sendq[c] != [] && |rt.msgs[c]| < MSG_CAP {
      assert |WokenSenders(rt, c)| > 0;
      var t: nat :| t in WokenSenders(rt, c);
      assert TaskConserved(rt, t);
    }
  }

  /** What a task inside a retry loop is waiting for has not happened. */
  ghost predicate FacesDeadEnd(rt: Rt, t: nat)
    requires Shape(rt) && PendingShape(rt) && t < TASKS
  {
    assert LoopShape(rt, t);
    match rt.pend[t]
    case Receiving(c) => rt.msgs[c] == []
    case Sending(c, _) => |rt.msgs[c]| == MSG_CAP
    case Joining(_) => false
    case Idle => false
  }

  /** With all run rings empty and nobody running, nobody is ready and every
      blocked task faces an empty or a full channel. */
  lemma NobodyCanMove(rt: Rt)
    requires Core(rt) && AllRingsEmpty(rt)
    requires rt.state[rt.cur] == BLOCKED || (rt.state[rt.cur] == DONE && rt.pend[rt.cur] == Idle)
    ensures forall t: nat :: t < TASKS ==> rt.state[t] != READY && rt.state[t] != RUNNING
    ensures forall t: nat :: t < TASKS && rt.state[t] == BLOCKED ==> FacesDeadEnd(rt, t)
  {
    forall t: U64 | t < TASKS
      ensures rt.state[t] != READY && rt.state[t] != RUNNING
      ensures rt.state[t] != BLOCKED ==> rt.pend[t] == Idle
    {
      assert TaskConserved(rt, t);
      TallyMember(rt.local, t);
    }
    forall t: U64 | t < TASKS && rt.state[t] == BLOCKED
      ensures FacesDeadEnd(rt, t)
    {
      assert TaskConserved(rt, t);
      TallyMember(rt.recvq, t);
      TallyMember(rt.sendq, t);
      var c: U64 :| c < CHANNELS && (t in rt.recvq[c] || t in rt.sendq[c]);
      assert WaitersOf(rt, c) && WakesKept(rt, c);
      assert WokenReceivers(rt, c) == {} && WokenSenders(rt, c) == {};
    }
  }

  /** The deadlock trap is raised exactly when the running task blocks and no
      task is ready, and then no task could ever have moved again. */
  lemma DeadlockIsReal(rt: Rt, op: Op)
    requires Reachable(rt)
    ensures Inv(rt)
    ensures Step(rt, op).1 == Trap(DEADLOCK) ==>
      var dead := Step(rt, op).0;
      && Core(dead)
      && (forall t: nat :: t < TASKS ==> dead.state[t] != READY && dead.state[t] != RUNNING)
      && (forall t: nat :: t < TASKS && dead.state[t] == BLOCKED ==> FacesDeadEnd(dead, t))
    ensures Step(rt, op).1 == Trap(DEADLOCK) <==> AllRingsEmpty(rt) && WouldBlock(rt, NextLoop(rt, op))
  {
    ReachableIsSafe(rt);
    StepKeeps(rt, op);
    var (after, o) := Step(rt, op);
    if o == Trap(DEADLOCK) {
      NobodyCanMove(after);
    }
    DeadlockWhen(rt, op);
  }

  /** A turn of the loop finds nothing to do and room to wait. */
  ghost predicate WouldBlock(rt: Rt, p: Pending)
    requires Shape(rt)
  {
    match p
    case Receiving(c) => c < CHANNELS && rt.msgs[c] == [] && |rt.recvq[c]| < WAIT_CAP
    case Sending(c, _) => c < CHANNELS && |rt.msgs[c]| == MSG_CAP && |rt.sendq[c]| < WAIT_CAP
    case Joining(_) => false
    case Idle => false
  }

  lemma BlockingDeadlocks(rt: Rt, p: Pending)
    requires Shape(rt) && rt.state[rt.cur] == BLOCKED
    ensures Park(rt, p).1 == Trap(DEADLOCK) <==> AllRingsEmpty(rt)
  {
  }

  lemma RecvDeadlocks(rt: Rt, c: U64)
    requires Shape(rt) && c < CHANNELS
    ensures TryRecv(rt, c).1 == Trap(DEADLOCK) <==> AllRingsEmpty(rt) && rt.msgs[c] == [] && |rt.recvq[c]| < WAIT_CAP
  {
    if rt.msgs[c] == [] && |rt.recvq[c]| < WAIT_CAP {
      BlockingDeadlocks(AwaitMessage(rt, c), Receiving(c));
    }
  }

  lemma SendDeadlocks(rt: Rt, c: U64, v: U64)
    requires Shape(rt) && c < CHANNELS
    ensures TrySend(rt, c, v).1 == Trap(DEADLOCK) <==> AllRingsEmpty(rt) && |rt.msgs[c]| == MSG_CAP && |rt.sendq[c]| < WAIT_CAP
  {
    if |rt.msgs[c]| == MSG_CAP && |rt.sendq[c]| < WAIT_CAP {
      BlockingDeadlocks(AwaitRoom(rt, c), Sending(c, v));
    }
  }

  lemma OthersNeverDeadlock(rt: Rt, op: Op)
    requires Inv(rt) && rt.pend[rt.cur] == Idle && !op.Send? && !op.Recv?
    ensures Start(rt, op).1 != Trap(DEADLOCK)
  {
    match op
    case Spawn => SpawnKeeps(rt);
    case Yield => YieldKeeps(rt);
    case Exit => ExitKeeps(rt);
    case Join(t) => if t < TASKS { JoinKeeps(rt, t); }
    case MakeChan => MakeChanKeeps(rt);
  }

  /** The channel loop the next step takes a turn of, if any. */
  ghost function NextLoop(rt: Rt, op: Op): (p: Pending)
    requires Shape(rt)
  {
    if rt.pend[rt.cur] != Idle then rt.pend[rt.cur]
    else match op
      case Recv(c) => if Live(rt, c) then Receiving(c) else Idle
      case Send(c, v) => if Live(rt, c) then Sending(c, v) else Idle
      case _ => Idle
  }

  lemma DeadlockWhen(rt: Rt, op: Op)
    requires Inv(rt)
    ensures Step(rt, op).1 == Trap(DEADLOCK) <==> AllRingsEmpty(rt) && WouldBlock(rt, NextLoop(rt, op))
  {
    hide TrySend;
    hide TryRecv;
    hide AllRingsEmpty;
    assert LoopShape(rt, rt.cur);
    match NextLoop(rt, op)
    case Receiving(c) => RecvDeadlocks(rt, c);
    case Sending(c, v) => SendDeadlocks(rt, c, v);
    case Joining(t) => JoinKeeps(rt, t);
    case Idle => if !op.Send? && !op.Recv? { OthersNeverDeadlock(rt, op); }
  }

  /** The last runnable task ends the process quietly, whatever still waits:
      when a task exits and none is ready the exit code is 0, never 25. */
  lemma LastExitHalts(rt: Rt)
    requires Reachable(rt) && Shape(rt) && rt.pend[rt.cur] == Idle
    ensures Inv(rt)
    ensures Step(rt, Exit).1 == Halt <==> AllRingsEmpty(rt)
    ensures Step(rt, Exit).1 == Halt ==>
      var end := Step(rt, Exit).0;
      forall t: nat :: t < TASKS && end.state[t] == BLOCKED ==> PendingShape(end) && FacesDeadEnd(end, t)
  {
    ReachableIsSafe(rt);
    ExitKeeps(rt);
    if Step(rt, Exit).1 == Halt {
      NobodyCanMove(Step(rt, Exit).0);
    }
  }

  // ---- bounded waiting ----

  /** Task `t` is at position `p` of the running worker's ring. */
  ghost predicate QueuedAt(rt: Rt, t: U64, p: nat)
    requires Shape(rt)
  {
    p < |rt.local[rt.worker]| && rt.local[rt.worker][p] == t
  }

  /** A switch brings every task of the running worker's ring one place nearer. */
  lemma SwitchAdvances(rt: Rt, t: U64, p: nat)
    requires Shape(rt) && QueuedAt(rt, t, p)
    ensures Switch(rt).1 == Switched
    ensures if p == 0 then Switch(rt).0.cur == t else QueuedAt(Switch(rt).0, t, p - 1)
  {
  }

  /** What a step does to a task at position `p`. */
  ghost predicate Advances(r: (Rt, Outcome), t: U64, p: nat)
    requires Shape(r.0)
  {
    match r.1
    case Finished(_) => QueuedAt(r.0, t, p)
    case Parked => if p == 0 then r.0.cur == t else QueuedAt(r.0, t, p - 1)
    case Halt => false
    case Trap(code) => code != DEADLOCK
  }

  lemma ParkAdvances(rt: Rt, q: Pending, t: U64, p: nat)
    requires Shape(rt) && QueuedAt(rt, t, p)
    ensures Park(rt, q).1 == Parked && Advances(Park(rt, q), t, p)
  {
    SwitchAdvances(rt.(pend := rt.pend[rt.cur := q]), t, p);
  }

  lemma SendAdvances(rt: Rt, c: U64, v: U64, t: U64, p: nat)
    requires Shape(rt) && c < CHANNELS && QueuedAt(rt, t, p)
    ensures Advances(TrySend(rt, c, v), t, p)
  {
    if |rt.msgs[c]| == MSG_CAP && |rt.sendq[c]| < WAIT_CAP {
      ParkAdvances(AwaitRoom(rt, c), Sending(c, v), t, p);
    }
  }

  lemma RecvAdvances(rt: Rt, c: U64, t: U64, p: nat)
    requires Shape(rt) && c < CHANNELS && QueuedAt(rt, t, p)
    ensures Advances(TryRecv(rt, c), t, p)
  {
    if rt.msgs[c] == [] && |rt.recvq[c]| < WAIT_CAP {
      ParkAdvances(AwaitMessage(rt, c), Receiving(c), t, p);
    }
  }

  lemma StartAdvances(rt: Rt, op: Op, t: U64, p: nat)
    requires Shape(rt) && QueuedAt(rt, t, p)
    ensures Advances(Start(rt, op), t, p)
  {
    match op
    case Send(c, v) => if Live(rt, c) { SendAdvances(rt, c, v, t, p); }
    case Recv(c) => if Live(rt, c) { RecvAdvances(rt, c, t, p); }
    case Join(u) => ParkAdvances(rt, Joining(u), t, p);
    case Yield => ParkAdvances(rt, Idle, t, p);
    case Exit => SwitchAdvances(rt.(state := rt.state[rt.cur := DONE]), t, p);
    case Spawn =>
    case MakeChan =>
  }

  lemma StepAdvances(rt: Rt, op: Op, t: U64, p: nat)
    requires Shape(rt) && PendingShape(rt) && QueuedAt(rt, t, p)
    ensures Advances(Step(rt, op), t, p)
  {
    assert LoopShape(rt, rt.cur);
    match rt.pend[rt.cur]
    case Joining(u) => ParkAdvances(rt, Joining(u), t, p);
    case Sending(c, v) => SendAdvances(rt, c, v, t, p);
    case Receiving(c) => RecvAdvances(rt, c, t, p);
    case Idle => StartAdvances(rt, op, t, p);
  }

  lemma FollowingAdvances(rt: Rt, op: Op, next: Rt, o: Outcome, t: U64, p: nat)
    requires Inv(rt) && Follows(rt, op, next, o) && QueuedAt(rt, t, p)
    ensures Inv(next) && Shape(next) && Advances((next, o), t, p)
  {
    StepAdvances(rt, op, t, p);
    StepKeeps(rt, op);
  }

  /** How many of the steps gave up the processor. */
  ghost function Switches(os: seq<Outcome>): (n: nat) {
    if os == [] then 0 else Switches(os[..|os| - 1]) + (if os[|os| - 1].Parked? then 1 else 0)
  }

  lemma OneMoreSwitch(os: seq<Outcome>, k: nat)
    requires 0 < k <= |os|
    ensures Switches(os[..k]) == Switches(os[..k - 1]) + (if os[k - 1].Parked? then 1 else 0)
  {
    assert os[..k][..k - 1] == os[..k - 1];
  }

  lemma NoSwitches(os: seq<Outcome>)
    ensures Switches(os[..0]) == 0
  {
  }

  /** A task at position `p` of the running worker's ring waits for exactly
      `p + 1` switches: before that it is still queued, that much nearer, and
      the step that makes the switch number `p + 1` makes it the running task. */
  lemma {:induction false} BoundedWaiting(ss: seq<Rt>, ops: seq<Op>, os: seq<Outcome>, k: nat, t: U64, p: nat)
    requires IsRun(ss, ops, os) && Inv(ss[0]) && QueuedAt(ss[0], t, p)
    requires k <= |ops| && Switches(os[..k]) <= p
    ensures Inv(ss[k]) && QueuedAt(ss[k], t, p - Switches(os[..k]))
    ensures k < |ops| && Switches(os[..k]) == p && os[k].Parked? ==> ss[k + 1].cur == t
  {
    hide Step;
    hide Core;
    hide Switches;
    if k > 0 {
      OneMoreSwitch(os, k);
      BoundedWaiting(ss, ops, os, k - 1, t, p);
      assert StepAt(ss, ops, os, k - 1);
      FollowingAdvances(ss[k - 1], ops[k - 1], ss[k], os[k - 1], t, p - Switches(os[..k - 1]));
    } else {
      NoSwitches(os);
    }
    if k < |ops| {
      assert StepAt(ss, ops, os, k);
      FollowingAdvances(ss[k], ops[k], ss[k + 1], os[k], t, p - Switches(os[..k]));
    }
  }
}
