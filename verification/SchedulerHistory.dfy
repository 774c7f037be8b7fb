/** The scheduler and the channels from outside: what the tasks asked for, what they
    were answered, and who ran. The states only say which task is running; what the
    runtime keeps in its tables is proved to be what this history says. */
module SchedulerHistory {
  import opened Rings
  import opened Scheduler
  import opened SchedulerInvariant
  import opened SchedulerSteps
  import opened SchedulerTheorems

  // ---- what a task is doing ----

  datatype Last = Never | At(step: nat)

  /** The last step before step `i` that task `t` took. */
  ghost function LastBy(ss: seq<Rt>, i: nat, t: U64): (l: Last)
    requires i <= |ss|
    ensures l.At? ==> l.step < i && ss[l.step].cur == t
  {
    if i == 0 then Never else if ss[i - 1].cur == t then At(i - 1) else LastBy(ss, i - 1, t)
  }

  predicate IsLoop(op: Op) {
    op.Join? || op.Send? || op.Recv?
  }

  ghost predicate Lengths(ss: seq<Rt>, ops: seq<Op>, os: seq<Outcome>) {
    |ss| == |ops| + 1 == |os| + 1
  }

  /** The operation step `i` works on: the one its task gave up the processor in,
      if that was one of those that go round until they are done, else a new one. */
  ghost function Doing(ss: seq<Rt>, ops: seq<Op>, os: seq<Outcome>, i: nat): Op
    requires Lengths(ss, ops, os) && i < |ops|
    decreases i
  {
    match LastBy(ss, i, ss[i].cur)
    case Never => ops[i]
    case At(j) => if os[j].Parked? && IsLoop(Doing(ss, ops, os, j)) then Doing(ss, ops, os, j) else ops[i]
  }

  function LoopOf(op: Op): Pending {
    match op
    case Join(t) => Joining(t)
    case Send(c, v) => Sending(c, v)
    case Recv(c) => Receiving(c)
    case _ => Idle
  }

  function OpOf(p: Pending): Op {
    match p
    case Joining(t) => Join(t)
    case Sending(c, v) => Send(c, v)
    case Receiving(c) => Recv(c)
    case Idle => Yield
  }

  /** The operation a step of the running task works on, by the runtime's tables. */
  ghost function Asked(rt: Rt, op: Op): Op
    requires Shape(rt)
  {
    if rt.pend[rt.cur] == Idle then op else OpOf(rt.pend[rt.cur])
  }

  lemma SwitchFrame(rt: Rt)
    requires Shape(rt)
    ensures Switch(rt).0.pend == rt.pend && Switch(rt).0.got == rt.got && Switch(rt).0.sent == rt.sent && Switch(rt).0.open == rt.open
    ensures Switch(rt).0.recvq == rt.recvq && Switch(rt).0.sendq == rt.sendq && Switch(rt).0.msgs == rt.msgs
  {
  }

  /** A step is one turn of that operation. */
  lemma StepIsStart(rt: Rt, op: Op)
    requires Shape(rt) && PendingShape(rt)
    ensures Step(rt, op) == Start(rt, Asked(rt, op))
  {
    hide TryJoin;
    hide TrySend;
    hide TryRecv;
    assert LoopShape(rt, rt.cur);
  }

  /** What one turn of a receive does to loops and records. */
  lemma RecvTurn(rt: Rt, c: U64)
    requires Shape(rt) && c < CHANNELS && Goes(TryRecv(rt, c).1)
    ensures
      var (after, o) := TryRecv(rt, c);
      && after.pend == rt.pend[rt.cur := if o.Parked? then Receiving(c) else Idle] && after.sent == rt.sent
      && (o.Parked? ==> after.got == rt.got)
      && (o.Finished? ==> after.got == rt.got[c := rt.got[c] + [o.value]])
  {
    hide Switch;
    if rt.msgs[c] == [] && |rt.recvq[c]| < WAIT_CAP {
      SwitchFrame(BlockedReceiver(rt, c));
    }
  }

  lemma SendTurn(rt: Rt, c: U64, v: U64)
    requires Shape(rt) && c < CHANNELS && Goes(TrySend(rt, c, v).1)
    ensures
      var (after, o) := TrySend(rt, c, v);
      && after.pend == rt.pend[rt.cur := if o.Parked? then Sending(c, v) else Idle] && after.got == rt.got
      && (o.Parked? ==> after.sent == rt.sent)
      && (o.Finished? ==> after.sent == rt.sent[c := rt.sent[c] + [v]])
  {
    hide Switch;
    if |rt.msgs[c]| == MSG_CAP && |rt.sendq[c]| < WAIT_CAP {
      SwitchFrame(BlockedSender(rt, c, v));
    }
  }

  /** The other operations touch no channel's record. */
  lemma OtherTurn(rt: Rt, op: Op)
    requires Shape(rt) && Goes(Start(rt, op).1) && !op.Send? && !op.Recv? && !op.Join?
    ensures
      var (after, o) := Start(rt, op);
      after.got == rt.got && after.sent == rt.sent &&
      (if o.Parked? && !op.Exit? then after.pend == rt.pend[rt.cur := LoopOf(op)]
       else after.pend == rt.pend || after.pend == rt.pend[rt.cur := Idle])
  {
    hide Switch;
    match op
    case Exit => SwitchFrame(rt.(state := rt.state[rt.cur := DONE]));
    case Yield => SwitchFrame(rt.(pend := rt.pend[rt.cur := Idle]));
    case _ =>
  }

  /** A step leaves the loop of the running task as its operation says, and those of
      the others. */
  lemma StepPend(rt: Rt, op: Op, t: U64)
    requires Shape(rt) && PendingShape(rt) && Goes(Step(rt, op).1) && t < TASKS
    ensures
      var (after, o) := Step(rt, op);
      after.pend[t] == if t != rt.cur then rt.pend[t] else if o.Parked? then LoopOf(Asked(rt, op)) else Idle
  {
    hide TryRecv;
    hide TrySend;
    hide TryJoin;
    hide Step;
    StepIsStart(rt, op);
    match Asked(rt, op)
    case Recv(c) => RecvTurn(rt, c);
    case Send(c, v) => SendTurn(rt, c, v);
    case Join(u) => JoinTurn(rt, u);
    case other => OtherTurn(rt, other);
  }

  lemma JoinTurn(rt: Rt, t: U64)
    requires Shape(rt) && t < TASKS && Goes(TryJoin(rt, t).1)
    ensures
      var (after, o) := TryJoin(rt, t);
      && after.pend == rt.pend[rt.cur := if o.Parked? then Joining(t) else Idle] && after.got == rt.got && after.sent == rt.sent
  {
    hide Switch;
    SwitchFrame(rt.(pend := rt.pend[rt.cur := Joining(t)]));
  }

  /** What the history says about the loop task `t` is inside of. */
  ghost function Expected(ss: seq<Rt>, ops: seq<Op>, os: seq<Outcome>, i: nat, t: U64): Pending
    requires Lengths(ss, ops, os) && i <= |ops|
  {
    match LastBy(ss, i, t)
    case Never => Idle
    case At(j) => if os[j].Parked? then LoopOf(Doing(ss, ops, os, j)) else Idle
  }

  lemma AskedIsDoing(ss: seq<Rt>, ops: seq<Op>, os: seq<Outcome>, i: nat)
    requires Lengths(ss, ops, os) && i < |ops| && Shape(ss[i])
    requires ss[i].pend[ss[i].cur] == Expected(ss, ops, os, i, ss[i].cur)
    ensures Asked(ss[i], ops[i]) == Doing(ss, ops, os, i)
  {
  }

  /** Along a run from the start every task is inside the loop that its history says,
      and every step works on the operation that the history says. */
  lemma {:induction false} LoopsAreRemembered(ss: seq<Rt>, ops: seq<Op>, os: seq<Outcome>, i: nat, t: U64)
    requires IsRun(ss, ops, os) && ss[0] == Boot() && i <= |ops| && t < TASKS
    ensures Shape(ss[i]) && ss[i].pend[t] == Expected(ss, ops, os, i, t)
    ensures i < |ops| ==> Asked(ss[i], ops[i]) == Doing(ss, ops, os, i)
    decreases i, 1
  {
    hide Step;
    LoopIsRemembered(ss, ops, os, i, t);
    if i < |ops| {
      LoopIsRemembered(ss, ops, os, i, ss[i].cur);
      AskedIsDoing(ss, ops, os, i);
    }
  }

  lemma {:induction false} LoopIsRemembered(ss: seq<Rt>, ops: seq<Op>, os: seq<Outcome>, i: nat, t: U64)
    requires IsRun(ss, ops, os) && ss[0] == Boot() && i <= |ops| && t < TASKS
    ensures Shape(ss[i]) && ss[i].pend[t] == Expected(ss, ops, os, i, t) && (i < |ops| ==> Shape(ss[i]))
    decreases i, 0
  {
    hide Step;
    if i > 0 {
      assert StepAt(ss, ops, os, i - 1);
      LoopsAreRemembered(ss, ops, os, i - 1, t);
      StepPend(ss[i - 1], ops[i - 1], t);
    }
  }

  // ---- messages ----

  /** What the receives on `c` that finished in the first `k` steps were answered. */
  ghost function Answers(ss: seq<Rt>, ops: seq<Op>, os: seq<Outcome>, c: U64, k: nat): seq<U64>
    requires Lengths(ss, ops, os) && k <= |ops|
  {
    if k == 0 then []
    else Answers(ss, ops, os, c, k - 1) + (if os[k - 1].Finished? && Doing(ss, ops, os, k - 1) == Recv(c) then [os[k - 1].value] else [])
  }

  /** The values of the sends on `c` that finished in the first `k` steps. */
  ghost function Gifts(ss: seq<Rt>, ops: seq<Op>, os: seq<Outcome>, c: U64, k: nat): seq<U64>
    requires Lengths(ss, ops, os) && k <= |ops|
  {
    if k == 0 then []
    else
      var d := Doing(ss, ops, os, k - 1);
      Gifts(ss, ops, os, c, k - 1) + (if os[k - 1].Finished? && d.Send? && d.chan == c then [d.value] else [])
  }

  /** What one step gives to a channel and gets from it. */
  lemma StepChannel(rt: Rt, op: Op, c: U64)
    requires Shape(rt) && PendingShape(rt) && Goes(Step(rt, op).1) && c < CHANNELS
    ensures
      var (after, o) := Step(rt, op);
      var d := Asked(rt, op);
      && after.got[c] == rt.got[c] + (if o.Finished? && d == Recv(c) then [o.value] else [])
      && after.sent[c] == rt.sent[c] + (if o.Finished? && d.Send? && d.chan == c then [d.value] else [])
  {
    hide TryRecv;
    hide TrySend;
    hide TryJoin;
    hide Step;
    StepIsStart(rt, op);
    match Asked(rt, op)
    case Recv(e) => RecvTurn(rt, e);
    case Send(e, v) => SendTurn(rt, e, v);
    case Join(u) => JoinTurn(rt, u);
    case other => OtherTurn(rt, other);
  }

  /** The record of a channel is what tasks gave it and were answered. */
  lemma {:induction false} RecordsAreHistory(ss: seq<Rt>, ops: seq<Op>, os: seq<Outcome>, c: U64, k: nat)
    requires IsRun(ss, ops, os) && ss[0] == Boot() && k <= |ops| && c < CHANNELS
    ensures Shape(ss[k]) && ss[k].got[c] == Answers(ss, ops, os, c, k) && ss[k].sent[c] == Gifts(ss, ops, os, c, k)
  {
    hide Step;
    if k > 0 {
      assert StepAt(ss, ops, os, k - 1);
      RecordsAreHistory(ss, ops, os, c, k - 1);
      LoopsAreRemembered(ss, ops, os, k - 1, 0);
      StepChannel(ss[k - 1], ops[k - 1], c);
    }
  }

  /** Over every run: the values of the finished sends on a channel are, in order,
      those its finished receives were answered and then those still in its buffer. */
  lemma MessagesArrive(ss: seq<Rt>, ops: seq<Op>, os: seq<Outcome>, c: U64, k: nat)
    requires IsRun(ss, ops, os) && ss[0] == Boot() && k <= |ops| && c < CHANNELS
    ensures Shape(ss[k]) && Gifts(ss, ops, os, c, k) == Answers(ss, ops, os, c, k) + ss[k].msgs[c]
    ensures |Gifts(ss, ops, os, c, k)| - |Answers(ss, ops, os, c, k)| <= MSG_CAP
  {
    BootIsSafe();
    RunIsSafe(ss, ops, os, k);
    RecordsAreHistory(ss, ops, os, c, k);
    assert ChannelInOrder(ss[k], c);
  }

  // ---- tasks come and go ----

  predicate Alive(word: U64) {
    word != FREE && word != DONE
  }

  /** Two states of a slot that a switch does not tell apart. */
  predicate SameLife(a: U64, b: U64) {
    (a == FREE <==> b == FREE) && (a == DONE <==> b == DONE)
  }

  /** A switch neither ends nor begins a task: only the running one, which may have
      the start-up word 0, becomes ready. */
  lemma SwitchLife(rt: Rt, t: U64)
    requires Core(rt) && t < TASKS
    requires CurrentRuns(rt) || rt.state[rt.cur] == BLOCKED || (rt.state[rt.cur] == DONE && rt.pend[rt.cur] == Idle)
    ensures t != rt.cur || !CurrentRuns(rt) ==> SameLife(Switch(rt).0.state[t], rt.state[t])
    ensures t == rt.cur && CurrentRuns(rt) ==> Alive(Switch(rt).0.state[t])
  {
    if CurrentRuns(rt) {
      EnqueueKeeps(rt, rt.cur);
    }
    var queued := Requeue(rt);
    var c := Pick(queued);
    if c != Nobody {
      ChosenIsReady(queued, c);
    }
  }

  /** Whether slot `t` is in use after a step of `d`, answered by `o`. */
  ghost predicate InUseAfter(rt: Rt, d: Op, o: Outcome, t: U64)
    requires Shape(rt) && t < TASKS
  {
    if d == Spawn && o == Finished(t) then true
    else if d == Join(t) && o.Finished? then false
    else rt.state[t] != FREE
  }

  ghost predicate GoneAfter(rt: Rt, d: Op, o: Outcome, t: U64)
    requires Shape(rt) && t < TASKS
  {
    if d == Exit && t == rt.cur then true
    else if d == Join(t) && o.Finished? then false
    else rt.state[t] == DONE
  }

  /** What a step may do to a slot: use it, give it back, or mark its task as gone.
      Slot 0, which starts out with the word 0, is never spawned into. */
  ghost predicate SlotStep(rt: Rt, d: Op, after: Rt, o: Outcome, t: U64)
    requires Shape(rt) && Shape(after) && t < TASKS
  {
    && (after.state[t] == DONE <==> GoneAfter(rt, d, o, t))
    && (t != 0 ==> (after.state[t] != FREE <==> InUseAfter(rt, d, o, t)))
    && (d == Spawn && o == Finished(t) ==> t != 0 && rt.state[t] == FREE)
    && (d == Join(t) && o.Finished? ==> rt.state[t] == DONE)
  }

  lemma RecvSlots(rt: Rt, c: U64, t: U64)
    requires Inv(rt) && MayReceive(rt, c) && Goes(TryRecv(rt, c).1) && t < TASKS
    ensures SlotStep(rt, Recv(c), TryRecv(rt, c).0, TryRecv(rt, c).1, t)
  {
    hide Switch;
    assert CurrentRuns(rt);
    if rt.msgs[c] == [] && |rt.recvq[c]| < WAIT_CAP {
      BlockReceiverKeeps(rt, c);
      SwitchLife(BlockedReceiver(rt, c), t);
      CurrentIsAlive(rt, rt.cur);
    } else if rt.msgs[c] != [] && rt.sendq[c] != [] {
      assert rt.sendq[c][0] in rt.sendq[c] && rt.sendq[c][0] < TASKS;
      WaiterIsBlocked(rt, c, rt.sendq[c][0]);
    }
  }

  lemma SendSlots(rt: Rt, c: U64, v: U64, t: U64)
    requires Inv(rt) && MaySend(rt, c, v) && Goes(TrySend(rt, c, v).1) && t < TASKS
    ensures SlotStep(rt, Send(c, v), TrySend(rt, c, v).0, TrySend(rt, c, v).1, t)
  {
    hide Switch;
    assert CurrentRuns(rt);
    if |rt.msgs[c]| == MSG_CAP && |rt.sendq[c]| < WAIT_CAP {
      BlockSenderKeeps(rt, c, v);
      SwitchLife(BlockedSender(rt, c, v), t);
      CurrentIsAlive(rt, rt.cur);
    } else if |rt.msgs[c]| < MSG_CAP && rt.recvq[c] != [] {
      assert rt.recvq[c][0] in rt.recvq[c] && rt.recvq[c][0] < TASKS;
      WaiterIsBlocked(rt, c, rt.recvq[c][0]);
    }
  }

  /** The running task's slot is in use, unless it is the first one. */
  lemma CurrentIsAlive(rt: Rt, t: U64)
    requires Inv(rt) && t < TASKS && t == rt.cur
    ensures rt.state[t] != DONE && (t != 0 ==> rt.state[t] != FREE)
  {
  }

  lemma JoinSlots(rt: Rt, u: U64, t: U64)
    requires Inv(rt) && u < TASKS && (rt.pend[rt.cur] == Idle || rt.pend[rt.cur] == Joining(u)) && t < TASKS
    ensures SlotStep(rt, Join(u), TryJoin(rt, u).0, TryJoin(rt, u).1, t)
  {
    hide Switch;
    if rt.state[u] != DONE {
      SetLoopKeeps(rt, Joining(u));
      SwitchLife(rt.(pend := rt.pend[rt.cur := Joining(u)]), t);
      if t == rt.cur {
        CurrentIsAlive(rt, t);
      }
    }
  }

  lemma YieldSlots(rt: Rt, t: U64)
    requires Inv(rt) && rt.pend[rt.cur] == Idle && t < TASKS
    ensures SlotStep(rt, Yield, DoYield(rt).0, DoYield(rt).1, t)
  {
    hide Switch;
    SetLoopKeeps(rt, Idle);
    SwitchLife(rt.(pend := rt.pend[rt.cur := Idle]), t);
    if t == rt.cur {
      CurrentIsAlive(rt, t);
    }
  }

  lemma ExitSlots(rt: Rt, t: U64)
    requires Inv(rt) && rt.pend[rt.cur] == Idle && t < TASKS
    ensures SlotStep(rt, Exit, DoExit(rt).0, DoExit(rt).1, t)
  {
    hide Switch;
    SetStateKeeps(rt, rt.cur, DONE);
    SwitchLife(rt.(state := rt.state[rt.cur := DONE]), t);
    if t == rt.cur {
      CurrentIsAlive(rt, t);
    }
  }

  lemma SpawnSlots(rt: Rt, t: U64)
    requires Inv(rt) && Goes(DoSpawn(rt).1) && t < TASKS
    ensures SlotStep(rt, Spawn, DoSpawn(rt).0, DoSpawn(rt).1, t)
  {
  }

  lemma StepSlots(rt: Rt, op: Op, t: U64)
    requires Inv(rt) && Goes(Step(rt, op).1) && t < TASKS
    ensures SlotStep(rt, Asked(rt, op), Step(rt, op).0, Step(rt, op).1, t)
  {
    hide TryRecv;
    hide TrySend;
    hide TryJoin;
    hide SlotStep;
    hide DoSpawn;
    hide DoYield;
    hide DoExit;
    hide Step;
    StepIsStart(rt, op);
    assert LoopShape(rt, rt.cur);
    match Asked(rt, op)
    case Recv(c) => RecvSlots(rt, c, t);
    case Send(c, v) => SendSlots(rt, c, v, t);
    case Join(u) => JoinSlots(rt, u, t);
    case Spawn => SpawnSlots(rt, t);
    case Yield => YieldSlots(rt, t);
    case Exit => ExitSlots(rt, t);
    case MakeChan => MakeChanSlots(rt, t);
  }

  lemma MakeChanSlots(rt: Rt, t: U64)
    requires Shape(rt) && t < TASKS
    ensures SlotStep(rt, MakeChan, DoMakeChan(rt).0, DoMakeChan(rt).1, t)
  {
  }

  /** Task `t` has exited and has not been joined since, by the first `k` steps. */
  ghost predicate Gone(ss: seq<Rt>, ops: seq<Op>, os: seq<Outcome>, t: U64, k: nat)
    requires Lengths(ss, ops, os) && k <= |ops|
  {
    k > 0 &&
    (var d := Doing(ss, ops, os, k - 1);
     if d == Exit && ss[k - 1].cur == t then true
     else if d == Join(t) && os[k - 1].Finished? then false
     else Gone(ss, ops, os, t, k - 1))
  }

  /** A slot is marked as done exactly while its task has exited and nobody has joined
      it; so a join finishes exactly then, and gives the slot back. */
  lemma {:induction false} DoneIsGone(ss: seq<Rt>, ops: seq<Op>, os: seq<Outcome>, t: U64, k: nat)
    requires IsRun(ss, ops, os) && ss[0] == Boot() && k <= |ops| && t < TASKS
    ensures Inv(ss[k]) && (ss[k].state[t] == DONE <==> Gone(ss, ops, os, t, k))
  {
    hide Step;
    hide Inv;
    BootIsSafe();
    RunIsSafe(ss, ops, os, k);
    InvShape(ss[k]);
    if k > 0 {
      assert StepAt(ss, ops, os, k - 1);
      DoneIsGone(ss, ops, os, t, k - 1);
      LoopsAreRemembered(ss, ops, os, k - 1, t);
      StepSlots(ss[k - 1], ops[k - 1], t);
    }
  }

  lemma InvShape(rt: Rt)
    requires Inv(rt)
    ensures Shape(rt) && PendingShape(rt)
  {
  }

  /** A join in a run finishes if and only if its task has exited and has not been
      joined since; it then gives back exactly that slot. */
  lemma JoinsFinishExactly(ss: seq<Rt>, ops: seq<Op>, os: seq<Outcome>, k: nat)
    requires IsRun(ss, ops, os) && ss[0] == Boot() && k < |ops| && Doing(ss, ops, os, k).Join?
    ensures Inv(ss[k]) && Inv(ss[k + 1])
    ensures
      var t := Doing(ss, ops, os, k).task;
      && t < TASKS && (os[k].Finished? <==> Gone(ss, ops, os, t, k))
      && (os[k].Finished? ==> ss[k + 1].state == ss[k].state[t := FREE] && ss[k + 1].cur == ss[k].cur)
  {
    hide Step;
    hide Inv;
    var t := Doing(ss, ops, os, k).task;
    assert StepAt(ss, ops, os, k);
    LoopsAreRemembered(ss, ops, os, k, 0);
    BootIsSafe();
    RunIsSafe(ss, ops, os, k);
    RunIsSafe(ss, ops, os, k + 1);
    InvShape(ss[k]);
    StepIsStart(ss[k], ops[k]);
    DoneIsGone(ss, ops, os, t, k);
    JoinAnswer(ss[k], t);
  }

  lemma JoinAnswer(rt: Rt, t: U64)
    requires Inv(rt) && (t < TASKS ==> rt.pend[rt.cur] == Idle || rt.pend[rt.cur] == Joining(t)) && Goes(Start(rt, Join(t)).1)
    ensures t < TASKS && (Start(rt, Join(t)).1.Finished? <==> rt.state[t] == DONE)
    ensures rt.state[t] == DONE ==> Start(rt, Join(t)).0.state == rt.state[t := FREE] && Start(rt, Join(t)).0.cur == rt.cur
  {
    if t < TASKS {
      JoinKeeps(rt, t);
    }
  }

  // ---- no program that joins runs out of slots ----

  /** The slots in use besides the first one. */
  ghost function InUse(rt: Rt): set<U64>
    requires Shape(rt)
  {
    set t | t in IdsBelow(TASKS) && t != 0 && rt.state[t] != FREE
  }

  ghost function Spawns(ss: seq<Rt>, ops: seq<Op>, os: seq<Outcome>, k: nat): nat
    requires Lengths(ss, ops, os) && k <= |ops|
  {
    if k == 0 then 0 else Spawns(ss, ops, os, k - 1) + (if Doing(ss, ops, os, k - 1) == Spawn && os[k - 1].Finished? then 1 else 0)
  }

  /** Finished joins of other tasks than the first. */
  ghost function Joins(ss: seq<Rt>, ops: seq<Op>, os: seq<Outcome>, k: nat): nat
    requires Lengths(ss, ops, os) && k <= |ops|
  {
    if k == 0 then 0
    else
      var d := Doing(ss, ops, os, k - 1);
      Joins(ss, ops, os, k - 1) + (if d.Join? && d.task != 0 && os[k - 1].Finished? then 1 else 0)
  }

  lemma StepInUse(rt: Rt, op: Op)
    requires Inv(rt) && Goes(Step(rt, op).1)
    ensures
      var (after, o) := Step(rt, op);
      var d := Asked(rt, op);
      |InUse(after)| == |InUse(rt)| + (if d == Spawn && o.Finished? then 1 else 0) - (if d.Join? && d.task != 0 && o.Finished? then 1 else 0)
  {
    hide IdsBelow;
    hide Step;
    hide Inv;
    hide SlotStep;
    InvShape(rt);
    var (after, o) := Step(rt, op);
    var d := Asked(rt, op);
    forall t: U64 | t < TASKS ensures SlotStep(rt, d, after, o, t) {
      StepSlots(rt, op, t);
    }
    UsedSets(rt, d, after, o, op);
  }

  lemma UsedSets(rt: Rt, d: Op, after: Rt, o: Outcome, op: Op)
    requires Shape(rt) && PendingShape(rt) && Step(rt, op) == (after, o) && Goes(o) && d == Asked(rt, op)
    requires forall t: U64 :: t < TASKS ==> SlotStep(rt, d, after, o, t)
    ensures |InUse(after)| == |InUse(rt)| + (if d == Spawn && o.Finished? then 1 else 0) - (if d.Join? && d.task != 0 && o.Finished? then 1 else 0)
  {
    hide IdsBelow;
    hide Step;
    StepIsStart(rt, op);
    if d == Spawn && o.Finished? {
      SpawnedSlot(rt);
      assert SlotStep(rt, d, after, o, o.value);
      forall t: U64 | 1 <= t < TASKS ensures after.state[t] != FREE <==> rt.state[t] != FREE || t == o.value {
        assert SlotStep(rt, d, after, o, t);
      }
      UseGrows(rt, after, o.value);
    } else if d.Join? && o.Finished? {
      JoinedSlot(rt, d.task);
      assert SlotStep(rt, d, after, o, d.task);
      forall t: U64 | 1 <= t < TASKS ensures after.state[t] != FREE <==> rt.state[t] != FREE && t != d.task {
        assert SlotStep(rt, d, after, o, t);
      }
      UseShrinks(rt, after, d.task);
    } else {
      forall t: U64 | 1 <= t < TASKS ensures after.state[t] != FREE <==> rt.state[t] != FREE {
        assert SlotStep(rt, d, after, o, t);
      }
      assert InUse(after) == InUse(rt);
    }
  }

  lemma UseGrows(rt: Rt, after: Rt, v: U64)
    requires Shape(rt) && Shape(after) && 1 <= v < TASKS && rt.state[v] == FREE
    requires forall t: U64 :: 1 <= t < TASKS ==> (after.state[t] != FREE <==> rt.state[t] != FREE || t == v)
    ensures |InUse(after)| == |InUse(rt)| + 1
  {
    hide IdsBelow;
    assert InUse(after) == InUse(rt) + {v};
  }

  lemma UseShrinks(rt: Rt, after: Rt, v: U64)
    requires Shape(rt) && Shape(after) && v < TASKS && rt.state[v] != FREE
    requires forall t: U64 :: 1 <= t < TASKS ==> (after.state[t] != FREE <==> rt.state[t] != FREE && t != v)
    ensures |InUse(after)| == |InUse(rt)| - (if v == 0 then 0 else 1)
  {
    hide IdsBelow;
    assert InUse(after) == InUse(rt) - {v};
  }

  lemma SpawnedSlot(rt: Rt)
    requires Shape(rt) && Start(rt, Spawn).1.Finished?
    ensures Start(rt, Spawn).1.value < TASKS
  {
  }

  lemma JoinedSlot(rt: Rt, t: U64)
    requires Shape(rt) && Start(rt, Join(t)).1.Finished?
    ensures t < TASKS
  {
  }

  /** The slots in use are those spawned and not joined. */
  lemma {:induction false} SlotsAreConserved(ss: seq<Rt>, ops: seq<Op>, os: seq<Outcome>, k: nat)
    requires IsRun(ss, ops, os) && ss[0] == Boot() && k <= |ops|
    ensures Inv(ss[k]) && |InUse(ss[k])| + Joins(ss, ops, os, k) == Spawns(ss, ops, os, k)
  {
    hide IdsBelow;
    hide Step;
    hide Inv;
    BootIsSafe();
    RunIsSafe(ss, ops, os, k);
    InvShape(ss[k]);
    if k > 0 {
      assert StepAt(ss, ops, os, k - 1);
      SlotsAreConserved(ss, ops, os, k - 1);
      LoopsAreRemembered(ss, ops, os, k - 1, 0);
      StepInUse(ss[k - 1], ops[k - 1]);
    } else {
      assert InUse(ss[0]) == {};
    }
  }

  /** A spawn fails if and only if fifteen tasks are spawned and not joined: a program
      that joins what it spawns never runs out of slots. */
  lemma SpawnFailsExactly(ss: seq<Rt>, ops: seq<Op>, os: seq<Outcome>, k: nat)
    requires IsRun(ss, ops, os) && ss[0] == Boot() && k <= |ops| && Shape(ss[k]) && ss[k].pend[ss[k].cur] == Idle
    ensures Inv(ss[k])
    ensures Step(ss[k], Spawn).1 == Trap(UNREACHABLE) <==> Spawns(ss, ops, os, k) - Joins(ss, ops, os, k) == 15
  {
    hide IdsBelow;
    SlotsAreConserved(ss, ops, os, k);
    var rt := ss[k];
    SpawnKeeps(rt);
    var all := IdsBelow(TASKS) - {0};
    assert |all| == 15 && InUse(rt) <= all;
    if forall t :: 1 <= t < TASKS ==> rt.state[t] != FREE {
      assert InUse(rt) == all;
    }
    if |InUse(rt)| == 15 {
      SubsetOfSameSize(InUse(rt), all);
      forall t: U64 | 1 <= t < TASKS ensures rt.state[t] != FREE {
        assert t in all;
      }
    }
  }

  lemma SubsetOfSameSize(a: set<U64>, b: set<U64>)
    requires a <= b && |a| == |b|
    ensures a == b
  {
    if a != b {
      var x :| x in b && x !in a;
      SmallerSubset(a, b - {x});
    }
  }

  lemma {:induction false} SmallerSubset(a: set<U64>, b: set<U64>)
    requires a <= b
    ensures |a| <= |b|
    decreases |a|
  {
    if x :| x in a {
      SmallerSubset(a - {x}, b - {x});
    }
  }

  // ---- channels are given out once ----

  /** The channels that were made in the first `k` steps. */
  ghost function Made(ss: seq<Rt>, ops: seq<Op>, os: seq<Outcome>, k: nat): seq<U64>
    requires Lengths(ss, ops, os) && k <= |ops|
  {
    if k == 0 then []
    else Made(ss, ops, os, k - 1) + (if Doing(ss, ops, os, k - 1) == MakeChan && os[k - 1].Finished? then [os[k - 1].value] else [])
  }

  lemma StepOpen(rt: Rt, op: Op)
    requires Inv(rt) && Goes(Step(rt, op).1)
    ensures
      var (after, o) := Step(rt, op);
      if Asked(rt, op) == MakeChan && o.Finished?
      then o.value < CHANNELS && rt.open[o.value] == 0 && after.open == rt.open[o.value := 1]
      else after.open == rt.open
  {
    hide Switch;
    hide Step;
    hide TryRecv;
    hide TrySend;
    hide TryJoin;
    hide DoMakeChan;
    StepIsStart(rt, op);
    assert LoopShape(rt, rt.cur);
    match Asked(rt, op)
    case Recv(c) => RecvOpen(rt, c);
    case Send(c, v) => SendOpen(rt, c, v);
    case Join(u) => SwitchFrame(rt.(pend := rt.pend[rt.cur := Joining(u)])); JoinOpen(rt, u);
    case Yield => SwitchFrame(rt.(pend := rt.pend[rt.cur := Idle]));
    case Exit => SwitchFrame(rt.(state := rt.state[rt.cur := DONE]));
    case MakeChan => MakeChanKeeps(rt);
    case Spawn =>
  }

  lemma JoinOpen(rt: Rt, t: U64)
    requires Shape(rt) && t < TASKS
    ensures TryJoin(rt, t).0.open == rt.open
  {
    hide Switch;
    SwitchFrame(rt.(pend := rt.pend[rt.cur := Joining(t)]));
  }

  lemma RecvOpen(rt: Rt, c: U64)
    requires Shape(rt) && c < CHANNELS
    ensures TryRecv(rt, c).0.open == rt.open
  {
    hide Switch;
    if rt.msgs[c] == [] && |rt.recvq[c]| < WAIT_CAP {
      SwitchFrame(BlockedReceiver(rt, c));
    }
  }

  lemma SendOpen(rt: Rt, c: U64, v: U64)
    requires Shape(rt) && c < CHANNELS
    ensures TrySend(rt, c, v).0.open == rt.open
  {
    hide Switch;
    if |rt.msgs[c]| == MSG_CAP && |rt.sendq[c]| < WAIT_CAP {
      SwitchFrame(BlockedSender(rt, c, v));
    }
  }

  ghost predicate AllDifferent(q: seq<U64>) {
    forall i, j :: 0 <= i < j < |q| ==> q[i] != q[j]
  }

  /** A channel is open exactly if it was made, and none is made twice. */
  lemma {:induction false} ChannelsAreMadeOnce(ss: seq<Rt>, ops: seq<Op>, os: seq<Outcome>, k: nat)
    requires IsRun(ss, ops, os) && ss[0] == Boot() && k <= |ops|
    ensures Inv(ss[k]) && AllDifferent(Made(ss, ops, os, k))
    ensures forall c: U64 :: c < CHANNELS ==> (Live(ss[k], c) <==> c in Made(ss, ops, os, k)) && ss[k].open[c] <= 1
  {
    hide Step;
    hide Inv;
    BootIsSafe();
    RunIsSafe(ss, ops, os, k);
    InvShape(ss[k]);
    if k > 0 {
      assert StepAt(ss, ops, os, k - 1);
      ChannelsAreMadeOnce(ss, ops, os, k - 1);
      LoopsAreRemembered(ss, ops, os, k - 1, 0);
      StepOpen(ss[k - 1], ops[k - 1]);
      var before := Made(ss, ops, os, k - 1);
      if Doing(ss, ops, os, k - 1) == MakeChan && os[k - 1].Finished? {
        assert os[k - 1].value !in before;
      }
    }
  }

  /** The channels are numbered in the order in which they are made. */
  ghost predicate OpenUpTo(rt: Rt, n: nat)
    requires Shape(rt)
  {
    && n <= CHANNELS && rt.nextChan == (if n == CHANNELS then 0 else n)
    && forall c: U64 :: c < CHANNELS ==> rt.open[c] == if c < n then 1 else 0
  }

  lemma StepNext(rt: Rt, op: Op, n: nat)
    requires Inv(rt) && Goes(Step(rt, op).1) && OpenUpTo(rt, n)
    ensures
      var (after, o) := Step(rt, op);
      if Asked(rt, op) == MakeChan && o.Finished? then n < CHANNELS && o.value == n && OpenUpTo(after, n + 1) else OpenUpTo(after, n)
  {
    hide Switch;
    hide Step;
    hide TryRecv;
    hide TrySend;
    hide TryJoin;
    hide DoMakeChan;
    StepIsStart(rt, op);
    StepOpen(rt, op);
    assert LoopShape(rt, rt.cur);
    match Asked(rt, op)
    case Recv(c) => RecvNext(rt, c);
    case Send(c, v) => SendNext(rt, c, v);
    case Join(u) => JoinNext(rt, u);
    case Yield => SwitchNext(rt.(pend := rt.pend[rt.cur := Idle]));
    case Exit => SwitchNext(rt.(state := rt.state[rt.cur := DONE]));
    case MakeChan => MakeChanNext(rt, n);
    case Spawn =>
  }

  lemma SwitchNext(rt: Rt)
    requires Shape(rt)
    ensures Switch(rt).0.nextChan == rt.nextChan && Switch(rt).0.open == rt.open
  {
  }

  lemma MakeChanNext(rt: Rt, n: nat)
    requires Shape(rt) && OpenUpTo(rt, n) && Goes(DoMakeChan(rt).1)
    ensures DoMakeChan(rt).1.Finished? && n < CHANNELS && DoMakeChan(rt).1.value == n && OpenUpTo(DoMakeChan(rt).0, n + 1)
  {
    AllTaken(rt.open, rt.nextChan, CHANNELS);
  }

  lemma {:induction false} AllTaken(open: seq<U64>, c: U64, tries: nat)
    requires |open| == CHANNELS && c < CHANNELS
    ensures (forall d: U64 :: d < CHANNELS ==> open[d] != 0) ==> FirstClosed(open, c, tries) == CHANNELS
    decreases tries
  {
    if tries > 0 {
      AllTaken(open, NextChan(c), tries - 1);
    }
  }

  lemma RecvNext(rt: Rt, c: U64)
    requires Shape(rt) && c < CHANNELS
    ensures TryRecv(rt, c).0.nextChan == rt.nextChan
  {
    hide Switch;
    if rt.msgs[c] == [] && |rt.recvq[c]| < WAIT_CAP {
      SwitchNext(BlockedReceiver(rt, c));
    }
  }

  lemma SendNext(rt: Rt, c: U64, v: U64)
    requires Shape(rt) && c < CHANNELS
    ensures TrySend(rt, c, v).0.nextChan == rt.nextChan
  {
    hide Switch;
    if |rt.msgs[c]| == MSG_CAP && |rt.sendq[c]| < WAIT_CAP {
      SwitchNext(BlockedSender(rt, c, v));
    }
  }

  lemma JoinNext(rt: Rt, t: U64)
    requires Shape(rt) && t < TASKS
    ensures TryJoin(rt, t).0.nextChan == rt.nextChan
  {
    hide Switch;
    SwitchNext(rt.(pend := rt.pend[rt.cur := Joining(t)]));
  }

  /** The handles of the channels a program makes are 0, 1, 2 and so on. */
  lemma {:induction false} ChannelsAreNumbered(ss: seq<Rt>, ops: seq<Op>, os: seq<Outcome>, k: nat)
    requires IsRun(ss, ops, os) && ss[0] == Boot() && k <= |ops|
    ensures Inv(ss[k]) && OpenUpTo(ss[k], |Made(ss, ops, os, k)|)
    ensures forall i :: 0 <= i < |Made(ss, ops, os, k)| ==> Made(ss, ops, os, k)[i] == i
  {
    hide Step;
    hide Inv;
    BootIsSafe();
    RunIsSafe(ss, ops, os, k);
    InvShape(ss[k]);
    if k > 0 {
      assert StepAt(ss, ops, os, k - 1);
      ChannelsAreNumbered(ss, ops, os, k - 1);
      LoopsAreRemembered(ss, ops, os, k - 1, 0);
      StepNext(ss[k - 1], ops[k - 1], |Made(ss, ops, os, k - 1)|);
    }
  }

  // ---- who runs next ----

  /** The ring `n` places on in the circular order. */
  function Around(w: U64, n: nat): U64
    requires w < WORKERS
  {
    (w + n) % WORKERS
  }

  /** The next task is the first of the running worker's own ring; if that is empty
      the first of the global ring; if that is empty too the first of the nearest ring
      that is not. */
  lemma NextInOrder(rt: Rt, n: nat)
    requires Shape(rt) && 0 < n < WORKERS
    ensures Pick(rt) == FromLocal(rt.worker) <==> rt.local[rt.worker] != []
    ensures Pick(rt) == FromGlobal <==> rt.local[rt.worker] == [] && rt.global != []
    ensures Pick(rt) == FromLocal(Around(rt.worker, n)) <==>
      rt.global == [] && (forall m: nat :: m < n ==> rt.local[Around(rt.worker, m)] == []) && rt.local[Around(rt.worker, n)] != []
  {
    var w := rt.worker;
    assert Around(w, 0) == w && Around(w, 1) == Victim(w, 1) && Around(w, 2) == Victim(w, 2) && Around(w, 3) == Victim(w, 3);
    assert (forall m: nat :: m < n ==> rt.local[Around(w, m)] == []) <==>
      rt.local[Around(w, 0)] == [] && (n > 1 ==> rt.local[Around(w, 1)] == []) && (n > 2 ==> rt.local[Around(w, 2)] == []);
  }

  /** A task that is made ready goes behind the running worker's ring, or behind the
      global one if that is full. */
  lemma QueuedBehind(rt: Rt, t: U64)
    requires Shape(rt) && t < TASKS && (|rt.local[rt.worker]| < LOCAL_CAP || |rt.global| < GLOBAL_CAP)
    ensures
      var after := Enqueue(rt, t);
      if |rt.local[rt.worker]| < LOCAL_CAP
      then after.local[rt.worker] == rt.local[rt.worker] + [t] && after.global == rt.global
      else after.local == rt.local && after.global == rt.global + [t]
    ensures forall w :: 0 <= w < WORKERS && w != rt.worker ==> Enqueue(rt, t).local[w] == rt.local[w]
  {
  }

  // ---- first come, first served ----

  /** A receiver at position `p` of the wait ring of `c`. */
  ghost predicate WaitsAt(rt: Rt, c: U64, t: U64, p: nat)
    requires Shape(rt) && c < CHANNELS
  {
    p < |rt.recvq[c]| && rt.recvq[c][p] == t
  }

  ghost predicate WaitsToSend(rt: Rt, c: U64, t: U64, p: nat)
    requires Shape(rt) && c < CHANNELS
  {
    p < |rt.sendq[c]| && rt.sendq[c][p] == t
  }

  /** Only a message on its channel moves a waiting receiver: one place on, and the
      first one out. */
  lemma ReceiversMoveUp(rt: Rt, op: Op, c: U64, t: U64, p: nat)
    requires Inv(rt) && Goes(Step(rt, op).1) && c < CHANNELS && WaitsAt(rt, c, t, p)
    ensures
      var (after, o) := Step(rt, op);
      var d := Asked(rt, op);
      if !(d.Send? && d.chan == c && o.Finished?) then WaitsAt(after, c, t, p)
      else if p > 0 then WaitsAt(after, c, t, p - 1)
      else after.state[t] == READY && after.global == rt.global + [t]
  {
    hide Switch;
    hide Step;
    hide TryJoin;
    hide TryRecv;
    hide TrySend;
    hide DoMakeChan;
    StepIsStart(rt, op);
    assert LoopShape(rt, rt.cur);
    match Asked(rt, op)
    case Recv(e) => RecvMoves(rt, e);
    case Send(e, v) => SendMoves(rt, e, v);
    case Join(u) => JoinQueues(rt, u);
    case Yield => SwitchFrame(rt.(pend := rt.pend[rt.cur := Idle]));
    case Exit => SwitchFrame(rt.(state := rt.state[rt.cur := DONE]));
    case MakeChan => MakeChanQueues(rt);
    case Spawn =>
  }

  /** What a turn of a receive on `e` does to the wait rings. */
  lemma RecvMoves(rt: Rt, e: U64)
    requires Shape(rt) && e < CHANNELS && Goes(TryRecv(rt, e).1)
    ensures
      var (after, o) := TryRecv(rt, e);
      && (o.Finished? ==> after.recvq == rt.recvq)
      && (o.Parked? ==> after.recvq == rt.recvq[e := rt.recvq[e] + [rt.cur]] && after.sendq == rt.sendq)
      && (o.Finished? && rt.sendq[e] == [] ==> after.sendq == rt.sendq)
      && (o.Finished? && rt.sendq[e] != [] ==>
            && after.sendq == rt.sendq[e := rt.sendq[e][1..]] && after.state[rt.sendq[e][0]] == READY
            && after.global == rt.global + [rt.sendq[e][0]])
  {
    hide Switch;
    if rt.msgs[e] == [] && |rt.recvq[e]| < WAIT_CAP {
      SwitchFrame(BlockedReceiver(rt, e));
    }
  }

  lemma SendMoves(rt: Rt, e: U64, v: U64)
    requires Shape(rt) && e < CHANNELS && Goes(TrySend(rt, e, v).1)
    ensures
      var (after, o) := TrySend(rt, e, v);
      && (o.Finished? ==> after.sendq == rt.sendq)
      && (o.Parked? ==> after.sendq == rt.sendq[e := rt.sendq[e] + [rt.cur]] && after.recvq == rt.recvq)
      && (o.Finished? && rt.recvq[e] == [] ==> after.recvq == rt.recvq)
      && (o.Finished? && rt.recvq[e] != [] ==>
            && after.recvq == rt.recvq[e := rt.recvq[e][1..]] && after.state[rt.recvq[e][0]] == READY
            && after.global == rt.global + [rt.recvq[e][0]])
  {
    hide Switch;
    if |rt.msgs[e]| == MSG_CAP && |rt.sendq[e]| < WAIT_CAP {
      SwitchFrame(BlockedSender(rt, e, v));
    }
  }

  lemma MakeChanQueues(rt: Rt)
    requires Shape(rt)
    ensures DoMakeChan(rt).0.recvq == rt.recvq && DoMakeChan(rt).0.sendq == rt.sendq
  {
  }

  lemma JoinQueues(rt: Rt, t: U64)
    requires Shape(rt) && t < TASKS
    ensures TryJoin(rt, t).0.recvq == rt.recvq && TryJoin(rt, t).0.sendq == rt.sendq
  {
    hide Switch;
    SwitchFrame(rt.(pend := rt.pend[rt.cur := Joining(t)]));
  }

  lemma SendersMoveUp(rt: Rt, op: Op, c: U64, t: U64, p: nat)
    requires Inv(rt) && Goes(Step(rt, op).1) && c < CHANNELS && WaitsToSend(rt, c, t, p)
    ensures
      var (after, o) := Step(rt, op);
      var d := Asked(rt, op);
      if !(d == Recv(c) && o.Finished?) then WaitsToSend(after, c, t, p)
      else if p > 0 then WaitsToSend(after, c, t, p - 1)
      else after.state[t] == READY && after.global == rt.global + [t]
  {
    hide Switch;
    hide Step;
    hide TryJoin;
    hide TryRecv;
    hide TrySend;
    hide DoMakeChan;
    StepIsStart(rt, op);
    assert LoopShape(rt, rt.cur);
    match Asked(rt, op)
    case Recv(e) => RecvMoves(rt, e);
    case Send(e, v) => SendMoves(rt, e, v);
    case Join(u) => JoinQueues(rt, u);
    case Yield => SwitchFrame(rt.(pend := rt.pend[rt.cur := Idle]));
    case Exit => SwitchFrame(rt.(state := rt.state[rt.cur := DONE]));
    case MakeChan => MakeChanQueues(rt);
    case Spawn =>
  }

  /** Over a run: a receiver at position `p` of a wait ring is woken by the finished
      send number `p + 1` on its channel, and no sooner. */
  lemma {:induction false} ReceiversAreServedInOrder(ss: seq<Rt>, ops: seq<Op>, os: seq<Outcome>, from: nat, k: nat, c: U64, t: U64, p: nat)
    requires IsRun(ss, ops, os) && ss[0] == Boot() && from <= k <= |ops| && c < CHANNELS
    requires Shape(ss[from]) && WaitsAt(ss[from], c, t, p)
    requires |Gifts(ss, ops, os, c, k)| - |Gifts(ss, ops, os, c, from)| <= p
    ensures Inv(ss[k]) && |Gifts(ss, ops, os, c, from)| <= |Gifts(ss, ops, os, c, k)|
    ensures WaitsAt(ss[k], c, t, p - (|Gifts(ss, ops, os, c, k)| - |Gifts(ss, ops, os, c, from)|))
    decreases k
  {
    hide Doing;
    hide Gifts;
    hide Asked;
    hide Step;
    hide Inv;
    BootIsSafe();
    RunIsSafe(ss, ops, os, k);
    InvShape(ss[k]);
    if k > from {
      assert StepAt(ss, ops, os, k - 1);
      GiftsGrow(ss, ops, os, c, k);
      ReceiversAreServedInOrder(ss, ops, os, from, k - 1, c, t, p);
      LoopsAreRemembered(ss, ops, os, k - 1, 0);
      ReceiversMoveUp(ss[k - 1], ops[k - 1], c, t, p - (|Gifts(ss, ops, os, c, k - 1)| - |Gifts(ss, ops, os, c, from)|));
    }
  }

  lemma GiftsGrow(ss: seq<Rt>, ops: seq<Op>, os: seq<Outcome>, c: U64, k: nat)
    requires Lengths(ss, ops, os) && 0 < k <= |ops|
    ensures
      var d := Doing(ss, ops, os, k - 1);
      |Gifts(ss, ops, os, c, k)| == |Gifts(ss, ops, os, c, k - 1)| + (if os[k - 1].Finished? && d.Send? && d.chan == c then 1 else 0)
  {
  }
}
