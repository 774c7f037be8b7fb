/** The task scheduler and the channels, with every ring read as the queue it
    holds. A step is what the running task does until it either finishes an
    operation or gives up the processor inside `__task_yield`; a task that gave
    up the processor inside a retry loop remembers the loop in `pend` and runs
    it again when it is resumed. */
module Scheduler {
  import opened Rings

  const FREE: U64 := 0
  const READY: U64 := 1
  const RUNNING: U64 := 2
  const DONE: U64 := 3
  const BLOCKED: U64 := 4

  const TASKS: nat := 16
  const WORKERS: nat := 4
  const CHANNELS: nat := 16
  const LOCAL_CAP: nat := 8
  const GLOBAL_CAP: nat := 16
  const MSG_CAP: nat := 64
  const WAIT_CAP: nat := 8

  const UNREACHABLE: nat := 23
  const TASK_QUEUE_OVERFLOW: nat := 24
  const DEADLOCK: nat := 25

  /** The retry loop a task is inside of. */
  datatype Pending = Idle | Joining(task: U64) | Sending(chan: U64, value: U64) | Receiving(chan: U64)

  datatype Op = Spawn | Yield | Join(task: U64) | Exit | MakeChan | Send(chan: U64, value: U64) | Recv(chan: U64)

  /** How a step ended: the operation finished (with the word it pushes, 0 when
      it pushes none), the processor was given up, a trap, or process exit. */
  datatype Outcome = Finished(value: U64) | Parked | Trap(code: nat) | Halt

  /** How a call of `__task_yield` ended. */
  datatype Handoff = Switched | Returned | Stuck

  datatype Choice = FromLocal(worker: U64) | FromGlobal | Nobody

  datatype Rt = Rt(
    state: seq<U64>, cur: U64, worker: U64,
    local: seq<seq<U64>>, global: seq<U64>,
    nextChan: U64, open: seq<U64>, msgs: seq<seq<U64>>,
    recvq: seq<seq<U64>>, sendq: seq<seq<U64>>,
    pend: seq<Pending>, sent: seq<seq<U64>>, got: seq<seq<U64>>)

  ghost predicate TaskIds(q: seq<U64>) {
    forall i :: 0 <= i < |q| ==> q[i] < TASKS
  }

  /** The fixed sizes of the arrays, and ids that index them. */
  ghost predicate Shape(rt: Rt) {
    && |rt.state| == |rt.pend| == TASKS
    && rt.cur < TASKS && rt.worker < WORKERS
    && |rt.local| == WORKERS
    && (forall w :: 0 <= w < WORKERS ==> |rt.local[w]| <= LOCAL_CAP && TaskIds(rt.local[w]))
    && |rt.global| <= GLOBAL_CAP && TaskIds(rt.global)
    && rt.nextChan < CHANNELS
    && |rt.open| == |rt.msgs| == |rt.recvq| == |rt.sendq| == |rt.sent| == |rt.got| == CHANNELS
    && forall c :: 0 <= c < CHANNELS ==>
         && |rt.msgs[c]| <= MSG_CAP
         && |rt.recvq[c]| <= WAIT_CAP && TaskIds(rt.recvq[c])
         && |rt.sendq[c]| <= WAIT_CAP && TaskIds(rt.sendq[c])
  }

  /** All of the runtime's data starts as zero; task 0 is running. */
  ghost function Boot(): (rt: Rt)
    ensures Shape(rt) && rt.cur == rt.worker == 0
    ensures forall t :: 0 <= t < TASKS ==> rt.state[t] == FREE && rt.pend[t] == Idle
    ensures forall w :: 0 <= w < WORKERS ==> rt.local[w] == []
    ensures forall c :: 0 <= c < CHANNELS ==>
      && rt.open[c] == 0 && rt.msgs[c] == [] && rt.recvq[c] == [] && rt.sendq[c] == []
      && rt.sent[c] == [] && rt.got[c] == []
  {
    Rt(seq(TASKS, _ => FREE), 0, 0, seq(WORKERS, _ => []), [],
       0, seq(CHANNELS, _ => 0), seq(CHANNELS, _ => []),
       seq(CHANNELS, _ => []), seq(CHANNELS, _ => []),
       seq(TASKS, _ => Idle), seq(CHANNELS, _ => []), seq(CHANNELS, _ => []))
  }

  /** Everything zero: that is how the runtime starts. */
  lemma ZeroIsBoot(rt: Rt)
    requires Shape(rt) && rt.cur == rt.worker == rt.nextChan == 0
    requires forall t :: 0 <= t < TASKS ==> rt.state[t] == FREE && rt.pend[t] == Idle
    requires forall w :: 0 <= w < WORKERS ==> rt.local[w] == []
    requires rt.global == []
    requires forall c :: 0 <= c < CHANNELS ==>
      && rt.open[c] == 0 && rt.msgs[c] == [] && rt.recvq[c] == [] && rt.sendq[c] == []
      && rt.sent[c] == [] && rt.got[c] == []
    ensures rt == Boot()
  {
    var b := Boot();
    assert rt.state == b.state && rt.pend == b.pend && rt.local == b.local;
    assert rt.open == b.open && rt.msgs == b.msgs;
    assert rt.recvq == b.recvq && rt.sendq == b.sendq;
    assert rt.sent == b.sent && rt.got == b.got;
  }

  // ---- run queues ----

  /** Put a task on the running worker's ring, else on the global ring, else
      nowhere: a full global ring drops the task without a word. */
  ghost function Enqueue(rt: Rt, t: U64): (r: Rt)
    requires Shape(rt) && t < TASKS
    ensures Shape(r)
  {
    var mine := rt.local[rt.worker];
    rt.(local := if |mine| < LOCAL_CAP then rt.local[rt.worker := mine + [t]] else rt.local,
        global := if |mine| == LOCAL_CAP && |rt.global| < GLOBAL_CAP then rt.global + [t] else rt.global)
  }

  /** The ring after `k` more of the circular steal order. */
  function Victim(w: U64, k: U64): (v: U64)
    requires w < WORKERS && k < WORKERS
    ensures v < WORKERS
  {
    if w + k < WORKERS then w + k else w + k - WORKERS
  }

  /** Own ring first, then the global ring, then the other workers' rings. */
  ghost function Pick(rt: Rt): (c: Choice)
    requires Shape(rt)
    ensures c.FromLocal? ==> c.worker < WORKERS && rt.local[c.worker] != []
    ensures c.FromGlobal? ==> rt.global != []
    ensures c.Nobody? ==> rt.global == [] && forall w :: 0 <= w < WORKERS ==> rt.local[w] == []
    ensures rt.local[rt.worker] != [] ==> c == FromLocal(rt.worker)
  {
    var w := rt.worker;
    if rt.local[w] != [] then FromLocal(w)
    else if rt.global != [] then FromGlobal
    else if rt.local[Victim(w, 1)] != [] then FromLocal(Victim(w, 1))
    else if rt.local[Victim(w, 2)] != [] then FromLocal(Victim(w, 2))
    else if rt.local[Victim(w, 3)] != [] then FromLocal(Victim(w, 3))
    else
      assert {Victim(w, 0), Victim(w, 1), Victim(w, 2), Victim(w, 3)} == {0, 1, 2, 3};
      Nobody
  }

  ghost predicate Available(rt: Rt, c: Choice)
    requires Shape(rt)
  {
    match c
    case FromLocal(w) => w < WORKERS && rt.local[w] != []
    case FromGlobal => rt.global != []
    case Nobody => false
  }

  ghost function Chosen(rt: Rt, c: Choice): (t: U64)
    requires Shape(rt) && Available(rt, c)
    ensures t < TASKS
  {
    if c.FromLocal? then rt.local[c.worker][0] else rt.global[0]
  }

  /** Take the chosen task off its ring and make it the running one; stealing
      moves the processor to the victim's ring. */
  ghost function Dispatch(rt: Rt, c: Choice): (r: Rt)
    requires Shape(rt) && Available(rt, c)
    ensures Shape(r)
  {
    var t := Chosen(rt, c);
    rt.(local := if c.FromLocal? then rt.local[c.worker := rt.local[c.worker][1..]] else rt.local,
        global := if c.FromGlobal? then rt.global[1..] else rt.global,
        worker := if c.FromLocal? then c.worker else rt.worker,
        state := rt.state[t := RUNNING],
        cur := t)
  }

  /** The word `__task_yield` finds for the task that calls it: the start-up
      word 0 of task 0 counts as running. */
  ghost function Caller(rt: Rt): U64
    requires Shape(rt)
  {
    if rt.state[rt.cur] == FREE then RUNNING else rt.state[rt.cur]
  }

  /** A task that calls while running goes to the back of the queue. */
  ghost function Requeue(rt: Rt): (r: Rt)
    requires Shape(rt)
    ensures Shape(r)
  {
    if Caller(rt) == RUNNING then Enqueue(rt.(state := rt.state[rt.cur := READY]), rt.cur) else rt
  }

  /** `__task_yield`. */
  ghost function Switch(rt: Rt): (r: (Rt, Handoff))
    requires Shape(rt)
    ensures Shape(r.0)
  {
    var queued := Requeue(rt);
    var c := Pick(queued);
    if c != Nobody then (Dispatch(queued, c), Switched)
    // A task that was running has just been queued, or found its own ring
    // full: either way there was somebody to pick.
    else if Caller(rt) == BLOCKED then (queued, Stuck)
    else (queued, Returned)
  }

  /** Wait inside a retry loop until resumed. */
  ghost function Park(rt: Rt, p: Pending): (r: (Rt, Outcome))
    requires Shape(rt)
    ensures Shape(r.0)
  {
    var (after, h) := Switch(rt.(pend := rt.pend[rt.cur := p]));
    (after, if h == Stuck then Trap(DEADLOCK) else Parked)
  }

  // ---- operations ----

  /** The first free task slot from `i` on. */
  function FirstFree(state: seq<U64>, i: nat): (r: nat)
    requires i <= |state|
    ensures i <= r <= |state|
    ensures r < |state| ==> state[r] == FREE
    ensures forall k :: i <= k < r ==> state[k] != FREE
    decreases |state| - i
  {
    if i == |state| || state[i] == FREE then i else FirstFree(state, i + 1)
  }

  ghost function DoSpawn(rt: Rt): (r: (Rt, Outcome))
    requires Shape(rt)
    ensures Shape(r.0)
  {
    var t := FirstFree(rt.state, 1);
    if t == TASKS then (rt, Trap(UNREACHABLE))
    else
      var made := rt.(state := rt.state[t := READY]);
      if |rt.local[rt.worker]| == LOCAL_CAP && |rt.global| == GLOBAL_CAP then (made, Trap(UNREACHABLE))
      else (Enqueue(made, t), Finished(t))
  }

  ghost function DoYield(rt: Rt): (r: (Rt, Outcome))
    requires Shape(rt)
    ensures Shape(r.0)
  {
    Park(rt, Idle)
  }

  ghost function DoExit(rt: Rt): (r: (Rt, Outcome))
    requires Shape(rt)
    ensures Shape(r.0)
  {
    var (after, h) := Switch(rt.(state := rt.state[rt.cur := DONE]));
    (after, if h == Switched then Parked else Halt)
  }

  /** One turn of the join loop. */
  ghost function TryJoin(rt: Rt, t: U64): (r: (Rt, Outcome))
    requires Shape(rt) && t < TASKS
    ensures Shape(r.0)
  {
    if rt.state[t] == DONE
    then (rt.(state := rt.state[t := FREE], pend := rt.pend[rt.cur := Idle]), Finished(0))
    else Park(rt, Joining(t))
  }

  /** The channel after `c` in the circular order. */
  function NextChan(c: U64): (n: U64)
    requires c < CHANNELS
    ensures n < CHANNELS
  {
    if c + 1 < CHANNELS then c + 1 else 0
  }

  /** The first channel not in use among the `tries` from `c` on, or CHANNELS. */
  function FirstClosed(open: seq<U64>, c: U64, tries: nat): (r: U64)
    requires |open| == CHANNELS && c < CHANNELS
    ensures r <= CHANNELS
    ensures r < CHANNELS ==> open[r] == 0
    decreases tries
  {
    if tries == 0 then CHANNELS
    else if open[c] == 0 then c
    else FirstClosed(open, NextChan(c), tries - 1)
  }

  ghost function DoMakeChan(rt: Rt): (r: (Rt, Outcome))
    requires Shape(rt)
    ensures Shape(r.0)
  {
    var c := FirstClosed(rt.open, rt.nextChan, CHANNELS);
    if c == CHANNELS then (rt, Trap(UNREACHABLE))
    else (rt.(open := rt.open[c := 1], msgs := rt.msgs[c := []], nextChan := NextChan(c)), Finished(c))
  }

  /** Make a task ready on the global ring. */
  ghost function Wake(rt: Rt, t: U64): (r: Rt)
    requires Shape(rt) && t < TASKS && |rt.global| < GLOBAL_CAP
    ensures Shape(r)
  {
    rt.(state := rt.state[t := READY], global := rt.global + [t])
  }

  /** The oldest receiver of `c` leaves its wait ring and is ready, not queued yet. */
  ghost function ReleaseReceiver(rt: Rt, c: U64): (r: Rt)
    requires Shape(rt) && c < CHANNELS && rt.recvq[c] != []
    ensures Shape(r)
  {
    rt.(recvq := rt.recvq[c := rt.recvq[c][1..]], state := rt.state[rt.recvq[c][0] := READY])
  }

  /** The oldest receiver of `c` leaves its wait ring for the global ring. */
  ghost function WakeReceiver(rt: Rt, c: U64): (r: Rt)
    requires Shape(rt) && c < CHANNELS && rt.recvq[c] != [] && |rt.global| < GLOBAL_CAP
    ensures Shape(r)
  {
    Wake(rt.(recvq := rt.recvq[c := rt.recvq[c][1..]]), rt.recvq[c][0])
  }

  /** The same for the oldest sender. */
  ghost function ReleaseSender(rt: Rt, c: U64): (r: Rt)
    requires Shape(rt) && c < CHANNELS && rt.sendq[c] != []
    ensures Shape(r)
  {
    rt.(sendq := rt.sendq[c := rt.sendq[c][1..]], state := rt.state[rt.sendq[c][0] := READY])
  }

  ghost function WakeSender(rt: Rt, c: U64): (r: Rt)
    requires Shape(rt) && c < CHANNELS && rt.sendq[c] != [] && |rt.global| < GLOBAL_CAP
    ensures Shape(r)
  {
    Wake(rt.(sendq := rt.sendq[c := rt.sendq[c][1..]]), rt.sendq[c][0])
  }

  /** The running task joins a wait ring and blocks. */
  ghost function AwaitMessage(rt: Rt, c: U64): (r: Rt)
    requires Shape(rt) && c < CHANNELS && |rt.recvq[c]| < WAIT_CAP
    ensures Shape(r)
  {
    rt.(recvq := rt.recvq[c := rt.recvq[c] + [rt.cur]], state := rt.state[rt.cur := BLOCKED])
  }

  ghost function AwaitRoom(rt: Rt, c: U64): (r: Rt)
    requires Shape(rt) && c < CHANNELS && |rt.sendq[c]| < WAIT_CAP
    ensures Shape(r)
  {
    rt.(sendq := rt.sendq[c := rt.sendq[c] + [rt.cur]], state := rt.state[rt.cur := BLOCKED])
  }

  /** A message goes into the buffer, and the sender is out of its loop. */
  ghost function Stored(rt: Rt, c: U64, v: U64): (r: Rt)
    requires Shape(rt) && c < CHANNELS && |rt.msgs[c]| < MSG_CAP
    ensures Shape(r)
  {
    rt.(msgs := rt.msgs[c := rt.msgs[c] + [v]], sent := rt.sent[c := rt.sent[c] + [v]],
        pend := rt.pend[rt.cur := Idle])
  }

  ghost function Taken(rt: Rt, c: U64): (r: Rt)
    requires Shape(rt) && c < CHANNELS && rt.msgs[c] != []
    ensures Shape(r)
  {
    rt.(msgs := rt.msgs[c := rt.msgs[c][1..]], got := rt.got[c := rt.got[c] + [rt.msgs[c][0]]],
        pend := rt.pend[rt.cur := Idle])
  }

  /** One turn of the send loop. */
  ghost function TrySend(rt: Rt, c: U64, v: U64): (r: (Rt, Outcome))
    requires Shape(rt) && c < CHANNELS
    ensures Shape(r.0)
  {
    if |rt.msgs[c]| == MSG_CAP then
      if |rt.sendq[c]| == WAIT_CAP then (rt, Trap(UNREACHABLE))
      else Park(AwaitRoom(rt, c), Sending(c, v))
    else if rt.recvq[c] == [] then (Stored(rt, c, v), Finished(0))
    else if |rt.global| == GLOBAL_CAP then (ReleaseReceiver(Stored(rt, c, v), c), Trap(TASK_QUEUE_OVERFLOW))
    else (WakeReceiver(Stored(rt, c, v), c), Finished(0))
  }

  /** One turn of the receive loop. */
  ghost function TryRecv(rt: Rt, c: U64): (r: (Rt, Outcome))
    requires Shape(rt) && c < CHANNELS
    ensures Shape(r.0)
  {
    if rt.msgs[c] == [] then
      if |rt.recvq[c]| == WAIT_CAP then (rt, Trap(UNREACHABLE))
      else Park(AwaitMessage(rt, c), Receiving(c))
    else if rt.sendq[c] == [] then (Taken(rt, c), Finished(rt.msgs[c][0]))
    else if |rt.global| == GLOBAL_CAP then (ReleaseSender(Taken(rt, c), c), Trap(TASK_QUEUE_OVERFLOW))
    else (WakeSender(Taken(rt, c), c), Finished(rt.msgs[c][0]))
  }

  ghost predicate Live(rt: Rt, c: U64)
    requires Shape(rt)
  {
    c < CHANNELS && rt.open[c] == 1
  }

  /** A new operation of the running task. */
  ghost function Start(rt: Rt, op: Op): (r: (Rt, Outcome))
    requires Shape(rt)
    ensures Shape(r.0)
  {
    match op
    case Spawn => DoSpawn(rt)
    case Yield => DoYield(rt)
    case Exit => DoExit(rt)
    case Join(t) => if t < TASKS then TryJoin(rt, t) else (rt, Trap(UNREACHABLE))
    case MakeChan => DoMakeChan(rt)
    case Send(c, v) => if Live(rt, c) then TrySend(rt, c, v) else (rt, Trap(UNREACHABLE))
    case Recv(c) => if Live(rt, c) then TryRecv(rt, c) else (rt, Trap(UNREACHABLE))
  }

  /** The loop a task is inside of is over a real task or a live channel. */
  ghost predicate LoopShape(rt: Rt, t: nat)
    requires Shape(rt) && t < TASKS
  {
    match rt.pend[t]
    case Idle => true
    case Joining(u) => u < TASKS
    case Sending(c, _) => Live(rt, c)
    case Receiving(c) => Live(rt, c)
  }

  ghost predicate PendingShape(rt: Rt)
    requires Shape(rt)
  {
    forall t :: 0 <= t < TASKS ==> LoopShape(rt, t)
  }

  /** The next turn of the loop the running task is inside of. */
  ghost function Retry(rt: Rt): (r: (Rt, Outcome))
    requires Shape(rt) && PendingShape(rt) && rt.pend[rt.cur] != Idle
    ensures Shape(r.0)
  {
    assert LoopShape(rt, rt.cur);
    match rt.pend[rt.cur]
    case Joining(t) => TryJoin(rt, t)
    case Sending(c, v) => TrySend(rt, c, v)
    case Receiving(c) => TryRecv(rt, c)
  }

  /** One step: a task inside a retry loop goes round it again, any other task
      does the operation its program asks for. */
  ghost function Step(rt: Rt, op: Op): (r: (Rt, Outcome))
    requires Shape(rt) && PendingShape(rt)
    ensures Shape(r.0)
  {
    if rt.pend[rt.cur] == Idle then Start(rt, op) else Retry(rt)
  }
}
