/** The emitted runtime itself: flat arrays of words, head and tail counters,
    and the scan, steal and retry code over them. Each method is proved to do to
    the queues what the corresponding function of `Scheduler` says. */
module Runtime {
  import opened Rings
  import opened Scheduler
  import opened SchedulerInvariant
  import opened SchedulerTheorems

  /** What every step keeps, for the methods that take one. */
  lemma StepKeepsIfSound(rt: Rt, op: Op)
    requires Shape(rt) && PendingShape(rt)
    ensures Inv(rt) ==> Kept(Step(rt, op))
  {
    hide Step;
    if Inv(rt) {
      StepKeeps(rt, op);
    }
  }

  /** The arrays of the channels: buffers and the two kinds of wait rings. */
  class ChannelTable {
    const open: array<U64>
    const msgs: RingBank
    const recvq: RingBank
    const sendq: RingBank
    var next: U64
    ghost const repr: set<object>

    ghost predicate Apart() {
      && repr == {this, open} + msgs.repr + recvq.repr + sendq.repr
      && {this, open} !! msgs.repr !! recvq.repr !! sendq.repr
      && msgs in msgs.repr && recvq in recvq.repr && sendq in sendq.repr
      && open.Length == msgs.count == recvq.count == sendq.count == CHANNELS
      && msgs.cap == MSG_CAP && recvq.cap == sendq.cap == WAIT_CAP
    }

    ghost predicate Valid()
      reads this, repr
    {
      Apart() && msgs.Valid() && recvq.Valid() && sendq.Valid()
    }

    constructor ()
      ensures Valid() && fresh(repr) && next == 0
      ensures forall c :: 0 <= c < CHANNELS ==>
        open[c] == 0 && msgs.queues[c] == [] && recvq.queues[c] == [] && sendq.queues[c] == []
    {
      var opens := new U64[CHANNELS](_ => 0);
      var m := new RingBank(CHANNELS, MSG_CAP);
      var r := new RingBank(CHANNELS, WAIT_CAP);
      var s := new RingBank(CHANNELS, WAIT_CAP);
      open, msgs, recvq, sendq, next := opens, m, r, s, 0;
      repr := {this, opens} + m.repr + r.repr + s.repr;
    }
  }

  class Machine {
    const state: array<U64>
    const local: RingBank
    const global: RingBank
    const chans: ChannelTable
    var cur: U64
    var worker: U64
    ghost var pend: seq<Pending>
    ghost var sent: seq<seq<U64>>
    ghost var got: seq<seq<U64>>
    ghost const repr: set<object>

    /** The arrays are apart from each other and have the reserved sizes. */
    ghost predicate Apart() {
      && repr == {this, state} + local.repr + global.repr + chans.repr
      && {this, state} !! local.repr !! global.repr !! chans.repr
      && local in local.repr && global in global.repr && chans in chans.repr
      && local.count == WORKERS && local.cap == LOCAL_CAP
      && global.count == 1 && global.cap == GLOBAL_CAP
      && state.Length == TASKS
    }

    ghost predicate Valid()
      reads this, repr
    {
      Apart() && local.Valid() && global.Valid() && chans.Valid()
    }

    /** The queue-level state. */
    ghost function View(): (rt: Rt)
      requires Valid()
      reads this, repr
    {
      Rt(state[..], cur, worker, local.queues, global.queues[0],
         chans.next, chans.open[..], chans.msgs.queues, chans.recvq.queues, chans.sendq.queues, pend, sent, got)
    }

    constructor ()
      ensures Valid() && fresh(repr) && View() == Boot()
    {
      hide Boot;
      hide RingBank.Valid;
      var t := new ChannelTable();
      var states := new U64[TASKS](_ => FREE);
      var l := new RingBank(WORKERS, LOCAL_CAP);
      var g := new RingBank(1, GLOBAL_CAP);
      state, local, global, chans := states, l, g, t;
      cur, worker := 0, 0;
      pend := seq(TASKS, _ => Idle);
      sent, got := seq(CHANNELS, _ => []), seq(CHANNELS, _ => []);
      repr := {this, states} + l.repr + g.repr + t.repr;
      new;
      ZeroedIsBoot();
    }

    lemma ZeroedIsBoot()
      requires Valid() && cur == worker == chans.next == 0
      requires forall t :: 0 <= t < TASKS ==> state[t] == FREE
      requires global.queues[0] == [] && forall w :: 0 <= w < WORKERS ==> local.queues[w] == []
      requires forall c :: 0 <= c < CHANNELS ==>
        && chans.open[c] == 0 && chans.msgs.queues[c] == []
        && chans.recvq.queues[c] == [] && chans.sendq.queues[c] == []
      requires pend == seq(TASKS, _ => Idle) && sent == got == seq(CHANNELS, _ => [])
      ensures View() == Boot()
    {
      ZeroIsBoot(View());
    }

    method Enqueue(t: U64)
      requires Valid() && Shape(View()) && t < TASKS
      modifies local.repr, global.repr
      ensures Valid()
      ensures View() == Scheduler.Enqueue(old(View()), t)
    {
      var n := local.Length(worker);
      if n < LOCAL_CAP {
        local.Push(worker, t);
      } else {
        var g := global.Length(0);
        if g < GLOBAL_CAP {
          global.Push(0, t);
        }
      }
    }

    /** The search for somebody to run: own ring, global ring, then the other
        workers' rings in circular order. */
    method FindWork() returns (c: Choice)
      requires Valid() && Shape(View())
      ensures c == Pick(View())
    {
      var n := local.Length(worker);
      if n != 0 {
        return FromLocal(worker);
      }
      n := global.Length(0);
      if n != 0 {
        return FromGlobal;
      }
      var k: U64 := 1;
      while k < WORKERS
        invariant 1 <= k <= WORKERS
        invariant forall j: U64 :: 1 <= j < k ==> local.queues[Victim(worker, j)] == []
      {
        var victim := worker + k;
        if victim >= WORKERS {
          victim := victim - WORKERS;
        }
        n := local.Length(victim);
        if n != 0 {
          assert victim == Victim(worker, k);
          return FromLocal(victim);
        }
        k := k + 1;
      }
      return Nobody;
    }

    method MakeRunning(t: U64)
      requires Valid() && t < TASKS
      modifies this`cur, state
      ensures Valid() && View() == old(View()).(state := old(View()).state[t := RUNNING], cur := t)
    {
      state[t] := RUNNING;
      cur := t;
    }

    /** Take the found task off its ring and run it. */
    method Resume(c: Choice)
      requires Valid() && Shape(View()) && Available(View(), c)
      modifies repr
      ensures Valid() && View() == Dispatch(old(View()), c)
    {
      var t: U64;
      if c.FromLocal? {
        t := local.Pop(c.worker);
        worker := c.worker;
      } else {
        t := global.Pop(0);
      }
      MakeRunning(t);
    }

    method Requeue() returns (was: U64)
      requires Valid() && Shape(View())
      modifies repr
      ensures Valid() && View() == Scheduler.Requeue(old(View())) && was == Caller(old(View()))
    {
      was := state[cur];
      if was == FREE {
        state[cur] := RUNNING;
        was := RUNNING;
      }
      if was == RUNNING {
        state[cur] := READY;
        assert View() == old(View()).(state := old(View()).state[cur := READY]);
        Enqueue(cur);
      }
    }

    /** `__task_yield`. */
    method Yield() returns (h: Handoff)
      requires Valid() && Shape(View())
      modifies repr
      ensures Valid() && (View(), h) == Switch(old(View()))
    {
      var was := Requeue();
      var c := FindWork();
      if c != Nobody {
        Resume(c);
        h := Switched;
      } else if was == BLOCKED {
        h := Stuck;
      } else {
        h := Returned;
      }
    }

    /** Yield inside a retry loop. A yield that is stuck traps. */
    method Wait(ghost p: Pending) returns (o: Outcome)
      requires Valid() && Shape(View())
      modifies repr
      ensures Valid() && (View(), o) == Park(old(View()), p)
    {
      pend := pend[cur := p];
      var h := Yield();
      o := if h == Stuck then Trap(DEADLOCK) else Parked;
    }

    // ---- tasks ----

    method Spawn() returns (o: Outcome)
      requires Valid() && Shape(View())
      modifies repr
      ensures Valid() && (View(), o) == DoSpawn(old(View()))
    {
      var t: U64 := 1;
      while t != TASKS && state[t] != FREE
        invariant 1 <= t <= TASKS
        invariant FirstFree(state[..], 1) == FirstFree(state[..], t as nat)
        decreases TASKS - t
      {
        t := t + 1;
      }
      if t == TASKS {
        return Trap(UNREACHABLE);
      }
      state[t] := READY;
      var n := local.Length(worker);
      var g := global.Length(0);
      if n == LOCAL_CAP && g == GLOBAL_CAP {
        return Trap(UNREACHABLE);
      }
      Enqueue(t);
      o := Finished(t);
    }

    method Exit() returns (o: Outcome)
      requires Valid() && Shape(View())
      modifies repr
      ensures Valid() && (View(), o) == DoExit(old(View()))
    {
      state[cur] := DONE;
      assert View() == old(View()).(state := old(View()).state[cur := DONE]);
      var h := Yield();
      o := if h == Switched then Parked else Halt;
    }

    /** One turn of the join loop. */
    method Join(t: U64) returns (o: Outcome)
      requires Valid() && Shape(View()) && t < TASKS
      modifies repr
      ensures Valid() && (View(), o) == TryJoin(old(View()), t)
    {
      if state[t] == DONE {
        state[t] := FREE;
        pend := pend[cur := Idle];
        o := Finished(0);
      } else {
        o := Wait(Joining(t));
      }
    }

    // ---- channels ----

    /** The circular scan for a channel that is not in use. */
    method FindClosed() returns (c: U64)
      requires Valid() && Shape(View())
      ensures c == FirstClosed(View().open, View().nextChan, CHANNELS)
    {
      c := chans.next;
      var tries: nat := 0;
      while tries < CHANNELS && chans.open[c] != 0
        invariant c < CHANNELS && tries <= CHANNELS
        invariant FirstClosed(View().open, View().nextChan, CHANNELS) == FirstClosed(View().open, c, CHANNELS - tries)
        decreases CHANNELS - tries
      {
        c := c + 1;
        if c == CHANNELS {
          c := 0;
        }
        tries := tries + 1;
      }
      if tries == CHANNELS {
        c := CHANNELS;
      }
    }

    method MakeChan() returns (o: Outcome)
      requires Valid() && Shape(View())
      modifies repr
      ensures Valid() && (View(), o) == DoMakeChan(old(View()))
    {
      var c := FindClosed();
      if c == CHANNELS {
        return Trap(UNREACHABLE);
      }
      chans.open[c] := 1;
      chans.msgs.Clear(c);
      chans.next := NextChan(c);
      o := Finished(c);
    }

    /** Append a message to the channel's ring. */
    method Store(c: U64, v: U64)
      requires Valid() && Shape(View()) && c < CHANNELS && |View().msgs[c]| < MSG_CAP
      modifies this`pend, this`sent, chans.msgs.repr
      ensures Valid() && View() == Stored(old(View()), c, v)
    {
      chans.msgs.Push(c, v);
      sent := sent[c := sent[c] + [v]];
      pend := pend[cur := Idle];
    }

    /** Take the oldest message off the channel's ring. */
    method Take(c: U64) returns (v: U64)
      requires Valid() && Shape(View()) && c < CHANNELS && View().msgs[c] != []
      modifies this`pend, this`got, chans.msgs.repr
      ensures Valid() && View() == Taken(old(View()), c) && v == old(View()).msgs[c][0]
    {
      v := chans.msgs.Pop(c);
      got := got[c := got[c] + [v]];
      pend := pend[cur := Idle];
    }

    method ReleaseOneReceiver(c: U64) returns (t: U64)
      requires Valid() && Shape(View()) && c < CHANNELS && View().recvq[c] != []
      modifies state, chans.recvq.repr
      ensures Valid() && View() == ReleaseReceiver(old(View()), c) && t == old(View()).recvq[c][0]
    {
      t := chans.recvq.Pop(c);
      state[t] := READY;
    }

    method ReleaseOneSender(c: U64) returns (t: U64)
      requires Valid() && Shape(View()) && c < CHANNELS && View().sendq[c] != []
      modifies state, chans.sendq.repr
      ensures Valid() && View() == ReleaseSender(old(View()), c) && t == old(View()).sendq[c][0]
    {
      t := chans.sendq.Pop(c);
      state[t] := READY;
    }

    /** Release it, and put it on the global ring if that is not full. */
    method WakeOneReceiver(c: U64) returns (woken: bool)
      requires Valid() && Shape(View()) && c < CHANNELS && View().recvq[c] != []
      modifies state, global.repr, chans.recvq.repr
      ensures Valid() && woken == (|old(View()).global| < GLOBAL_CAP)
      ensures View() == if woken then WakeReceiver(old(View()), c) else ReleaseReceiver(old(View()), c)
    {
      var t := ReleaseOneReceiver(c);
      var ready := global.Length(0);
      woken := ready != GLOBAL_CAP;
      if woken {
        global.Push(0, t);
      }
    }

    /** Release it, and put it on the global ring if that is not full. */
    method WakeOneSender(c: U64) returns (woken: bool)
      requires Valid() && Shape(View()) && c < CHANNELS && View().sendq[c] != []
      modifies state, global.repr, chans.sendq.repr
      ensures Valid() && woken == (|old(View()).global| < GLOBAL_CAP)
      ensures View() == if woken then WakeSender(old(View()), c) else ReleaseSender(old(View()), c)
    {
      var t := ReleaseOneSender(c);
      var ready := global.Length(0);
      woken := ready != GLOBAL_CAP;
      if woken {
        global.Push(0, t);
      }
    }

    /** Join the wait ring, block, and give up the processor. */
    method BlockSend(c: U64, v: U64) returns (o: Outcome)
      requires Valid() && Shape(View()) && c < CHANNELS && |View().sendq[c]| < WAIT_CAP
      modifies repr
      ensures Valid() && (View(), o) == Park(AwaitRoom(old(View()), c), Sending(c, v))
    {
      chans.sendq.Push(c, cur);
      state[cur] := BLOCKED;
      assert View() == AwaitRoom(old(View()), c);
      o := Wait(Sending(c, v));
    }

    /** One turn of the send loop. */
    method Send(c: U64, v: U64) returns (o: Outcome)
      requires Valid() && Shape(View()) && c < CHANNELS
      modifies repr
      ensures Valid() && (View(), o) == TrySend(old(View()), c, v)
      ensures o.Finished? ==> View().msgs[c] == old(View()).msgs[c] + [v]
    {
      var n := chans.msgs.Length(c);
      if n == MSG_CAP {
        var waiting := chans.sendq.Length(c);
        if waiting == WAIT_CAP {
          return Trap(UNREACHABLE);
        }
        o := BlockSend(c, v);
        return;
      }
      Store(c, v);
      var waiting := chans.recvq.Length(c);
      if waiting == 0 {
        return Finished(0);
      }
      var woken := WakeOneReceiver(c);
      return if woken then Finished(0) else Trap(TASK_QUEUE_OVERFLOW);
    }

    /** Join the wait ring, block, and give up the processor. */
    method BlockRecv(c: U64) returns (o: Outcome)
      requires Valid() && Shape(View()) && c < CHANNELS && |View().recvq[c]| < WAIT_CAP
      modifies repr
      ensures Valid() && (View(), o) == Park(AwaitMessage(old(View()), c), Receiving(c))
    {
      chans.recvq.Push(c, cur);
      state[cur] := BLOCKED;
      assert View() == AwaitMessage(old(View()), c);
      o := Wait(Receiving(c));
    }

    /** One turn of the receive loop. */
    method Recv(c: U64) returns (o: Outcome)
      requires Valid() && Shape(View()) && c < CHANNELS
      modifies repr
      ensures Valid() && (View(), o) == TryRecv(old(View()), c)
      ensures o.Finished? ==> old(View()).msgs[c] == [o.value] + View().msgs[c]
    {
      var n := chans.msgs.Length(c);
      if n == 0 {
        var waiting := chans.recvq.Length(c);
        if waiting == WAIT_CAP {
          return Trap(UNREACHABLE);
        }
        o := BlockRecv(c);
        return;
      }
      var v := Take(c);
      var waiting := chans.sendq.Length(c);
      if waiting == 0 {
        return Finished(v);
      }
      var woken := WakeOneSender(c);
      return if woken then Finished(v) else Trap(TASK_QUEUE_OVERFLOW);
    }

    /** One step of the running task. `op` is what its program does next; a task
        inside a retry loop ignores it and goes round the loop. */
    method Turn(op: Op) returns (o: Outcome)
      requires Valid() && Shape(View()) && PendingShape(View()) && pend[cur] == Idle
      modifies repr
      ensures Valid() && (View(), o) == Step(old(View()), op)
      ensures old(Inv(View())) ==> Kept((View(), o))
    {
      StepKeepsIfSound(View(), op);
      match op
      case Spawn => o := Spawn();
      case Yield => o := Wait(Idle);
      case Exit => o := Exit();
      case Join(t) => if t < TASKS { o := Join(t); } else { o := Trap(UNREACHABLE); }
      case MakeChan => o := MakeChan();
      case Send(c, v) =>
        if c < CHANNELS && chans.open[c] == 1 { o := Send(c, v); } else { o := Trap(UNREACHABLE); }
      case Recv(c) =>
        if c < CHANNELS && chans.open[c] == 1 { o := Recv(c); } else { o := Trap(UNREACHABLE); }
    }

    /** The same for a task inside a retry loop: `p` is the loop, whose registers
        the saved stack of the task keeps. */
    method Again(p: Pending, ghost op: Op) returns (o: Outcome)
      requires Valid() && Shape(View()) && PendingShape(View()) && pend[cur] == p && p != Idle
      modifies repr
      ensures Valid() && (View(), o) == Step(old(View()), op)
      ensures old(Inv(View())) ==> Kept((View(), o))
    {
      StepKeepsIfSound(View(), op);
      assert LoopShape(View(), cur);
      match p
      case Joining(t) => o := Join(t);
      case Sending(c, v) => o := Send(c, v);
      case Receiving(c) => o := Recv(c);
    }
  }
}
