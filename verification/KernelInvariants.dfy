// Every step of a run that obeys the reply rule keeps the kernel's invariants.
module KernelInvariants {
  import opened KernelState
  import opened KernelRuns

  // ---- Scheduling ----

  // The search stops at the nearest Ready process.
  lemma {:induction false} SearchFinds(k: Kernel, i: nat, d: nat, e: nat) returns (f: nat)
    requires i < |k.order| && 0 < d <= e < |k.order| && IsReady(k, Around(k.order, i, e))
    ensures d <= f <= e && Search(k, i, d) == Around(k.order, i, f) && IsReady(k, Around(k.order, i, f))
    ensures forall g :: d <= g < f ==> !IsReady(k, Around(k.order, i, g))
    decreases e - d
  {
    if IsReady(k, Around(k.order, i, d)) { f := d; } else { f := SearchFinds(k, i, d + 1, e); }
  }

  // Places after position i at which j is found.
  function Distance(n: nat, i: nat, j: nat): (d: nat)
    requires i < n && j < n
    ensures d < n && (d == 0 <==> i == j)
  {
    if i <= j then j - i else j + n - i
  }

  // No process is Running and the kernel task can take over.
  ghost predicate MustSwitch(k: Kernel) {
    && Shaped(k) && k.current != 0 && 0 in k.procs && k.procs[0].state == Ready
    && forall p :: p in k.procs ==> k.procs[p].state != Running && k.procs[p].state != Empty
  }

  // The kernel task is Ready, so another process is always found.
  lemma NextIsAnother(k: Kernel)
    requires Listed(k) && k.current != 0 && IsReady(k, 0)
    ensures NextReady(k) != k.current && IsReady(k, NextReady(k)) && 2 <= |k.order|
  {
    var i := IndexOf(k.order, k.current);
    assert Around(k.order, i, |k.order| - i) == 0;
    var f := SearchFinds(k, i, 1, |k.order| - i);
    assert Around(k.order, i, f) != k.order[i];
  }

  // Only the states Ready and Running of some processes, the current pid and the tick count differ.
  ghost predicate OnlyRunnable(k: Kernel, r: Kernel) {
    && r == k.(procs := r.procs, current := r.current, ticks := r.ticks)
    && r.procs.Keys == k.procs.Keys
    && forall p :: p in k.procs ==>
         && r.procs[p] == k.procs[p].(state := r.procs[p].state)
         && (r.procs[p].state == k.procs[p].state || (CanRun(r.procs[p].state) && CanRun(k.procs[p].state)))
  }

  lemma RescheduleSwitches(k: Kernel)
    requires MustSwitch(k)
    ensures var r := Reschedule(k);
      && Shaped(r) && OneRunning(r) && OnlyRunnable(k, r) && r.current != k.current && IsReady(k, r.current)
  {
    NextIsAnother(k);
  }

  // Giving the CPU to next when no other process is Running.
  lemma SwitchRuns(k: Kernel, next: nat)
    requires Shaped(k) && next in k.procs && CanRun(k.procs[next].state) && 0 in k.procs && CanRun(k.procs[0].state)
    requires forall p :: p in k.procs && p != next ==> k.procs[p].state != Running && k.procs[p].state != Empty
    ensures var r := SwitchTo(k, next).(ticks := 0); Shaped(r) && OneRunning(r) && OnlyRunnable(k, r)
  {
  }

  lemma NothingMissedFrame(k: Kernel, r: Kernel)
    requires OnlyRunnable(k, r) && |k.forward| == |k.pending| && NothingMissed(k)
    ensures NothingMissed(r)
  {
  }

  lemma WaitsFrame(k: Kernel, r: Kernel)
    requires OnlyRunnable(k, r) && WaitsOnLive(k)
    ensures WaitsOnLive(r)
  {
  }

  lemma PlacedFrame(k: Kernel, r: Kernel, place: map<nat, Place>)
    requires OnlyRunnable(k, r) && SendersPlaced(k, place)
    ensures SendersPlaced(r, place)
  {
    forall q | q in r.procs ensures QueueIsPlaced(q, r.procs[q].sendQueue, place) {
      assert r.procs[q].sendQueue == k.procs[q].sendQueue;
    }
  }

  // ---- Small changes to one process ----

  lemma SetShape(k: Kernel, pid: nat, n: Proc)
    requires Shaped(k) && pid in k.procs
    ensures Shaped(SetProc(k, pid, n)) && SetProc(k, pid, n).procs.Keys == k.procs.Keys
  {
  }

  lemma SetRuns(k: Kernel, pid: nat, n: Proc)
    requires Shaped(k) && OneRunning(k) && pid in k.procs
    requires n.state == k.procs[pid].state || (pid != k.current && n.state == Ready)
    ensures OneRunning(SetProc(k, pid, n))
  {
    var r := SetProc(k, pid, n);
    forall p | p in r.procs ensures RunsIffCurrent(p, r.procs[p], r.current) {
      assert RunsIffCurrent(p, k.procs[p], k.current);
    }
  }

  lemma SetReceiver(k: Kernel, pid: nat, n: Proc)
    requires Shaped(k) && NothingMissed(k) && pid in k.procs && MissesNothing(pid, n, k.forward, k.pending)
    ensures NothingMissed(SetProc(k, pid, n))
  {
    var r := SetProc(k, pid, n);
    forall p | p in r.procs ensures MissesNothing(p, r.procs[p], r.forward, r.pending) {
      if p != pid { assert MissesNothing(p, k.procs[p], k.forward, k.pending); }
    }
  }

  lemma SetWaiter(k: Kernel, pid: nat, n: Proc)
    requires Shaped(k) && WaitsOnLive(k) && pid in k.procs && WaitsOnOneOf(n, k.procs.Keys)
    ensures WaitsOnLive(SetProc(k, pid, n))
  {
    var r := SetProc(k, pid, n);
    SetShape(k, pid, n);
    forall p | p in r.procs ensures WaitsOnOneOf(r.procs[p], r.procs.Keys) {
      if p != pid { assert WaitsOnOneOf(k.procs[p], k.procs.Keys); }
    }
  }

  lemma SetSender(k: Kernel, pid: nat, n: Proc, place: map<nat, Place>)
    requires SendersPlaced(k, place) && pid in k.procs
    requires n.sendQueue == k.procs[pid].sendQueue && BlockedIffPlaced(pid, n, place)
    ensures SendersPlaced(SetProc(k, pid, n), place)
  {
    var r := SetProc(k, pid, n);
    forall p | p in r.procs ensures BlockedIffPlaced(p, r.procs[p], place) {
      if p != pid { assert BlockedIffPlaced(p, k.procs[p], place); }
    }
    forall q | q in r.procs ensures QueueIsPlaced(q, r.procs[q].sendQueue, place) {
      assert QueueIsPlaced(q, k.procs[q].sendQueue, place);
    }
  }

  // A process is changed without touching its send queue or its being a blocked sender.
  lemma SetSound(k: Kernel, pid: nat, n: Proc, place: map<nat, Place>)
    requires Sound(k, place) && pid in k.procs
    requires n.sendQueue == k.procs[pid].sendQueue && BlockedIffPlaced(pid, n, place)
    requires MissesNothing(pid, n, k.forward, k.pending) && WaitsOnOneOf(n, k.procs.Keys)
    ensures Sound(SetProc(k, pid, n), place)
  {
    SetShape(k, pid, n);
    SetReceiver(k, pid, n);
    SetWaiter(k, pid, n);
    SetSender(k, pid, n, place);
  }

  // The caller has been set to a blocked state.
  lemma CallerBlocked(k: Kernel, n: Proc)
    requires Shaped(k) && OneRunning(k) && k.current != 0 && !CanRun(n.state) && n.state != Empty
    ensures MustSwitch(SetProc(k, k.current, n))
  {
    SetShape(k, k.current, n);
    var r := SetProc(k, k.current, n);
    assert RunsIffCurrent(0, k.procs[0], k.current);
    forall p | p in r.procs ensures r.procs[p].state != Running && r.procs[p].state != Empty {
      assert RunsIffCurrent(p, k.procs[p], k.current);
    }
  }

  lemma OnlyRunnableTrans(k: Kernel, d: Kernel, r: Kernel)
    requires OnlyRunnable(k, d) && OnlyRunnable(d, r)
    ensures OnlyRunnable(k, r)
  {
  }

  // The current process set back to Ready before the search.
  lemma Demoted(k: Kernel)
    requires Shaped(k) && OneRunning(k)
    ensures var d := SetProc(k, k.current, Me(k).(state := Ready));
      && Shaped(d) && OnlyRunnable(k, d) && 0 in d.procs && CanRun(d.procs[0].state) && IsReady(d, k.current)
      && forall p :: p in d.procs ==> d.procs[p].state != Running && d.procs[p].state != Empty
  {
    SetShape(k, k.current, Me(k).(state := Ready));
    var d := SetProc(k, k.current, Me(k).(state := Ready));
    assert RunsIffCurrent(k.current, Me(k), k.current);
    forall p | p in d.procs ensures d.procs[p].state != Running && d.procs[p].state != Empty {
      assert RunsIffCurrent(p, k.procs[p], k.current);
    }
  }

  lemma ScheduleRuns(k: Kernel)
    requires Shaped(k) && OneRunning(k)
    ensures var r := Schedule(k); Shaped(r) && OneRunning(r) && OnlyRunnable(k, r)
  {
    if |k.order| > 1 && k.ticks + 1 >= TIME_SLICE {
      Demoted(k);
      var d := SetProc(k, k.current, Me(k).(state := Ready));
      var next := NextReady(d);
      assert IsReady(d, next);
      SwitchRuns(d, next);
      var r := SwitchTo(d, next).(ticks := 0);
      OnlyRunnableTrans(k, d, r);
      assert RunsIffCurrent(k.current, Me(k), k.current);
      assert Schedule(k) == r;
    }
  }

  // ---- Blocking and waking senders ----

  lemma CallerNotPlaced(k: Kernel, place: map<nat, Place>)
    requires Shaped(k) && OneRunning(k) && SendersPlaced(k, place)
    ensures k.current !in place
  {
    assert RunsIffCurrent(k.current, Me(k), k.current) && BlockedIffPlaced(k.current, Me(k), place);
  }

  // The caller becomes a sender whose message the target has.
  lemma PlaceHanded(k: Kernel, c: nat, n: Proc, target: nat, place: map<nat, Place>)
    requires SendersPlaced(k, place) && c in k.procs && c !in place
    requires n.state == SendBlocked && n.sendQueue == k.procs[c].sendQueue
    ensures SendersPlaced(SetProc(k, c, n), place[c := Handed(target)])
  {
    var r, place' := SetProc(k, c, n), place[c := Handed(target)];
    forall p | p in r.procs ensures BlockedIffPlaced(p, r.procs[p], place') {
      if p != c { assert BlockedIffPlaced(p, k.procs[p], place); }
    }
    forall q | q in r.procs ensures QueueIsPlaced(q, r.procs[q].sendQueue, place') {
      assert QueueIsPlaced(q, k.procs[q].sendQueue, place);
    }
  }

  lemma QueueGrows(queue: seq<nat>, q: nat, c: nat, target: nat, place: map<nat, Place>)
    requires QueueIsPlaced(q, queue, place) && c !in place
    ensures QueueIsPlaced(q, if q == target then queue + [c] else queue, place[c := Queued(target)])
  {
    assert c !in queue;
  }

  // The caller joins the target's send queue.
  lemma PlaceQueued(k: Kernel, c: nat, n: Proc, target: nat, t: Proc, place: map<nat, Place>)
    requires SendersPlaced(k, place) && c in k.procs && c !in place && target in k.procs && target != c
    requires n.state == SendBlocked && n.sendQueue == k.procs[c].sendQueue
    requires t == k.procs[target].(sendQueue := k.procs[target].sendQueue + [c])
    ensures SendersPlaced(SetProc(SetProc(k, c, n), target, t), place[c := Queued(target)])
  {
    var r, place' := SetProc(SetProc(k, c, n), target, t), place[c := Queued(target)];
    forall p | p in r.procs ensures BlockedIffPlaced(p, r.procs[p], place') {
      if p != c { assert BlockedIffPlaced(p, k.procs[p], place); }
    }
    forall q | q in r.procs ensures QueueIsPlaced(q, r.procs[q].sendQueue, place') {
      assert QueueIsPlaced(q, k.procs[q].sendQueue, place);
      QueueGrows(k.procs[q].sendQueue, q, c, target, place);
    }
  }

  lemma QueueShrinks(queue: seq<nat>, q: nat, c: nat, place: map<nat, Place>)
    requires QueueIsPlaced(q, queue, place) && queue != []
    ensures QueueIsPlaced(q, queue[1..], place[queue[0] := Handed(c)])
  {
    assert queue == [queue[0]] + queue[1..];
  }

  // The first queued sender is handed to the process that queued it.
  lemma PlacePopped(k: Kernel, c: nat, n: Proc, place: map<nat, Place>)
    requires SendersPlaced(k, place) && c in k.procs && k.procs[c].sendQueue != []
    requires n.state == k.procs[c].state && n.sendQueue == k.procs[c].sendQueue[1..]
    ensures k.procs[c].sendQueue[0] in place && place[k.procs[c].sendQueue[0]] == Queued(c)
    ensures SendersPlaced(SetProc(k, c, n), place[k.procs[c].sendQueue[0] := Handed(c)])
  {
    var queue := k.procs[c].sendQueue;
    var head := queue[0];
    assert QueueIsPlaced(c, queue, place);
    assert head in queue;
    var r, place' := SetProc(k, c, n), place[head := Handed(c)];
    forall p | p in r.procs ensures BlockedIffPlaced(p, r.procs[p], place') {
      assert BlockedIffPlaced(p, k.procs[p], place);
    }
    forall q | q in r.procs ensures QueueIsPlaced(q, r.procs[q].sendQueue, place') {
      assert QueueIsPlaced(q, k.procs[q].sendQueue, place);
      if q == c { QueueShrinks(queue, q, c, place); }
    }
  }

  // A sender that was owed a reply is Ready again.
  lemma PlaceReplied(k: Kernel, t: nat, n: Proc, place: map<nat, Place>)
    requires SendersPlaced(k, place) && t in k.procs && t in place && place[t].Handed?
    requires n.state == Ready && n.sendQueue == k.procs[t].sendQueue
    ensures SendersPlaced(SetProc(k, t, n), place - {t})
  {
    var r, place' := SetProc(k, t, n), place - {t};
    forall p | p in r.procs ensures BlockedIffPlaced(p, r.procs[p], place') {
      assert BlockedIffPlaced(p, k.procs[p], place);
    }
    forall q | q in r.procs ensures QueueIsPlaced(q, r.procs[q].sendQueue, place') {
      assert QueueIsPlaced(q, k.procs[q].sendQueue, place);
    }
  }

  // ---- The calls ----

  lemma ReturnKeeps(k: Kernel, n: Proc, place: map<nat, Place>)
    requires Sound(k, place) && OneRunning(k)
    requires n.state == Me(k).state && n.sendQueue == Me(k).sendQueue
    ensures Sound(SetProc(k, k.current, n), place) && OneRunning(SetProc(k, k.current, n))
  {
    assert RunsIffCurrent(k.current, Me(k), k.current) && BlockedIffPlaced(k.current, Me(k), place);
    SetSound(k, k.current, n, place);
    SetRuns(k, k.current, n);
  }

  // A process waiting in receive is made Ready.
  lemma WakeKeeps(k: Kernel, t: nat, n: Proc, place: map<nat, Place>)
    requires Sound(k, place) && t in k.procs && k.procs[t].state == ReceiveBlocked
    requires n.state == Ready && n.sendQueue == k.procs[t].sendQueue
    ensures Sound(SetProc(k, t, n), place)
    ensures OneRunning(k) ==> t != k.current && OneRunning(SetProc(k, t, n))
  {
    assert BlockedIffPlaced(t, k.procs[t], place);
    SetSound(k, t, n, place);
    if OneRunning(k) {
      assert RunsIffCurrent(t, k.procs[t], k.current);
      SetRuns(k, t, n);
    }
  }

  // After a call that leaves the caller Running or suspended: the step is finished.
  lemma ResumedKeeps(k: Kernel, place: map<nat, Place>)
    requires Sound(k, place) && ((OneRunning(k) && Me(k).state == Running) || (MustSwitch(k) && Me(k).state != Running))
    ensures Sound(Resumed(k), place) && OneRunning(Resumed(k))
  {
    if Me(k).state != Running {
      RescheduleSwitches(k);
      var r := Reschedule(k);
      NothingMissedFrame(k, r);
      WaitsFrame(k, r);
      PlacedFrame(k, r, place);
    }
  }

  lemma ResumedRunnable(k: Kernel, place: map<nat, Place>)
    requires Finished(k, place)
    ensures OnlyRunnable(k, Resumed(k))
  {
    if Me(k).state != Running { RescheduleSwitches(k); }
  }

  ghost predicate Finished(k: Kernel, place: map<nat, Place>) {
    Sound(k, place) && ((OneRunning(k) && Me(k).state == Running) || (MustSwitch(k) && Me(k).state != Running))
  }

  lemma SendKeeps(s: Sys, op: Op)
    requires Inv(s) && op.OpSend? && s.k.current != 0
    ensures Finished(Send(s.k, op.target, op.call, op.room), Places(s, op))
  {
    var k, c, t := s.k, s.k.current, op.target;
    var me := Outgoing(Me(k), op.call);
    assert RunsIffCurrent(c, Me(k), c);
    CallerNotPlaced(k, s.place);
    if !SendBlocks(k, t, op.room) {
      ReturnKeeps(k, Me(k).(eax := -1), s.place);
      ReturnKeeps(k, me.(eax := -1), s.place);
    } else if k.procs[t].state == ReceiveBlocked {
      SendDirect(k, t, me.(state := SendBlocked), Woken(k.procs[t], me.msg, Payload(me), c), s.place);
    } else {
      SendQueued(k, t, me, s.place);
    }
  }

  lemma SetsCommute(k: Kernel, a: nat, x: Proc, b: nat, y: Proc)
    requires a != b
    ensures SetProc(SetProc(k, a, x), b, y) == SetProc(SetProc(k, b, y), a, x)
  {
    assert k.procs[a := x][b := y] == k.procs[b := y][a := x];
  }

  lemma MustSwitchStays(k: Kernel, pid: nat, n: Proc)
    requires MustSwitch(k) && pid in k.procs && n.state == k.procs[pid].state
    ensures MustSwitch(SetProc(k, pid, n))
  {
    SetShape(k, pid, n);
  }

  lemma HandCaller(k: Kernel, n: Proc, t: nat, place: map<nat, Place>)
    requires Sound(k, place) && OneRunning(k) && k.current != 0 && k.current !in place
    requires n.sendQueue == Me(k).sendQueue && n.state == SendBlocked
    ensures Finished(SetProc(k, k.current, n), place[k.current := Handed(t)])
  {
    SetShape(k, k.current, n);
    SetReceiver(k, k.current, n);
    SetWaiter(k, k.current, n);
    PlaceHanded(k, k.current, n, t, place);
    CallerBlocked(k, n);
  }

  lemma SendDirect(k: Kernel, t: nat, n: Proc, w: Proc, place: map<nat, Place>)
    requires Sound(k, place) && OneRunning(k) && k.current != 0 && k.current !in place
    requires t in k.procs && t != k.current && k.procs[t].state == ReceiveBlocked
    requires n.sendQueue == Me(k).sendQueue && n.state == SendBlocked
    requires w.sendQueue == k.procs[t].sendQueue && w.state == Ready
    ensures Finished(SetProc(SetProc(k, k.current, n), t, w), place[k.current := Handed(t)])
  {
    WakeKeeps(k, t, w, place);
    HandCaller(SetProc(k, t, w), n, t, place);
    SetsCommute(k, k.current, n, t, w);
  }

  lemma SendQueued(k: Kernel, t: nat, me: Proc, place: map<nat, Place>)
    requires Sound(k, place) && OneRunning(k) && k.current != 0 && k.current !in place
    requires t in k.procs && t != k.current && k.procs[t].state != ReceiveBlocked && me.sendQueue == Me(k).sendQueue
    ensures Finished(SetProc(SetProc(k, k.current, me.(state := SendBlocked)), t,
                             k.procs[t].(sendQueue := k.procs[t].sendQueue + [k.current])),
                     place[k.current := Queued(t)])
  {
    var n, w := me.(state := SendBlocked), k.procs[t].(sendQueue := k.procs[t].sendQueue + [k.current]);
    CallerBlocked(k, n);
    SetReceiver(k, k.current, n);
    SetWaiter(k, k.current, n);
    var a := SetProc(k, k.current, n);
    MustSwitchStays(a, t, w);
    SetReceiver(a, t, w);
    assert WaitsOnOneOf(k.procs[t], k.procs.Keys);
    SetWaiter(a, t, w);
    PlaceQueued(k, k.current, n, t, w, place);
  }

  lemma ReceiveKeeps(s: Sys, op: Op)
    requires Inv(s) && op.OpReceive? && s.k.current != 0
    ensures Finished(Receive(s.k, op.call), Places(s, op))
  {
    var k, c, a := s.k, s.k.current, op.call;
    var me := Me(k).(dataPtr := a.dataPtr, dataLen := a.dataLen);
    assert RunsIffCurrent(c, Me(k), c);
    match Incoming(k)
    case FromIrq(i) =>
      ReturnKeeps(k, me.(mem := Poke(me.mem, a.msgPtr, IrqMessage(i)), eax := 0), s.place);
      FlagCleared(SetProc(k, c, me.(mem := Poke(me.mem, a.msgPtr, IrqMessage(i)), eax := 0)), i, s.place);
    case FromNote =>
      ReturnKeeps(k, Me(Receive(k, a)), s.place);
    case FromSender(p) =>
      ReceivePops(k, Me(Receive(k, a)), p, s.place);
    case FromNone =>
      CallerWaits(k, Me(Receive(k, a)), s.place);
  }

  lemma FlagCleared(k: Kernel, i: nat, place: map<nat, Place>)
    requires Sound(k, place) && OneRunning(k) && i < IRQ_COUNT
    ensures Sound(k.(pending := k.pending[i := false]), place) && OneRunning(k.(pending := k.pending[i := false]))
  {
    var r := k.(pending := k.pending[i := false]);
    forall p | p in r.procs ensures MissesNothing(p, r.procs[p], r.forward, r.pending) {
      assert MissesNothing(p, k.procs[p], k.forward, k.pending);
    }
  }

  lemma ReceivePops(k: Kernel, n: Proc, p: nat, place: map<nat, Place>)
    requires Sound(k, place) && OneRunning(k) && Me(k).sendQueue != [] && p == Me(k).sendQueue[0]
    requires n.state == Me(k).state && n.sendQueue == Me(k).sendQueue[1..]
    ensures Live(k, p) && Sound(SetProc(k, k.current, n), place[p := Handed(k.current)])
    ensures OneRunning(SetProc(k, k.current, n))
  {
    assert RunsIffCurrent(k.current, Me(k), k.current);
    PlacePopped(k, k.current, n, place);
    assert RunsIffCurrent(p, k.procs[p], k.current);
    SetShape(k, k.current, n);
    SetReceiver(k, k.current, n);
    SetWaiter(k, k.current, n);
    SetRuns(k, k.current, n);
  }

  lemma CallerWaits(k: Kernel, n: Proc, place: map<nat, Place>)
    requires Sound(k, place) && OneRunning(k) && k.current != 0 && n.sendQueue == Me(k).sendQueue
    requires !CanRun(n.state) && n.state != Empty && n.state != SendBlocked
    requires MissesNothing(k.current, n, k.forward, k.pending) && WaitsOnOneOf(n, k.procs.Keys)
    ensures Finished(SetProc(k, k.current, n), place)
  {
    CallerNotPlaced(k, place);
    SetSound(k, k.current, n, place);
    CallerBlocked(k, n);
  }

  lemma WaitKeeps(s: Sys, op: Op)
    requires Inv(s) && op.OpWait? && s.k.current != 0
    ensures Finished(Wait(s.k, op.target), Places(s, op))
  {
    var k := s.k;
    assert RunsIffCurrent(k.current, Me(k), k.current);
    if Addressable(k, op.target) {
      CallerWaits(k, Me(k).(waitPid := op.target, state := WaitBlocked), s.place);
    } else {
      ReturnKeeps(k, Me(k).(eax := -1), s.place);
    }
  }

  lemma NotifyKeeps(s: Sys, op: Op)
    requires Inv(s) && op.OpNotify? && s.k.current != 0
    ensures Finished(Notify(s.k, op.target, op.call, op.room), Places(s, op))
  {
    var k, t := s.k, op.target;
    var msg, data := Message(Me(k), op.call), Data(Me(k), op.call);
    assert RunsIffCurrent(k.current, Me(k), k.current);
    if !SendBlocks(k, t, op.room) {
      ReturnKeeps(k, Me(k).(eax := -1), s.place);
    } else {
      var n := if k.procs[t].state == ReceiveBlocked then Woken(k.procs[t], msg, data, 0)
               else k.procs[t].(notifyQueue := k.procs[t].notifyQueue + [Note(k.current, msg, data)]);
      assert BlockedIffPlaced(t, k.procs[t], s.place) && WaitsOnOneOf(k.procs[t], k.procs.Keys);
      assert RunsIffCurrent(t, k.procs[t], k.current);
      SetSound(k, t, n, s.place);
      SetRuns(k, t, n);
      var a := SetProc(k, t, n);
      ReturnKeeps(a, Me(a).(eax := 0), s.place);
    }
  }

  lemma ReplyKeeps(s: Sys, op: Op)
    requires Inv(s) && op.OpReply? && s.k.current != 0 && Rule(s, op)
    ensures Finished(Reply(s.k, op.target, op.call), Places(s, op))
  {
    var k, t := s.k, op.target;
    assert RunsIffCurrent(k.current, Me(k), k.current);
    if !Repliable(k, t) {
      ReturnKeeps(k, Me(k).(eax := -1), s.place);
    } else {
      var n := Woken(k.procs[t], Message(Me(k), op.call), Data(Me(k), op.call), 0);
      PlaceReplied(k, t, n, s.place);
      SetShape(k, t, n);
      SetReceiver(k, t, n);
      SetWaiter(k, t, n);
      SetRuns(k, t, n);
      var a := SetProc(k, t, n);
      ReturnKeeps(a, Me(a).(eax := 0), s.place - {t});
    }
  }

  // ---- Exit ----

  // The kernel after the current process has been destroyed and next made current.
  function Left(k: Kernel, next: nat): Kernel
    requires Listed(k) && k.current != 0
  {
    Destroy(k, k.current).(current := next)
  }

  lemma LeftShaped(k: Kernel, next: nat)
    requires Shaped(k) && OneRunning(k) && k.current != 0 && next in k.procs && next != k.current
    ensures Shaped(Left(k, next)) && Left(k, next).procs.Keys == k.procs.Keys - {k.current}
  {
    RemoveListed(k.order, k.current);
  }

  lemma LeftStates(k: Kernel, next: nat)
    requires Shaped(k) && OneRunning(k) && k.current != 0 && IsReady(k, next)
    ensures var e := Left(k, next);
      && next in e.procs && CanRun(e.procs[next].state) && 0 in e.procs && CanRun(e.procs[0].state)
      && forall p :: p in e.procs ==> e.procs[p].state != Running && e.procs[p].state != Empty
  {
    var e := Left(k, next);
    assert RunsIffCurrent(next, k.procs[next], k.current) && RunsIffCurrent(0, k.procs[0], k.current);
    forall p | p in e.procs ensures e.procs[p].state != Running && e.procs[p].state != Empty {
      assert RunsIffCurrent(p, k.procs[p], k.current);
    }
  }

  lemma LeftReceivers(k: Kernel, next: nat)
    requires Shaped(k) && NothingMissed(k) && k.current != 0
    ensures NothingMissed(Left(k, next))
  {
    var e := Left(k, next);
    forall p | p in e.procs ensures MissesNothing(p, e.procs[p], e.forward, e.pending) {
      assert MissesNothing(p, k.procs[p], k.forward, k.pending);
    }
  }

  lemma LeftWaiters(k: Kernel, next: nat)
    requires Shaped(k) && WaitsOnLive(k) && k.current != 0
    ensures WaitsOnLive(Left(k, next))
  {
    var e := Left(k, next);
    forall p | p in e.procs ensures WaitsOnOneOf(e.procs[p], e.procs.Keys) {
      assert WaitsOnOneOf(k.procs[p], k.procs.Keys);
    }
  }

  lemma LeftSenders(k: Kernel, next: nat, place: map<nat, Place>)
    requires Shaped(k) && OneRunning(k) && SendersPlaced(k, place) && k.current != 0
    ensures SendersPlaced(Left(k, next), map p | p in place && place[p] != Queued(k.current) :: place[p])
  {
    var e, c := Left(k, next), k.current;
    var place' := map p | p in place && place[p] != Queued(c) :: place[p];
    CallerNotPlaced(k, place);
    assert QueueIsPlaced(c, Me(k).sendQueue, place);
    forall p | p in e.procs ensures BlockedIffPlaced(p, e.procs[p], place') {
      assert BlockedIffPlaced(p, k.procs[p], place);
    }
    forall q | q in e.procs ensures QueueIsPlaced(q, e.procs[q].sendQueue, place') {
      assert QueueIsPlaced(q, k.procs[q].sendQueue, place);
      assert e.procs[q].sendQueue == k.procs[q].sendQueue;
    }
  }

  // The process that gets the CPU is another, live, Ready one.
  lemma ExitSwitches(k: Kernel)
    requires Shaped(k) && OneRunning(k) && k.current != 0
    ensures ExitTarget(k) == NextReady(k) != k.current && IsReady(k, ExitTarget(k))
  {
    assert RunsIffCurrent(0, k.procs[0], k.current);
    NextIsAnother(k);
  }

  lemma LeftSound(k: Kernel, next: nat, place: map<nat, Place>)
    requires Sound(k, place) && OneRunning(k) && k.current != 0 && IsReady(k, next)
    ensures Sound(Left(k, next), map p | p in place && place[p] != Queued(k.current) :: place[p])
  {
    assert RunsIffCurrent(next, k.procs[next], k.current);
    LeftShaped(k, next);
    LeftReceivers(k, next);
    LeftWaiters(k, next);
    LeftSenders(k, next, place);
  }

  lemma SwitchSound(k: Kernel, next: nat, place: map<nat, Place>)
    requires Sound(k, place) && next in k.procs && CanRun(k.procs[next].state) && 0 in k.procs
      && CanRun(k.procs[0].state)
    requires forall p :: p in k.procs && p != next ==> k.procs[p].state != Running && k.procs[p].state != Empty
    ensures var r := SwitchTo(k, next).(ticks := 0); Sound(r, place) && OneRunning(r)
  {
    SwitchRuns(k, next);
    var r := SwitchTo(k, next).(ticks := 0);
    NothingMissedFrame(k, r);
    WaitsFrame(k, r);
    PlacedFrame(k, r, place);
  }

  lemma ExitedIsSwitch(k: Kernel)
    requires Shaped(k) && OneRunning(k) && k.current != 0
    ensures IsReady(k, ExitTarget(k)) && ExitTarget(k) in Left(k, ExitTarget(k)).procs
    ensures Exited(k) == SwitchTo(Left(k, ExitTarget(k)), ExitTarget(k)).(ticks := 0)
  {
    ExitSwitches(k);
  }

  lemma ExitKeeps(k: Kernel, place: map<nat, Place>)
    requires Sound(k, place) && OneRunning(k) && k.current != 0
    ensures var place' := map p | p in place && place[p] != Queued(k.current) :: place[p];
      Sound(Exited(k), place') && OneRunning(Exited(k))
  {
    var next := ExitTarget(k);
    ExitedIsSwitch(k);
    LeftSound(k, next, place);
    LeftStates(k, next);
    SwitchSound(Left(k, next), next, map p | p in place && place[p] != Queued(k.current) :: place[p]);
  }

  // ---- Other steps ----

  lemma ExecKeeps(k: Kernel, mem: Memory, place: map<nat, Place>)
    requires Sound(k, place) && OneRunning(k)
    ensures Sound(Create(k, mem), place) && OneRunning(Create(k, mem))
  {
    var r := Create(k, mem);
    CreateShaped(k, mem);
    forall p | p in r.procs ensures RunsIffCurrent(p, r.procs[p], r.current)
      && MissesNothing(p, r.procs[p], r.forward, r.pending)
      && WaitsOnOneOf(r.procs[p], r.procs.Keys)
    {
      if p != k.nextPid {
        assert RunsIffCurrent(p, k.procs[p], k.current) && MissesNothing(p, k.procs[p], k.forward, k.pending);
        assert WaitsOnOneOf(k.procs[p], k.procs.Keys);
      }
    }
    CreateSenders(k, mem, place);
  }

  lemma CreateShaped(k: Kernel, mem: Memory)
    requires Shaped(k)
    ensures Shaped(Create(k, mem)) && k.nextPid !in k.procs
  {
    assert k.nextPid !in k.order;
  }

  lemma CreateSenders(k: Kernel, mem: Memory, place: map<nat, Place>)
    requires Shaped(k) && SendersPlaced(k, place)
    ensures SendersPlaced(Create(k, mem), place)
  {
    var r := Create(k, mem);
    forall p | p in r.procs ensures BlockedIffPlaced(p, r.procs[p], place) {
      if p != k.nextPid { assert BlockedIffPlaced(p, k.procs[p], place); }
    }
    forall q | q in r.procs ensures QueueIsPlaced(q, r.procs[q].sendQueue, place) {
      if q != k.nextPid { assert QueueIsPlaced(q, k.procs[q].sendQueue, place); }
    }
  }

  // Registering for an IRQ: the registrant is running, not waiting in receive.
  lemma RegisterKeeps(k: Kernel, irq: nat, place: map<nat, Place>)
    requires Sound(k, place) && OneRunning(k) && irq < IRQ_COUNT
    ensures Sound(k.(forward := k.forward[irq := k.current]), place)
    ensures OneRunning(k.(forward := k.forward[irq := k.current]))
  {
    var r := k.(forward := k.forward[irq := k.current]);
    forall p | p in r.procs ensures MissesNothing(p, r.procs[p], r.forward, r.pending) {
      assert RunsIffCurrent(p, k.procs[p], k.current) && MissesNothing(p, k.procs[p], k.forward, k.pending);
    }
  }

  lemma ForwardKeeps(k: Kernel, irq: nat, place: map<nat, Place>)
    requires Sound(k, place) && OneRunning(k) && irq < IRQ_COUNT
    ensures Sound(ForwardIrq(k, irq), place) && OneRunning(ForwardIrq(k, irq))
  {
    var t := k.forward[irq];
    if t != 0 && Live(k, t) {
      if k.procs[t].state == ReceiveBlocked {
        WakeKeeps(k, t, k.procs[t].(mem := Poke(k.procs[t].mem, k.procs[t].msgPtr, IrqMessage(irq)), eax := 0,
          state := Ready), place);
      } else {
        var r := k.(pending := k.pending[irq := true]);
        forall p | p in r.procs ensures MissesNothing(p, r.procs[p], r.forward, r.pending) {
          assert MissesNothing(p, k.procs[p], k.forward, k.pending);
        }
      }
    }
  }

  // ---- Every step, every run ----

  lemma CallKeeps(s: Sys, op: Op)
    requires Inv(s) && Enabled(s, op) && Rule(s, op)
    requires op.OpSend? || op.OpReceive? || op.OpReply? || op.OpNotify? || op.OpWait?
    ensures Inv(Step(s, op))
  {
    match op {
      case OpSend(_, _, _) => SendKeeps(s, op);
      case OpReceive(_) => ReceiveKeeps(s, op);
      case OpReply(_, _) => ReplyKeeps(s, op);
      case OpNotify(_, _, _) => NotifyKeeps(s, op);
      case OpWait(_) => WaitKeeps(s, op);
    }
    ResumedKeeps(Called(s.k, op), Places(s, op));
  }

  lemma IrqKeeps(k: Kernel, irq: nat, place: map<nat, Place>)
    requires Sound(k, place) && OneRunning(k) && irq < IRQ_COUNT
    ensures Sound(Interrupted(k, irq), place) && OneRunning(Interrupted(k, irq))
  {
    var d := if irq == 0 then Schedule(k) else k;
    if irq == 0 {
      ScheduleRuns(k);
      NothingMissedFrame(k, d);
      WaitsFrame(k, d);
      PlacedFrame(k, d, place);
    }
    ForwardKeeps(d, irq, place);
  }

  lemma RegisterStepKeeps(k: Kernel, number: nat, place: map<nat, Place>)
    requires Sound(k, place) && OneRunning(k)
    ensures Sound(RegisterIrq(k, number), place) && OneRunning(RegisterIrq(k, number))
  {
    var irq := number % 0x100;
    if irq < IRQ_COUNT {
      RegisterKeeps(k, irq, place);
      ReturnKeeps(k.(forward := k.forward[irq := k.current]), Me(k).(eax := 0), place);
    } else {
      ReturnKeeps(k, Me(k).(eax := -1), place);
    }
  }

  lemma ExecStepKeeps(k: Kernel, mem: Memory, loaded: bool, place: map<nat, Place>)
    requires Sound(k, place) && OneRunning(k)
    ensures Sound(Executed(k, mem, loaded), place) && OneRunning(Executed(k, mem, loaded))
  {
    ReturnKeeps(k, Me(k).(eax := if loaded then k.nextPid else 0), place);
    if loaded { ExecKeeps(Return(k, k.nextPid), mem, place); }
  }

  // Every step that obeys the reply rule keeps the invariants.
  lemma StepKeeps(s: Sys, op: Op)
    requires Inv(s) && Enabled(s, op) && Rule(s, op)
    ensures Inv(Step(s, op))
  {
    if op.OpExit? {
      ExitKeeps(s.k, s.place);
    } else if op.OpExec? {
      ExecStepKeeps(s.k, op.mem, op.loaded, s.place);
    } else if op.OpRegister? {
      RegisterStepKeeps(s.k, op.irq, s.place);
    } else if op.OpIrq? {
      IrqKeeps(s.k, op.irq, s.place);
    } else if op.OpCompute? {
      ReturnKeeps(s.k, Me(s.k).(mem := op.mem), s.place);
    } else {
      CallKeeps(s, op);
    }
  }

  lemma BootKeeps(s: Sys)
    requires Booted(s)
    ensures Inv(s)
  {
  }

  // In every run that obeys the reply rule: exactly one process is Running and it is the
  // current one, nobody waiting in receive has missed anything, every waiter waits on a live
  // process, and every blocked sender is queued once or owed a reply.
  lemma {:induction false} RunKeeps(s: Sys, ops: seq<Op>)
    requires Inv(s) && Lawful(s, ops)
    ensures Inv(After(s, ops))
    decreases |ops|
  {
    if ops != [] {
      StepKeeps(s, ops[0]);
      RunKeeps(Step(s, ops[0]), ops[1..]);
    }
  }
}
