// The process table, scheduler, IRQ table and system calls as objects updated in place,
// each operation proved to take exactly the step the state machine prescribes.
module KernelObjects {
  import opened Bytes
  import opened Finite
  import opened KernelState
  import opened KernelRuns
  import opened KernelInvariants

  class Process {
    const pid: nat
    var state: ProcState
    var waitPid: nat
    var msg: seq<byte>
    var msgPtr: nat
    var dataPtr: nat
    var dataLen: Length
    var sendQueue: seq<nat>
    var notifyQueue: seq<Note>
    var eax: int
    var mem: Memory

    ghost function Snap(): Proc
      reads this
    {
      Proc(state, waitPid, msg, msgPtr, dataPtr, dataLen, sendQueue, notifyQueue, eax, mem)
    }

    constructor (id: nat, memory: Memory)
      ensures pid == id && Snap() == NewProc(memory)
    {
      pid := id;
      state, waitPid, msg, msgPtr, dataPtr, dataLen := Ready, 0, seq(MESSAGE_SIZE, _ => 0), 0, 0, 0;
      sendQueue, notifyQueue, eax, mem := [], [], 0, memory;
    }
  }

  // ---- Copying between address spaces ----

  lemma PokeTwice(m: Memory, ptr: nat, a: seq<byte>, b: seq<byte>)
    requires |a| + |b| <= U32
    ensures Poke(Poke(m, ptr, a), ptr + |a|, b) == Poke(m, ptr, a + b)
  {
    var l, r := Poke(Poke(m, ptr, a), ptr + |a|, b), Poke(m, ptr, a + b);
    forall x | 0 <= x < U32 ensures l[x] == r[x] {
      ShiftedOffset(x, ptr, |a|);
    }
  }

  // Offset of x from a base moved up by n.
  lemma ShiftedOffset(x: nat, ptr: nat, n: nat)
    requires n <= U32
    ensures var k := (x - ptr) % U32; (x - (ptr + n)) % U32 == if n <= k then k - n else k - n + U32
  {
    var q := (x - ptr) / U32;
    assert x - ptr == q * U32 + (x - ptr) % U32;
    assert x - (ptr + n) == q * U32 + ((x - ptr) % U32 - n);
  }

  lemma PokeNothing(m: Memory, ptr: nat)
    ensures Poke(m, ptr, []) == m
  {
  }

  // 256-byte chunks through a kernel buffer: the same as one copy of the whole.
  method CopyData(source: Memory, target: Memory, dst: nat, src: nat, len: nat) returns (m: Memory)
    requires len < U32
    ensures m == Poke(target, dst, Peek(source, src, len))
  {
    m := target;
    PokeNothing(target, dst);
    assert Peek(source, src, 0) == [];
    var offset := 0;
    while offset < len
      invariant 0 <= offset <= len
      invariant m == Poke(target, dst, Peek(source, src, offset))
    {
      var n := len - offset;
      if n > 256 { n := 256; }
      var chunk := Peek(source, src + offset, n);
      PokeTwice(target, dst, Peek(source, src, offset), chunk);
      assert Peek(source, src, offset) + chunk == Peek(source, src, offset + n);
      m := Poke(m, dst + offset, chunk);
      offset := offset + n;
    }
  }

  // The second half of send, once the sender's record names message and buffers.
  function HandOver(k: Kernel, target: nat, room: bool): Kernel
    requires k.current in k.procs && target in k.procs
  {
    var me, t, c := Me(k), k.procs[target], k.current;
    if t.state == ReceiveBlocked then
      SetProc(SetProc(k, target, Woken(t, me.msg, Payload(me), c)), c, me.(state := SendBlocked))
    else if !room then SetProc(k, c, me.(eax := -1))
    else SetProc(SetProc(k, target, t.(sendQueue := t.sendQueue + [c])), c, me.(state := SendBlocked))
  }

  lemma SendIsHandOver(k: Kernel, target: nat, a: Call, room: bool)
    requires k.current in k.procs && Addressable(k, target)
    ensures Send(k, target, a, room) == HandOver(SetProc(k, k.current, Outgoing(Me(k), a)), target, room)
  {
    var d := SetProc(k, k.current, Outgoing(Me(k), a));
    assert Send(k, target, a, room).procs == HandOver(d, target, room).procs;
  }

  lemma {:induction false} PendingIgnoresProcs(k: Kernel, r: Kernel, pid: nat, i: nat)
    requires |k.forward| == |k.pending| == IRQ_COUNT && i <= IRQ_COUNT && r.forward == k.forward
      && r.pending == k.pending
    ensures PendingIrq(r, pid, i) == PendingIrq(k, pid, i)
    decreases IRQ_COUNT - i
  {
    if i < IRQ_COUNT && !(k.forward[i] == pid && k.pending[i]) { PendingIgnoresProcs(k, r, pid, i + 1); }
  }

  // What receive returns to handleSyscall.
  function ReceiveResult(k: Kernel): int
    requires k.current in k.procs && |k.forward| == |k.pending| == IRQ_COUNT
  {
    match Incoming(k)
    case FromIrq(_) => -2
    case FromNote => -3
    case FromSender(p) => if Live(k, p) then p else -1
    case FromNone => 0
  }

  // The rest of receive, once the receiver's record names its data buffer.
  function Fetch(k: Kernel, msgPtr: nat): Kernel
    requires k.current in k.procs && |k.forward| == |k.pending| == IRQ_COUNT
  {
    var c, me := k.current, Me(k);
    match Incoming(k)
    case FromIrq(i) =>
      SetProc(k.(pending := k.pending[i := false]), c, me.(mem := Poke(me.mem, msgPtr, IrqMessage(i)), eax := 0))
    case FromNote => SetProc(k, c, NoteFetched(me, msgPtr))
    case FromSender(p) => SetProc(k, c, if Live(k, p) then SenderFetched(me, msgPtr, p, k.procs[p])
                                        else me.(sendQueue := me.sendQueue[1..], eax := -1))
    case FromNone => SetProc(k, c, me.(msgPtr := msgPtr, state := ReceiveBlocked))
  }

  function NoteFetched(me: Proc, msgPtr: nat): Proc
    requires me.notifyQueue != []
  {
    var n := me.notifyQueue[0];
    me.(mem := Receives(me.(msgPtr := msgPtr), n.msg, n.data), notifyQueue := me.notifyQueue[1..], eax := 0)
  }

  function SenderFetched(me: Proc, msgPtr: nat, pid: nat, p: Proc): Proc
    requires me.sendQueue != []
  {
    me.(mem := Receives(me.(msgPtr := msgPtr), p.msg, Payload(p)), sendQueue := me.sendQueue[1..], eax := pid)
  }

  lemma ReceiveIsFetch(k: Kernel, a: Call)
    requires k.current in k.procs && |k.forward| == |k.pending| == IRQ_COUNT && k.current !in Me(k).sendQueue
    ensures var d := SetProc(k, k.current, Me(k).(dataPtr := a.dataPtr, dataLen := a.dataLen));
      Receive(k, a) == Fetch(d, a.msgPtr) && ReceiveResult(d) == ReceiveResult(k)
  {
    var d := SetProc(k, k.current, Me(k).(dataPtr := a.dataPtr, dataLen := a.dataLen));
    PendingIgnoresProcs(k, d, k.current, 0);
    assert Receive(k, a).procs == Fetch(d, a.msgPtr).procs;
  }

  // A sender popped from a dying process's queue fails with -1 if it is still blocked.
  function SenderFailed(p: Proc): Proc {
    if p.state == SendBlocked then p.(eax := -1, state := Ready) else p
  }

  function WaiterFreed(p: Proc, pid: nat): Proc {
    if p.state == WaitBlocked && p.waitPid == pid then p.(eax := 0, state := Ready) else p
  }

  // r is k with the processes named in queue changed by SenderFailed, and with pid's own
  // record anything at all.
  ghost predicate SendersFailed(k: Kernel, r: Kernel, pid: nat, queue: set<nat>) {
    && r == k.(procs := r.procs) && r.procs.Keys == k.procs.Keys
    && forall q :: q in k.procs && q != pid ==>
         r.procs[q] == if q in queue then SenderFailed(k.procs[q]) else k.procs[q]
  }

  // r is k with the first n processes of the list changed by WaiterFreed.
  ghost predicate WaitersFreed(k: Kernel, r: Kernel, pid: nat, n: nat)
    requires n <= |k.order|
  {
    && r == k.(procs := r.procs) && r.procs.Keys == k.procs.Keys
    && forall q :: q in k.procs && q != pid ==>
         r.procs[q] == if q in k.order[..n] then WaiterFreed(k.procs[q], pid) else k.procs[q]
  }

  lemma OneMoreFailed(k0: Kernel, k: Kernel, d: Kernel, pid: nat, done: set<nat>, x: nat)
    requires SendersFailed(k0, k, pid, done) && d == k.(procs := d.procs) && d.procs.Keys == k.procs.Keys
    requires forall q :: q in k.procs && q != pid ==> d.procs[q] == k.procs[q]
    ensures SendersFailed(k0, if x in d.procs then SetProc(d, x, SenderFailed(d.procs[x])) else d, pid, done + {x})
  {
  }

  lemma OneMoreFreed(k0: Kernel, k: Kernel, pid: nat, n: nat)
    requires n < |k0.order| && WaitersFreed(k0, k, pid, n) && Listed(k0)
    ensures var w := k.order[n];
      w in k.procs && WaitersFreed(k0, SetProc(k, w, WaiterFreed(k.procs[w], pid)), pid, n + 1)
  {
    var w := k.order[n];
    assert k.order[..n + 1] == k.order[..n] + [w];
    assert w !in k.order[..n];
  }

  // Both loops of destroy, then unlinking, are the state machine's Destroy.
  lemma LoopsDestroy(k: Kernel, d: Kernel, r: Kernel)
    requires Shaped(k) && k.current != 0
    requires SendersFailed(k, d, k.current, Elems(Me(k).sendQueue)) && WaitersFreed(d, r, k.current, |d.order|)
    ensures r.(order := Remove(k.order, k.current), procs := r.procs - {k.current}) == Destroy(k, k.current)
  {
    var a, b := r.procs - {k.current}, Destroy(k, k.current).procs;
    assert d.order[..|d.order|] == d.order;
    forall q | q in k.procs && q != k.current ensures a[q] == b[q] {}
    assert a.Keys == b.Keys;
  }

  function Removed(k: Kernel, pid: nat): Kernel
    requires pid in k.order
  {
    k.(order := Remove(k.order, pid), procs := k.procs - {pid})
  }

  lemma RemovedShaped(k: Kernel, pid: nat, next: nat)
    requires Shaped(k) && pid in k.procs && pid != 0 && next in k.procs && next != pid
    ensures Shaped(Removed(k, pid).(current := next, ticks := 0))
  {
    RemoveListed(k.order, pid);
  }

  // Whether the call's result makes handleSyscall reschedule.
  function CallBlocks(k: Kernel, op: Op): bool
    requires k.current in k.procs && |k.forward| == |k.pending| == IRQ_COUNT
  {
    match op
    case OpSend(t, _, room) => SendBlocks(k, t, room)
    case OpReceive(_) => ReceiveResult(k) == 0
    case OpWait(t) => Addressable(k, t)
    case _ => false
  }

  lemma NotInOwnQueue(s: Sys)
    requires Inv(s)
    ensures s.k.current !in Me(s.k).sendQueue && 0 !in Me(s.k).sendQueue
  {
    var k := s.k;
    assert QueueIsPlaced(k.current, Me(k).sendQueue, s.place);
    assert BlockedIffPlaced(k.current, Me(k), s.place) && RunsIffCurrent(k.current, Me(k), k.current);
    assert BlockedIffPlaced(0, k.procs[0], s.place);
  }

  // On a reachable state the caller is left blocked exactly when the result says so.
  lemma BlocksIffZero(s: Sys, op: Op)
    requires Inv(s) && Enabled(s, op) && Rule(s, op)
    requires op.OpSend? || op.OpReceive? || op.OpReply? || op.OpNotify? || op.OpWait?
    ensures CallBlocks(s.k, op) <==> Me(Called(s.k, op)).state != Running
  {
    var k := s.k;
    NotInOwnQueue(s);
    assert RunsIffCurrent(k.current, Me(k), k.current);
    if op.OpReceive? && Incoming(k).FromSender? { ReceivePops(k, Me(Called(k, op)), Incoming(k).pid, s.place); }
  }

  // ---- The kernel's tables ----

  lemma ElemsNext(q: seq<nat>, i: nat)
    requires i < |q|
    ensures Elems(q[..i + 1]) == Elems(q[..i]) + {q[i]}
  {
    assert q[..i + 1] == q[..i] + [q[i]];
  }

  class Machine {
    ghost var k: Kernel // what the tables stand for

    var processes: seq<Process>
    var currentProcess: Process
    var nextPid: nat
    var tickCount: nat
    const forwardPid: array<nat>
    const pendingIrq: array<bool>

    // Each listed object is the record the state machine has under its pid.
    ghost predicate Tied()
      reads this`k, this`processes, processes
    {
      && |processes| == |k.order|
      && forall i :: 0 <= i < |processes| ==> At(i, processes[i])
    }

    ghost predicate At(i: nat, p: Process)
      requires i < |k.order|
      reads this`k, p
    {
      p.pid == k.order[i] && p.pid in k.procs && k.procs[p.pid] == p.Snap()
    }

    // The state k is the one the objects and tables hold.
    // (A predicate compared with true is one that the verifier is to pass on in one piece.)
    ghost predicate Valid()
      reads this, processes, forwardPid, pendingIrq
    {
      && Tied() == true && Shaped(k) == true
      && currentProcess in processes && currentProcess.pid == k.current
      && nextPid == k.nextPid && tickCount == k.ticks
      && forwardPid[..] == k.forward && pendingIrq[..] == k.pending
    }

    // The kernel task alone, running; processes are added with Create.
    constructor (memory: Memory)
      ensures Valid() && Booted(Sys(k, map[], []))
    {
      var kernelTask := new Process(0, memory);
      kernelTask.state := Running;
      processes, currentProcess := [kernelTask], kernelTask;
      nextPid, tickCount := 1, 0;
      forwardPid := new nat[IRQ_COUNT](_ => 0);
      pendingIrq := new bool[IRQ_COUNT](_ => false);
      k := Kernel([0], map[0 := NewProc(memory).(state := Running)], 0, 1, 0,
                  seq(IRQ_COUNT, _ => 0), seq(IRQ_COUNT, _ => false));
    }

    lemma Known(p: Process)
      requires Tied() && p in processes
      ensures p.pid in k.procs && k.procs[p.pid] == p.Snap() && p.pid in k.order
    {
      var i :| 0 <= i < |processes| && processes[i] == p;
      assert At(i, processes[i]);
    }

    lemma SamePid(p: Process, q: Process)
      requires Tied() && Distinct(k.order) && p in processes && q in processes && p.pid == q.pid
      ensures p == q
    {
      var i :| 0 <= i < |processes| && processes[i] == p;
      var j :| 0 <= j < |processes| && processes[j] == q;
      assert At(i, processes[i]) && At(j, processes[j]);
    }

    // ProcessManager::get
    method Get(pid: nat) returns (p: Process?)
      requires Valid()
      ensures p == null <==> !Live(k, pid)
      ensures p != null ==> p in processes && p.pid == pid && k.procs[pid] == p.Snap()
    {
      var i := 0;
      while i < |processes|
        invariant 0 <= i <= |processes|
        invariant forall j :: 0 <= j < i ==> !(k.order[j] == pid && Live(k, pid))
      {
        p := processes[i];
        assert At(i, p);
        if p.pid == pid && p.state != Empty { return; }
        i := i + 1;
      }
      p := null;
    }

    ghost predicate TiedBut(p: Process)
      reads this`k, this`processes, processes
    {
      && |processes| == |k.order|
      && forall i :: 0 <= i < |processes| ==>
        processes[i].pid == k.order[i] && (processes[i] == p || At(i, processes[i]))
    }

    // Bookkeeping after the record of p has been changed.
    ghost method Record(p: Process)
      requires Shaped(k) == true && TiedBut(p) == true && p in processes
      modifies this`k
      ensures k == SetProc(old(k), p.pid, p.Snap()) && Tied() == true && Shaped(k) == true
    {
      var at :| 0 <= at < |processes| && processes[at] == p;
      assert p.pid == k.order[at] && Distinct(k.order);
      k := SetProc(k, p.pid, p.Snap());
      forall i | 0 <= i < |processes| ensures At(i, processes[i]) {
        if processes[i] != p {
          assert old(At(i, processes[i]));
          assert i != at && k.order[i] != k.order[at];
        }
      }
    }

    // ---- Scheduler ----

    method SwitchTo(next: Process)
      requires Valid() && next in processes
      modifies this`currentProcess, this`k, next`state
      ensures Valid() && k == KernelState.SwitchTo(old(k), next.pid)
    {
      Known(next);
      next.state := Running;
      Record(next);
      currentProcess := next;
      RecordCurrent();
    }

    ghost method RecordCurrent()
      requires Tied() && Shaped(k) && currentProcess in processes
      modifies this`k
      ensures Tied() && Shaped(k) && k == old(k).(current := currentProcess.pid)
    {
      Known(currentProcess);
      k := k.(current := currentProcess.pid);
      assert forall i :: 0 <= i < |processes| ==> At(i, processes[i]);
    }

    // The next process in the list, or the head.
    method Following(p: Process, ghost at: nat) returns (q: Process)
      requires Valid() && at < |processes| && processes[at] == p
      ensures q == if at + 1 < |processes| then processes[at + 1] else processes[0]
    {
      var i := 0;
      while processes[i] != p
        invariant 0 <= i <= at
        decreases |processes| - i
      {
        i := i + 1;
      }
      assert At(i, processes[i]) && At(at, processes[at]);
      q := if i + 1 < |processes| then processes[i + 1] else processes[0];
    }

    // Circular search from the process after the current one.
    method FindNextReady() returns (next: Process)
      requires Valid()
      ensures next in processes && next.pid == NextReady(k)
    {
      ghost var n, i := |processes|, IndexOf(k.order, k.current);
      CurrentAt(i);
      ghost var d := 1;
      var candidate := Following(currentProcess, i);
      while candidate != currentProcess
        invariant 1 <= d <= n
        invariant candidate == processes[Wrapped(i, d, n)]
        invariant Search(k, i, 1) == Search(k, i, d)
        decreases n - d
      {
        ghost var at := Wrapped(i, d, n);
        Searched(i, d);
        if candidate.state == Ready { return candidate; }
        candidate := Following(candidate, at);
        d := d + 1;
      }
      assert At(Wrapped(i, d, n), candidate);
      next := currentProcess;
    }

    // One process of the search.
    lemma Searched(i: nat, d: nat)
      requires Valid() && i < |processes| && 1 <= d <= |processes|
      requires processes[Wrapped(i, d, |processes|)] != processes[i]
      ensures |k.order| == |processes| && d < |processes|
      ensures var p := processes[Wrapped(i, d, |processes|)];
        Search(k, i, d) == if p.state == Ready then p.pid else Search(k, i, d + 1)
    {
      assert At(Wrapped(i, d, |processes|), processes[Wrapped(i, d, |processes|)]);
    }

    lemma CurrentAt(i: nat)
      requires Valid() && i == IndexOf(k.order, k.current)
      ensures processes[i] == currentProcess
    {
      assert At(i, processes[i]);
      Known(currentProcess);
      SamePid(currentProcess, processes[i]);
    }

    method Reschedule()
      requires Valid()
      modifies this`currentProcess, this`tickCount, this`k, processes
      ensures Valid() && k == KernelState.Reschedule(old(k))
    {
      if |processes| <= 1 { return; }
      var next := FindNextReady();
      tickCount := 0;
      k := k.(ticks := 0);
      assert forall i :: 0 <= i < |processes| ==> At(i, processes[i]);
      SwitchTo(next);
    }

    ghost method RecordTicks()
      requires Tied() && Shaped(k) && tickCount < TIME_SLICE
      modifies this`k
      ensures Tied() && Shaped(k) && k == old(k).(ticks := tickCount)
    {
      k := k.(ticks := tickCount);
      assert forall i :: 0 <= i < |processes| ==> At(i, processes[i]);
    }

    // The current process, if still Running, goes back to Ready; the next Ready one runs.
    method Yield()
      requires Valid()
      modifies this`currentProcess, this`k, processes
      ensures Valid() && k == Yielded(old(k))
    {
      StepDown();
      var next := FindNextReady();
      SwitchTo(next);
    }

    // The running process becomes ready.
    method StepDown()
      requires Valid()
      modifies this`k, currentProcess`state
      ensures Valid() && k == Demote(old(k))
    {
      Known(currentProcess);
      if currentProcess.state == Running {
        currentProcess.state := Ready;
        Record(currentProcess);
      }
    }

    method Schedule()
      requires Valid()
      modifies this`currentProcess, this`tickCount, this`k, processes
      ensures Valid() && k == KernelState.Schedule(old(k))
    {
      if |processes| <= 1 { return; }
      tickCount := tickCount + 1;
      if tickCount < TIME_SLICE {
        RecordTicks();
        return;
      }
      tickCount := 0;
      RecordTicks();
      YieldedIgnoresTicks(old(k), 0);
      Yield();
    }

    // ---- System calls ----

    // The value a call leaves in the caller's saved frame.
    method Return(value: int)
      requires Valid()
      modifies this`k, currentProcess`eax
      ensures Valid() && k == KernelState.Return(old(k), value)
    {
      Known(currentProcess);
      currentProcess.eax := value;
      Record(currentProcess);
    }

    // The waiting target gets message and data, the return value, and becomes Ready.
    method Deliver(target: Process, msg: seq<byte>, source: Memory, dataPtr: nat, dataLen: Length, eax: int)
      requires Valid() && target in processes
      modifies this`k, target`mem, target`eax, target`state
      ensures Valid()
      ensures k == SetProc(old(k), target.pid,
        Woken(old(k).procs[target.pid], msg, Buffer(source, dataPtr, dataLen), eax))
    {
      Known(target);
      target.mem := StoreParcel(target.mem, target.msgPtr, target.dataPtr, target.dataLen, msg, source, dataPtr,
        dataLen);
      target.eax := eax;
      target.state := Ready;
      Record(target);
    }

    // The first half of send: the message and the buffers go into the sender's record.
    method Announce(call: Call)
      requires Valid()
      modifies this`k, currentProcess`msg, currentProcess`msgPtr, currentProcess`dataPtr, currentProcess`dataLen
      ensures Valid() && k == SetProc(old(k), old(k).current, Outgoing(Me(old(k)), call))
    {
      Known(currentProcess);
      currentProcess.msg := Peek(currentProcess.mem, call.msgPtr, MESSAGE_SIZE);
      currentProcess.msgPtr, currentProcess.dataPtr, currentProcess.dataLen := call.msgPtr, call.dataPtr, call.dataLen;
      Record(currentProcess);
    }

    method Send(targetPid: nat, call: Call, room: bool) returns (result: int)
      requires Valid()
      modifies this`k, processes
      ensures Valid() && k == KernelState.Send(old(k), targetPid, call, room)
      ensures result == 0 <==> SendBlocks(old(k), targetPid, room)
    {
      var target := Get(targetPid);
      if target == null || target == currentProcess {
        Return(-1);
        return -1;
      }
      PidsDiffer(currentProcess, target);
      SendIsHandOver(k, targetPid, call, room);
      Announce(call);
      result := Hand(target, room);
    }

    // The second half of send: deliver to a waiting target or join its queue.
    method Hand(target: Process, room: bool) returns (result: int)
      requires Valid() && target in processes && target != currentProcess
      modifies this`k, processes
      ensures Valid()
      ensures k == HandOver(old(k), target.pid, room)
      ensures result == if old(target.state) == ReceiveBlocked || room then 0 else -1
    {
      var sender := currentProcess;
      Known(sender);
      Known(target);
      PidsDiffer(sender, target);
      if target.state == ReceiveBlocked {
        Deliver(target, sender.msg, sender.mem, sender.dataPtr, sender.dataLen, sender.pid);
      } else {
        if !room {
          Return(-1);
          return -1;
        }
        Enqueue(target, sender.pid);
      }
      BlockCurrent();
      result := 0;
    }

    method Enqueue(target: Process, pid: nat)
      requires Valid() && target in processes
      modifies this`k, target`sendQueue
      ensures Valid()
      ensures target.pid in old(k).procs
      ensures var t := old(k).procs[target.pid]; k == SetProc(old(k), target.pid, t.(sendQueue := t.sendQueue + [pid]))
    {
      Known(target);
      target.sendQueue := target.sendQueue + [pid];
      Record(target);
    }

    method BlockCurrent()
      requires Valid()
      modifies this`k, currentProcess`state
      ensures Valid() && old(k).current in old(k).procs
      ensures k == SetProc(old(k), old(k).current, old(k).procs[old(k).current].(state := SendBlocked))
    {
      Known(currentProcess);
      currentProcess.state := SendBlocked;
      Record(currentProcess);
    }

    method Reply(targetPid: nat, call: Call) returns (result: int)
      requires Valid()
      modifies this`k, processes
      ensures Valid() && k == KernelState.Reply(old(k), targetPid, call)
      ensures result == if Repliable(old(k), targetPid) then 0 else -1
    {
      var target := Get(targetPid);
      if target == null || target.state != SendBlocked {
        Return(-1);
        return -1;
      }
      Known(currentProcess);
      var replyBuf := Peek(currentProcess.mem, call.msgPtr, MESSAGE_SIZE);
      Deliver(target, replyBuf, currentProcess.mem, call.dataPtr, call.dataLen, 0);
      Return(0);
      result := 0;
    }

    method Notify(targetPid: nat, call: Call, room: bool) returns (result: int)
      requires Valid()
      modifies this`k, processes
      ensures Valid() && k == KernelState.Notify(old(k), targetPid, call, room)
      ensures result == if SendBlocks(old(k), targetPid, room) then 0 else -1
    {
      var target := Get(targetPid);
      if target == null || target == currentProcess {
        Return(-1);
        return -1;
      }
      Known(currentProcess);
      PidsDiffer(currentProcess, target);
      var temp := Peek(currentProcess.mem, call.msgPtr, MESSAGE_SIZE);
      if target.state == ReceiveBlocked {
        Deliver(target, temp, currentProcess.mem, call.dataPtr, call.dataLen, 0);
      } else {
        if !room {
          Return(-1);
          return -1;
        }
        var data := Buffer(currentProcess.mem, call.dataPtr, call.dataLen);
        QueueNote(target, Note(currentProcess.pid, temp, data));
      }
      Return(0);
      result := 0;
    }

    method QueueNote(target: Process, note: Note)
      requires Valid() && target in processes
      modifies this`k, target`notifyQueue
      ensures Valid() && target.pid in old(k).procs
      ensures var t := old(k).procs[target.pid];
        k == SetProc(old(k), target.pid, t.(notifyQueue := t.notifyQueue + [note]))
    {
      Known(target);
      target.notifyQueue := target.notifyQueue + [note];
      Record(target);
    }

    method WaitPid(pid: nat) returns (result: int)
      requires Valid()
      modifies this`k, currentProcess`waitPid, currentProcess`state, currentProcess`eax
      ensures Valid() && k == KernelState.Wait(old(k), pid)
      ensures result == if Addressable(old(k), pid) then 0 else -1
    {
      var target := Get(pid);
      if target == null || target == currentProcess {
        Return(-1);
        return -1;
      }
      Known(currentProcess);
      PidsDiffer(currentProcess, target);
      currentProcess.waitPid := pid;
      currentProcess.state := WaitBlocked;
      Record(currentProcess);
      result := 0;
    }

    // ---- Receive ----

    // The first IRQ pending for pid, its flag cleared; IRQ_COUNT when there is none.
    method TakePending(pid: nat) returns (irq: nat)
      requires Valid()
      modifies this`k, pendingIrq
      ensures Valid() && irq == PendingIrq(old(k), pid, 0)
      ensures k == old(k).(pending := if irq < IRQ_COUNT then old(k).pending[irq := false] else old(k).pending)
    {
      irq := 0;
      while irq < IRQ_COUNT
        invariant 0 <= irq <= IRQ_COUNT && Valid() && k == old(k)
        invariant PendingIrq(k, pid, 0) == PendingIrq(k, pid, irq)
      {
        assert forwardPid[irq] == k.forward[irq] && pendingIrq[irq] == k.pending[irq];
        if forwardPid[irq] == pid && pendingIrq[irq] {
          pendingIrq[irq] := false;
          k := k.(pending := k.pending[irq := false]);
          assert forall i :: 0 <= i < |processes| ==> At(i, processes[i]);
          return;
        }
        irq := irq + 1;
      }
    }

    // notifyPop into the receiver's buffers.
    method TakeNote(msgPtr: nat)
      requires Valid() && currentProcess.notifyQueue != []
      modifies this`k, currentProcess`mem, currentProcess`notifyQueue, currentProcess`eax
      ensures Valid() && k == SetProc(old(k), old(k).current, NoteFetched(Me(old(k)), msgPtr))
    {
      var me := currentProcess;
      Known(me);
      var n := me.notifyQueue[0];
      me.mem := Poke(me.mem, msgPtr, n.msg);
      if n.data != [] && me.dataPtr != 0 && me.dataLen > 0 {
        me.mem := Poke(me.mem, me.dataPtr, if |n.data| < me.dataLen then n.data else n.data[..me.dataLen]);
      } else {
        PokeNothing(me.mem, me.dataPtr);
      }
      me.notifyQueue := me.notifyQueue[1..];
      me.eax := 0;
      Record(me);
    }

    // The first queued sender's message and data, read from its record and memory.
    method TakeSender(msgPtr: nat) returns (result: int)
      requires Valid() && currentProcess.sendQueue != [] && currentProcess.pid !in currentProcess.sendQueue
      modifies this`k, currentProcess`mem, currentProcess`sendQueue, currentProcess`eax
      ensures Valid()
      ensures var p := Me(old(k)).sendQueue[0];
        k == SetProc(old(k), old(k).current,
          if Live(old(k), p) then SenderFetched(Me(old(k)), msgPtr, p, old(k).procs[p])
          else Me(old(k)).(sendQueue := Me(old(k)).sendQueue[1..], eax := -1))
        && result == if Live(old(k), p) then p else -1
    {
      Known(currentProcess);
      var senderPid := currentProcess.sendQueue[0];
      var sender := Get(senderPid);
      if sender == null {
        DropSender();
        return -1;
      }
      FetchSender(msgPtr, sender);
      result := senderPid;
    }

    method DropSender()
      requires Valid() && currentProcess.sendQueue != []
      modifies this`k, currentProcess`sendQueue, currentProcess`eax
      ensures Valid() && old(k).current in old(k).procs && Me(old(k)).sendQueue != []
      ensures k == SetProc(old(k), old(k).current, Me(old(k)).(sendQueue := Me(old(k)).sendQueue[1..], eax := -1))
    {
      Known(currentProcess);
      currentProcess.sendQueue := currentProcess.sendQueue[1..];
      currentProcess.eax := -1;
      Record(currentProcess);
    }

    method FetchSender(msgPtr: nat, sender: Process)
      requires Valid() && currentProcess.sendQueue != [] && sender in processes && sender != currentProcess
      requires sender.pid == currentProcess.sendQueue[0]
      modifies this`k, currentProcess`mem, currentProcess`sendQueue, currentProcess`eax
      ensures Valid() && old(k).current in old(k).procs && sender.pid in old(k).procs && Me(old(k)).sendQueue != []
      ensures k == SetProc(old(k), old(k).current,
        SenderFetched(Me(old(k)), msgPtr, sender.pid, old(k).procs[sender.pid]))
    {
      var me := currentProcess;
      Known(me);
      Known(sender);
      me.sendQueue := me.sendQueue[1..];
      me.mem := StoreParcel(me.mem, msgPtr, me.dataPtr, me.dataLen, sender.msg, sender.mem, sender.dataPtr,
        sender.dataLen);
      me.eax := sender.pid;
      Record(me);
    }

    method NameBuffer(dataPtr: nat, dataLen: Length)
      requires Valid()
      modifies this`k, currentProcess`dataPtr, currentProcess`dataLen
      ensures Valid() && k == SetProc(old(k), old(k).current, Me(old(k)).(dataPtr := dataPtr, dataLen := dataLen))
      ensures Me(k) == currentProcess.Snap()
    {
      Known(currentProcess);
      currentProcess.dataPtr, currentProcess.dataLen := dataPtr, dataLen;
      Record(currentProcess);
      Known(currentProcess);
    }

    // A pending IRQ, if there is one, into the receiver's message buffer.
    method TakeIrq(msgPtr: nat) returns (taken: bool)
      requires Valid()
      modifies this`k, pendingIrq, currentProcess`mem, currentProcess`eax
      ensures Valid() && (taken <==> Incoming(old(k)).FromIrq?)
      ensures k == if taken then Fetch(old(k), msgPtr) else old(k)
    {
      var me := currentProcess;
      Known(me);
      var irq := TakePending(me.pid);
      taken := irq < IRQ_COUNT;
      if taken {
        Known(me);
        me.mem := Poke(me.mem, msgPtr, IrqMessage(irq));
        me.eax := 0;
        Record(me);
      }
    }

    method ReceiveRest(msgPtr: nat) returns (result: int)
      requires Valid() && currentProcess.pid !in currentProcess.sendQueue
      modifies this`k, pendingIrq, currentProcess
      ensures Valid() && k == Fetch(old(k), msgPtr) && result == ReceiveResult(old(k))
    {
      var me := currentProcess;
      Known(me);
      var taken := TakeIrq(msgPtr);
      if taken { return -2; }
      if me.notifyQueue != [] {
        TakeNote(msgPtr);
        return -3;
      }
      if me.sendQueue != [] {
        result := TakeSender(msgPtr);
        return;
      }
      AwaitMessage(msgPtr);
      result := 0;
    }

    method AwaitMessage(msgPtr: nat)
      requires Valid()
      modifies this`k, currentProcess`msgPtr, currentProcess`state
      ensures Valid() && old(k).current in old(k).procs
      ensures k == SetProc(old(k), old(k).current, Me(old(k)).(msgPtr := msgPtr, state := ReceiveBlocked))
    {
      Known(currentProcess);
      currentProcess.msgPtr := msgPtr;
      currentProcess.state := ReceiveBlocked;
      Record(currentProcess);
    }

    // A process is never in its own send queue.
    method Receive(call: Call) returns (result: int)
      requires Valid() && k.current !in Me(k).sendQueue
      modifies this`k, pendingIrq, currentProcess
      ensures Valid() && k == KernelState.Receive(old(k), call) && result == ReceiveResult(old(k))
    {
      ReceiveIsFetch(k, call);
      NameBuffer(call.dataPtr, call.dataLen);
      result := ReceiveRest(call.msgPtr);
    }

    // ---- Process creation and exit ----

    method Create(memory: Memory) returns (p: Process)
      requires Valid()
      modifies this`k, this`processes, this`nextPid
      ensures Valid() && k == KernelState.Create(old(k), memory) && p.pid == old(nextPid)
    {
      p := new Process(nextPid, memory);
      ghost var before := processes;
      processes := processes + [p];
      nextPid := nextPid + 1;
      k := KernelState.Create(k, memory);
      forall i | 0 <= i < |processes| ensures At(i, processes[i]) {
        if i < |before| { assert old(At(i, processes[i])); }
      }
      Grows(old(k), memory);
    }

    // Wakes all senders blocked on the process, returning -1.
    method WakeSenders(p: Process)
      requires Valid() && p in processes
      modifies this`k, processes
      ensures Valid() && SendersFailed(old(k), k, p.pid, Elems(old(p.sendQueue)))
      ensures processes == old(processes)
    {
      ghost var queue := p.sendQueue;
      ghost var done := 0;
      assert queue[0..] == queue && Elems(queue[..0]) == {};
      while p.sendQueue != []
        invariant 0 <= done <= |queue| && p.sendQueue == queue[done..]
        invariant Valid() && SendersFailed(old(k), k, p.pid, Elems(queue[..done]))
        decreases |p.sendQueue|
      {
        ElemsNext(queue, done);
        PopAndFail(p, old(k), Elems(queue[..done]));
        done := done + 1;
      }
      assert queue[..done] == queue;
    }

    method FailSender(pid: nat)
      requires Valid()
      modifies this`k, processes
      ensures Valid() && k == if pid in old(k).procs then SetProc(old(k), pid, SenderFailed(old(k).procs[pid]))
        else old(k)
      ensures forall p :: p in processes ==> p.sendQueue == old(p.sendQueue)
    {
      var sender := Get(pid);
      if sender != null && sender.state == SendBlocked {
        sender.eax := -1;
        sender.state := Ready;
        Record(sender);
      } else {
        assert pid in k.procs ==> k.procs == k.procs[pid := SenderFailed(k.procs[pid])];
      }
    }

    method PopSender(p: Process) returns (pid: nat)
      requires Valid() && p in processes && p.sendQueue != []
      modifies this`k, p`sendQueue
      ensures Valid() && pid == old(p.sendQueue)[0] && p.sendQueue == old(p.sendQueue)[1..]
      ensures k == SetProc(old(k), p.pid, k.procs[p.pid])
    {
      Known(p);
      pid := p.sendQueue[0];
      p.sendQueue := p.sendQueue[1..];
      Record(p);
    }

    // The body of the first loop of destroy.
    method PopAndFail(p: Process, ghost k0: Kernel, ghost done: set<nat>)
      requires Valid() && p in processes && p.sendQueue != [] && SendersFailed(k0, k, p.pid, done)
      modifies this`k, processes
      ensures Valid() && p.sendQueue == old(p.sendQueue)[1..]
      ensures SendersFailed(k0, k, p.pid, done + {old(p.sendQueue)[0]})
    {
      Known(p);
      var senderPid := PopSender(p);
      OneMoreFailed(k0, old(k), k, p.pid, done, senderPid);
      FailSender(senderPid);
    }

    method FreeWaiter(waiter: Process, pid: nat)
      requires Valid() && waiter in processes
      modifies this`k, waiter`eax, waiter`state
      ensures Valid() && k == SetProc(old(k), waiter.pid, WaiterFreed(old(k).procs[waiter.pid], pid))
    {
      Known(waiter);
      if waiter.state == WaitBlocked && waiter.waitPid == pid {
        waiter.eax := 0;
        waiter.state := Ready;
        Record(waiter);
      } else {
        assert k.procs == k.procs[waiter.pid := k.procs[waiter.pid]];
      }
    }

    // Wakes the processes waiting for this one to exit.
    method WakeWaiters(pid: nat)
      requires Valid()
      modifies this`k, processes
      ensures Valid() && WaitersFreed(old(k), k, pid, |old(k).order|)
    {
      var i := 0;
      while i < |processes|
        invariant 0 <= i <= |processes| && Valid() && WaitersFreed(old(k), k, pid, i)
      {
        assert At(i, processes[i]);
        OneMoreFreed(old(k), k, pid, i);
        FreeWaiter(processes[i], pid);
        i := i + 1;
      }
    }

    method Locate(p: Process) returns (i: nat)
      requires Valid() && p in processes
      ensures p.pid in k.order && i == IndexOf(k.order, p.pid) && i < |processes| && processes[i] == p
    {
      Known(p);
      ghost var at := IndexOf(k.order, p.pid);
      assert At(at, processes[at]);
      SamePid(p, processes[at]);
      i := 0;
      while processes[i] != p
        invariant 0 <= i <= at
        decreases |processes| - i
      {
        i := i + 1;
      }
      assert At(i, processes[i]);
    }

    // The entry at i leaves the list; every other one, such as next, stays.
    method Drop(dying: Process, i: nat, ghost next: Process)
      requires Tied() && Shaped(k) && i < |processes| && processes[i] == dying && i == IndexOf(k.order, dying.pid)
      requires next in processes && next != dying
      modifies this`k, this`processes
      ensures Tied() && k == Removed(old(k), dying.pid)
      ensures next in processes && forall p :: p in processes ==> p in old(processes)
    {
      DroppedKeeps(processes, i, next);
      assert At(i, processes[i]);
      k := Removed(k, processes[i].pid);
      processes := Dropped(processes, i);
      assert k.order == Dropped(old(k).order, i);
      forall j | 0 <= j < |processes| ensures At(j, processes[j]) {
        ghost var m := if j < i then j else j + 1;
        assert old(At(m, processes[m]));
        assert processes[j] == old(processes[m]) && k.order[j] == old(k.order[m]);
      }
    }

    // LinkedList::remove, leaving next as the current process.
    method Unlink(dying: Process, next: Process)
      requires Valid() && dying in processes && next in processes && next != dying && dying.pid != 0
      modifies this`k, this`processes, this`currentProcess, this`tickCount
      ensures Valid() && k == Removed(old(k), dying.pid).(current := next.pid, ticks := 0)
      ensures forall p :: p in processes ==> p in old(processes)
      ensures next in processes
    {
      Known(next);
      Known(dying);
      PidsDiffer(dying, next);
      RemovedShaped(k, dying.pid, next.pid);
      var i := Locate(dying);
      Drop(dying, i, next);
      SetCurrent(next);
    }

    method SetCurrent(next: Process)
      requires Tied() && next in processes && Shaped(k.(current := next.pid, ticks := 0))
      requires nextPid == k.nextPid && forwardPid[..] == k.forward && pendingIrq[..] == k.pending
      modifies this`k, this`currentProcess, this`tickCount
      ensures Valid() && k == old(k).(current := next.pid, ticks := 0)
    {
      currentProcess, tickCount := next, 0;
      k := k.(current := next.pid, ticks := 0);
      assert forall i :: 0 <= i < |processes| ==> At(i, processes[i]);
    }

    // Both waking loops of destroy.
    method WakeAll(dying: Process)
      requires Valid() && dying == currentProcess && dying.pid != 0
      modifies this`k, processes
      ensures Valid() && k.order == old(k).order && Removed(k, dying.pid) == Destroy(old(k), dying.pid)
    {
      Known(dying);
      WakeSenders(dying);
      ghost var k1 := k;
      WakeWaiters(dying.pid);
      LoopsDestroy(old(k), k1, k);
    }

    // Destroys the current process and switches to the next Ready one, or the kernel task.
    method ExitCurrent()
      requires Valid() && k.current != 0
      modifies this, processes
      ensures Valid() && k == Exited(old(k))
    {
      var dying := currentProcess;
      Known(dying);
      var next := FindNextReady();
      assert At(0, processes[0]);
      if next == dying { next := processes[0]; }
      assert next.pid == ExitTarget(k);
      WakeAll(dying);
      Unlink(dying, next);
      SwitchTo(next);
    }

    // ---- Interrupts ----

    method RegisterForward(number: nat)
      requires Valid()
      modifies this`k, forwardPid, currentProcess`eax
      ensures Valid() && k == RegisterIrq(old(k), number)
    {
      var irq := number % 0x100;
      if irq >= IRQ_COUNT {
        Return(-1);
        return;
      }
      forwardPid[irq] := currentProcess.pid;
      k := k.(forward := k.forward[irq := currentProcess.pid]);
      assert forall i :: 0 <= i < |processes| ==> At(i, processes[i]);
      Return(0);
    }

    // The forwarding part of handleIrq.
    method Forward(irq: nat)
      requires Valid() && irq < IRQ_COUNT
      modifies this`k, pendingIrq, processes
      ensures Valid() && k == ForwardIrq(old(k), irq)
    {
      assert forwardPid[irq] == k.forward[irq];
      if forwardPid[irq] == 0 { return; }
      var target := Get(forwardPid[irq]);
      if target == null { return; }
      if target.state == ReceiveBlocked {
        Interrupt(target, irq);
      } else {
        Postpone(irq);
      }
    }

    method Interrupt(target: Process, irq: nat)
      requires Valid() && target in processes && irq < IRQ_COUNT
      modifies this`k, target`mem, target`eax, target`state
      ensures Valid() && target.pid in old(k).procs
      ensures var t := old(k).procs[target.pid];
        k == SetProc(old(k), target.pid, t.(mem := Poke(t.mem, t.msgPtr, IrqMessage(irq)), eax := 0, state := Ready))
    {
      Known(target);
      target.mem := Poke(target.mem, target.msgPtr, IrqMessage(irq));
      target.eax := 0;
      target.state := Ready;
      Record(target);
    }

    method Postpone(irq: nat)
      requires Valid() && irq < IRQ_COUNT
      modifies this`k, pendingIrq
      ensures Valid() && k == old(k).(pending := old(k).pending[irq := true])
    {
      pendingIrq[irq] := true;
      k := k.(pending := k.pending[irq := true]);
      assert forall i :: 0 <= i < |processes| ==> At(i, processes[i]);
    }

    // The timer handler is registered for IRQ 0; then the IRQ is forwarded.
    method HandleIrq(irq: nat)
      requires Valid() && irq < IRQ_COUNT
      modifies this, processes, pendingIrq
      ensures Valid() && k == Interrupted(old(k), irq)
    {
      if irq == 0 { Schedule(); }
      Forward(irq);
    }

    // ---- Dispatch ----

    // handleSyscall and handleInterrupt, with the current process's own computation: on a
    // reachable state each takes exactly the step the state machine prescribes, so every run
    // of the object is a run of the machine and the invariants hold all along.
    method Handle(op: Op, ghost s: Sys)
      requires Valid() && s.k == k && Inv(s) == true && Enabled(s, op) && Rule(s, op)
      modifies this, processes, forwardPid, pendingIrq
      ensures Valid() && k == Step(s, op).k && Inv(Step(s, op)) == true
    {
      StepKeeps(s, op);
      match op {
        case OpExit => ExitCurrent();
        case OpExec(mem, loaded) => Exec(mem, loaded);
        case OpRegister(irq) => RegisterForward(irq);
        case OpIrq(irq) => HandleIrq(irq);
        case OpCompute(mem) => Compute(mem);
        case _ => Syscall(op, s);
      }
    }

    method Exec(mem: Memory, loaded: bool)
      requires Valid()
      modifies this, processes
      ensures Valid() && k == Executed(old(k), mem, loaded)
    {
      if loaded {
        Return(nextPid);
        var p := Create(mem);
      } else {
        Return(0);
      }
    }

    method Compute(mem: Memory)
      requires Valid()
      modifies this`k, currentProcess`mem
      ensures Valid() && k == SetProc(old(k), old(k).current, Me(old(k)).(mem := mem))
    {
      Known(currentProcess);
      currentProcess.mem := mem;
      Record(currentProcess);
    }

    // A call with result 0 has blocked the caller; handleSyscall then reschedules.
    method Syscall(op: Op, ghost s: Sys)
      requires Valid() && s.k == k && Inv(s) && Enabled(s, op) && Rule(s, op)
      requires op.OpSend? || op.OpReceive? || op.OpReply? || op.OpNotify? || op.OpWait?
      modifies this, processes, pendingIrq
      ensures Valid() && k == Resumed(Called(old(k), op))
    {
      BlocksIffZero(s, op);
      var blocked := Invoke(op, s);
      if blocked { Reschedule(); }
    }

    method Invoke(op: Op, ghost s: Sys) returns (blocked: bool)
      requires Valid() && s.k == k && Inv(s)
      requires op.OpSend? || op.OpReceive? || op.OpReply? || op.OpNotify? || op.OpWait?
      modifies this`k, processes, pendingIrq
      ensures Valid() && k == Called(old(k), op) && blocked == CallBlocks(old(k), op)
    {
      NotInOwnQueue(s);
      var result;
      match op {
        case OpSend(t, a, room) => result := Send(t, a, room); blocked := result == 0;
        case OpReceive(a) => result := Receive(a); blocked := result == 0;
        case OpReply(t, a) => result := Reply(t, a); blocked := false;
        case OpNotify(t, a, room) => result := Notify(t, a, room); blocked := false;
        case OpWait(t) => result := WaitPid(t); blocked := result == 0;
      }
    }

    lemma PidsDiffer(p: Process, q: Process)
      requires Tied() && Distinct(k.order) && p in processes && q in processes && p != q
      ensures p.pid != q.pid
    {
      if p.pid == q.pid { SamePid(p, q); }
    }
  }

  lemma Grows(k: Kernel, memory: Memory)
    requires Shaped(k)
    ensures Shaped(KernelState.Create(k, memory))
  {
    assert k.nextPid !in k.order;
  }

  lemma CutPeek(m: Memory, ptr: nat, len: nat, cap: nat)
    ensures Cut(Peek(m, ptr, len), cap) == Peek(m, ptr, if len < cap then len else cap)
  {
  }

  // The data a caller passes: nothing without a buffer.
  function Buffer(source: Memory, dataPtr: nat, dataLen: nat): seq<byte> {
    if dataPtr == 0 then [] else Peek(source, dataPtr, dataLen)
  }

  // Message, then as much data as fits, into the buffers a receiver named.
  method StoreParcel(m: Memory, msgPtr: nat, bufPtr: nat, cap: nat, msg: seq<byte>,
                     source: Memory, dataPtr: nat, dataLen: Length) returns (r: Memory)
    ensures r == Poke(Poke(m, msgPtr, msg), bufPtr,
      Cut(Buffer(source, dataPtr, dataLen), if bufPtr == 0 then 0 else cap))
  {
    r := Poke(m, msgPtr, msg);
    if dataPtr != 0 && dataLen > 0 && bufPtr != 0 && cap > 0 {
      var copyLen := if dataLen < cap then dataLen else cap;
      r := CopyData(source, r, bufPtr, dataPtr, copyLen);
      CutPeek(source, dataPtr, dataLen, cap);
    } else {
      PokeNothing(r, bufPtr);
    }
  }
}
