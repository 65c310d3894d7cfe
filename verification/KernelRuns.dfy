// Runs of the kernel: steps, the record of what was sent and received, the rule that replies
// go only to senders whose messages have been received, and the invariants of every run that
// obeys it.
module KernelRuns {
  import opened Bytes
  import opened Finite
  import opened KernelState

  // One step. Compute is the current process changing its own memory in user mode.
  datatype Op =
    | OpSend(target: nat, call: Call, room: bool)
    | OpReceive(call: Call)
    | OpReply(target: nat, call: Call)
    | OpNotify(target: nat, call: Call, room: bool)
    | OpWait(target: nat)
    | OpExit
    | OpExec(mem: Memory, loaded: bool)
    | OpRegister(irq: nat)
    | OpIrq(irq: nat)
    | OpCompute(mem: Memory)

  datatype Parcel = Parcel(msg: seq<byte>, data: seq<byte>)

  // cap is the room the receiver offered for data.
  datatype Event =
    | Issued(src: nat, dst: nat, parcel: Parcel)
    | Delivered(src: nat, dst: nat, parcel: Parcel, cap: nat)

  // Where a blocked sender stands: in the send queue of a process, or received by one and
  // owed a reply.
  datatype Place = Queued(server: nat) | Handed(server: nat)

  // The kernel with what an observer has seen: where each blocked sender stands, and all
  // messages issued and delivered so far.
  datatype Sys = Sys(k: Kernel, place: map<nat, Place>, log: seq<Event>)

  ghost predicate Shaped(k: Kernel) {
    Listed(k) && |k.forward| == |k.pending| == IRQ_COUNT && k.ticks < TIME_SLICE
    && forall p :: p in k.procs ==> p < k.nextPid
  }

  // The kernel task only idles; pids are not reused (fewer than 2^32 processes are created).
  ghost predicate Enabled(s: Sys, op: Op) {
    if op.OpIrq? then op.irq < IRQ_COUNT
    else s.k.current != 0 && (op.OpExec? ==> s.k.nextPid + 1 < U32)
  }

  // No reply goes to a sender whose message is still queued. A server that replies only to
  // senders whose messages it has received keeps this rule.
  ghost predicate Rule(s: Sys, op: Op) {
    op.OpReply? && op.target in s.place ==> s.place[op.target].Handed?
  }

  // ---- Steps ----

  // The kernel before the scheduler picks the next process, if the call blocks.
  function Called(k: Kernel, op: Op): Kernel
    requires k.current in k.procs && |k.forward| == |k.pending| == IRQ_COUNT
    requires op.OpSend? || op.OpReceive? || op.OpReply? || op.OpNotify? || op.OpWait?
  {
    match op
    case OpSend(t, a, room) => Send(k, t, a, room)
    case OpReceive(a) => Receive(k, a)
    case OpReply(t, a) => Reply(k, t, a)
    case OpNotify(t, a, room) => Notify(k, t, a, room)
    case OpWait(t) => Wait(k, t)
  }

  // handleSyscall: a call that blocked the caller is followed by a switch.
  function Resumed(k: Kernel): Kernel
    requires Listed(k)
  {
    if Me(k).state == Running then k else Reschedule(k)
  }

  function Exited(k: Kernel): Kernel
    requires Listed(k) && k.current != 0
  {
    var next := ExitTarget(k);
    SwitchTo(Destroy(k, k.current), next).(ticks := 0)
  }

  function Interrupted(k: Kernel, irq: nat): Kernel
    requires Shaped(k) && irq < IRQ_COUNT
  {
    ForwardIrq(if irq == 0 then Schedule(k) else k, irq)
  }

  function Executed(k: Kernel, mem: Memory, loaded: bool): Kernel
    requires k.current in k.procs
  {
    if loaded then Create(Return(k, k.nextPid), mem) else Return(k, 0)
  }

  lemma CalledStaysListed(k: Kernel, op: Op)
    requires Shaped(k)
    requires op.OpSend? || op.OpReceive? || op.OpReply? || op.OpNotify? || op.OpWait?
    ensures Shaped(Called(k, op)) && Called(k, op).current == k.current && Called(k, op).procs.Keys == k.procs.Keys
    ensures Called(k, op).order == k.order
  {
  }

  function Stepped(k: Kernel, op: Op): Kernel
    requires Shaped(k) && (op.OpIrq? ==> op.irq < IRQ_COUNT) && (!op.OpIrq? ==> k.current != 0)
  {
    match op
    case OpExit => Exited(k)
    case OpExec(mem, loaded) => Executed(k, mem, loaded)
    case OpRegister(irq) => RegisterIrq(k, irq)
    case OpIrq(irq) => Interrupted(k, irq)
    case OpCompute(mem) => SetProc(k, k.current, Me(k).(mem := mem))
    case _ => CalledStaysListed(k, op); Resumed(Called(k, op))
  }

  // ---- What an observer sees ----

  function SendParcel(k: Kernel, a: Call): Parcel
    requires k.current in k.procs
  {
    Parcel(Message(Me(k), a), Data(Me(k), a))
  }

  function Handover(k: Kernel, src: nat, dst: nat, parcel: Parcel, cap: nat): Event {
    Delivered(src, dst, Parcel(parcel.msg, Cut(parcel.data, cap)), cap)
  }

  // A message accepted for target: issued, and delivered at once if the target is waiting.
  function Accepted(k: Kernel, target: nat, parcel: Parcel): seq<Event>
    requires target in k.procs
  {
    [Issued(k.current, target, parcel)] +
    if k.procs[target].state == ReceiveBlocked
    then [Handover(k, k.current, target, parcel, Capacity(k.procs[target]))] else []
  }

  function Events(k: Kernel, op: Op): seq<Event>
    requires k.current in k.procs && |k.forward| == |k.pending| == IRQ_COUNT
  {
    match op
    case OpSend(t, a, room) => if SendBlocks(k, t, room) then Accepted(k, t, SendParcel(k, a)) else []
    case OpNotify(t, a, room) => if SendBlocks(k, t, room) then Accepted(k, t, SendParcel(k, a)) else []
    case OpReceive(a) => (
      var cap := if a.dataPtr == 0 then 0 else a.dataLen;
      match Incoming(k)
      case FromNote =>
        var n := Me(k).notifyQueue[0];
        [Handover(k, n.sender, k.current, Parcel(n.msg, n.data), cap)]
      case FromSender(p) =>
        if Live(k, p) then [Handover(k, p, k.current, Parcel(k.procs[p].msg, Payload(k.procs[p])), cap)] else []
      case _ => [])
    case _ => []
  }

  function Places(s: Sys, op: Op): map<nat, Place>
    requires s.k.current in s.k.procs && |s.k.forward| == |s.k.pending| == IRQ_COUNT
  {
    var k, c := s.k, s.k.current;
    match op
    case OpSend(t, a, room) =>
      if !SendBlocks(k, t, room) then s.place
      else s.place[c := if k.procs[t].state == ReceiveBlocked then Handed(t) else Queued(t)]
    case OpReceive(a) =>
      if Incoming(k).FromSender? && Live(k, Incoming(k).pid) then s.place[Incoming(k).pid := Handed(c)] else s.place
    case OpReply(t, a) => if Repliable(k, t) then s.place - {t} else s.place
    case OpExit => map p | p in s.place && s.place[p] != Queued(c) :: s.place[p]
    case _ => s.place
  }

  function Step(s: Sys, op: Op): Sys
    requires Shaped(s.k) && (op.OpIrq? ==> op.irq < IRQ_COUNT) && (!op.OpIrq? ==> s.k.current != 0)
  {
    Sys(Stepped(s.k, op), Places(s, op), s.log + Events(s.k, op))
  }

  // ---- Invariants ----

  predicate RunsIffCurrent(pid: nat, p: Proc, current: nat) {
    (p.state == Running <==> pid == current) && p.state != Empty
  }

  // The current process is the one Running process; the kernel task is never blocked.
  ghost predicate OneRunning(k: Kernel) {
    && (forall p :: p in k.procs ==> RunsIffCurrent(p, k.procs[p], k.current))
    && 0 in k.procs && CanRun(k.procs[0].state)
  }

  predicate CanRun(st: ProcState) { st == Ready || st == Running }

  ghost predicate MissesNothing(pid: nat, p: Proc, forward: seq<nat>, pending: seq<bool>)
    requires |forward| == |pending|
  {
    p.state == ReceiveBlocked ==>
      p.sendQueue == [] && p.notifyQueue == [] && forall i :: 0 <= i < |forward| && forward[i] == pid ==> !pending[i]
  }

  // No lost wake-up: who waits for a message has none.
  ghost predicate NothingMissed(k: Kernel)
    requires |k.forward| == |k.pending|
  {
    forall p :: p in k.procs ==> MissesNothing(p, k.procs[p], k.forward, k.pending)
  }

  predicate WaitsOnOneOf(p: Proc, pids: set<nat>) { p.state == WaitBlocked ==> p.waitPid in pids }

  ghost predicate WaitsOnLive(k: Kernel) {
    forall p :: p in k.procs ==> WaitsOnOneOf(k.procs[p], k.procs.Keys)
  }

  predicate BlockedIffPlaced(pid: nat, p: Proc, place: map<nat, Place>) { p.state == SendBlocked <==> pid in place }

  // Blocked senders are the ones with a place.
  ghost predicate BlockedArePlaced(k: Kernel, place: map<nat, Place>) {
    && (forall p :: p in place ==> p in k.procs)
    && (forall p :: p in k.procs ==> BlockedIffPlaced(p, k.procs[p], place))
  }

  // A send queue holds, once each, exactly the senders placed in it.
  ghost predicate QueueIsPlaced(q: nat, queue: seq<nat>, place: map<nat, Place>) {
    Distinct(queue) && forall p :: p in queue <==> p in place && place[p] == Queued(q)
  }

  // Every blocked sender is queued exactly once, with one live process, or owed a reply.
  ghost predicate SendersPlaced(k: Kernel, place: map<nat, Place>) {
    && BlockedArePlaced(k, place)
    && (forall q :: q in k.procs ==> QueueIsPlaced(q, k.procs[q].sendQueue, place))
    && (forall p :: p in place && place[p].Queued? ==> place[p].server in k.procs)
  }

  // All invariants but OneRunning, which a blocked caller suspends until the switch.
  ghost predicate Sound(k: Kernel, place: map<nat, Place>) {
    Shaped(k) && NothingMissed(k) && WaitsOnLive(k) && SendersPlaced(k, place)
  }

  ghost predicate Inv(s: Sys) {
    Sound(s.k, s.place) && OneRunning(s.k)
  }

  // ---- Runs ----

  // A sequence of steps, each possible and each obeying the reply rule.
  ghost predicate Lawful(s: Sys, ops: seq<Op>)
    decreases |ops|
  {
    Shaped(s.k) && (ops != [] ==> Enabled(s, ops[0]) && Rule(s, ops[0]) && Lawful(Step(s, ops[0]), ops[1..]))
  }

  ghost function After(s: Sys, ops: seq<Op>): Sys
    requires Lawful(s, ops)
    decreases |ops|
  {
    if ops == [] then s else After(Step(s, ops[0]), ops[1..])
  }

  // The kernel after boot: the kernel task runs, every loaded process is Ready.
  ghost predicate Booted(s: Sys) {
    && Shaped(s.k) && s.k.current == 0 && s.place == map[] && s.log == []
    && (forall p :: p in s.k.procs ==> s.k.procs[p].state == if p == 0 then Running else Ready)
    && (forall p :: p in s.k.procs ==> s.k.procs[p].sendQueue == [] && s.k.procs[p].notifyQueue == [])
    && (forall i :: 0 <= i < IRQ_COUNT ==> s.k.forward[i] == 0 && !s.k.pending[i])
  }
}
