// The microkernel as a state machine: processes with their IPC queues and saved return
// value, the scheduler's list and current process, and the IRQ forwarding table.
// Each system call and each interrupt is one step.
module KernelState {
  import opened Bytes
  import opened Finite

  const MESSAGE_SIZE: nat := 24
  const IRQ_COUNT: nat := 16
  const TIME_SLICE: nat := 10
  const IRQ_NOTIFY: nat := 1

  // ---- User memory ----

  // The 4 GiB address space of one process.
  type Memory = m: seq<byte> | |m| == U32 ghost witness seq(U32, _ => 0)

  function Peek(m: Memory, ptr: nat, len: nat): (r: seq<byte>)
    ensures |r| == len
  {
    seq(len, i requires 0 <= i < len => m[(ptr + i) % U32])
  }

  // Memory after the bytes bs have been stored at ptr.
  function Poke(m: Memory, ptr: nat, bs: seq<byte>): Memory {
    seq(U32, a requires 0 <= a < U32 => var k := (a - ptr) % U32; if k < |bs| then bs[k] else m[a])
  }

  // A 32-bit length.
  type Length = n: nat | n < U32

  // ---- Processes ----

  datatype ProcState = Empty | Ready | Running | SendBlocked | ReceiveBlocked | WaitBlocked

  datatype Note = Note(sender: nat, msg: seq<byte>, data: seq<byte>)

  // eax is the return value in the saved frame of the process.
  datatype Proc = Proc(state: ProcState, waitPid: nat, msg: seq<byte>, msgPtr: nat, dataPtr: nat, dataLen: Length,
                       sendQueue: seq<nat>, notifyQueue: seq<Note>, eax: int, mem: Memory)

  // order is the process list, the kernel task (pid 0) first.
  datatype Kernel = Kernel(order: seq<nat>, procs: map<nat, Proc>, current: nat, nextPid: nat, ticks: nat,
                           forward: seq<nat>, pending: seq<bool>)

  // ProcessManager::get
  predicate Live(k: Kernel, pid: nat) {
    pid in k.procs && k.procs[pid].state != Empty
  }

  function Me(k: Kernel): Proc
    requires k.current in k.procs
  {
    k.procs[k.current]
  }

  function SetProc(k: Kernel, pid: nat, p: Proc): Kernel {
    k.(procs := k.procs[pid := p])
  }

  // Only process records and pending flags differ: nobody enters, leaves or gets the CPU.
  ghost predicate SameTable(k: Kernel, r: Kernel) {
    r == k.(procs := r.procs, pending := r.pending) && r.procs.Keys == k.procs.Keys
  }

  function Return(k: Kernel, value: int): (r: Kernel)
    requires k.current in k.procs
    ensures SameTable(k, r) && r.pending == k.pending
  {
    SetProc(k, k.current, Me(k).(eax := value))
  }

  // ---- Scheduling ----

  function IndexOf(order: seq<nat>, pid: nat): (i: nat)
    requires pid in order
    ensures i < |order| && order[i] == pid
    ensures forall j :: 0 <= j < i ==> order[j] != pid
  {
    if order[0] == pid then 0 else 1 + IndexOf(order[1..], pid)
  }

  // The position d places after position i in a list of n, wrapping to the head.
  function Wrapped(i: nat, d: nat, n: nat): (r: nat)
    requires i < n && d <= n
    ensures r < n
  {
    if i + d < n then i + d else i + d - n
  }

  function Around(order: seq<nat>, i: nat, d: nat): (pid: nat)
    requires i < |order| && d < |order|
    ensures pid in order
  {
    order[Wrapped(i, d, |order|)]
  }

  predicate IsReady(k: Kernel, pid: nat) {
    pid in k.procs && k.procs[pid].state == Ready
  }

  // findNextReady: the first Ready process from d places after the current one on, else the
  // current one.
  function Search(k: Kernel, i: nat, d: nat): (pid: nat)
    requires i < |k.order| && 0 < d
    ensures pid in k.order
    ensures pid == k.order[i] || IsReady(k, pid)
    decreases |k.order| - d
  {
    if d >= |k.order| then k.order[i]
    else if IsReady(k, Around(k.order, i, d)) then Around(k.order, i, d)
    else Search(k, i, d + 1)
  }

  function NextReady(k: Kernel): (pid: nat)
    requires k.current in k.order
    ensures pid in k.order
    ensures pid == k.current || IsReady(k, pid)
  {
    Search(k, IndexOf(k.order, k.current), 1)
  }

  lemma {:induction false} SearchIgnoresTicks(k: Kernel, ticks: nat, i: nat, d: nat)
    requires i < |k.order| && 0 < d
    ensures Search(k.(ticks := ticks), i, d) == Search(k, i, d)
    decreases |k.order| - d
  {
    if d < |k.order| && !IsReady(k, Around(k.order, i, d)) { SearchIgnoresTicks(k, ticks, i, d + 1); }
  }

  function SwitchTo(k: Kernel, next: nat): Kernel
    requires next in k.procs
  {
    SetProc(k, next, k.procs[next].(state := Running)).(current := next)
  }

  // The process list agrees with the table.
  ghost predicate Listed(k: Kernel) {
    && Distinct(k.order) && 0 < |k.order| && k.order[0] == 0
    && (forall p :: p in k.procs <==> p in k.order)
    && k.current in k.procs
  }

  function Reschedule(k: Kernel): Kernel
    requires Listed(k)
  {
    if |k.order| <= 1 then k else SwitchTo(k, NextReady(k)).(ticks := 0)
  }

  // One timer tick; at the end of the time slice the current process yields.
  function Schedule(k: Kernel): Kernel
    requires Listed(k)
  {
    if |k.order| <= 1 then k
    else if k.ticks + 1 < TIME_SLICE then k.(ticks := k.ticks + 1)
    else Yielded(k).(ticks := 0)
  }

  function Demote(k: Kernel): Kernel
    requires k.current in k.procs
  {
    if Me(k).state == Running then SetProc(k, k.current, Me(k).(state := Ready)) else k
  }

  // The current process leaves the CPU to the next Ready one.
  function Yielded(k: Kernel): Kernel
    requires Listed(k)
  {
    SwitchTo(Demote(k), NextReady(Demote(k)))
  }

  lemma YieldedIgnoresTicks(k: Kernel, ticks: nat)
    requires Listed(k)
    ensures Yielded(k.(ticks := ticks)) == Yielded(k).(ticks := ticks)
  {
    SearchIgnoresTicks(Demote(k), ticks, IndexOf(k.order, k.current), 1);
    assert Demote(k.(ticks := ticks)) == Demote(k).(ticks := ticks);
  }

  // ---- IPC ----

  // What a process hands over with a message: its data buffer, if it named one.
  function Payload(p: Proc): seq<byte> {
    if p.dataPtr == 0 then [] else Peek(p.mem, p.dataPtr, p.dataLen)
  }

  function Capacity(p: Proc): nat { if p.dataPtr == 0 then 0 else p.dataLen }

  function Cut(data: seq<byte>, cap: nat): (r: seq<byte>)
    ensures r <= data && |r| == if |data| < cap then |data| else cap
  {
    if |data| < cap then data else data[..cap]
  }

  // Message and data stored in the buffers the receiver named.
  function Receives(p: Proc, msg: seq<byte>, data: seq<byte>): Memory {
    Poke(Poke(p.mem, p.msgPtr, msg), p.dataPtr, Cut(data, Capacity(p)))
  }

  // The process waiting in receive gets the message, the return value and the CPU back.
  function Woken(p: Proc, msg: seq<byte>, data: seq<byte>, eax: int): Proc {
    p.(mem := Receives(p, msg, data), eax := eax, state := Ready)
  }

  function IrqMessage(irq: nat): (m: seq<byte>)
    requires irq < IRQ_COUNT
    ensures |m| == MESSAGE_SIZE
  {
    WordBytes(IRQ_NOTIFY) + WordBytes(irq) + WordBytes(0) + WordBytes(0) + WordBytes(0) + WordBytes(0)
  }

  // The first IRQ at or after i that is pending for pid; IRQ_COUNT when there is none.
  function PendingIrq(k: Kernel, pid: nat, i: nat): (r: nat)
    requires |k.forward| == |k.pending| == IRQ_COUNT && i <= IRQ_COUNT
    ensures i <= r <= IRQ_COUNT
    ensures r < IRQ_COUNT ==> k.forward[r] == pid && k.pending[r]
    ensures forall j :: i <= j < r ==> !(k.forward[j] == pid && k.pending[j])
    decreases IRQ_COUNT - i
  {
    if i == IRQ_COUNT || (k.forward[i] == pid && k.pending[i]) then i else PendingIrq(k, pid, i + 1)
  }

  // Arguments of a call that passes a message and a data buffer.
  datatype Call = Call(msgPtr: nat, dataPtr: nat, dataLen: Length)

  function Message(p: Proc, a: Call): seq<byte> { Peek(p.mem, a.msgPtr, MESSAGE_SIZE) }

  function Data(p: Proc, a: Call): seq<byte> {
    if a.dataPtr == 0 then [] else Peek(p.mem, a.dataPtr, a.dataLen)
  }

  // The sender's own record: message copied, buffers noted.
  function Outgoing(p: Proc, a: Call): Proc {
    p.(msg := Message(p, a), msgPtr := a.msgPtr, dataPtr := a.dataPtr, dataLen := a.dataLen)
  }

  predicate Addressable(k: Kernel, target: nat) { Live(k, target) && target != k.current }

  // Whether the call blocks the caller. room: the kernel heap has space for a queue node.
  predicate SendBlocks(k: Kernel, target: nat, room: bool) {
    Addressable(k, target) && (k.procs[target].state == ReceiveBlocked || room)
  }

  function Send(k: Kernel, target: nat, a: Call, room: bool): (r: Kernel)
    requires k.current in k.procs
    ensures SameTable(k, r) && r.pending == k.pending
  {
    var c := k.current;
    var me := Outgoing(Me(k), a);
    if !Addressable(k, target) then Return(k, -1)
    else
      var t := k.procs[target];
      if t.state == ReceiveBlocked then
        SetProc(SetProc(k, c, me.(state := SendBlocked)), target, Woken(t, me.msg, Payload(me), c))
      else if !room then SetProc(k, c, me.(eax := -1))
      else SetProc(SetProc(k, c, me.(state := SendBlocked)), target, t.(sendQueue := t.sendQueue + [c]))
  }

  datatype Source = FromIrq(irq: nat) | FromNote | FromSender(pid: nat) | FromNone

  // receive looks at pending IRQs first, then queued notifications, then queued senders.
  function Incoming(k: Kernel): Source
    requires k.current in k.procs && |k.forward| == |k.pending| == IRQ_COUNT
  {
    var i := PendingIrq(k, k.current, 0);
    if i < IRQ_COUNT then FromIrq(i)
    else if Me(k).notifyQueue != [] then FromNote
    else if Me(k).sendQueue != [] then FromSender(Me(k).sendQueue[0])
    else FromNone
  }

  function Receive(k: Kernel, a: Call): (r: Kernel)
    requires k.current in k.procs && |k.forward| == |k.pending| == IRQ_COUNT
    ensures SameTable(k, r) && |r.pending| == |k.pending|
  {
    var c := k.current;
    var me := Me(k).(dataPtr := a.dataPtr, dataLen := a.dataLen);
    var at := me.(msgPtr := a.msgPtr);
    match Incoming(k)
    case FromIrq(i) =>
      SetProc(k, c, me.(mem := Poke(me.mem, a.msgPtr, IrqMessage(i)), eax := 0)).(pending := k.pending[i := false])
    case FromNote =>
      var n := me.notifyQueue[0];
      SetProc(k, c, me.(mem := Receives(at, n.msg, n.data), notifyQueue := me.notifyQueue[1..], eax := 0))
    case FromSender(p) =>
      var popped := me.(sendQueue := me.sendQueue[1..]);
      if !Live(k, p) then SetProc(k, c, popped.(eax := -1))
      else SetProc(k, c, popped.(mem := Receives(at, k.procs[p].msg, Payload(k.procs[p])), eax := p))
    case FromNone =>
      SetProc(k, c, at.(state := ReceiveBlocked))
  }

  predicate Repliable(k: Kernel, target: nat) { Live(k, target) && k.procs[target].state == SendBlocked }

  function Reply(k: Kernel, target: nat, a: Call): (r: Kernel)
    requires k.current in k.procs
    ensures SameTable(k, r) && r.pending == k.pending
  {
    if !Repliable(k, target) then Return(k, -1)
    else Return(SetProc(k, target, Woken(k.procs[target], Message(Me(k), a), Data(Me(k), a), 0)), 0)
  }

  function Notify(k: Kernel, target: nat, a: Call, room: bool): (r: Kernel)
    requires k.current in k.procs
    ensures SameTable(k, r) && r.pending == k.pending
  {
    var msg, data := Message(Me(k), a), Data(Me(k), a);
    if !Addressable(k, target) then Return(k, -1)
    else
      var t := k.procs[target];
      if t.state == ReceiveBlocked then Return(SetProc(k, target, Woken(t, msg, data, 0)), 0)
      else if !room then Return(k, -1)
      else Return(SetProc(k, target, t.(notifyQueue := t.notifyQueue + [Note(k.current, msg, data)])), 0)
  }

  function Wait(k: Kernel, pid: nat): (r: Kernel)
    requires k.current in k.procs
    ensures SameTable(k, r) && r.pending == k.pending
  {
    if !Addressable(k, pid) then Return(k, -1)
    else SetProc(k, k.current, Me(k).(waitPid := pid, state := WaitBlocked))
  }

  // ---- Process creation and exit ----

  function NewProc(mem: Memory): Proc {
    Proc(Ready, 0, seq(MESSAGE_SIZE, _ => 0), 0, 0, 0, [], [], 0, mem)
  }

  function Create(k: Kernel, mem: Memory): Kernel {
    k.(order := k.order + [k.nextPid], procs := k.procs[k.nextPid := NewProc(mem)], nextPid := k.nextPid + 1)
  }

  // How destroying the process with that pid and send queue changes another process: queued
  // senders fail with -1, waiters return 0.
  function AfterDeath(q: nat, p: Proc, pid: nat, queue: seq<nat>): Proc {
    if q in queue && p.state == SendBlocked then p.(eax := -1, state := Ready)
    else if p.state == WaitBlocked && p.waitPid == pid then p.(eax := 0, state := Ready)
    else p
  }

  function Remove(order: seq<nat>, pid: nat): (r: seq<nat>)
    requires pid in order
    ensures |r| == |order| - 1
  {
    order[..IndexOf(order, pid)] + order[IndexOf(order, pid) + 1..]
  }

  lemma RemoveListed(order: seq<nat>, pid: nat)
    requires Distinct(order) && pid in order && order[0] != pid
    ensures Distinct(Remove(order, pid)) && Remove(order, pid) != [] && Remove(order, pid)[0] == order[0]
    ensures forall x :: x in Remove(order, pid) <==> x in order && x != pid
  {
    var i, r := IndexOf(order, pid), Remove(order, pid);
    assert order == order[..i] + [pid] + order[i + 1..];
    forall x | x in r ensures x in order && x != pid {
      var j :| 0 <= j < |r| && r[j] == x;
      assert r[j] == order[if j < i then j else j + 1];
    }
    forall a, b | 0 <= a < b < |r| ensures r[a] != r[b] {
      assert r[a] == order[if a < i then a else a + 1] && r[b] == order[if b < i then b else b + 1];
    }
  }

  function Destroy(k: Kernel, pid: nat): Kernel
    requires pid in k.procs && pid in k.order
  {
    if pid == 0 then k
    else k.(order := Remove(k.order, pid),
            procs := map q | q in k.procs && q != pid :: AfterDeath(q, k.procs[q], pid, k.procs[pid].sendQueue))
  }

  function ExitTarget(k: Kernel): nat
    requires Listed(k)
  {
    if NextReady(k) == k.current then k.order[0] else NextReady(k)
  }

  // ---- Interrupts ----

  function ForwardIrq(k: Kernel, irq: nat): Kernel
    requires irq < IRQ_COUNT && |k.forward| == |k.pending| == IRQ_COUNT
  {
    var target := k.forward[irq];
    if target == 0 || !Live(k, target) then k
    else if k.procs[target].state == ReceiveBlocked then
      var t := k.procs[target];
      SetProc(k, target, t.(mem := Poke(t.mem, t.msgPtr, IrqMessage(irq)), eax := 0, state := Ready))
    else k.(pending := k.pending[irq := true])
  }

  // The number is cut to 8 bits first: 256 registers IRQ 0.
  function RegisterIrq(k: Kernel, number: nat): Kernel
    requires k.current in k.procs && |k.forward| == IRQ_COUNT
  {
    var irq := number % 0x100;
    if irq >= IRQ_COUNT then Return(k, -1) else Return(k.(forward := k.forward[irq := k.current]), 0)
  }
}
