// A run that breaks the reply rule and receives a message other than the one that was sent: a
// server answers a sender before receiving from it, and the reply overwrites the sender's
// buffer, from which the queued message is taken later.
module RuleNeeded {
  import opened Bytes
  import opened KernelState
  import opened KernelRuns
  import opened MessageOrder

  const BUFFER: nat := 4096

  // Message at 0, one byte of data at BUFFER.
  const OneByte: Call := Call(0, BUFFER, 1)

  // The kernel task and two processes, 1 and 2.
  function Machine(p0: Proc, p1: Proc, p2: Proc, current: nat, ticks: nat): Kernel {
    Kernel([0, 1, 2], map[0 := p0, 1 := p1, 2 := p2], current, 3, ticks, seq(IRQ_COUNT, _ => 0),
      seq(IRQ_COUNT, _ => false))
  }

  lemma MachineShaped(p0: Proc, p1: Proc, p2: Proc, current: nat, ticks: nat)
    requires current < 3 && ticks < TIME_SLICE
    ensures Shaped(Machine(p0, p1, p2, current, ticks))
  {
    var k := Machine(p0, p1, p2, current, ticks);
    assert k.order[0] == 0 && k.order[1] == 1 && k.order[2] == 2;
  }

  lemma NextFrom(k: Kernel)
    requires k.order == [0, 1, 2] && k.current in k.order
    ensures k.current == 0 && IsReady(k, 1) ==> NextReady(k) == 1
    ensures k.current == 1 && IsReady(k, 2) ==> NextReady(k) == 2
  {
    assert k.order[0] == 0 && k.order[1] == 1 && k.order[2] == 2;
    assert Around(k.order, IndexOf(k.order, k.current), 1) == if k.current == 2 then 0 else k.current + 1;
  }

  // The timer lets process 1 run.
  lemma TimerStarts(p0: Proc, p1: Proc, p2: Proc)
    requires p0.state == Running && p1.state == Ready
    ensures Shaped(Machine(p0, p1, p2, 0, TIME_SLICE - 1))
    ensures Interrupted(Machine(p0, p1, p2, 0, TIME_SLICE - 1), 0) ==
            Machine(p0.(state := Ready), p1.(state := Running), p2, 1, 0)
  {
    MachineShaped(p0, p1, p2, 0, TIME_SLICE - 1);
    var k := Machine(p0, p1, p2, 0, TIME_SLICE - 1);
    NextFrom(Demote(k));
    var r := Machine(p0.(state := Ready), p1.(state := Running), p2, 1, 0);
    assert Schedule(k).procs == r.procs;
    assert Schedule(k) == r;
  }

  // It sends to process 2, which is not waiting, and is queued there.
  lemma SendQueues(p0: Proc, p1: Proc, p2: Proc, a: Call)
    requires p0.state == Ready && p1.state == Running && p2.state == Ready && p2.sendQueue == []
    ensures Shaped(Machine(p0, p1, p2, 1, 0))
    ensures Stepped(Machine(p0, p1, p2, 1, 0), OpSend(2, a, true)) ==
            Machine(p0, Outgoing(p1, a).(state := SendBlocked), p2.(sendQueue := [1], state := Running), 2, 0)
  {
    MachineShaped(p0, p1, p2, 1, 0);
    var k := Machine(p0, p1, p2, 1, 0);
    var sent := Send(k, 2, a, true);
    assert p2.sendQueue + [1] == [1];
    assert sent == Machine(p0, Outgoing(p1, a).(state := SendBlocked), p2.(sendQueue := [1]), 1, 0);
    NextFrom(sent);
    var r := Machine(p0, Outgoing(p1, a).(state := SendBlocked), p2.(sendQueue := [1], state := Running), 2, 0);
    assert Reschedule(sent).procs == r.procs;
  }

  // Process 2 replies to it without having received.
  lemma ReplyWakes(p0: Proc, p1: Proc, p2: Proc, a: Call)
    requires p1.state == SendBlocked && p2.state == Running
    ensures Shaped(Machine(p0, p1, p2, 2, 0))
    ensures Stepped(Machine(p0, p1, p2, 2, 0), OpReply(1, a)) ==
            Machine(p0, Woken(p1, Message(p2, a), Data(p2, a), 0), p2.(eax := 0), 2, 0)
  {
    MachineShaped(p0, p1, p2, 2, 0);
    var k := Machine(p0, p1, p2, 2, 0);
    assert Reply(k, 1, a) == Machine(p0, Woken(p1, Message(p2, a), Data(p2, a), 0), p2.(eax := 0), 2, 0);
  }

  // The byte sent is the sender's; the byte received is the one the reply has put there.
  lemma ReplyOverwrites(p: Proc, msg: seq<byte>, data: seq<byte>)
    requires p.dataPtr == BUFFER && p.dataLen == 1 && |data| == 1
    ensures Payload(Woken(p, msg, data, 0)) == data
  {
    var m := Poke(p.mem, p.msgPtr, msg);
    PokedBytes(m, BUFFER, data);
    assert Cut(data, 1) == data;
  }

  // r is what op makes of s, whether or not it obeys the rule.
  ghost predicate Leads(s: Sys, op: Op, r: Sys) { Shaped(s.k) && Enabled(s, op) && r == Step(s, op) }

  lemma Timer(p0: Proc, p1: Proc, p2: Proc)
    requires p0.state == Running && p1.state == Ready
    ensures Leads(Sys(Machine(p0, p1, p2, 0, TIME_SLICE - 1), map[], []), OpIrq(0),
                  Sys(Machine(p0.(state := Ready), p1.(state := Running), p2, 1, 0), map[], []))
  {
    TimerStarts(p0, p1, p2);
  }

  lemma Sender(p0: Proc, p1: Proc, p2: Proc)
    requires p0.state == Ready && p1.state == Running && p2.state == Ready && p2.sendQueue == []
    ensures var q1, q2 := Outgoing(p1, OneByte).(state := SendBlocked), p2.(sendQueue := [1], state := Running);
      Leads(Sys(Machine(p0, p1, p2, 1, 0), map[], []), OpSend(2, OneByte, true),
            Sys(Machine(p0, q1, q2, 2, 0), map[1 := Queued(2)],
              [Issued(1, 2, Parcel(Message(p1, OneByte), Data(p1, OneByte)))]))
  {
    SendQueues(p0, p1, p2, OneByte);
  }

  lemma Replier(p0: Proc, p1: Proc, p2: Proc, log: seq<Event>)
    requires p1.state == SendBlocked && p2.state == Running
    ensures var q1 := Woken(p1, Message(p2, OneByte), Data(p2, OneByte), 0);
      Leads(Sys(Machine(p0, p1, p2, 2, 0), map[1 := Queued(2)], log), OpReply(1, OneByte),
            Sys(Machine(p0, q1, p2.(eax := 0), 2, 0), map[], log))
  {
    ReplyWakes(p0, p1, p2, OneByte);
    var place: map<nat, Place> := map[1 := Queued(2)];
    assert place - {1} == map[];
    assert log + [] == log;
  }

  lemma Receiver(p0: Proc, p1: Proc, p2: Proc, log: seq<Event>) returns (r: Sys)
    requires p1.state == Ready && p2.sendQueue == [1] && p2.notifyQueue == []
    ensures Leads(Sys(Machine(p0, p1, p2, 2, 0), map[], log), OpReceive(OneByte), r)
    ensures r.log == log + [Delivered(1, 2, Parcel(p1.msg, Cut(Payload(p1), 1)), 1)]
  {
    MachineShaped(p0, p1, p2, 2, 0);
    var s := Sys(Machine(p0, p1, p2, 2, 0), map[], log);
    assert Incoming(s.k) == FromSender(1);
    r := Step(s, OpReceive(OneByte));
  }

  // From boot, with processes 1 and 2 holding different bytes at BUFFER: timer, send, reply,
  // receive. What is received is not what was sent.
  lemma BrokenRule(m: Memory, m1: Memory, m2: Memory) returns (s0: Sys, s1: Sys, s2: Sys, s3: Sys, s4: Sys)
    requires m1[BUFFER] != m2[BUFFER]
    ensures Booted(s0) && Leads(s0, OpIrq(0), s1) && Leads(s1, OpSend(2, OneByte, true), s2)
    ensures Leads(s2, OpReply(1, OneByte), s3) && Leads(s3, OpReceive(OneByte), s4)
    ensures !InOrder(Sent(s4.log, 1, 2), Got(s4.log, 1, 2))
  {
    var p0, p1, p2 := NewProc(m).(state := Running), NewProc(m1), NewProc(m2);
    Starts(p0, p1, p2);
    Timer(p0, p1, p2);
    s0 := Sys(Machine(p0, p1, p2, 0, TIME_SLICE - 1), map[], []);
    s1 := Sys(Machine(p0.(state := Ready), p1.(state := Running), p2, 1, 0), map[], []);
    s2, s3, s4 := SendReplyReceive(p0.(state := Ready), p1.(state := Running), p2);
  }

  lemma SendReplyReceive(p0: Proc, p1: Proc, p2: Proc) returns (s2: Sys, s3: Sys, s4: Sys)
    requires p0.state == Ready && p1.state == Running && p2.state == Ready && p2.sendQueue == [] && p2.notifyQueue == []
    requires p1.mem[BUFFER] != p2.mem[BUFFER]
    ensures Leads(Sys(Machine(p0, p1, p2, 1, 0), map[], []), OpSend(2, OneByte, true), s2)
    ensures Leads(s2, OpReply(1, OneByte), s3) && Leads(s3, OpReceive(OneByte), s4)
    ensures !InOrder(Sent(s4.log, 1, 2), Got(s4.log, 1, 2))
  {
    Sender(p0, p1, p2);
    var q1, q2 := Outgoing(p1, OneByte).(state := SendBlocked), p2.(sendQueue := [1], state := Running);
    var sent := Parcel(Message(p1, OneByte), Data(p1, OneByte));
    s2 := Sys(Machine(p0, q1, q2, 2, 0), map[1 := Queued(2)], [Issued(1, 2, sent)]);
    s3, s4 := ReplyReceive(p0, q1, q2, sent);
  }

  lemma ReplyReceive(p0: Proc, p1: Proc, p2: Proc, sent: Parcel) returns (s3: Sys, s4: Sys)
    requires p1.state == SendBlocked && p2.state == Running && p2.sendQueue == [1] && p2.notifyQueue == []
    requires p1.dataPtr == BUFFER && p1.dataLen == 1 && sent.data == Peek(p1.mem, BUFFER, 1)
      && p1.mem[BUFFER] != p2.mem[BUFFER]
    ensures Leads(Sys(Machine(p0, p1, p2, 2, 0), map[1 := Queued(2)], [Issued(1, 2, sent)]), OpReply(1, OneByte), s3)
    ensures Leads(s3, OpReceive(OneByte), s4) && !InOrder(Sent(s4.log, 1, 2), Got(s4.log, 1, 2))
  {
    var log := [Issued(1, 2, sent)];
    Replier(p0, p1, p2, log);
    ReplyOverwrites(p1, Message(p2, OneByte), Data(p2, OneByte));
    var t1, t2 := Woken(p1, Message(p2, OneByte), Data(p2, OneByte), 0), p2.(eax := 0);
    s3 := Sys(Machine(p0, t1, t2, 2, 0), map[], log);
    s4 := Receiver(p0, t1, t2, log);
    Misread(s4.log, sent, Parcel(t1.msg, Cut(Payload(t1), 1)), p1.mem, p2.mem);
  }

  lemma Starts(p0: Proc, p1: Proc, p2: Proc)
    requires p0.state == Running && p1.state == Ready && p2.state == Ready
    requires p0.sendQueue == p1.sendQueue == p2.sendQueue == []
    requires p0.notifyQueue == p1.notifyQueue == p2.notifyQueue == []
    ensures Booted(Sys(Machine(p0, p1, p2, 0, TIME_SLICE - 1), map[], []))
  {
    MachineShaped(p0, p1, p2, 0, TIME_SLICE - 1);
  }

  lemma TwoEvents(log: seq<Event>, a: Parcel, b: Parcel)
    requires log == [Issued(1, 2, a), Delivered(1, 2, b, 1)]
    ensures Sent(log, 1, 2) == [a] && Got(log, 1, 2) == [Receipt(b, 1)]
  {
    SentAppendTwo([], log[0], log[1], 1, 2);
    assert [] + [log[0], log[1]] == log;
  }

  lemma Misread(log: seq<Event>, a: Parcel, b: Parcel, m1: Memory, m2: Memory)
    requires log == [Issued(1, 2, a), Delivered(1, 2, b, 1)] && m1[BUFFER] != m2[BUFFER]
    requires a.data == Peek(m1, BUFFER, 1) && b.data == Cut(Peek(m2, BUFFER, 1), 1)
    ensures !InOrder(Sent(log, 1, 2), Got(log, 1, 2))
  {
    TwoEvents(log, a, b);
    assert a.data[0] == m1[BUFFER] && b.data[0] == m2[BUFFER];
  }
}
