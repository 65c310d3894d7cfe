// Messages between two processes are received in the order in which they were issued, whole
// and with as much of their data, as it was at the call, as the receiver has room for.
module MessageOrder {
  import opened Bytes
  import opened KernelState
  import opened KernelRuns
  import opened KernelInvariants

  datatype Receipt = Receipt(parcel: Parcel, cap: nat)

  // What p has issued to q, and what q has received from p, in order.
  function Sent(log: seq<Event>, p: nat, q: nat): seq<Parcel> {
    if log == [] then []
    else Sent(log[..|log| - 1], p, q) + IssuedBy(log[|log| - 1], p, q)
  }

  function Got(log: seq<Event>, p: nat, q: nat): seq<Receipt> {
    if log == [] then []
    else Got(log[..|log| - 1], p, q) + DeliveredBy(log[|log| - 1], p, q)
  }

  function IssuedBy(e: Event, p: nat, q: nat): seq<Parcel> {
    if e.Issued? && e.src == p && e.dst == q then [e.parcel] else []
  }

  function DeliveredBy(e: Event, p: nat, q: nat): seq<Receipt> {
    if e.Delivered? && e.src == p && e.dst == q then [Receipt(e.parcel, e.cap)] else []
  }

  // The i-th message received is the i-th one issued, its data cut to the receiver's room.
  ghost predicate InOrder(sent: seq<Parcel>, got: seq<Receipt>) {
    && |got| <= |sent|
    && forall i :: 0 <= i < |got| ==>
         got[i].parcel.msg == sent[i].msg && got[i].parcel.data == Cut(sent[i].data, got[i].cap)
  }

  function NotesFrom(queue: seq<Note>, p: nat): seq<Parcel> {
    if queue == [] then []
    else (if queue[0].sender == p then [Parcel(queue[0].msg, queue[0].data)] else []) + NotesFrom(queue[1..], p)
  }

  // The message of a blocked sender, as it stands in its record and memory now.
  function Offer(k: Kernel, p: nat): Parcel
    requires p in k.procs
  {
    Parcel(k.procs[p].msg, Payload(k.procs[p]))
  }

  // What q will still receive from p: its notifications, then its queued send.
  function Pending(k: Kernel, p: nat, q: nat): seq<Parcel>
    requires q in k.procs
  {
    NotesFrom(k.procs[q].notifyQueue, p) + if p in k.procs[q].sendQueue && p in k.procs then [Offer(k, p)] else []
  }

  ghost predicate PairInOrder(s: Sys, p: nat, q: nat) {
    var sent, got := Sent(s.log, p, q), Got(s.log, p, q);
    && InOrder(sent, got)
    && (q in s.k.procs ==> sent[|got|..] == Pending(s.k, p, q))
    && (q >= s.k.nextPid ==> sent == [])
  }

  ghost predicate AllInOrder(s: Sys) {
    forall p, q :: PairInOrder(s, p, q)
  }

  // ---- Logs and queues ----

  lemma SentAppend(log: seq<Event>, e: Event, p: nat, q: nat)
    ensures Sent(log + [e], p, q) == Sent(log, p, q) + IssuedBy(e, p, q)
    ensures Got(log + [e], p, q) == Got(log, p, q) + DeliveredBy(e, p, q)
  {
    assert (log + [e])[..|log|] == log;
  }

  lemma SentAppendTwo(log: seq<Event>, e: Event, f: Event, p: nat, q: nat)
    ensures Sent(log + [e, f], p, q) == Sent(log, p, q) + IssuedBy(e, p, q) + IssuedBy(f, p, q)
    ensures Got(log + [e, f], p, q) == Got(log, p, q) + DeliveredBy(e, p, q) + DeliveredBy(f, p, q)
  {
    SentAppend(log, e, p, q);
    SentAppend(log + [e], f, p, q);
    assert log + [e, f] == (log + [e]) + [f];
  }

  lemma {:induction false} NotesAppend(queue: seq<Note>, n: Note, p: nat)
    ensures NotesFrom(queue + [n], p) == NotesFrom(queue, p) + if n.sender == p then [Parcel(n.msg, n.data)] else []
  {
    if queue != [] {
      NotesAppend(queue[1..], n, p);
      assert (queue + [n])[1..] == queue[1..] + [n];
    }
  }

  // ---- What leaves a pair alone ----

  // Seen from the pair (p, q), the kernels k and r hold the same undelivered messages.
  ghost predicate SamePending(k: Kernel, r: Kernel, p: nat, q: nat) {
    && r.nextPid == k.nextPid
    && (q in r.procs ==> q in k.procs && Pending(r, p, q) == Pending(k, p, q))
  }

  lemma QuietStep(s: Sys, r: Kernel, place: map<nat, Place>, p: nat, q: nat)
    requires PairInOrder(s, p, q) && SamePending(s.k, r, p, q)
    ensures PairInOrder(Sys(r, place, s.log), p, q)
  {
  }

  lemma RunnableSame(k: Kernel, r: Kernel, p: nat, q: nat)
    requires OnlyRunnable(k, r)
    ensures SamePending(k, r, p, q)
  {
  }

  // A process that is not a blocked sender changes, but its queues do not.
  lemma SetSame(k: Kernel, pid: nat, n: Proc, place: map<nat, Place>, p: nat, q: nat)
    requires SendersPlaced(k, place) && pid in k.procs
    requires n.sendQueue == k.procs[pid].sendQueue && n.notifyQueue == k.procs[pid].notifyQueue
    requires !(pid in place && place[pid].Queued?)
    ensures SamePending(k, SetProc(k, pid, n), p, q)
  {
    if q in k.procs { assert QueueIsPlaced(q, k.procs[q].sendQueue, place); }
  }

  lemma SameTrans(k: Kernel, d: Kernel, r: Kernel, p: nat, q: nat)
    requires SamePending(k, d, p, q) && SamePending(d, r, p, q)
    ensures SamePending(k, r, p, q)
  {
  }

  // A call that delivers and accepts nothing.
  lemma SilentCall(s: Sys, op: Op, p: nat, q: nat)
    requires Shaped(s.k) && PairInOrder(s, p, q)
    requires op.OpSend? || op.OpReceive? || op.OpReply? || op.OpNotify? || op.OpWait?
    requires Finished(Called(s.k, op), Places(s, op)) == true && SamePending(s.k, Called(s.k, op), p, q)
    requires s.k.current != 0 && Events(s.k, op) == []
    ensures PairInOrder(Step(s, op), p, q)
  {
    var d := Called(s.k, op);
    ResumedRunnable(d, Places(s, op));
    RunnableSame(d, Resumed(d), p, q);
    SameTrans(s.k, d, Resumed(d), p, q);
    QuietStep(s, Resumed(d), Places(s, op), p, q);
    assert s.log + [] == s.log;
  }

  // One parcel more is issued from p to q and waits to be received.
  lemma OneMorePending(s: Sys, log: seq<Event>, r: Kernel, place: map<nat, Place>, p: nat, q: nat, parcel: Parcel)
    requires PairInOrder(s, p, q) && q in s.k.procs && q in r.procs && r.nextPid == s.k.nextPid && q < r.nextPid
    requires Sent(log, p, q) == Sent(s.log, p, q) + [parcel] && Got(log, p, q) == Got(s.log, p, q)
    requires Pending(r, p, q) == Pending(s.k, p, q) + [parcel]
    ensures PairInOrder(Sys(r, place, log), p, q)
  {
  }

  // The first parcel that q was still to receive from p is received.
  lemma FirstReceived(s: Sys, log: seq<Event>, r: Kernel, place: map<nat, Place>, p: nat, q: nat, parcel: Parcel,
      cap: nat)
    requires PairInOrder(s, p, q) && q in s.k.procs && q in r.procs && r.nextPid == s.k.nextPid && q < r.nextPid
    requires Sent(log, p, q) == Sent(s.log, p, q)
    requires Got(log, p, q) == Got(s.log, p, q) + [Receipt(Parcel(parcel.msg, Cut(parcel.data, cap)), cap)]
    requires Pending(s.k, p, q) == [parcel] + Pending(r, p, q)
    ensures PairInOrder(Sys(r, place, log), p, q)
  {
    var sent, got := Sent(s.log, p, q), Got(s.log, p, q);
    assert sent[|got|..][0] == parcel;
    assert sent[|got| + 1..] == sent[|got|..][1..];
  }

  lemma BothGrow(sent: seq<Parcel>, got: seq<Receipt>, parcel: Parcel, cap: nat)
    requires InOrder(sent, got) && |sent| == |got|
    ensures InOrder(sent + [parcel], got + [Receipt(Parcel(parcel.msg, Cut(parcel.data, cap)), cap)])
    ensures (sent + [parcel])[|got| + 1..] == []
  {
  }

  // A parcel goes straight to a receiver that had nothing left to receive.
  lemma PassedThrough(s: Sys, log: seq<Event>, r: Kernel, place: map<nat, Place>, p: nat, q: nat, parcel: Parcel,
      cap: nat)
    requires PairInOrder(s, p, q) && q in s.k.procs && q in r.procs && r.nextPid == s.k.nextPid && q < r.nextPid
    requires Sent(log, p, q) == Sent(s.log, p, q) + [parcel]
    requires Got(log, p, q) == Got(s.log, p, q) + [Receipt(Parcel(parcel.msg, Cut(parcel.data, cap)), cap)]
    requires Pending(s.k, p, q) == [] && Pending(r, p, q) == []
    ensures PairInOrder(Sys(r, place, log), p, q)
  {
    var sent, got := Sent(s.log, p, q), Got(s.log, p, q);
    assert |sent[|got|..]| == 0;
    BothGrow(sent, got, parcel, cap);
  }

  // The log grew by events of other pairs.
  lemma OtherPair(s: Sys, log: seq<Event>, r: Kernel, place: map<nat, Place>, p: nat, q: nat)
    requires PairInOrder(s, p, q) && SamePending(s.k, r, p, q)
    requires Sent(log, p, q) == Sent(s.log, p, q) && Got(log, p, q) == Got(s.log, p, q)
    ensures PairInOrder(Sys(r, place, log), p, q)
  {
  }

  // ---- Send ----

  lemma SendDirectSame(k: Kernel, t: nat, n: Proc, w: Proc, place: map<nat, Place>, p: nat, q: nat)
    requires Shaped(k) && SendersPlaced(k, place) && OneRunning(k) && t in k.procs && t != k.current
      && k.procs[t].state == ReceiveBlocked
    requires n.sendQueue == Me(k).sendQueue && n.notifyQueue == Me(k).notifyQueue
    requires w.sendQueue == k.procs[t].sendQueue && w.notifyQueue == k.procs[t].notifyQueue && w.state == Ready
    ensures SamePending(k, SetProc(SetProc(k, k.current, n), t, w), p, q)
  {
    assert BlockedIffPlaced(t, k.procs[t], place);
    CallerNotPlaced(k, place);
    SetSame(k, t, w, place, p, q);
    SetSender(k, t, w, place);
    var a := SetProc(k, t, w);
    SetSame(a, k.current, n, place, p, q);
    SetsCommute(k, k.current, n, t, w);
    SameTrans(k, a, SetProc(a, k.current, n), p, q);
  }

  lemma NothingPending(k: Kernel, p: nat, q: nat)
    requires Shaped(k) && NothingMissed(k) && q in k.procs && k.procs[q].state == ReceiveBlocked
    ensures Pending(k, p, q) == []
  {
    assert MissesNothing(q, k.procs[q], k.forward, k.pending);
  }

  // A parcel is passed straight to a waiting target.
  lemma PassedPair(s: Sys, r: Kernel, place: map<nat, Place>, t: nat, parcel: Parcel, p: nat, q: nat)
    requires Shaped(s.k) && NothingMissed(s.k) && PairInOrder(s, p, q)
    requires t in s.k.procs && s.k.procs[t].state == ReceiveBlocked && t in r.procs && SamePending(s.k, r, p, q)
    ensures PairInOrder(Sys(r, place, s.log + Accepted(s.k, t, parcel)), p, q)
  {
    DirectLog(s, t, parcel, p, q);
    if p == s.k.current && q == t {
      NothingPending(s.k, p, q);
      PassedThrough(s, s.log + Accepted(s.k, t, parcel), r, place, p, q, parcel, Capacity(s.k.procs[t]));
    } else {
      OtherPair(s, s.log + Accepted(s.k, t, parcel), r, place, p, q);
    }
  }

  lemma SendDirectPair(s: Sys, op: Op, p: nat, q: nat)
    requires Inv(s) && PairInOrder(s, p, q) && s.k.current != 0 && op.OpSend?
    requires Addressable(s.k, op.target) && s.k.procs[op.target].state == ReceiveBlocked
    ensures PairInOrder(Step(s, op), p, q)
  {
    var k, t, d := s.k, op.target, Called(s.k, op);
    var me := Outgoing(Me(k), op.call);
    SendKeeps(s, op);
    SendDirectSame(k, t, me.(state := SendBlocked), Woken(k.procs[t], me.msg, Payload(me), k.current), s.place, p, q);
    ResumedRunnable(d, Places(s, op));
    RunnableSame(d, Resumed(d), p, q);
    SameTrans(k, d, Resumed(d), p, q);
    PassedPair(s, Resumed(d), Places(s, op), t, SendParcel(k, op.call), p, q);
  }

  // The log after a message has been accepted for a waiting target.
  lemma DirectLog(s: Sys, t: nat, parcel: Parcel, p: nat, q: nat)
    requires t in s.k.procs && s.k.procs[t].state == ReceiveBlocked
    ensures var log, here, cap := s.log + Accepted(s.k, t, parcel), p == s.k.current && q == t, Capacity(s.k.procs[t]);
      && Sent(log, p, q) == Sent(s.log, p, q) + (if here then [parcel] else [])
      && Got(log, p, q) == Got(s.log, p, q)
           + (if here then [Receipt(Parcel(parcel.msg, Cut(parcel.data, cap)), cap)] else [])
  {
    var e := Issued(s.k.current, t, parcel);
    var f := Handover(s.k, s.k.current, t, parcel, Capacity(s.k.procs[t]));
    assert Accepted(s.k, t, parcel) == [e, f];
    SentAppendTwo(s.log, e, f, p, q);
  }

  lemma QueuedLog(s: Sys, t: nat, parcel: Parcel, p: nat, q: nat)
    requires t in s.k.procs && s.k.procs[t].state != ReceiveBlocked
    ensures var log := s.log + Accepted(s.k, t, parcel);
      && Sent(log, p, q) == Sent(s.log, p, q) + (if p == s.k.current && q == t then [parcel] else [])
      && Got(log, p, q) == Got(s.log, p, q)
  {
    var e := Issued(s.k.current, t, parcel);
    assert Accepted(s.k, t, parcel) == [e];
    SentAppend(s.log, e, p, q);
  }

  // A sender joining the target's queue adds its offer to that pair only.
  lemma JoinPending(k: Kernel, t: nat, n: Proc, place: map<nat, Place>, p: nat, q: nat)
    requires SendersPlaced(k, place) && k.current in k.procs && k.current !in place && t in k.procs && t != k.current
    requires n.sendQueue == Me(k).sendQueue && n.notifyQueue == Me(k).notifyQueue && q in k.procs
    ensures var c := k.current;
      var r := SetProc(SetProc(k, c, n), t, k.procs[t].(sendQueue := k.procs[t].sendQueue + [c]));
      Pending(r, p, q) == Pending(k, p, q) + if p == c && q == t then [Parcel(n.msg, Payload(n))] else []
  {
    assert QueueIsPlaced(q, k.procs[q].sendQueue, place);
    assert k.current !in k.procs[q].sendQueue;
  }

  // A parcel is accepted for a busy target; r differs from d only in who may run.
  lemma AcceptedPair(s: Sys, d: Kernel, r: Kernel, place: map<nat, Place>, t: nat, parcel: Parcel, p: nat, q: nat)
    requires Shaped(s.k) && PairInOrder(s, p, q) && t in s.k.procs && s.k.procs[t].state != ReceiveBlocked
    requires d.procs.Keys == s.k.procs.Keys && d.nextPid == s.k.nextPid && OnlyRunnable(d, r)
    requires q in s.k.procs ==>
      Pending(d, p, q) == Pending(s.k, p, q) + if p == s.k.current && q == t then [parcel] else []
    ensures PairInOrder(Sys(r, place, s.log + Accepted(s.k, t, parcel)), p, q)
  {
    RunnableSame(d, r, p, q);
    QueuedLog(s, t, parcel, p, q);
    if p == s.k.current && q == t {
      OneMorePending(s, s.log + Accepted(s.k, t, parcel), r, place, p, q, parcel);
    } else {
      assert SamePending(s.k, d, p, q);
      OtherPair(s, s.log + Accepted(s.k, t, parcel), r, place, p, q);
    }
  }

  lemma SendQueuedPair(s: Sys, op: Op, p: nat, q: nat)
    requires Inv(s) && PairInOrder(s, p, q) && s.k.current != 0 && op.OpSend?
    requires Addressable(s.k, op.target) && s.k.procs[op.target].state != ReceiveBlocked && op.room
    ensures PairInOrder(Step(s, op), p, q)
  {
    var k, d := s.k, Called(s.k, op);
    SendKeeps(s, op);
    CallerNotPlaced(k, s.place);
    if q in k.procs { JoinPending(k, op.target, Outgoing(Me(k), op.call).(state := SendBlocked), s.place, p, q); }
    ResumedRunnable(d, Places(s, op));
    AcceptedPair(s, d, Resumed(d), Places(s, op), op.target, SendParcel(k, op.call), p, q);
  }

  lemma SendPair(s: Sys, op: Op, p: nat, q: nat)
    requires Inv(s) && PairInOrder(s, p, q) && s.k.current != 0 && op.OpSend?
    ensures PairInOrder(Step(s, op), p, q)
  {
    var k := s.k;
    if SendBlocks(k, op.target, op.room) {
      if k.procs[op.target].state == ReceiveBlocked {
        SendDirectPair(s, op, p, q);
      } else {
        SendQueuedPair(s, op, p, q);
      }
    } else {
      SendKeeps(s, op);
      CallerNotPlaced(k, s.place);
      SetSame(k, k.current, Me(Called(k, op)), s.place, p, q);
      SilentCall(s, op, p, q);
    }
  }

  // ---- Notify ----

  lemma NotifyDirectPair(s: Sys, op: Op, p: nat, q: nat)
    requires Inv(s) && PairInOrder(s, p, q) && s.k.current != 0 && op.OpNotify?
    requires Addressable(s.k, op.target) && s.k.procs[op.target].state == ReceiveBlocked
    ensures PairInOrder(Step(s, op), p, q)
  {
    var k, t, d := s.k, op.target, Called(s.k, op);
    var parcel := SendParcel(k, op.call);
    var w, n := Woken(k.procs[t], parcel.msg, parcel.data, 0), Me(k).(eax := 0);
    assert RunsIffCurrent(k.current, Me(k), k.current);
    SendDirectSame(k, t, n, w, s.place, p, q);
    SetsCommute(k, k.current, n, t, w);
    assert Resumed(d) == d;
    PassedPair(s, d, Places(s, op), t, parcel, p, q);
  }

  // A notification joins the target's queue; it comes before a queued send of the same
  // process, which has none since it is running.
  lemma NotePending(k: Kernel, t: nat, msg: seq<byte>, data: seq<byte>, place: map<nat, Place>, p: nat, q: nat)
    requires SendersPlaced(k, place) && k.current in k.procs && k.current !in place && t in k.procs && q in k.procs
    ensures var r := SetProc(k, t, k.procs[t].(notifyQueue := k.procs[t].notifyQueue + [Note(k.current, msg, data)]));
      Pending(r, p, q) == Pending(k, p, q) + if p == k.current && q == t then [Parcel(msg, data)] else []
  {
    assert QueueIsPlaced(q, k.procs[q].sendQueue, place);
    assert k.current !in k.procs[q].sendQueue;
    NotesAppend(k.procs[t].notifyQueue, Note(k.current, msg, data), p);
  }

  // Adding a notification and returning 0 to the caller.
  lemma NotedPending(k: Kernel, t: nat, parcel: Parcel, place: map<nat, Place>, p: nat, q: nat)
    requires SendersPlaced(k, place) && k.current in k.procs && k.current !in place && t in k.procs && q in k.procs
    requires t != k.current
    ensures var n := k.procs[t].(notifyQueue := k.procs[t].notifyQueue + [Note(k.current, parcel.msg, parcel.data)]);
      Pending(Return(SetProc(k, t, n), 0), p, q) == Pending(k, p, q) + if p == k.current && q == t then [parcel] else []
  {
    var n := k.procs[t].(notifyQueue := k.procs[t].notifyQueue + [Note(k.current, parcel.msg, parcel.data)]);
    NotePending(k, t, parcel.msg, parcel.data, place, p, q);
    SetSender(k, t, n, place) by { assert BlockedIffPlaced(t, k.procs[t], place); }
    var a := SetProc(k, t, n);
    SetSame(a, k.current, Me(a).(eax := 0), place, p, q);
  }

  lemma NotifyQueuedPair(s: Sys, op: Op, p: nat, q: nat)
    requires Inv(s) && PairInOrder(s, p, q) && s.k.current != 0 && op.OpNotify?
    requires Addressable(s.k, op.target) && s.k.procs[op.target].state != ReceiveBlocked && op.room
    ensures PairInOrder(Step(s, op), p, q)
  {
    var k, d := s.k, Called(s.k, op);
    CallerNotPlaced(k, s.place);
    assert RunsIffCurrent(k.current, Me(k), k.current);
    if q in k.procs { NotedPending(k, op.target, SendParcel(k, op.call), s.place, p, q); }
    assert Resumed(d) == d;
    AcceptedPair(s, d, d, Places(s, op), op.target, SendParcel(k, op.call), p, q);
  }

  lemma NotifyPair(s: Sys, op: Op, p: nat, q: nat)
    requires Inv(s) && PairInOrder(s, p, q) && s.k.current != 0 && op.OpNotify?
    ensures PairInOrder(Step(s, op), p, q)
  {
    var k := s.k;
    if SendBlocks(k, op.target, op.room) {
      if k.procs[op.target].state == ReceiveBlocked {
        NotifyDirectPair(s, op, p, q);
      } else {
        NotifyQueuedPair(s, op, p, q);
      }
    } else {
      NotifyKeeps(s, op);
      CallerNotPlaced(k, s.place);
      SetSame(k, k.current, Me(Called(k, op)), s.place, p, q);
      SilentCall(s, op, p, q);
    }
  }

  // ---- Receive ----

  // The receiver takes its first notification.
  lemma NoteTaken(k: Kernel, n: Proc, place: map<nat, Place>, p: nat, q: nat)
    requires SendersPlaced(k, place) && k.current in k.procs && k.current !in place && q in k.procs
    requires Me(k).notifyQueue != [] && n.notifyQueue == Me(k).notifyQueue[1..] && n.sendQueue == Me(k).sendQueue
    ensures var first := Me(k).notifyQueue[0];
      Pending(k, p, q) == (if p == first.sender && q == k.current then [Parcel(first.msg, first.data)] else [])
                          + Pending(SetProc(k, k.current, n), p, q)
  {
    assert QueueIsPlaced(q, k.procs[q].sendQueue, place);
  }

  // The receiver, without notifications, takes its first queued sender.
  lemma SenderTaken(k: Kernel, n: Proc, place: map<nat, Place>, p: nat, q: nat)
    requires SendersPlaced(k, place) && k.current in k.procs && k.current !in place && q in k.procs
    requires Me(k).notifyQueue == n.notifyQueue == [] && Me(k).sendQueue != [] && n.sendQueue == Me(k).sendQueue[1..]
    requires Me(k).sendQueue[0] in k.procs
    ensures var h := Me(k).sendQueue[0];
      Pending(k, p, q) == (if p == h && q == k.current then [Offer(k, h)] else [])
        + Pending(SetProc(k, k.current, n), p, q)
  {
    var queue := Me(k).sendQueue;
    assert QueueIsPlaced(q, k.procs[q].sendQueue, place) && QueueIsPlaced(k.current, queue, place);
    assert queue == [queue[0]] + queue[1..];
  }

  // What receive reports and leaves behind when it hands over a parcel from src.
  lemma ReceivedPair(s: Sys, r: Kernel, place: map<nat, Place>, src: nat, parcel: Parcel, cap: nat, p: nat, q: nat)
    requires Shaped(s.k) && PairInOrder(s, p, q) && r.procs.Keys == s.k.procs.Keys && r.nextPid == s.k.nextPid
    requires q in s.k.procs ==>
      Pending(s.k, p, q) == (if p == src && q == s.k.current then [parcel] else []) + Pending(r, p, q)
    ensures PairInOrder(Sys(r, place, s.log + [Handover(s.k, src, s.k.current, parcel, cap)]), p, q)
  {
    var log := s.log + [Handover(s.k, src, s.k.current, parcel, cap)];
    SentAppend(s.log, Handover(s.k, src, s.k.current, parcel, cap), p, q);
    if p == src && q == s.k.current {
      FirstReceived(s, log, r, place, p, q, parcel, cap);
    } else {
      OtherPair(s, log, r, place, p, q);
    }
  }

  lemma ReceiveNotePair(s: Sys, op: Op, p: nat, q: nat)
    requires Inv(s) && PairInOrder(s, p, q) && s.k.current != 0 && op.OpReceive? && Incoming(s.k).FromNote?
    ensures PairInOrder(Step(s, op), p, q)
  {
    var k, d := s.k, Called(s.k, op);
    var n := Me(k).notifyQueue[0];
    assert RunsIffCurrent(k.current, Me(k), k.current);
    CallerNotPlaced(k, s.place);
    if q in k.procs { NoteTaken(k, Me(d), s.place, p, q); }
    assert Resumed(d) == d;
    var cap := if op.call.dataPtr == 0 then 0 else op.call.dataLen;
    ReceivedPair(s, d, Places(s, op), n.sender, Parcel(n.msg, n.data), cap, p, q);
  }

  lemma ReceiveSenderPair(s: Sys, op: Op, p: nat, q: nat)
    requires Inv(s) && PairInOrder(s, p, q) && s.k.current != 0 && op.OpReceive? && Incoming(s.k).FromSender?
    ensures PairInOrder(Step(s, op), p, q)
  {
    var k, d := s.k, Called(s.k, op);
    var h := Me(k).sendQueue[0];
    assert RunsIffCurrent(k.current, Me(k), k.current);
    assert Sound(k, s.place);
    ReceivePops(k, Me(d), h, s.place);
    CallerNotPlaced(k, s.place);
    if q in k.procs { SenderTaken(k, Me(d), s.place, p, q); }
    assert Resumed(d) == d;
    var cap := if op.call.dataPtr == 0 then 0 else op.call.dataLen;
    ReceivedPair(s, d, Places(s, op), h, Offer(k, h), cap, p, q);
  }

  lemma ReceivePair(s: Sys, op: Op, p: nat, q: nat)
    requires Inv(s) && PairInOrder(s, p, q) && s.k.current != 0 && op.OpReceive?
    ensures PairInOrder(Step(s, op), p, q)
  {
    var k := s.k;
    match Incoming(k)
    case FromNote => ReceiveNotePair(s, op, p, q);
    case FromSender(_) => ReceiveSenderPair(s, op, p, q);
    case _ =>
      ReceiveKeeps(s, op);
      CallerNotPlaced(k, s.place);
      SetSame(k, k.current, Me(Called(k, op)), s.place, p, q);
      SilentCall(s, op, p, q);
  }

  // ---- Steps that neither accept nor deliver ----

  lemma RepliedPair(s: Sys, op: Op, p: nat, q: nat)
    requires Inv(s) && s.k.current != 0 && op.OpReply? && Rule(s, op) && Repliable(s.k, op.target)
    ensures SamePending(s.k, Called(s.k, op), p, q)
  {
    var k, t := s.k, op.target;
    CallerNotPlaced(k, s.place);
    var n := Woken(k.procs[t], Message(Me(k), op.call), Data(Me(k), op.call), 0);
    var a := SetProc(k, t, n);
    SetSame(k, t, n, s.place, p, q);
    PlaceReplied(k, t, n, s.place);
    SetSame(a, k.current, Me(a).(eax := 0), s.place - {t}, p, q);
    SameTrans(k, a, Called(k, op), p, q);
  }

  lemma ReplyPair(s: Sys, op: Op, p: nat, q: nat)
    requires Inv(s) && PairInOrder(s, p, q) && s.k.current != 0 && op.OpReply? && Rule(s, op)
    ensures PairInOrder(Step(s, op), p, q)
  {
    var k := s.k;
    ReplyKeeps(s, op);
    if Repliable(k, op.target) {
      RepliedPair(s, op, p, q);
    } else {
      CallerNotPlaced(k, s.place);
      SetSame(k, k.current, Me(Called(k, op)), s.place, p, q);
    }
    SilentCall(s, op, p, q);
  }

  lemma WaitPair(s: Sys, op: Op, p: nat, q: nat)
    requires Inv(s) && PairInOrder(s, p, q) && s.k.current != 0 && op.OpWait?
    ensures PairInOrder(Step(s, op), p, q)
  {
    WaitKeeps(s, op);
    CallerNotPlaced(s.k, s.place);
    SetSame(s.k, s.k.current, Me(Called(s.k, op)), s.place, p, q);
    SilentCall(s, op, p, q);
  }

  // Senders woken by an exit were queued with the process that exits and with no other.
  lemma ExitSame(k: Kernel, next: nat, place: map<nat, Place>, p: nat, q: nat)
    requires Shaped(k) && OneRunning(k) && SendersPlaced(k, place) && k.current != 0
    ensures SamePending(k, Left(k, next), p, q)
  {
    if q in Left(k, next).procs {
      assert QueueIsPlaced(q, k.procs[q].sendQueue, place) && QueueIsPlaced(k.current, Me(k).sendQueue, place);
      CallerNotPlaced(k, place);
    }
  }

  lemma SwitchSame(k: Kernel, next: nat, p: nat, q: nat)
    requires next in k.procs
    ensures SamePending(k, SwitchTo(k, next).(ticks := 0), p, q)
  {
  }

  lemma ExitPair(s: Sys, p: nat, q: nat)
    requires Inv(s) && PairInOrder(s, p, q) && s.k.current != 0
    ensures PairInOrder(Step(s, OpExit), p, q)
  {
    var k := s.k;
    var next := ExitTarget(k);
    ExitedIsSwitch(k);
    ExitSame(k, next, s.place, p, q);
    SwitchSame(Left(k, next), next, p, q);
    SameTrans(k, Left(k, next), Exited(k), p, q);
    QuietStep(s, Exited(k), Places(s, OpExit), p, q);
    assert s.log + [] == s.log;
  }

  lemma CreatePair(s: Sys, mem: Memory, p: nat, q: nat)
    requires Shaped(s.k) && SendersPlaced(s.k, s.place) && PairInOrder(s, p, q)
    ensures PairInOrder(Sys(Create(s.k, mem), s.place, s.log), p, q)
  {
    var k, r := s.k, Create(s.k, mem);
    if q in k.procs {
      assert QueueIsPlaced(q, k.procs[q].sendQueue, s.place);
      assert Pending(r, p, q) == Pending(k, p, q);
    }
  }

  lemma ExecPair(s: Sys, op: Op, p: nat, q: nat)
    requires Inv(s) && PairInOrder(s, p, q) && s.k.current != 0 && op.OpExec?
    ensures PairInOrder(Step(s, op), p, q)
  {
    var k := s.k;
    var n := Me(k).(eax := if op.loaded then k.nextPid else 0);
    CallerNotPlaced(k, s.place);
    SetSame(k, k.current, n, s.place, p, q);
    ReturnKeeps(k, n, s.place);
    var a := Sys(SetProc(k, k.current, n), s.place, s.log);
    QuietStep(s, a.k, s.place, p, q);
    if op.loaded { CreatePair(a, op.mem, p, q); }
    assert s.log + [] == s.log;
  }

  lemma ForwardSame(k: Kernel, irq: nat, place: map<nat, Place>, p: nat, q: nat)
    requires Shaped(k) && SendersPlaced(k, place) && irq < IRQ_COUNT
    ensures SamePending(k, ForwardIrq(k, irq), p, q)
  {
    var t := k.forward[irq];
    if t != 0 && Live(k, t) && k.procs[t].state == ReceiveBlocked {
      assert BlockedIffPlaced(t, k.procs[t], place);
      SetSame(k, t, k.procs[t].(mem := Poke(k.procs[t].mem, k.procs[t].msgPtr, IrqMessage(irq)), eax := 0,
        state := Ready),
              place, p, q);
    }
  }

  lemma IrqPair(s: Sys, irq: nat, p: nat, q: nat)
    requires Inv(s) && PairInOrder(s, p, q) && irq < IRQ_COUNT
    ensures PairInOrder(Step(s, OpIrq(irq)), p, q)
  {
    var k := s.k;
    var d := if irq == 0 then Schedule(k) else k;
    if irq == 0 {
      ScheduleRuns(k);
      RunnableSame(k, d, p, q);
      PlacedFrame(k, d, s.place);
    }
    ForwardSame(d, irq, s.place, p, q);
    SameTrans(k, d, ForwardIrq(d, irq), p, q);
    QuietStep(s, ForwardIrq(d, irq), s.place, p, q);
    assert s.log + [] == s.log;
  }

  lemma RegisterPair(s: Sys, op: Op, p: nat, q: nat)
    requires Inv(s) && PairInOrder(s, p, q) && s.k.current != 0 && op.OpRegister?
    ensures PairInOrder(Step(s, op), p, q)
  {
    var k, r := s.k, Stepped(s.k, op);
    CallerNotPlaced(k, s.place);
    SetSame(k, k.current, Me(r), s.place, p, q);
    QuietStep(s, SetProc(k, k.current, Me(r)), s.place, p, q);
    QuietStep(Sys(SetProc(k, k.current, Me(r)), s.place, s.log), r, s.place, p, q);
    assert s.log + [] == s.log;
  }

  lemma ComputePair(s: Sys, op: Op, p: nat, q: nat)
    requires Inv(s) && PairInOrder(s, p, q) && s.k.current != 0 && op.OpCompute?
    ensures PairInOrder(Step(s, op), p, q)
  {
    var k, r := s.k, Stepped(s.k, op);
    CallerNotPlaced(k, s.place);
    SetSame(k, k.current, Me(r), s.place, p, q);
    QuietStep(s, r, s.place, p, q);
    assert s.log + [] == s.log;
  }

  // ---- Every step, every run ----

  lemma StepInOrder(s: Sys, op: Op)
    requires Inv(s) && AllInOrder(s) && Enabled(s, op) && Rule(s, op)
    ensures AllInOrder(Step(s, op))
  {
    forall p, q ensures PairInOrder(Step(s, op), p, q) {
      assert PairInOrder(s, p, q);
      match op {
        case OpSend(_, _, _) => SendPair(s, op, p, q);
        case OpReceive(_) => ReceivePair(s, op, p, q);
        case OpReply(_, _) => ReplyPair(s, op, p, q);
        case OpNotify(_, _, _) => NotifyPair(s, op, p, q);
        case OpWait(_) => WaitPair(s, op, p, q);
        case OpExit => ExitPair(s, p, q);
        case OpExec(_, _) => ExecPair(s, op, p, q);
        case OpRegister(_) => RegisterPair(s, op, p, q);
        case OpIrq(irq) => IrqPair(s, irq, p, q);
        case OpCompute(_) => ComputePair(s, op, p, q);
      }
    }
  }

  lemma {:induction false} RunInOrder(s: Sys, ops: seq<Op>)
    requires Inv(s) && AllInOrder(s) && Lawful(s, ops)
    ensures AllInOrder(After(s, ops))
    decreases |ops|
  {
    if ops != [] {
      StepKeeps(s, ops[0]);
      StepInOrder(s, ops[0]);
      RunInOrder(Step(s, ops[0]), ops[1..]);
    }
  }

  // From boot on, in every run that obeys the reply rule, messages from one process to another,
  // sends and notifications mixed, are received in the order they were issued.
  lemma MessagesArriveInOrder(s: Sys, ops: seq<Op>, p: nat, q: nat)
    requires Booted(s) && Lawful(s, ops)
    ensures var log := After(s, ops).log; InOrder(Sent(log, p, q), Got(log, p, q))
  {
    BootKeeps(s);
    assert AllInOrder(s);
    RunInOrder(s, ops);
    assert PairInOrder(After(s, ops), p, q);
  }

  // ---- What a delivery does ----

  // Bytes stored at ptr are found there again, and nothing else has changed.
  lemma PokedBytes(m: Memory, ptr: nat, bs: seq<byte>)
    requires |bs| <= U32
    ensures Peek(Poke(m, ptr, bs), ptr, |bs|) == bs
    ensures forall a :: 0 <= a < U32 && (a - ptr) % U32 >= |bs| ==> Poke(m, ptr, bs)[a] == m[a]
  {
    forall i | 0 <= i < |bs| ensures Peek(Poke(m, ptr, bs), ptr, |bs|)[i] == bs[i] {
      WrapBack(ptr, i);
    }
  }

  lemma WrapBack(ptr: nat, i: nat)
    requires i < U32
    ensures ((ptr + i) % U32 - ptr) % U32 == i
  {
    var q := (ptr + i) / U32;
    assert ptr + i == q * U32 + (ptr + i) % U32;
    assert (ptr + i) % U32 - ptr == i - q * U32;
  }

  // In r the receiver of e has the message and the cut data in the buffers it named, and its
  // call returns the sender's pid, or 0 for a notification.
  ghost predicate StoredIn(k: Kernel, r: Kernel, op: Op, e: Event)
    requires k.current in k.procs && |k.forward| == |k.pending| == IRQ_COUNT && e.Delivered?
  {
    && e.dst in k.procs && e.dst in r.procs
    && var to, from := r.procs[e.dst], k.procs[e.dst];
       var msgPtr := if op.OpReceive? then op.call.msgPtr else from.msgPtr;
       var dataPtr := if op.OpReceive? then op.call.dataPtr else from.dataPtr;
       && to.mem == Poke(Poke(from.mem, msgPtr, e.parcel.msg), dataPtr, e.parcel.data)
       && to.eax == if op.OpSend? || (op.OpReceive? && Incoming(k).FromSender?) then e.src else 0
  }

  lemma SendStores(k: Kernel, op: Op, e: Event)
    requires Shaped(k) && (op.OpSend? || op.OpNotify?) && e in Events(k, op) && e.Delivered?
    ensures StoredIn(k, Called(k, op), op, e)
  {
    DirectEvents(k, op.target, SendParcel(k, op.call), e);
  }

  lemma ReceiveStores(k: Kernel, op: Op, e: Event)
    requires Shaped(k) && op.OpReceive? && e in Events(k, op) && e.Delivered?
    ensures StoredIn(k, Called(k, op), op, e)
  {
  }

  // Every delivery that a run reports has taken place in the receiver's memory.
  lemma DeliveryIsStored(s: Sys, op: Op, e: Event)
    requires Inv(s) && Enabled(s, op) && Rule(s, op) && e in Events(s.k, op) && e.Delivered?
    ensures StoredIn(s.k, Step(s, op).k, op, e)
  {
    if op.OpReceive? {
      ReceiveKeeps(s, op);
      ReceiveStores(s.k, op, e);
    } else {
      if op.OpSend? { SendKeeps(s, op); } else { NotifyKeeps(s, op); }
      SendStores(s.k, op, e);
    }
    ResumedRunnable(Called(s.k, op), Places(s, op));
  }

  lemma DirectEvents(k: Kernel, t: nat, parcel: Parcel, e: Event)
    requires t in k.procs && e in Accepted(k, t, parcel) && e.Delivered?
    ensures k.procs[t].state == ReceiveBlocked && e == Handover(k, k.current, t, parcel, Capacity(k.procs[t]))
  {
  }

  // Destroying a process fails all senders queued with it and lets its waiters go on.
  lemma ExitWakes(s: Sys, p: nat)
    requires Inv(s) && s.k.current != 0 && p in s.k.procs && p != s.k.current
    ensures p in Exited(s.k).procs
    ensures p in Me(s.k).sendQueue ==> Exited(s.k).procs[p].state == Ready && Exited(s.k).procs[p].eax == -1
    ensures s.k.procs[p].state == WaitBlocked && s.k.procs[p].waitPid == s.k.current
      ==> Exited(s.k).procs[p].state == Ready && Exited(s.k).procs[p].eax == 0
  {
    var k := s.k;
    ExitSwitches(k);
    assert QueueIsPlaced(k.current, Me(k).sendQueue, s.place) && BlockedIffPlaced(p, k.procs[p], s.place);
  }

  // The reply rule is exact: a reply keeps the invariant if and only if it obeys the rule.
  lemma RuleIsExact(s: Sys, t: nat, a: Call)
    requires Inv(s) && s.k.current != 0
    ensures Inv(Step(s, OpReply(t, a))) <==> Rule(s, OpReply(t, a))
  {
    var op := OpReply(t, a);
    if Rule(s, op) {
      StepKeeps(s, op);
    } else {
      QueuedReplied(s, t, a);
    }
  }

  // A reply to a sender still queued lets it run on while its message stays in the queue.
  lemma QueuedReplied(s: Sys, t: nat, a: Call)
    requires Inv(s) && s.k.current != 0 && t in s.place && s.place[t].Queued?
    ensures !Inv(Step(s, OpReply(t, a)))
  {
    var k, q := s.k, s.place[t].server;
    var r := Step(s, OpReply(t, a));
    assert BlockedIffPlaced(t, k.procs[t], s.place) && QueueIsPlaced(q, k.procs[q].sendQueue, s.place);
    assert RunsIffCurrent(k.current, Me(k), k.current);
    assert r.k.procs[q].sendQueue == k.procs[q].sendQueue && t in r.k.procs[q].sendQueue;
    assert !QueueIsPlaced(q, r.k.procs[q].sendQueue, r.place);
  }
}
