// Bounded waiting under the round-robin scheduler: while the process list stays as it is, a
// process that stays Ready gets the CPU after a bounded number of switches and timer ticks.
module Fairness {
  import opened Finite
  import opened KernelState
  import opened KernelRuns
  import opened KernelInvariants

  // Places the scheduler still has to advance from the current process to p.
  function Ahead(k: Kernel, p: nat): (d: nat)
    requires Listed(k) && p in k.order
    ensures d < |k.order|
  {
    Distance(|k.order|, IndexOf(k.order, k.current), IndexOf(k.order, p))
  }

  // Timer ticks that can pass at most before p runs.
  function TicksLeft(k: Kernel, p: nat): int
    requires Listed(k) && p in k.order
  {
    TIME_SLICE * Ahead(k, p) - k.ticks
  }

  lemma IndexUnique(order: seq<nat>, i: nat)
    requires Distinct(order) && i < |order|
    ensures IndexOf(order, order[i]) == i
  {
  }

  // The search ends at p or at a process from which p is nearer.
  lemma NextIsNearer(k: Kernel, p: nat)
    requires Listed(k) && IsReady(k, p) && p != k.current
    ensures var next := NextReady(k);
      next != k.current && (next == p || Ahead(k.(current := next), p) < Ahead(k, p))
  {
    var n, i, j := |k.order|, IndexOf(k.order, k.current), IndexOf(k.order, p);
    var e := Distance(n, i, j);
    assert Around(k.order, i, e) == p;
    var f := SearchFinds(k, i, 1, e);
    var m := if i + f < n then i + f else i + f - n;
    assert NextReady(k) == k.order[m] && m != i;
    IndexUnique(k.order, m);
    if f < e { assert Distance(n, m, j) == e - f; }
  }

  // ---- One step ----

  // k leads to r without losing ground for the waiting process p.
  ghost predicate Nearer(k: Kernel, r: Kernel, p: nat, tick: bool)
    requires Listed(k) && Listed(r) && p in k.order && p in r.order
  {
    && Ahead(r, p) <= Ahead(k, p)
    && (r.current != k.current ==> Ahead(r, p) < Ahead(k, p))
    && TicksLeft(r, p) + (if tick then 1 else 0) <= TicksLeft(k, p)
  }

  lemma RescheduleNearer(k: Kernel, p: nat)
    requires MustSwitch(k) && IsReady(k, p) && p != k.current
    ensures var r := Reschedule(k); Shaped(r) && (IsReady(r, p) ==> Nearer(k, r, p, false))
  {
    NextIsAnother(k);
    NextIsNearer(k, p);
    RescheduleSwitches(k);
  }

  lemma TickNearer(k: Kernel, p: nat)
    requires Shaped(k) && OneRunning(k) && IsReady(k, p)
    ensures var r := Schedule(k); Shaped(r) && (IsReady(r, p) ==> Nearer(k, r, p, true))
  {
    ScheduleRuns(k);
    assert RunsIffCurrent(p, k.procs[p], k.current) && RunsIffCurrent(k.current, Me(k), k.current);
    var i, j := IndexOf(k.order, k.current), IndexOf(k.order, p);
    if k.ticks + 1 >= TIME_SLICE {
      Demoted(k);
      var d := SetProc(k, k.current, Me(k).(state := Ready));
      NextIsNearer(d, p);
    }
  }

  // A call leaves the list, the CPU and other Ready processes alone.
  lemma CalledKeepsReady(k: Kernel, op: Op, p: nat)
    requires Shaped(k) && OneRunning(k) && IsReady(k, p)
    requires op.OpSend? || op.OpReceive? || op.OpReply? || op.OpNotify? || op.OpWait?
    ensures IsReady(Called(k, op), p) && p != k.current && Called(k, op).ticks == k.ticks
    ensures Called(k, op).order == k.order && Called(k, op).current == k.current
  {
    assert RunsIffCurrent(p, k.procs[p], k.current) && RunsIffCurrent(k.current, Me(k), k.current);
  }

  lemma CallFinishes(s: Sys, op: Op)
    requires Inv(s) && Enabled(s, op) && Rule(s, op)
    requires op.OpSend? || op.OpReceive? || op.OpReply? || op.OpNotify? || op.OpWait?
    ensures Finished(Called(s.k, op), Places(s, op))
  {
    match op
    case OpSend(_, _, _) => SendKeeps(s, op);
    case OpReceive(_) => ReceiveKeeps(s, op);
    case OpReply(_, _) => ReplyKeeps(s, op);
    case OpNotify(_, _, _) => NotifyKeeps(s, op);
    case OpWait(_) => WaitKeeps(s, op);
  }

  lemma CallNearer(s: Sys, op: Op, p: nat)
    requires Inv(s) && Enabled(s, op) && Rule(s, op) && IsReady(s.k, p)
    requires op.OpSend? || op.OpReceive? || op.OpReply? || op.OpNotify? || op.OpWait?
    ensures var r := Stepped(s.k, op); Shaped(r) && (IsReady(r, p) ==> Nearer(s.k, r, p, false))
  {
    var k, d := s.k, Called(s.k, op);
    CallFinishes(s, op);
    CalledKeepsReady(k, op, p);
    if Me(d).state != Running { RescheduleNearer(d, p); }
  }

  lemma ForwardKeepsReady(k: Kernel, irq: nat, p: nat)
    requires Shaped(k) && irq < IRQ_COUNT && p in k.procs
    ensures var r := ForwardIrq(k, irq);
      && r.order == k.order && r.current == k.current && r.ticks == k.ticks && p in r.procs && Listed(r)
      && (k.procs[p].state != ReceiveBlocked ==> r.procs[p].state == k.procs[p].state)
  {
  }

  lemma IrqNearer(k: Kernel, irq: nat, p: nat)
    requires Shaped(k) && OneRunning(k) && IsReady(k, p) && irq < IRQ_COUNT
    ensures var r := Interrupted(k, irq); Listed(r) && p in r.order && (IsReady(r, p) ==> Nearer(k, r, p, irq == 0))
  {
    var d := if irq == 0 then Schedule(k) else k;
    if irq == 0 {
      ScheduleRuns(k);
      TickNearer(k, p);
    }
    ForwardKeepsReady(d, irq, p);
  }

  lemma LocalNearer(k: Kernel, op: Op, p: nat)
    requires Shaped(k) && k.current != 0 && p in k.order && (op.OpExec? || op.OpRegister? || op.OpCompute?)
    ensures var r := Stepped(k, op);
      r.order == k.order ==> Listed(r) && Nearer(k, r, p, false)
  {
    var r := Stepped(k, op);
    if r.order == k.order {
      assert r.procs.Keys == k.procs.Keys && r.current == k.current && r.ticks == k.ticks;
      SameCpu(k, r, p);
    }
  }

  lemma StepNearer(s: Sys, op: Op, p: nat, r: Kernel)
    requires Inv(s) && Enabled(s, op) && Rule(s, op) && IsReady(s.k, p)
    requires r == Stepped(s.k, op) && IsReady(r, p) && r.order == s.k.order
    ensures Listed(r) && Nearer(s.k, r, p, op == OpIrq(0))
  {
    if op.OpIrq? {
      IrqNearer(s.k, op.irq, p);
    } else if op.OpExit? {
      ExitShortens(s.k);
    } else if op.OpExec? || op.OpRegister? || op.OpCompute? {
      LocalNearer(s.k, op, p);
    } else {
      CallNearer(s, op, p);
    }
  }

  lemma ExitShortens(k: Kernel)
    requires Shaped(k) && OneRunning(k) && k.current != 0
    ensures |Exited(k).order| == |k.order| - 1
  {
    ExitSwitches(k);
  }

  lemma SameCpu(k: Kernel, r: Kernel, p: nat)
    requires Listed(k) && Listed(r) && p in k.order
    requires r.order == k.order && r.current == k.current && r.ticks == k.ticks
    ensures Nearer(k, r, p, false)
  {
  }

  // ---- Runs ----

  // p stays Ready, and the list as it is, all along the run.
  ghost predicate StaysReady(s: Sys, ops: seq<Op>, p: nat, order: seq<nat>)
    requires Lawful(s, ops)
    decreases |ops|
  {
    IsReady(s.k, p) && s.k.order == order && (ops != [] ==> StaysReady(Step(s, ops[0]), ops[1..], p, order))
  }

  ghost function Switches(s: Sys, ops: seq<Op>): nat
    requires Lawful(s, ops)
    decreases |ops|
  {
    if ops == [] then 0
    else (if Step(s, ops[0]).k.current != s.k.current then 1 else 0) + Switches(Step(s, ops[0]), ops[1..])
  }

  function Ticks(ops: seq<Op>): nat {
    if ops == [] then 0 else (if ops[0] == OpIrq(0) then 1 else 0) + Ticks(ops[1..])
  }

  lemma {:induction false} WaitIsMeasured(s: Sys, ops: seq<Op>, p: nat)
    requires Inv(s) && Lawful(s, ops) && p in s.k.order && StaysReady(s, ops, p, s.k.order)
    ensures Switches(s, ops) < Ahead(s.k, p)
    ensures Ticks(ops) < TicksLeft(s.k, p)
    decreases |ops|
  {
    assert RunsIffCurrent(p, s.k.procs[p], s.k.current) && RunsIffCurrent(s.k.current, Me(s.k), s.k.current);
    assert Ahead(s.k, p) >= 1;
    if ops != [] {
      StepKeeps(s, ops[0]);
      StepNearer(s, ops[0], p, Step(s, ops[0]).k);
      WaitIsMeasured(Step(s, ops[0]), ops[1..], p);
    }
  }

  // With n processes in the list, a process that stays Ready sees fewer than n-1 context
  // switches and fewer than 10*(n-1) timer ticks pass without being run.
  lemma BoundedWaiting(s: Sys, ops: seq<Op>, p: nat)
    requires Inv(s) && Lawful(s, ops) && p in s.k.order && StaysReady(s, ops, p, s.k.order)
    ensures Switches(s, ops) < |s.k.order| - 1
    ensures Ticks(ops) < TIME_SLICE * (|s.k.order| - 1)
  {
    WaitIsMeasured(s, ops, p);
  }
}
