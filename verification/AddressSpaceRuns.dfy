// What holds over every run of paging operations: spaces stay apart, and destroying a space
// gives back what it took.
module AddressSpaceRuns {
  import opened Bytes
  import opened Physical
  import opened PageTables
  import opened AddressSpaces

  // ---- Destruction frees exactly what the space owns ----

  lemma OwnedIsFreed(s: System, pd: nat, f: nat)
    requires Inv(s) && IsSpace(s, pd) && f in s.owner && s.owner[f].pd == pd
    ensures f in Freed(s.ram, pd)
  {
    assert Realised(s, f);
    match s.owner[f].role
    case Directory =>
    case Table(i) => TableIsKnown(s.ram, pd, i);
    case User(page) => assert Translate(s.ram, pd, page) in Mapped(s.ram, pd);
  }

  lemma FreedIsOwned(s: System, pd: nat)
    requires Inv(s) && IsSpace(s, pd)
    ensures Freed(s.ram, pd) == OwnedBy(s, pd)
  {
    forall f | f in Freed(s.ram, pd) ensures f in OwnedBy(s, pd) {
      if f != pd {
        if f in Tables(s.ram, pd) {
          var i :| 0 <= i < USER_ENTRIES && HasTable(s.ram, pd, i) && f == TableAt(s.ram, pd, i);
          assert TableOwned(s, pd, i);
        } else {
          var page: nat :| page < USER_PAGES && Translate(s.ram, pd, page) < FRAMES && f == Translate(s.ram, pd, page);
          assert PageOwned(s, pd, page);
        }
      }
    }
    forall f | f in OwnedBy(s, pd) ensures f in Freed(s.ram, pd) { OwnedIsFreed(s, pd, f); }
  }

  lemma DestroySpares(s: System, pd: nat, other: nat)
    requires Inv(s) && IsSpace(s, pd) && IsSpace(s, other) && other != pd
    ensures Shaped(Destroy(s, pd)) && KernelSpared(s, Destroy(s, pd)) && Spared(s, Destroy(s, pd), other)
  {
  }

  lemma DestroyKeeps(s: System, pd: nat)
    requires Inv(s) && IsSpace(s, pd)
    ensures Inv(Destroy(s, pd))
    ensures Destroy(s, pd).used == s.used - OwnedBy(s, pd)
    ensures forall other: nat :: IsSpace(Destroy(s, pd), other) <==> IsSpace(s, other) && other != pd
  {
    var r := Destroy(s, pd);
    FreedIsOwned(s, pd);
    forall other: nat | IsSpace(r, other) ensures SpaceOk(r, other) {
      DestroySpares(s, pd, other);
      SparedSpace(s, r, other);
    }
    forall g | g in r.owner ensures Realised(r, g) {
      assert Realised(s, g);
      DestroySpares(s, pd, s.owner[g].pd);
      SparedOwner(s, r, g);
    }
    forall g | KernelFrame(r, g) ensures g in r.held { KernelSame(s, r, g); }
  }

  // ---- Runs ----

  datatype Op =
    | OpCreate
    | OpAlloc
    | OpMap(pd: nat, page: nat, frame: nat)
    | OpFill(frame: nat, contents: Page)
    | OpDestroy(pd: nat)

  // What the kernel asks of its own callers: operations name existing spaces, map used frames
  // that belong to nobody, and write no page table behind the paging manager's back.
  ghost predicate Allowed(s: System, op: Op)
    requires Shaped(s)
  {
    match op
    case OpCreate => true
    case OpAlloc => true
    case OpMap(pd, page, f) => IsSpace(s, pd) && page < USER_PAGES && f < FRAMES && Mappable(s, f)
    case OpFill(f, _) => f < FRAMES && !PagingFrame(s, f)
    case OpDestroy(pd) => IsSpace(s, pd)
  }

  ghost function Step(s: System, op: Op): System
    requires Inv(s) && Allowed(s, op)
  {
    match op
    case OpCreate => Create(s)
    case OpAlloc => Alloc(s)
    case OpMap(pd, page, f) => Map(s, pd, page, f)
    case OpFill(f, p) => Fill(s, f, p)
    case OpDestroy(pd) => Destroy(s, pd)
  }

  lemma StepKeeps(s: System, op: Op)
    requires Inv(s) && Allowed(s, op)
    ensures Inv(Step(s, op))
  {
    match op
    case OpCreate => CreateKeeps(s);
    case OpAlloc => AllocKeeps(s);
    case OpMap(pd, page, f) => MapKeeps(s, pd, page, f);
    case OpFill(f, p) => FillKeeps(s, f, p);
    case OpDestroy(pd) => DestroyKeeps(s, pd);
  }

  // states[k] is the state before ops[k].
  ghost predicate IsRun(states: seq<System>, ops: seq<Op>) {
    && |states| == |ops| + 1
    && forall k | 0 <= k < |ops| :: Steps(states[k], ops[k], states[k + 1])
  }

  ghost predicate Steps(s: System, op: Op, r: System) {
    Shaped(s) && Allowed(s, op) && (Inv(s) ==> r == Step(s, op))
  }

  lemma {:induction false} RunKeeps(states: seq<System>, ops: seq<Op>, k: nat)
    requires IsRun(states, ops) && Inv(states[0]) && k <= |ops|
    ensures Inv(states[k])
  {
    if k > 0 {
      RunKeeps(states, ops, k - 1);
      assert Steps(states[k - 1], ops[k - 1], states[k]);
      StepKeeps(states[k - 1], ops[k - 1]);
    }
  }

  // What page q of space pd shows, if it is mapped.
  function Seen(s: System, pd: nat, q: nat): (r: seq<byte>)
    requires |s.ram| == FRAMES && pd < FRAMES && q < FRAMES
  {
    var f := Translate(s.ram, pd, q);
    if f == FRAMES then [] else s.ram[f]
  }

  // ---- Conservation ----

  // The work done for one process between its creation and its end.
  datatype Work =
    | NewPage(page: nat)
    | DevicePage(page: nat, frame: nat)
    | Store(frame: nat, contents: Page)

  ghost predicate WorkAllowed(s: System, w: Work)
    requires Shaped(s)
  {
    match w
    case NewPage(page) => page < USER_PAGES
    case DevicePage(page, f) => page < USER_PAGES && f < FRAMES && Mappable(s, f)
    case Store(f, _) => f < FRAMES && !PagingFrame(s, f)
  }

  function Do(s: System, pd: nat, w: Work): System
    requires |s.ram| == FRAMES && pd < FRAMES
    requires w.Store? || w.page < FRAMES
    requires w.NewPage? || w.frame < FRAMES
  {
    match w
    case NewPage(page) =>
      var f := NextFree(s.used, 0);
      if f == FRAMES then s else Map(Alloc(s), pd, page, f)
    case DevicePage(page, f) => Map(s, pd, page, f)
    case Store(f, p) => Fill(s, f, p)
  }

  // Device memory below 1 MiB, if any; destruction passes it over.
  predicate Low(w: Work) { w.DevicePage? ==> w.frame < LOW_FRAMES }

  predicate AllLow(ws: seq<Work>) { forall k | 0 <= k < |ws| :: Low(ws[k]) }

  // The step neither loses a frame of the allocator's nor takes over one that is not.
  ghost predicate Clean(s: System, pd: nat, w: Work)
    requires Shaped(s) && pd < FRAMES && WorkAllowed(s, w)
  {
    match w
    case NewPage(page) =>
      NextFree(s.used, 0) == FRAMES
      || (LOW_FRAMES <= NextFree(s.used, 0) && CanMap(Alloc(s), pd, page) && Freeable(Translate(s.ram, pd, page)) == {})
    case DevicePage(page, f) =>
      CanMap(s, pd, page) ==> f < LOW_FRAMES && Freeable(Translate(s.ram, pd, page)) == {}
    case Store(_, _) => true
  }

  // The frames owned by spaces other than pd are the same, for the same purposes.
  ghost predicate SameOthers(a: map<nat, Owner>, b: map<nat, Owner>, pd: nat) {
    forall f: nat :: OthersFrame(a, f, pd) == OthersFrame(b, f, pd)
  }

  datatype Maybe = Nothing | Just(value: Owner)

  function OthersFrame(a: map<nat, Owner>, f: nat, pd: nat): Maybe {
    if f in a && a[f].pd != pd then Just(a[f]) else Nothing
  }

  // Mapping moves the frame out of the held ones when destruction will free it, and abandons
  // the frame the page had before.
  lemma MapAccount(s: System, pd: nat, page: nat, f: nat)
    requires Inv(s) && IsSpace(s, pd) && page < USER_PAGES && f < FRAMES && Mappable(s, f)
    ensures var r := Map(s, pd, page, f);
      && r.held == (if CanMap(s, pd, page) then s.held + Freeable(Translate(s.ram, pd, page)) - Freeable(f) else s.held)
      && SameOthers(r.owner, s.owner, pd) && IsSpace(r, pd)
  {
    var i := DirIndex(page);
    var m, r := WithTable(s, pd, i), Map(s, pd, page, f);
    NewTableTranslates(s, pd, i, page);
    assert PageOwned(s, pd, page);
    if CanMap(s, pd, page) {
      TableReady(s, pd, i);
      forall g: nat ensures OthersFrame(r.owner, g, pd) == OthersFrame(s.owner, g, pd) {}
    }
  }

  lemma AllocIsMappable(s: System)
    requires Inv(s) && NextFree(s.used, 0) < FRAMES
    ensures Inv(Alloc(s)) && Mappable(Alloc(s), NextFree(s.used, 0))
  {
    AllocKeeps(s);
    var f := NextFree(s.used, 0);
    PagingIsUsed(s, f);
    KernelSame(s, Alloc(s), f);
  }

  lemma NewPageKeeps(s: System, pd: nat, page: nat)
    requires Inv(s) && IsSpace(s, pd) && page < USER_PAGES && NextFree(s.used, 0) < FRAMES
    ensures var r := Do(s, pd, NewPage(page));
      Inv(r) && IsSpace(r, pd) && SameOthers(r.owner, s.owner, pd)
        && s.held <= r.held && (r.held == s.held <==> Clean(s, pd, NewPage(page)))
  {
    var f, a := NextFree(s.used, 0), Alloc(s);
    AllocIsMappable(s);
    assert PageOwned(s, pd, page);
    MapKeeps(a, pd, page, f);
    MapAccount(a, pd, page, f);
    HeldAfterNew(s.held, f, Translate(s.ram, pd, page), CanMap(a, pd, page));
  }

  lemma HeldAfterNew(held: set<nat>, f: nat, was: nat, mapped: bool)
    requires f !in held && f < FRAMES && (LOW_FRAMES <= was < FRAMES ==> was !in held && was != f)
    ensures (if mapped then held + {f} + Freeable(was) - Freeable(f) else held + {f}) == held
            <==> LOW_FRAMES <= f && mapped && Freeable(was) == {}
    ensures held <= if mapped then held + {f} + Freeable(was) - Freeable(f) else held + {f}
  {
    var r := held + {f};
    if mapped && LOW_FRAMES <= was < FRAMES { assert was in r + Freeable(was) - Freeable(f); }
    if !mapped || f < LOW_FRAMES { assert f in if mapped then r + Freeable(was) - Freeable(f) else r; }
  }

  lemma DevicePageKeeps(s: System, pd: nat, page: nat, f: nat)
    requires Inv(s) && IsSpace(s, pd) && page < USER_PAGES && f < FRAMES && Mappable(s, f)
    ensures var r := Do(s, pd, DevicePage(page, f));
      Inv(r) && IsSpace(r, pd) && SameOthers(r.owner, s.owner, pd)
        && (f < LOW_FRAMES ==> s.held <= r.held) && (r.held == s.held <==> Clean(s, pd, DevicePage(page, f)))
  {
    assert PageOwned(s, pd, page);
    MapKeeps(s, pd, page, f);
    MapAccount(s, pd, page, f);
    var was := Translate(s.ram, pd, page);
    if CanMap(s, pd, page) && LOW_FRAMES <= was < FRAMES { assert was in s.held + Freeable(was) - Freeable(f); }
    if CanMap(s, pd, page) && LOW_FRAMES <= f { assert f !in s.held + Freeable(was) - Freeable(f); }
  }

  // Each step keeps the invariant and everything of the other spaces; it keeps the set of held
  // frames exactly when it is clean.
  lemma DoKeeps(s: System, pd: nat, w: Work)
    requires Inv(s) && IsSpace(s, pd) && WorkAllowed(s, w)
    ensures Inv(Do(s, pd, w)) && IsSpace(Do(s, pd, w), pd)
    ensures SameOthers(Do(s, pd, w).owner, s.owner, pd)
    ensures Do(s, pd, w).held == s.held <==> Clean(s, pd, w)
    ensures Low(w) ==> s.held <= Do(s, pd, w).held
  {
    match w
    case NewPage(page) => if NextFree(s.used, 0) < FRAMES { NewPageKeeps(s, pd, page); }
    case DevicePage(page, f) => DevicePageKeeps(s, pd, page, f);
    case Store(f, p) => FillKeeps(s, f, p);
  }

  ghost predicate AllAllowed(s: System, pd: nat, ws: seq<Work>)
    requires Inv(s) && IsSpace(s, pd)
    decreases |ws|
  {
    ws == [] || (WorkAllowed(s, ws[0]) && (DoKeeps(s, pd, ws[0]); AllAllowed(Do(s, pd, ws[0]), pd, ws[1..])))
  }

  ghost function DoAll(s: System, pd: nat, ws: seq<Work>): System
    requires Inv(s) && IsSpace(s, pd) && AllAllowed(s, pd, ws)
    decreases |ws|
  {
    if ws == [] then s else DoKeeps(s, pd, ws[0]); DoAll(Do(s, pd, ws[0]), pd, ws[1..])
  }

  ghost predicate AllClean(s: System, pd: nat, ws: seq<Work>)
    requires Inv(s) && IsSpace(s, pd) && AllAllowed(s, pd, ws)
    decreases |ws|
  {
    ws == [] || (Clean(s, pd, ws[0]) && (DoKeeps(s, pd, ws[0]); AllClean(Do(s, pd, ws[0]), pd, ws[1..])))
  }

  lemma {:induction false} DoAllKeeps(s: System, pd: nat, ws: seq<Work>)
    requires Inv(s) && IsSpace(s, pd) && AllAllowed(s, pd, ws)
    ensures Inv(DoAll(s, pd, ws)) && IsSpace(DoAll(s, pd, ws), pd)
    ensures SameOthers(DoAll(s, pd, ws).owner, s.owner, pd)
    ensures AllLow(ws) ==> s.held <= DoAll(s, pd, ws).held
    ensures AllLow(ws) ==> (DoAll(s, pd, ws).held == s.held <==> AllClean(s, pd, ws))
    decreases |ws|
  {
    if ws != [] {
      DoKeeps(s, pd, ws[0]);
      var m := Do(s, pd, ws[0]);
      DoAllKeeps(m, pd, ws[1..]);
      forall f: nat ensures OthersFrame(DoAll(s, pd, ws).owner, f, pd) == OthersFrame(s.owner, f, pd) {
        assert OthersFrame(m.owner, f, pd) == OthersFrame(s.owner, f, pd);
      }
    }
  }

  // A frame that was in use before is no table of the space.
  predicate OnlyUser(s: System, pd: nat, f: nat) {
    f in s.used && (f in s.owner && s.owner[f].pd == pd ==> s.owner[f].role.User?)
  }

  lemma DoTakesOnlyUser(s: System, pd: nat, w: Work, f: nat)
    requires Inv(s) && IsSpace(s, pd) && WorkAllowed(s, w) && OnlyUser(s, pd, f)
    ensures pd < FRAMES && OnlyUser(Do(s, pd, w), pd, f)
  {
    if w.NewPage? && NextFree(s.used, 0) < FRAMES { AllocIsMappable(s); }
  }

  lemma {:induction false} DoAllTakesOnlyUser(s: System, pd: nat, ws: seq<Work>, f: nat)
    requires Inv(s) && IsSpace(s, pd) && AllAllowed(s, pd, ws) && OnlyUser(s, pd, f)
    ensures OnlyUser(DoAll(s, pd, ws), pd, f)
    decreases |ws|
  {
    if ws != [] {
      DoKeeps(s, pd, ws[0]);
      DoTakesOnlyUser(s, pd, ws[0], f);
      DoAllTakesOnlyUser(Do(s, pd, ws[0]), pd, ws[1..], f);
    }
  }

  lemma OthersStay(s: System, r: System, pd: nat)
    requires Inv(s) && Inv(r) && IsSpace(r, pd) && !IsSpace(s, pd) && SameOthers(r.owner, s.owner, pd)
    ensures Destroy(r, pd).owner == s.owner
    ensures Destroy(r, pd).used == s.used <==> r.held == s.held
  {
    DestroyKeeps(r, pd);
    var d := Destroy(r, pd);
    forall f: nat ensures f in s.owner <==> f in d.owner ensures f in s.owner ==> d.owner[f] == s.owner[f] {
      assert OthersFrame(r.owner, f, pd) == OthersFrame(s.owner, f, pd);
      if f in s.owner { assert Realised(s, f); }
    }
    assert d.owner == s.owner;
  }

  // Some page of the space shows a frame above 1 MiB that was in use before the space was made.
  ghost predicate ShowsOld(r: System, pd: nat, used: set<nat>)
    requires Shaped(r) && pd < FRAMES
  {
    exists q: nat :: q < USER_PAGES && OldFrame(r, pd, q, used)
  }

  predicate OldFrame(r: System, pd: nat, q: nat, used: set<nat>)
    requires |r.ram| == FRAMES && pd < FRAMES && q < FRAMES
  {
    LOW_FRAMES <= Translate(r.ram, pd, q) < FRAMES && Translate(r.ram, pd, q) in used
  }

  lemma OldFramesFreed(r: System, pd: nat, used: set<nat>)
    requires Inv(r) && IsSpace(r, pd) && forall f | f in used :: OnlyUser(r, pd, f)
    ensures pd < FRAMES && (used <= Destroy(r, pd).used <==> !ShowsOld(r, pd, used))
  {
    DestroyKeeps(r, pd);
    forall f | f in used && f !in Destroy(r, pd).used ensures ShowsOld(r, pd, used) {
      assert OnlyUser(r, pd, f) && Realised(r, f);
      assert OldFrame(r, pd, r.owner[f].role.page, used);
    }
    if q: nat :| q < USER_PAGES && OldFrame(r, pd, q, used) {
      assert PageOwned(r, pd, q);
      assert Translate(r.ram, pd, q) !in Destroy(r, pd).used;
    }
  }

  // Create a space, work in it, destroy it. Every other space owns what it owned. Unless device
  // memory above 1 MiB was mapped, the bitmap is as before exactly when every step was clean. In
  // any case the frames that were in use before still are, exactly when no page of the space
  // showed one of them above 1 MiB in the end.
  lemma DestroyRestores(s: System, ws: seq<Work>)
    requires Inv(s) && NextFree(s.used, 0) < FRAMES
    requires Inv(Create(s)) && IsSpace(Create(s), NextFree(s.used, 0)) && AllAllowed(Create(s), NextFree(s.used, 0), ws)
    ensures var pd := NextFree(s.used, 0); var r := DoAll(Create(s), pd, ws);
      && pd < FRAMES && Inv(r) && Inv(Destroy(r, pd)) && Destroy(r, pd).owner == s.owner
      && (AllLow(ws) ==> (Destroy(r, pd).used == s.used <==> AllClean(Create(s), pd, ws)))
      && (s.used <= Destroy(r, pd).used <==> !ShowsOld(r, pd, s.used))
  {
    var pd, c := NextFree(s.used, 0), Create(s);
    CreateKeeps(s);
    DoAllKeeps(c, pd, ws);
    var r := DoAll(c, pd, ws);
    forall f: nat ensures OthersFrame(r.owner, f, pd) == OthersFrame(s.owner, f, pd) {
      assert OthersFrame(r.owner, f, pd) == OthersFrame(c.owner, f, pd);
    }
    DestroyKeeps(r, pd);
    OthersStay(s, r, pd);
    forall f | f in s.used ensures OnlyUser(r, pd, f) {
      if f in s.owner { assert Realised(s, f); }
      DoAllTakesOnlyUser(c, pd, ws, f);
    }
    OldFramesFreed(r, pd, s.used);
  }
}
