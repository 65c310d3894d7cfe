// The kernel's side of sbrk: a frame and a mapping for every page between the old break and the
// new one.
module Break {
  import opened Bytes
  import opened Physical
  import Pages
  import opened PageTables
  import opened AddressSpaces
  import opened Paging
  import opened ElfImage
  import opened FrameBudget
  import opened Elf
  import opened UserHeap

  // The page after a placement that leaves the frame's contents alone.
  function Placed(s: System, pd: nat, page: nat): (p: Page)
    requires |s.ram| == FRAMES && pd < FRAMES && page < FRAMES && NextFree(s.used, 0) < FRAMES
  {
    Map(Alloc(s), pd, page, NextFree(s.used, 0)).ram[NextFree(s.used, 0)]
  }

  // Mapping a new frame without writing it is placing what it holds.
  lemma MapIsPlace(s: System, pd: nat, page: nat)
    requires |s.ram| == FRAMES && pd < FRAMES && page < FRAMES && NextFree(s.used, 0) < FRAMES
    ensures Map(Alloc(s), pd, page, NextFree(s.used, 0)) == Place(s, pd, page, Placed(s, pd, page))
  {
    var m, f := Map(Alloc(s), pd, page, NextFree(s.used, 0)), NextFree(s.used, 0);
    assert m.ram[f := m.ram[f]] == m.ram;
  }

  // The pages from first on are the plan, whatever they hold.
  ghost predicate Spans(plan: map<nat, Page>, first: nat, n: nat) {
    forall q: nat :: q in plan <==> first <= q < first + n
  }

  lemma SpansNext(plan: map<nat, Page>, first: nat, n: nat, image: Page)
    requires Spans(plan, first, n) == true
    ensures Spans(plan[first + n := image], first, n + 1) == true
  {
  }

  lemma SpansNumbers(plan: map<nat, Page>, first: nat, n: nat)
    requires Spans(plan, first, n)
    ensures forall q: nat :: q in Numbers(first, n) <==> q in plan
  {
    forall q: nat ensures q in Numbers(first, n) <==> q in plan { NumbersAre(first, n, q); }
  }

  lemma BreakPages(oldBreak: nat, newBreak: nat)
    requires oldBreak % FRAME_SIZE == 0 && newBreak % FRAME_SIZE == 0 && oldBreak <= newBreak <= USER_STACK_BOTTOM
    ensures oldBreak / FRAME_SIZE <= newBreak / FRAME_SIZE <= USER_PAGES
    ensures newBreak == oldBreak + (newBreak / FRAME_SIZE - oldBreak / FRAME_SIZE) * FRAME_SIZE
  {
  }

  class BreakMover {
    const paging: PagingManager

    constructor (manager: PagingManager)
      ensures paging == manager
    {
      paging := manager;
    }

    // One page: its frame and its mapping. A page table that cannot be had goes unnoticed.
    method MapNew(pd: nat, page: nat) returns (ok: bool, ghost image: Page)
      requires paging.Valid() && IsSpace(paging.sys, pd) && page < USER_PAGES
      modifies paging`ram, paging`sys, paging.frames.bitmap
      ensures paging.Valid() && Shaped(old(paging.sys)) && pd < FRAMES
      ensures ok <==> NextFree(old(paging.sys).used, 0) < FRAMES
      ensures !ok ==> paging.sys == old(paging.sys)
      ensures ok ==> paging.sys == Place(old(paging.sys), pd, page, image)
    {
      ghost var s := paging.sys;
      image := ZeroPage();
      var address := paging.AllocFrame();
      ok := address != 0;
      if ok {
        MappedIsNotPaging(s, pd, page);
        AddressOf(page, pd, NextFree(s.used, 0));
        paging.MapUserPage(pd * FRAME_SIZE, page * FRAME_SIZE, address);
        MapIsPlace(s, pd, page);
        image := Placed(s, pd, page);
      }
    }

    // The same on top of what is in place.
    method MapOnTop(pd: nat, page: nat, ghost was: System, ghost plan: map<nat, Page>)
        returns (ok: bool, ghost image: Page)
      requires paging.Valid() && page < USER_PAGES && Done(was, paging.sys, pd, plan) == true
      modifies paging`ram, paging`sys, paging.frames.bitmap
      ensures paging.Valid() && Shaped(paging.sys) && pd < FRAMES && (ok <==> BudgetOf(old(paging.sys), pd).free > 0)
      ensures ok ==> Done(was, paging.sys, pd, plan[page := image]) == true
      ensures ok ==> BudgetOf(paging.sys, pd) == Spend(BudgetOf(old(paging.sys), pd), page)
      ensures !ok ==> paging.sys == old(paging.sys)
    {
      ghost var s := paging.sys;
      FreeIff(s);
      ok, image := MapNew(pd, page);
      if ok {
        DoneOneMore(was, s, pd, plan, page, image);
        PlaceSpends(s, pd, page, image);
      }
    }

    method AddPage(pd: nat, first: nat, p: nat, ghost was: System, ghost plan: map<nat, Page>, ghost b: Budget)
      returns (ok: bool, ghost image: Page)
      requires paging.Valid() && Stage(was, paging.sys, pd, plan, b, Numbers(first, p)) == true
        && first + p < USER_PAGES
      modifies paging`ram, paging`sys, paging.frames.bitmap
      ensures paging.Valid() && (ok <==> Lasts(b, Numbers(first, p + 1)))
      ensures ok ==> Stage(was, paging.sys, pd, plan[first + p := image], b, Numbers(first, p + 1)) == true
      ensures !ok ==> paging.sys == old(paging.sys)
    {
      ghost var s := paging.sys;
      ok, image := MapOnTop(pd, first + p, was, plan);
      StagePage(was, s, paging.sys, pd, plan, plan[first + p := image], b, first, p, ok);
    }

    method AddPages(pd: nat, first: nat, n: nat) returns (ok: bool, ghost plan: map<nat, Page>, ghost placed: nat)
      requires paging.Valid() && IsSpace(paging.sys, pd) && first + n <= USER_PAGES
      modifies paging`ram, paging`sys, paging.frames.bitmap
      ensures paging.Valid() && Shaped(old(paging.sys)) && pd < FRAMES
      ensures var b := BudgetOf(old(paging.sys), pd);
        && (ok <==> Lasts(b, Numbers(first, n))) && placed <= n && (ok ==> placed == n)
        && Stage(old(paging.sys), paging.sys, pd, plan, b, Numbers(first, placed)) == true
        && Spans(plan, first, placed) == true
    {
      ghost var was, b, image := paging.sys, BudgetOf(paging.sys, pd), ZeroPage();
      StageStart(was, pd, []);
      plan, placed := map[], 0;
      var p := 0;
      while p < n
        invariant 0 <= p <= n && placed == p && paging.Valid()
        invariant Stage(was, paging.sys, pd, plan, b, Numbers(first, p)) == true && Spans(plan, first, p) == true
      {
        ok, image := AddPage(pd, first, p, was, plan, b);
        if !ok {
          if Lasts(b, Numbers(first, n)) { NumbersLast(b, first, n, p + 1); }
          return;
        }
        SpansNext(plan, first, p, image);
        plan := plan[first + p := image];
        p, placed := p + 1, p + 1;
      }
      ok := true;
    }

    // The call moves the break exactly when the sums do not overflow, the stack is not reached and
    // the frames last. Then every page up to the new break is mapped exactly when there was a
    // frame for each of them and each missing table. Other pages are mapped as before, and other
    // spaces see what they saw; pages placed before a failure stay.
    method Sbrk(pd: nat, oldBreak: nat, increment: nat) returns (heapBreak: nat, result: nat, ghost placed: nat)
      requires paging.Valid() && IsSpace(paging.sys, pd) && increment < U32
      requires oldBreak <= USER_STACK_BOTTOM && oldBreak % FRAME_SIZE == 0
      modifies paging`ram, paging`sys, paging.frames.bitmap
      ensures paging.Valid() && Shaped(old(paging.sys)) && pd < FRAMES
      ensures var b, first := BudgetOf(old(paging.sys), pd), oldBreak / FRAME_SIZE;
        var n := Wanted(oldBreak, increment);
        && Brk(heapBreak, result) == UserHeap.Sbrk(oldBreak, increment, Lasts(b, Numbers(first, n)))
        && placed <= n && (result != 0 ==> placed == n)
        && (result != 0 ==> (MappedFrom(paging.sys, pd, first, n) <==> Cost(b, Numbers(first, n)) <= b.free))
      ensures OthersKept(old(paging.sys), paging.sys, pd) == true
      ensures MappedAlike(old(paging.sys), paging.sys, pd, oldBreak / FRAME_SIZE, placed) == true
    {
      ghost var was := paging.sys;
      NothingAdded(was, pd, oldBreak / FRAME_SIZE);
      placed := 0;
      var newBreak := Pages.PageUp((oldBreak + increment) % U32);
      SbrkOf(oldBreak, increment, newBreak);
      if oldBreak != 0 && increment == 0 { return oldBreak, oldBreak, 0; }
      if oldBreak == 0 || oldBreak + increment >= U32 || newBreak < oldBreak || newBreak > USER_STACK_BOTTOM {
        return oldBreak, 0, 0;
      }
      var ok;
      ok, placed := AddRange(pd, oldBreak / FRAME_SIZE, newBreak / FRAME_SIZE - oldBreak / FRAME_SIZE);
      return if ok then newBreak else oldBreak, if ok then oldBreak else 0, placed;
    }

    method AddRange(pd: nat, first: nat, n: nat) returns (ok: bool, ghost placed: nat)
      requires paging.Valid() && IsSpace(paging.sys, pd) && first + n <= USER_PAGES
      modifies paging`ram, paging`sys, paging.frames.bitmap
      ensures paging.Valid() && Shaped(old(paging.sys)) && pd < FRAMES
      ensures var b := BudgetOf(old(paging.sys), pd);
        && (ok <==> Lasts(b, Numbers(first, n))) && placed <= n && (ok ==> placed == n)
        && (MappedFrom(paging.sys, pd, first, placed) <==> Cost(b, Numbers(first, placed)) <= b.free)
      ensures OthersKept(old(paging.sys), paging.sys, pd) == true
      ensures MappedAlike(old(paging.sys), paging.sys, pd, first, placed) == true
    {
      ghost var was := paging.sys;
      ghost var plan;
      ok, plan, placed := AddPages(pd, first, n);
      RangeAdded(was, paging.sys, pd, plan, first, placed);
    }
  }

  // Pages out of the range are mapped as before.
  ghost predicate MappedAlike(was: System, s: System, pd: nat, first: nat, n: nat) {
    |was.ram| == |s.ram| == FRAMES && pd < FRAMES
    && forall q: nat | q < USER_PAGES && !(first <= q < first + n) ::
      Translate(s.ram, pd, q) == Translate(was.ram, pd, q)
  }

  lemma NothingAdded(s: System, pd: nat, first: nat)
    requires Inv(s) == true && IsSpace(s, pd)
    ensures pd < FRAMES && MappedAlike(s, s, pd, first, 0) == true && OthersKept(s, s, pd) == true
    ensures MappedFrom(s, pd, first, 0) && Numbers(first, 0) == [] && Lasts(BudgetOf(s, pd), [])
    ensures Cost(BudgetOf(s, pd), []) == 0
  {
    assert {} - BudgetOf(s, pd).tables == {};
  }

  // The number of pages between the break and the new one; none when the call is refused before.
  function Wanted(oldBreak: nat, increment: nat): nat
    requires oldBreak < U32 && increment < U32
  {
    var r := UserHeap.Sbrk(oldBreak, increment, true);
    if r.heapBreak > oldBreak then r.heapBreak / FRAME_SIZE - oldBreak / FRAME_SIZE else 0
  }

  predicate Refused(oldBreak: nat, increment: nat, newBreak: nat) {
    oldBreak == 0 || oldBreak + increment >= U32 || newBreak < oldBreak || newBreak > USER_STACK_BOTTOM
  }

  function Moved(oldBreak: nat, increment: nat, newBreak: nat, frames: bool): Brk {
    if oldBreak != 0 && increment == 0 then Brk(oldBreak, oldBreak)
    else if Refused(oldBreak, increment, newBreak) || !frames then Brk(oldBreak, 0)
    else Brk(newBreak, oldBreak)
  }

  lemma SbrkOf(oldBreak: nat, increment: nat, newBreak: nat)
    requires oldBreak <= USER_STACK_BOTTOM && oldBreak % FRAME_SIZE == 0 && increment < U32
    requires newBreak == Pages.PageUp((oldBreak + increment) % U32)
    ensures forall frames: bool ::
      UserHeap.Sbrk(oldBreak, increment, frames) == Moved(oldBreak, increment, newBreak, frames)
    ensures Refused(oldBreak, increment, newBreak) || increment == 0 ==> Wanted(oldBreak, increment) == 0
    ensures !Refused(oldBreak, increment, newBreak) && increment > 0 ==>
      && oldBreak / FRAME_SIZE <= newBreak / FRAME_SIZE <= USER_PAGES
      && Wanted(oldBreak, increment) == newBreak / FRAME_SIZE - oldBreak / FRAME_SIZE
  {
    if !Refused(oldBreak, increment, newBreak) && increment > 0 { BreakPages(oldBreak, newBreak); }
  }

  ghost predicate MappedFrom(s: System, pd: nat, first: nat, n: nat)
    requires |s.ram| == FRAMES && pd < FRAMES
  {
    forall q: nat | first <= q < first + n && q < FRAMES :: Translate(s.ram, pd, q) < FRAMES
  }

  lemma RangeAdded(was: System, s: System, pd: nat, plan: map<nat, Page>, first: nat, n: nat)
    requires |was.ram| == FRAMES && pd < FRAMES && first + n <= USER_PAGES
    requires Stage(was, s, pd, plan, BudgetOf(was, pd), Numbers(first, n)) == true && Spans(plan, first, n) == true
    ensures Shaped(s) && OthersKept(was, s, pd) == true
    ensures MappedFrom(s, pd, first, n) <==> Cost(BudgetOf(was, pd), Numbers(first, n)) <= BudgetOf(was, pd).free
    ensures MappedAlike(was, s, pd, first, n) == true
  {
    SpansNumbers(plan, first, n);
    StageMapped(was, s, pd, plan, BudgetOf(was, pd), Numbers(first, n));
  }
}
