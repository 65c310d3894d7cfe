// Loading an executable into an address space, page by page.
module Elf {
  import opened Bytes
  import opened Physical
  import Pages
  import opened PageTables
  import opened AddressSpaces
  import opened AddressSpaceRuns
  import opened Paging
  import opened ElfImage
  import opened FrameBudget

  datatype Header = Refused | Skipped | ToLoad(g: Segment)

  datatype LoadResult = Failed | Loaded(entryPoint: nat, heapStart: nat)

  // The executable asks only for memory below the kernel.
  ghost predicate Decent(elf: seq<byte>) {
    && |elf| < U32 && OffsetsFit(elf)
    && (|elf| >= HEADER_SIZE ==> forall i | 0 <= i < HeaderCount(elf) :: LoadsBelow(elf, i))
  }

  predicate LoadsBelow(elf: seq<byte>, i: nat)
    requires |elf| >= HEADER_SIZE
  {
    HeaderOk(elf, i) && IsLoad(elf, i) ==>
      BelowKernel(SegmentAt(elf, HeaderOffset(elf, i))) && EndsBelow(SegmentAt(elf, HeaderOffset(elf, i)))
  }

  predicate EndsBelow(g: Segment) { g.vaddr + g.memsz <= KERNEL_VBASE }

  // The end of the segments seen so far.
  function HighestEnd(gs: seq<Segment>): (r: nat)
    ensures forall k | 0 <= k < |gs| :: gs[k].vaddr + gs[k].memsz <= r
    ensures r == 0 || exists k :: 0 <= k < |gs| && gs[k].vaddr + gs[k].memsz == r
  {
    if gs == [] then 0
    else
      var end := gs[|gs| - 1].vaddr + gs[|gs| - 1].memsz;
      var rest := HighestEnd(gs[..|gs| - 1]);
      if end > rest then end else rest
  }

  // Every page of the plan is in place, other pages and the other spaces are as they were.
  ghost predicate Done(was: System, s: System, pd: nat, plan: map<nat, Page>) {
    && Inv(s) && IsSpace(s, pd) && pd < FRAMES && |was.ram| == FRAMES
    && AllShown(s, pd, plan) && Untouched(was, s, pd, plan) && OthersKept(was, s, pd)
  }

  lemma DoneOneMore(was: System, s: System, pd: nat, plan: map<nat, Page>, page: nat, p: Page)
    requires Done(was, s, pd, plan) == true && page < USER_PAGES && NextFree(s.used, 0) < FRAMES
    ensures Done(was, Place(s, pd, page, p), pd, plan[page := p]) == true
  {
    PlaceKeeps(s, pd, page, p);
    PlaceShown(s, pd, plan, page, p);
    PlaceUntouched(was, s, pd, plan, page, p);
    PlaceOthers(was, s, pd, page, p);
  }

  lemma OneMoreSegment(elf: seq<byte>, gs: seq<Segment>, g: Segment)
    requires InFile(elf, g) && forall k | 0 <= k < |gs| :: InFile(elf, gs[k])
    ensures AllPages(elf, gs + [g]) == SegmentPlan(AllPages(elf, gs), elf, g)
    ensures HighestEnd(gs + [g]) == Max(HighestEnd(gs), g.vaddr + g.memsz)
    ensures NumbersOf(gs + [g]) == NumbersOf(gs) + PagesOf(g)
  {
    assert (gs + [g])[..|gs|] == gs;
  }

  function Max(a: nat, b: nat): nat { if b > a then b else a }

  lemma OneMorePage(plan: map<nat, Page>, elf: seq<byte>, g: Segment, first: nat, images: seq<Page>, p: nat)
    requires InFile(elf, g) && p < |images| && AreImages(elf, g, images)
    ensures WithPages(plan, first, images, p + 1)
      == WithPages(plan, first, images, p)[first + p := PageImage(elf, g, p)]
  {
    assert images[p] == PageImage(elf, g, p);
  }

  // The page numbers of a segment, and of all segments among the first n headers, in the order
  // in which they are placed.
  function Numbers(first: nat, n: nat): (r: seq<nat>)
    ensures |r| == n
  {
    if n == 0 then [] else Numbers(first, n - 1) + [first + n - 1]
  }

  lemma {:induction false} NumbersLast(b: Budget, first: nat, n: nat, m: nat)
    requires m <= n && Lasts(b, Numbers(first, n))
    ensures Lasts(b, Numbers(first, m))
    decreases n
  {
    if m < n {
      assert Numbers(first, n)[..n - 1] == Numbers(first, n - 1);
      NumbersLast(b, first, n - 1, m);
    }
  }

  lemma NumbersNext(b: Budget, first: nat, p: nat)
    ensures Spent(b, Numbers(first, p + 1)) == Spend(Spent(b, Numbers(first, p)), first + p)
    ensures Lasts(b, Numbers(first, p + 1)) <==> Lasts(b, Numbers(first, p)) && Spent(b, Numbers(first, p)).free > 0
  {
    assert Numbers(first, p + 1)[..p] == Numbers(first, p);
  }

  function PagesOf(g: Segment): seq<nat> { Numbers(g.vaddr / FRAME_SIZE, PageCount(g)) }

  function NumbersOf(gs: seq<Segment>): seq<nat> {
    if gs == [] then [] else NumbersOf(gs[..|gs| - 1]) + PagesOf(gs[|gs| - 1])
  }

  // The first n headers are in order, and gs are the segments they ask for.
  ghost predicate Parsed(elf: seq<byte>, n: nat, gs: seq<Segment>) {
    |elf| >= HEADER_SIZE && HeadersOk(elf, n) && Segments(elf, n) == gs
  }

  lemma ParsedLoad(elf: seq<byte>, i: nat, gs: seq<Segment>)
    requires Parsed(elf, i, gs) == true && HeaderOk(elf, i) && IsLoad(elf, i)
    ensures Parsed(elf, i + 1, gs + [SegmentAt(elf, HeaderOffset(elf, i))]) == true
  {
  }

  lemma ParsedSkip(elf: seq<byte>, i: nat, gs: seq<Segment>)
    requires Parsed(elf, i, gs) == true && HeaderOk(elf, i) && !IsLoad(elf, i)
    ensures Parsed(elf, i + 1, gs) == true
  {
  }

  // The frames last for the pages of the first n headers.
  ghost predicate Affords(b: Budget, elf: seq<byte>, n: nat) {
    exists gs :: Parsed(elf, n, gs) && Lasts(b, NumbersOf(gs))
  }

  lemma AffordsIff(b: Budget, elf: seq<byte>, n: nat, gs: seq<Segment>)
    requires Parsed(elf, n, gs) == true
    ensures Affords(b, elf, n) <==> Lasts(b, NumbersOf(gs))
  {
  }

  lemma AffordsInOrder(b: Budget, elf: seq<byte>, i: nat)
    requires Affords(b, elf, i + 1)
    ensures |elf| >= HEADER_SIZE && HeaderOk(elf, i)
  {
    var gs :| Parsed(elf, i + 1, gs) && Lasts(b, NumbersOf(gs));
    ParsedBefore(elf, i, gs);
  }

  lemma AffordsAfter(b: Budget, elf: seq<byte>, i: nat, h: Header, gs: seq<Segment>)
    requires |elf| >= HEADER_SIZE && (h.Refused? <==> !HeaderOk(elf, i))
      && (!h.Refused? ==> Parsed(elf, i + 1, gs) == true)
    ensures Affords(b, elf, i + 1) <==> !h.Refused? && Lasts(b, NumbersOf(gs))
  {
    if h.Refused? {
      if Affords(b, elf, i + 1) { AffordsInOrder(b, elf, i); }
    } else {
      AffordsIff(b, elf, i + 1, gs);
    }
  }

  // A header out of order, or frames that do not last, are fatal for good.
  lemma {:induction false} AffordsLess(b: Budget, elf: seq<byte>, n: nat, m: nat)
    requires m <= n && Affords(b, elf, n) == true
    ensures Affords(b, elf, m) == true
    decreases n
  {
    if m < n {
      AffordsBefore(b, elf, n - 1);
      AffordsLess(b, elf, n - 1, m);
    }
  }

  lemma AffordsBefore(b: Budget, elf: seq<byte>, i: nat)
    requires Affords(b, elf, i + 1) == true
    ensures Affords(b, elf, i) == true
  {
    var gs :| Parsed(elf, i + 1, gs) && Lasts(b, NumbersOf(gs));
    ParsedBefore(elf, i, gs);
    var init := Segments(elf, i);
    if gs != init { LastsBefore(b, init, gs); }
    AffordsIff(b, elf, i, init);
  }

  lemma LastsBefore(b: Budget, init: seq<Segment>, gs: seq<Segment>)
    requires gs != [] && gs == init + [gs[|gs| - 1]] && Lasts(b, NumbersOf(gs))
    ensures Lasts(b, NumbersOf(init))
  {
    assert gs[..|gs| - 1] == init;
    LastsAppend(b, NumbersOf(init), PagesOf(gs[|gs| - 1]));
  }

  lemma ParsedBefore(elf: seq<byte>, i: nat, gs: seq<Segment>)
    requires Parsed(elf, i + 1, gs) == true
    ensures HeaderOk(elf, i) && HeadersOk(elf, i) == true && Parsed(elf, i, Segments(elf, i)) == true
    ensures gs == Segments(elf, i)
      || (gs != [] && gs == Segments(elf, i) + [gs[|gs| - 1]] && InFile(elf, gs[|gs| - 1]))
  {
    assert HeaderOk(elf, i);
  }

  // The pages qs have been placed: what is in place, and what is left of the frames.
  ghost predicate Stage(was: System, s: System, pd: nat, plan: map<nat, Page>, b: Budget, qs: seq<nat>) {
    Done(was, s, pd, plan) && pd < FRAMES && Lasts(b, qs) && BudgetOf(s, pd) == Spent(b, qs)
  }

  lemma StagePage(was: System, s: System, r: System, pd: nat, plan: map<nat, Page>, next: map<nat, Page>, b: Budget,
                  first: nat, p: nat, ok: bool)
    requires Stage(was, s, pd, plan, b, Numbers(first, p)) == true && |r.ram| == FRAMES
    requires ok <==> BudgetOf(s, pd).free > 0
    requires ok ==> Done(was, r, pd, next) == true && BudgetOf(r, pd) == Spend(BudgetOf(s, pd), first + p)
    ensures ok <==> Lasts(b, Numbers(first, p + 1))
    ensures ok ==> Stage(was, r, pd, next, b, Numbers(first, p + 1)) == true
  {
    NumbersNext(b, first, p);
  }

  // So have those of the segments gs, which end at end.
  ghost predicate SegmentStage(was: System, s: System, pd: nat, elf: seq<byte>, b: Budget, gs: seq<Segment>, end: nat) {
    && (forall k | 0 <= k < |gs| :: InFile(elf, gs[k])) && end == HighestEnd(gs)
    && Stage(was, s, pd, AllPages(elf, gs), b, NumbersOf(gs))
  }

  lemma StageStart(s: System, pd: nat, elf: seq<byte>)
    requires Inv(s) == true && IsSpace(s, pd)
    ensures pd < FRAMES && SegmentStage(s, s, pd, elf, BudgetOf(s, pd), [], 0) == true
    ensures OthersKept(s, s, pd) == true && (|elf| >= HEADER_SIZE ==> Parsed(elf, 0, []) == true)
  {
  }

  lemma StageKept(was: System, s: System, pd: nat, elf: seq<byte>, b: Budget, gs: seq<Segment>, end: nat)
    requires SegmentStage(was, s, pd, elf, b, gs, end) == true
    ensures IsSpace(s, pd) && OthersKept(was, s, pd) == true && Lasts(b, NumbersOf(gs))
    ensures (forall k | 0 <= k < |gs| :: InFile(elf, gs[k])) && end == HighestEnd(gs)
    ensures Stage(was, s, pd, AllPages(elf, gs), b, NumbersOf(gs)) == true
  {
  }

  lemma StageNext(was: System, s: System, pd: nat, plan: map<nat, Page>, b0: Budget, xs: seq<nat>, b: Budget,
      ys: seq<nat>)
    requires Stage(was, s, pd, plan, b0, xs) == true && b0 == Spent(b, ys) && Lasts(b, ys)
    ensures Stage(was, s, pd, plan, b, ys + xs) == true
  {
    LastsAppend(b, ys, xs);
  }

  lemma OneReady(was: System, s: System, pd: nat, elf: seq<byte>, b: Budget, gs: seq<Segment>, end: nat, g: Segment)
    requires SegmentStage(was, s, pd, elf, b, gs, end) == true && InFile(elf, g)
    ensures forall k | 0 <= k < |gs| :: InFile(elf, gs[k])
    ensures Stage(was, s, pd, AllPages(elf, gs), Spent(b, NumbersOf(gs)), []) == true
    ensures Lasts(b, NumbersOf(gs + [g])) <==> Lasts(Spent(b, NumbersOf(gs)), PagesOf(g))
    ensures Lasts(b, NumbersOf(gs)) && end == HighestEnd(gs)
  {
    OneMoreSegment(elf, gs, g);
    LastsAppend(b, NumbersOf(gs), PagesOf(g));
  }

  lemma OneDone(was: System, s: System, pd: nat, elf: seq<byte>, b: Budget, gs: seq<Segment>, end: nat, g: Segment)
    requires InFile(elf, g) && end == HighestEnd(gs) && Lasts(b, NumbersOf(gs))
    requires forall k | 0 <= k < |gs| :: InFile(elf, gs[k])
    requires Stage(was, s, pd, SegmentPlan(AllPages(elf, gs), elf, g), Spent(b, NumbersOf(gs)), PagesOf(g)) == true
    ensures SegmentStage(was, s, pd, elf, b, gs + [g], Max(end, g.vaddr + g.memsz)) == true
  {
    OneMoreSegment(elf, gs, g);
    StageNext(was, s, pd, AllPages(elf, gs + [g]), Spent(b, NumbersOf(gs)), PagesOf(g), b, NumbersOf(gs));
  }

  // The file has been loaded: its segments, what is in place, and what that took of the frames.
  ghost predicate Executed(was: System, s: System, pd: nat, elf: seq<byte>, gs: seq<Segment>) {
    && GoodHeader(elf) && Parsed(elf, HeaderCount(elf), gs) && |was.ram| == FRAMES && pd < FRAMES
    && Stage(was, s, pd, AllPages(elf, gs), BudgetOf(was, pd), NumbersOf(gs))
  }

  lemma OffsetFits(elf: seq<byte>, i: nat)
    requires Decent(elf) && |elf| >= HEADER_SIZE && i < HeaderCount(elf)
    ensures (WordAt(elf, 28) + i * HalfAt(elf, 42)) % 0x1_0000_0000 == HeaderOffset(elf, i)
  {
    EntryOffsetIs(WordAt(elf, 28), HalfAt(elf, 42), i);
    assert HeaderOffset(elf, i) + PROGRAM_HEADER_SIZE < U32;
    SmallMod(HeaderOffset(elf, i));
  }

  lemma DecentSegment(elf: seq<byte>, i: nat)
    requires Decent(elf) == true && |elf| >= HEADER_SIZE && i < HeaderCount(elf) && HeaderOk(elf, i) && IsLoad(elf, i)
    ensures var g := SegmentAt(elf, HeaderOffset(elf, i));
      BelowKernel(g) && (g.vaddr + g.memsz) % 0x1_0000_0000 == g.vaddr + g.memsz
  {
    var g := SegmentAt(elf, HeaderOffset(elf, i));
    assert LoadsBelow(elf, i);
    SmallMod(g.vaddr + g.memsz);
  }

  lemma AddressOf(page: nat, pd: nat, f: nat)
    ensures page * FRAME_SIZE / FRAME_SIZE == page && pd * FRAME_SIZE / FRAME_SIZE == pd
      && f * FRAME_SIZE / FRAME_SIZE == f
  {
  }

  lemma SmallMod(x: nat)
    requires x < U32
    ensures x % 0x1_0000_0000 == x
  {
  }

  class ElfLoader {
    const paging: PagingManager

    constructor (manager: PagingManager)
      ensures paging == manager
    {
      paging := manager;
    }

    // A frame's new contents, byte by byte.
    method CopyPage(elf: seq<byte>, g: Segment, p: nat, frame: Page) returns (dest: Page)
      requires InFile(elf, g)
      ensures dest == PageImage(elf, g, p)
    {
      dest := frame;
      var b := 0;
      while b < FRAME_SIZE
        invariant 0 <= b <= FRAME_SIZE
        invariant forall c | 0 <= c < b :: dest[c] == SegmentByte(elf, g, p * FRAME_SIZE + c)
      {
        var segOffset := p * FRAME_SIZE + b;
        if segOffset < g.filesz && g.offset + segOffset < |elf| {
          dest := dest[b := elf[g.offset + segOffset]];
        } else {
          dest := dest[b := 0];
        }
        b := b + 1;
      }
    }

    // A page of a segment: a frame for it, the mapping, the contents.
    method LoadPage(pd: nat, elf: seq<byte>, g: Segment, p: nat, page: nat,
                    ghost was: System, ghost plan: map<nat, Page>, ghost next: map<nat, Page>) returns (ok: bool)
      requires paging.Valid() && Done(was, paging.sys, pd, plan) == true && InFile(elf, g) && page < USER_PAGES
      requires next == plan[page := PageImage(elf, g, p)]
      modifies paging`ram, paging`sys, paging.frames.bitmap
      ensures paging.Valid() && IsSpace(paging.sys, pd) && OthersKept(was, paging.sys, pd) == true
      ensures Shaped(paging.sys) && pd < FRAMES && (ok <==> BudgetOf(old(paging.sys), pd).free > 0)
      ensures ok ==> Done(was, paging.sys, pd, next) == true
      ensures ok ==> BudgetOf(paging.sys, pd) == Spend(BudgetOf(old(paging.sys), pd), page)
    {
      ghost var s, image := paging.sys, PageImage(elf, g, p);
      FreeIff(s);
      var address := paging.AllocFrame();
      ok := address != 0;
      if ok {
        MappedIsNotPaging(s, pd, page);
        AddressOf(page, pd, NextFree(s.used, 0));
        paging.MapUserPage(pd * FRAME_SIZE, page * FRAME_SIZE, address);
        FillPage(elf, g, p, address);
        assert paging.sys == Place(s, pd, page, image);
        DoneOneMore(was, s, pd, plan, page, image);
        PlaceSpends(s, pd, page, image);
      } else {
        assert paging.sys == s;
      }
    }

    method FillPage(elf: seq<byte>, g: Segment, p: nat, address: nat)
      requires paging.Valid() && InFile(elf, g) && address / FRAME_SIZE < FRAMES
        && !PagingFrame(paging.sys, address / FRAME_SIZE)
      modifies paging`ram, paging`sys
      ensures paging.Valid() && paging.sys == Fill(old(paging.sys), address / FRAME_SIZE, PageImage(elf, g, p))
    {
      var f := address / FRAME_SIZE;
      var dest := CopyPage(elf, g, p, paging.ram[f]);
      paging.StoreFrame(f, dest);
    }

    // Page number p of a segment, when those before it are in place.
    method LoadNext(pd: nat, elf: seq<byte>, g: Segment, first: nat, p: nat,
                    ghost was: System, ghost plan: map<nat, Page>, ghost next: map<nat, Page>, ghost b: Budget)
      returns (ok: bool)
      requires InFile(elf, g) && first + p < USER_PAGES && next == plan[first + p := PageImage(elf, g, p)]
      requires paging.Valid() && Stage(was, paging.sys, pd, plan, b, Numbers(first, p)) == true
      modifies paging`ram, paging`sys, paging.frames.bitmap
      ensures paging.Valid() && IsSpace(paging.sys, pd) && OthersKept(was, paging.sys, pd) == true
      ensures ok <==> Lasts(b, Numbers(first, p + 1))
      ensures ok ==> Stage(was, paging.sys, pd, next, b, Numbers(first, p + 1)) == true
    {
      ghost var s := paging.sys;
      ok := LoadPage(pd, elf, g, p, first + p, was, plan, next);
      StagePage(was, s, paging.sys, pd, plan, next, b, first, p, ok);
    }

    // The pages of a segment, from page number first on, over what was planned before.
    method LoadSegment(pd: nat, elf: seq<byte>, g: Segment, first: nat, n: nat, ghost was: System,
                       ghost plan: map<nat, Page>, ghost images: seq<Page>, ghost b: Budget)
      returns (ok: bool)
      requires InFile(elf, g) && first + n <= USER_PAGES && |images| == n && AreImages(elf, g, images) == true
      requires paging.Valid() && Stage(was, paging.sys, pd, plan, b, []) == true
      modifies paging`ram, paging`sys, paging.frames.bitmap
      ensures paging.Valid() && IsSpace(paging.sys, pd) && OthersKept(was, paging.sys, pd) == true
      ensures ok <==> Lasts(b, Numbers(first, n))
      ensures ok ==> Stage(was, paging.sys, pd, WithPages(plan, first, images, n), b, Numbers(first, n)) == true
    {
      var p := 0;
      while p < n
        invariant 0 <= p <= n && paging.Valid()
        invariant Stage(was, paging.sys, pd, WithPages(plan, first, images, p), b, Numbers(first, p)) == true
      {
        OneMorePage(plan, elf, g, first, images, p);
        ok := LoadNext(pd, elf, g, first, p, was, WithPages(plan, first, images, p),
          WithPages(plan, first, images, p + 1), b);
        if !ok {
          if Lasts(b, Numbers(first, n)) { NumbersLast(b, first, n, p + 1); }
          return;
        }
        p := p + 1;
      }
      ok := true;
    }

    // The 32-bit test is exact: the segment's bytes are in the file.
    method BoundsTest(elf: seq<byte>, g: Segment) returns (inFile: bool)
      requires |elf| < U32 && g.offset < U32 && g.filesz < U32
      ensures inFile <==> InFile(elf, g)
    {
      var sum := (g.offset + g.filesz) % 0x1_0000_0000;
      inFile := !(g.offset > |elf| || g.filesz > |elf| || sum < g.offset || sum > |elf|);
    }

    // One program header: refused, passed over, or a segment to load.
    method ParseHeader(elf: seq<byte>, i: nat) returns (h: Header)
      requires Decent(elf) == true && |elf| >= HEADER_SIZE && i < HeaderCount(elf)
      ensures h.Refused? <==> !HeaderOk(elf, i)
      ensures !h.Refused? ==> (h.ToLoad? <==> IsLoad(elf, i))
      ensures h.ToLoad? ==> h.g == SegmentAt(elf, HeaderOffset(elf, i))
    {
      OffsetFits(elf, i);
      var offset := (WordAt(elf, 28) + i * HalfAt(elf, 42)) % 0x1_0000_0000;
      if offset + PROGRAM_HEADER_SIZE > |elf| { return Refused; }
      if WordAt(elf, offset) != PT_LOAD { return Skipped; }
      var g := SegmentAt(elf, offset);
      var inFile := BoundsTest(elf, g);
      return if inFile then ToLoad(g) else Refused;
    }

    // A segment on top of those in place.
    method LoadOne(pd: nat, elf: seq<byte>, g: Segment, highestEnd: nat, ghost was: System, ghost b: Budget,
                   ghost gs: seq<Segment>)
      returns (ok: bool)
      requires paging.Valid() && InFile(elf, g) && BelowKernel(g)
      requires SegmentStage(was, paging.sys, pd, elf, b, gs, highestEnd) == true
      modifies paging`ram, paging`sys, paging.frames.bitmap
      ensures paging.Valid() && IsSpace(paging.sys, pd) && OthersKept(was, paging.sys, pd) == true
      ensures ok <==> Lasts(b, NumbersOf(gs + [g]))
      ensures ok ==> SegmentStage(was, paging.sys, pd, elf, b, gs + [g], Max(highestEnd, g.vaddr + g.memsz)) == true
    {
      OneReady(was, paging.sys, pd, elf, b, gs, highestEnd, g);
      var first, n := g.vaddr / FRAME_SIZE, PageCount(g);
      ok := LoadSegment(pd, elf, g, first, n, was, AllPages(elf, gs), Images(elf, g, n), Spent(b, NumbersOf(gs)));
      if ok { OneDone(was, paging.sys, pd, elf, b, gs, highestEnd, g); }
    }

    method ReadHeader(elf: seq<byte>, i: nat, highestEnd: nat, ghost gs: seq<Segment>)
      returns (h: Header, end: nat, ghost gs': seq<Segment>)
      requires Decent(elf) == true && Parsed(elf, i, gs) == true && i < HeaderCount(elf)
      ensures h.Refused? <==> !HeaderOk(elf, i)
      ensures !h.Refused? ==> Parsed(elf, i + 1, gs') == true
      ensures h.Skipped? ==> gs' == gs && end == highestEnd
      ensures h.ToLoad? ==>
        InFile(elf, h.g) && BelowKernel(h.g) && gs' == gs + [h.g] && end == Max(highestEnd, h.g.vaddr + h.g.memsz)
    {
      end, gs' := highestEnd, gs;
      h := ParseHeader(elf, i);
      if h.ToLoad? {
        DecentSegment(elf, i);
        ParsedLoad(elf, i, gs);
        end, gs' := Max(highestEnd, (h.g.vaddr + h.g.memsz) % 0x1_0000_0000), gs + [h.g];
      } else if h.Skipped? {
        ParsedSkip(elf, i, gs);
      }
    }

    // What one header asks for.
    method LoadHeader(pd: nat, elf: seq<byte>, i: nat, highestEnd: nat, ghost was: System, ghost b: Budget,
                      ghost gs: seq<Segment>)
      returns (ok: bool, end: nat, ghost gs': seq<Segment>)
      requires paging.Valid() && Decent(elf) == true && Parsed(elf, i, gs) == true && i < HeaderCount(elf)
      requires SegmentStage(was, paging.sys, pd, elf, b, gs, highestEnd) == true
      modifies paging`ram, paging`sys, paging.frames.bitmap
      ensures paging.Valid() && IsSpace(paging.sys, pd) && OthersKept(was, paging.sys, pd) == true
      ensures ok <==> Affords(b, elf, i + 1)
      ensures ok ==> Parsed(elf, i + 1, gs') == true && SegmentStage(was, paging.sys, pd, elf, b, gs', end) == true
    {
      StageKept(was, paging.sys, pd, elf, b, gs, highestEnd);
      var h;
      h, end, gs' := ReadHeader(elf, i, highestEnd, gs);
      ok := h.Skipped?;
      if h.ToLoad? { ok := LoadOne(pd, elf, h.g, highestEnd, was, b, gs); }
      AffordsAfter(b, elf, i, h, gs');
    }

    // All program headers, in order.
    method LoadHeaders(pd: nat, elf: seq<byte>, ghost was: System, ghost b: Budget)
      returns (ok: bool, highestEnd: nat, ghost gs: seq<Segment>)
      requires paging.Valid() && Decent(elf) == true && Parsed(elf, 0, []) == true
      requires SegmentStage(was, paging.sys, pd, elf, b, [], 0) == true
      modifies paging`ram, paging`sys, paging.frames.bitmap
      ensures paging.Valid() && IsSpace(paging.sys, pd) && OthersKept(was, paging.sys, pd) == true
      ensures ok <==> Affords(b, elf, HeaderCount(elf))
      ensures ok ==> Parsed(elf, HeaderCount(elf), gs) == true
      ensures ok ==> SegmentStage(was, paging.sys, pd, elf, b, gs, highestEnd) == true
    {
      highestEnd, gs := 0, [];
      var i := 0;
      while i < HeaderCount(elf)
        invariant 0 <= i <= HeaderCount(elf) && paging.Valid() && Parsed(elf, i, gs) == true
        invariant SegmentStage(was, paging.sys, pd, elf, b, gs, highestEnd) == true
      {
        ok, highestEnd, gs := LoadHeader(pd, elf, i, highestEnd, was, b, gs);
        if !ok {
          if Affords(b, elf, HeaderCount(elf)) { AffordsLess(b, elf, HeaderCount(elf), i + 1); }
          return;
        }
        i := i + 1;
      }
      ok := true;
      StageKept(was, paging.sys, pd, elf, b, gs, highestEnd);
      AffordsIff(b, elf, i, gs);
    }

    // Succeeds exactly for a good file when the frames last, with every segment placed; the heap
    // starts at the first page boundary at or above every segment. Whatever happens, the other
    // address spaces own what they owned and see what they saw.
    method Load(pd: nat, elf: seq<byte>) returns (result: LoadResult, ghost gs: seq<Segment>)
      requires paging.Valid() && IsSpace(paging.sys, pd) && Decent(elf) == true
      modifies paging`ram, paging`sys, paging.frames.bitmap
      ensures paging.Valid() && IsSpace(paging.sys, pd) && OthersKept(old(paging.sys), paging.sys, pd) == true
      ensures Shaped(old(paging.sys)) && pd < FRAMES
      ensures result.Loaded? <==> GoodHeader(elf) && Affords(BudgetOf(old(paging.sys), pd), elf, HeaderCount(elf))
      ensures result.Loaded? ==>
        result.entryPoint == WordAt(elf, 24) && result.heapStart == Pages.PageUp(HighestEnd(gs))
      ensures result.Loaded? ==> Executed(old(paging.sys), paging.sys, pd, elf, gs) == true
    {
      gs := [];
      ghost var was := paging.sys;
      StageStart(was, pd, elf);
      if |elf| < HEADER_SIZE { return Failed, []; }
      if elf[0] != 0x7F || elf[1] != 0x45 || elf[2] != 0x4C || elf[3] != 0x46 { return Failed, []; }
      if elf[4] != 1 { return Failed, []; }
      if HalfAt(elf, 16) != 2 { return Failed, []; }
      if HalfAt(elf, 18) != 3 { return Failed, []; }
      var ok, highestEnd;
      ok, highestEnd, gs := LoadHeaders(pd, elf, was, BudgetOf(was, pd));
      if !ok { return Failed, []; }
      StageKept(was, paging.sys, pd, elf, BudgetOf(was, pd), gs, highestEnd);
      return Loaded(WordAt(elf, 24), Pages.PageUp(highestEnd)), gs;
    }
  }

  // The heap begins on a page boundary, above every segment and no page higher than it must.
  lemma HeapIsAboveSegments(elf: seq<byte>, k: nat)
    requires Decent(elf) && GoodHeader(elf) && HeadersOk(elf, HeaderCount(elf))
    requires k < |Segments(elf, HeaderCount(elf))|
    ensures var gs := Segments(elf, HeaderCount(elf)); var start := Pages.PageUp(HighestEnd(gs));
      && start % FRAME_SIZE == 0 && gs[k].vaddr + gs[k].memsz <= start <= KERNEL_VBASE
      && start < HighestEnd(gs) + FRAME_SIZE
  {
    var gs := Segments(elf, HeaderCount(elf));
    var end := HighestEnd(gs);
    forall j | 0 <= j < |gs| ensures EndsBelow(gs[j]) { SegmentIsDecent(elf, HeaderCount(elf), j); }
    assert end <= KERNEL_VBASE;
    Pages.PageUpExact(end);
    RoundedBelow(Pages.PageUp(end), end);
  }

  lemma RoundedBelow(a: nat, end: nat)
    requires a % FRAME_SIZE == 0 && a < end + FRAME_SIZE && end <= KERNEL_VBASE
    ensures a <= KERNEL_VBASE
  {
  }

  lemma {:induction false} SegmentIsDecent(elf: seq<byte>, n: nat, k: nat)
    requires Decent(elf) && GoodHeader(elf) && n <= HeaderCount(elf) && HeadersOk(elf, n) && k < |Segments(elf, n)|
    ensures EndsBelow(Segments(elf, n)[k]) && BelowKernel(Segments(elf, n)[k])
  {
    assert HeaderOk(elf, n - 1) && LoadsBelow(elf, n - 1);
    if k < |Segments(elf, n - 1)| { SegmentIsDecent(elf, n - 1, k); }
  }

  // ---- What the process finds ----

  lemma {:induction false} NumbersAre(first: nat, n: nat, q: nat)
    ensures q in Numbers(first, n) <==> first <= q < first + n
  {
    if n > 0 { NumbersAre(first, n - 1, q); }
  }

  // The pages placed are those of the plan.
  lemma {:induction false} NumbersPlanned(elf: seq<byte>, gs: seq<Segment>, q: nat)
    requires forall k | 0 <= k < |gs| :: InFile(elf, gs[k])
    ensures q in NumbersOf(gs) <==> q in AllPages(elf, gs)
  {
    if gs != [] {
      var init, g := gs[..|gs| - 1], gs[|gs| - 1];
      NumbersPlanned(elf, init, q);
      WithPagesAt(AllPages(elf, init), g.vaddr / FRAME_SIZE, Images(elf, g, PageCount(g)), PageCount(g), q);
      NumbersAre(g.vaddr / FRAME_SIZE, PageCount(g), q);
    }
  }

  ghost predicate AllMapped(s: System, pd: nat, plan: map<nat, Page>)
    requires Shaped(s) && pd < FRAMES
  {
    forall q | q in plan :: q < USER_PAGES && Translate(s.ram, pd, q) < FRAMES
  }

  lemma MappedByTable(s: System, pd: nat, plan: map<nat, Page>, q: nat)
    requires Shaped(s) && pd < FRAMES && AllShown(s, pd, plan) == true && q in plan
    ensures q < USER_PAGES && (Translate(s.ram, pd, q) < FRAMES <==> DirNumber(q) in BudgetOf(s, pd).tables)
  {
    assert q < USER_PAGES && Shows(s, pd, q, plan[q]);
    DirBelow(q);
  }

  lemma StageMapped(was: System, s: System, pd: nat, plan: map<nat, Page>, b: Budget, qs: seq<nat>)
    requires Stage(was, s, pd, plan, b, qs) == true && forall q: nat :: q in qs <==> q in plan
    ensures Shaped(s) && pd < FRAMES && (AllMapped(s, pd, plan) <==> Cost(b, qs) <= b.free)
    ensures Cost(b, qs) > b.free ==>
      qs != [] && qs[|qs| - 1] < USER_PAGES && Translate(s.ram, pd, qs[|qs| - 1]) == FRAMES
  {
    TablesIff(b, qs);
    forall q: nat | q in plan
      ensures q < USER_PAGES && (Translate(s.ram, pd, q) < FRAMES <==> DirNumber(q) in Spent(b, qs).tables)
    {
      MappedByTable(s, pd, plan, q);
    }
    if Cost(b, qs) > b.free {
      ShortOfOne(b, qs);
      assert qs[|qs| - 1] in qs;
    }
  }

  // After a load that has succeeded, every page is mapped exactly when before it there was a
  // frame for each page and each missing table. With one frame less the load succeeds all the
  // same when the last page's table is missing, and that page is not mapped.
  lemma LoadedIsMapped(elf: seq<byte>, was: System, s: System, pd: nat, gs: seq<Segment>)
    requires Executed(was, s, pd, elf, gs) == true
    ensures |was.ram| == FRAMES && Shaped(s) && pd < FRAMES && forall k | 0 <= k < |gs| :: InFile(elf, gs[k])
    ensures var b, qs := BudgetOf(was, pd), NumbersOf(gs);
      && (AllMapped(s, pd, AllPages(elf, gs)) <==> Cost(b, qs) <= b.free)
      && (Cost(b, qs) > b.free ==>
        && Cost(b, qs) == b.free + 1 && qs[|qs| - 1] < USER_PAGES
        && Translate(s.ram, pd, qs[|qs| - 1]) == FRAMES)
  {
    var b, qs := BudgetOf(was, pd), NumbersOf(gs);
    forall q: nat ensures q in qs <==> q in AllPages(elf, gs) { NumbersPlanned(elf, gs, q); }
    StageMapped(was, s, pd, AllPages(elf, gs), b, qs);
    if Cost(b, qs) > b.free { ShortOfOne(b, qs); }
  }

  // When there were frames enough, the process finds in each page-aligned segment the bytes of
  // the file, and zeroes after them.
  lemma LoadedBytes(elf: seq<byte>, was: System, s: System, pd: nat, gs: seq<Segment>, k: nat, o: nat)
    requires Executed(was, s, pd, elf, gs) == true && |was.ram| == FRAMES && pd < FRAMES
    requires Cost(BudgetOf(was, pd), NumbersOf(gs)) <= BudgetOf(was, pd).free
    requires PageDisjoint(gs) == true && k < |gs| && gs[k].vaddr % FRAME_SIZE == 0 && o < gs[k].memsz
    ensures |s.ram| == FRAMES && gs[k].vaddr + o < U32
    ensures InFile(elf, gs[k])
    ensures ByteAt(s, pd, gs[k].vaddr + o) == if o < gs[k].filesz then elf[gs[k].offset + o] else 0
  {
    LoadedIsMapped(elf, was, s, pd, gs);
    AlignedSegmentsAreRight(s, pd, elf, gs, k, o);
    InPlan(elf, gs, k, o);
    assert Translate(s.ram, pd, (gs[k].vaddr + o) / FRAME_SIZE) < FRAMES;
  }

  lemma InPlan(elf: seq<byte>, gs: seq<Segment>, k: nat, o: nat)
    requires forall k | 0 <= k < |gs| :: InFile(elf, gs[k])
    requires PageDisjoint(gs) == true && k < |gs| && gs[k].vaddr % FRAME_SIZE == 0 && o < gs[k].memsz
    ensures (gs[k].vaddr + o) / FRAME_SIZE in AllPages(elf, gs)
  {
    WholePages(gs[k], o);
    PageInside(o, PageCount(gs[k]));
    PageSplit(gs[k].vaddr / FRAME_SIZE, o);
    PlanOf(elf, gs, k, o / FRAME_SIZE);
  }
}
