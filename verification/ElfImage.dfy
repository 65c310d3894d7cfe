// What an executable file asks for, and the effect of placing its pages one after another.
module ElfImage {
  import opened Bytes
  import opened Physical
  import opened PageTables
  import opened AddressSpaces
  import opened AddressSpaceRuns

  const HEADER_SIZE: nat := 52
  const PROGRAM_HEADER_SIZE: nat := 32
  const KERNEL_VBASE: nat := 0xC000_0000
  const PT_LOAD: nat := 1

  // Magic, 32-bit class, executable, i386.
  predicate GoodHeader(elf: seq<byte>) {
    && |elf| >= HEADER_SIZE
    && elf[0] == 0x7F && elf[1] == 0x45 && elf[2] == 0x4C && elf[3] == 0x46
    && elf[4] == 1 && HalfAt(elf, 16) == 2 && HalfAt(elf, 18) == 3
  }

  function HeaderCount(elf: seq<byte>): nat
    requires |elf| >= HEADER_SIZE
  {
    HalfAt(elf, 44)
  }

  function HeaderOffset(elf: seq<byte>, i: nat): nat
    requires |elf| >= HEADER_SIZE
  {
    EntryOffset(WordAt(elf, 28), HalfAt(elf, 42), i)
  }

  // Offset of entry i of a table of entries of one size.
  function EntryOffset(start: nat, size: nat, i: nat): nat {
    if i == 0 then start else EntryOffset(start, size, i - 1) + size
  }

  lemma {:induction false} EntryOffsetIs(start: nat, size: nat, i: nat)
    ensures EntryOffset(start, size, i) == start + i * size
  {
    if i > 0 {
      EntryOffsetIs(start, size, i - 1);
      assert i * size == (i - 1) * size + size;
    }
  }

  // Offsets of the program headers do not pass 4 GiB, where their 32-bit sums would wrap.
  ghost predicate OffsetsFit(elf: seq<byte>) {
    |elf| >= HEADER_SIZE ==>
      forall i | 0 <= i < HeaderCount(elf) :: HeaderOffset(elf, i) + PROGRAM_HEADER_SIZE < U32
  }

  datatype Segment = Segment(offset: nat, vaddr: nat, filesz: nat, memsz: nat)

  function SegmentAt(elf: seq<byte>, o: nat): (g: Segment)
    requires o + PROGRAM_HEADER_SIZE <= |elf|
    ensures g.offset < U32 && g.vaddr < U32 && g.filesz < U32 && g.memsz < U32
  {
    Segment(WordAt(elf, o + 4), WordAt(elf, o + 8), WordAt(elf, o + 16), WordAt(elf, o + 20))
  }

  predicate HeaderInside(elf: seq<byte>, i: nat)
    requires |elf| >= HEADER_SIZE
  {
    HeaderOffset(elf, i) + PROGRAM_HEADER_SIZE <= |elf|
  }

  predicate IsLoad(elf: seq<byte>, i: nat)
    requires |elf| >= HEADER_SIZE && HeaderInside(elf, i)
  {
    WordAt(elf, HeaderOffset(elf, i)) == PT_LOAD
  }

  // The bytes a segment takes from the file are in the file.
  predicate InFile(elf: seq<byte>, g: Segment) { g.offset + g.filesz <= |elf| }

  // Header i is in the file, and so are its bytes if it is to be loaded.
  predicate HeaderOk(elf: seq<byte>, i: nat)
    requires |elf| >= HEADER_SIZE
  {
    HeaderInside(elf, i) && (IsLoad(elf, i) ==> InFile(elf, SegmentAt(elf, HeaderOffset(elf, i))))
  }

  ghost predicate HeadersOk(elf: seq<byte>, n: nat)
    requires |elf| >= HEADER_SIZE
  {
    forall i | 0 <= i < n :: HeaderOk(elf, i)
  }

  // The segments to load among the first n headers.
  function Segments(elf: seq<byte>, n: nat): (r: seq<Segment>)
    requires |elf| >= HEADER_SIZE && HeadersOk(elf, n)
    ensures |r| <= n && forall k | 0 <= k < |r| :: InFile(elf, r[k])
  {
    if n == 0 then []
    else if HeaderOk(elf, n - 1) && IsLoad(elf, n - 1) then
      Segments(elf, n - 1) + [SegmentAt(elf, HeaderOffset(elf, n - 1))]
    else Segments(elf, n - 1)
  }

  // Byte o of a segment: from the file, or zero.
  function SegmentByte(elf: seq<byte>, g: Segment, o: nat): byte
    requires InFile(elf, g)
  {
    if o < g.filesz then elf[g.offset + o] else 0
  }

  function PageCount(g: Segment): nat { (g.memsz + FRAME_SIZE - 1) / FRAME_SIZE }

  // Page p of a segment: what the file still has of it, then zeroes.
  function PageImage(elf: seq<byte>, g: Segment, p: nat): (r: Page)
    requires InFile(elf, g)
    ensures forall b | 0 <= b < FRAME_SIZE :: r[b] == SegmentByte(elf, g, p * FRAME_SIZE + b)
  {
    var lo := p * FRAME_SIZE;
    if g.filesz <= lo then ZeroPage()
    else
      var n := if g.filesz - lo < FRAME_SIZE then g.filesz - lo else FRAME_SIZE;
      elf[g.offset + lo..g.offset + lo + n] + ZeroPage()[n..]
  }

  // The pages a segment is spread over lie below the kernel.
  predicate BelowKernel(g: Segment) { g.vaddr / FRAME_SIZE + PageCount(g) <= USER_PAGES }

  ghost predicate AreImages(elf: seq<byte>, g: Segment, images: seq<Page>)
    requires InFile(elf, g)
  {
    forall p | 0 <= p < |images| :: images[p] == PageImage(elf, g, p)
  }

  function Images(elf: seq<byte>, g: Segment, n: nat): (r: seq<Page>)
    requires InFile(elf, g)
    ensures |r| == n && AreImages(elf, g, r)
  {
    if n == 0 then [] else Images(elf, g, n - 1) + [PageImage(elf, g, n - 1)]
  }

  // What pages are to hold once the first n images have been put at page number first and up,
  // over what was planned before.
  function WithPages(plan: map<nat, Page>, first: nat, images: seq<Page>, n: nat): map<nat, Page>
    requires n <= |images|
  {
    if n == 0 then plan else WithPages(plan, first, images, n - 1)[first + (n - 1) := images[n - 1]]
  }

  lemma {:induction false} WithPagesAt(plan: map<nat, Page>, first: nat, images: seq<Page>, n: nat, q: nat)
    requires n <= |images|
    ensures q in WithPages(plan, first, images, n) <==> q in plan || first <= q < first + n
    ensures first <= q < first + n ==> WithPages(plan, first, images, n)[q] == images[q - first]
    ensures q in plan && !(first <= q < first + n) ==> WithPages(plan, first, images, n)[q] == plan[q]
  {
    if n > 0 { WithPagesAt(plan, first, images, n - 1, q); }
  }

  function SegmentPlan(plan: map<nat, Page>, elf: seq<byte>, g: Segment): map<nat, Page>
    requires InFile(elf, g)
  {
    WithPages(plan, g.vaddr / FRAME_SIZE, Images(elf, g, PageCount(g)), PageCount(g))
  }

  // What the pages hold when all segments have been placed in order.
  function AllPages(elf: seq<byte>, gs: seq<Segment>): map<nat, Page>
    requires forall k | 0 <= k < |gs| :: InFile(elf, gs[k])
  {
    if gs == [] then map[] else SegmentPlan(AllPages(elf, gs[..|gs| - 1]), elf, gs[|gs| - 1])
  }

  // ---- Placing one page ----

  function Place(s: System, pd: nat, page: nat, p: Page): System
    requires |s.ram| == FRAMES && pd < FRAMES && page < FRAMES && NextFree(s.used, 0) < FRAMES
  {
    var f := NextFree(s.used, 0);
    Fill(Map(Alloc(s), pd, page, f), f, p)
  }

  // Page q holds p; or it is not mapped for want of a table, and then no frame is left.
  ghost predicate Shows(s: System, pd: nat, q: nat, p: Page)
    requires Shaped(s) && pd < FRAMES && q < FRAMES
  {
    var f := Translate(s.ram, pd, q);
    if f < FRAMES then s.ram[f] == p else NextFree(s.used, 0) == FRAMES && !HasTable(s.ram, pd, DirIndex(q))
  }

  // Mapping writes only the directory and tables of its own space, and frames not in use.
  lemma MapWrites(s: System, pd: nat, page: nat, f: nat, g: nat)
    requires Inv(s) && IsSpace(s, pd) && page < USER_PAGES && f < FRAMES && Mappable(s, f)
    requires g in s.used && !(g in s.owner && s.owner[g].pd == pd && !s.owner[g].role.User?)
    ensures Map(s, pd, page, f).ram[g] == s.ram[g]
  {
    var i := DirIndex(page);
    var r := WithTable(s, pd, i);
    NewTableKeeps(s, pd, i);
    assert r.ram[g] == s.ram[g];
    if HasTable(r.ram, pd, i) { TablesArePaging(r, pd, i); }
  }

  lemma UserFrame(s: System, pd: nat, q: nat)
    requires Inv(s) && IsSpace(s, pd) && q < USER_PAGES && Translate(s.ram, pd, q) < FRAMES
    ensures Translate(s.ram, pd, q) in s.used && !PagingFrame(s, Translate(s.ram, pd, q))
  {
    assert PageOwned(s, pd, q);
  }

  lemma MappedIsNotPaging(s: System, pd: nat, page: nat)
    requires Inv(s) && IsSpace(s, pd) && page < USER_PAGES && NextFree(s.used, 0) < FRAMES
    ensures var f := NextFree(s.used, 0); var m := Map(Alloc(s), pd, page, f);
      && Inv(Alloc(s)) && Mappable(Alloc(s), f) && Inv(m) && IsSpace(m, pd) && !PagingFrame(m, f)
  {
    var f, a := NextFree(s.used, 0), Alloc(s);
    AllocIsMappable(s);
    MapChangesOnePage(a, pd, page, f);
    MapKeeps(a, pd, page, f);
    MapAccount(a, pd, page, f);
    var m := Map(a, pd, page, f);
    if CanMap(a, pd, page) { UserFrame(m, pd, page); }
  }

  lemma PlaceKeeps(s: System, pd: nat, page: nat, p: Page)
    requires Inv(s) && IsSpace(s, pd) && page < USER_PAGES && NextFree(s.used, 0) < FRAMES
    ensures var r := Place(s, pd, page, p); Inv(r) && IsSpace(r, pd) && SameOthers(r.owner, s.owner, pd)
    ensures Shows(Place(s, pd, page, p), pd, page, p)
  {
    var f, a := NextFree(s.used, 0), Alloc(s);
    MappedIsNotPaging(s, pd, page);
    var m := Map(a, pd, page, f);
    MapChangesOnePage(a, pd, page, f);
    MapKeeps(a, pd, page, f);
    MapAccount(a, pd, page, f);
    FillKeeps(m, f, p);
    assert pd in s.used;
  }

  lemma PlaceWrites(s: System, pd: nat, page: nat, p: Page, g: nat)
    requires Inv(s) && IsSpace(s, pd) && page < USER_PAGES && NextFree(s.used, 0) < FRAMES
    requires g in s.used && !(g in s.owner && s.owner[g].pd == pd && !s.owner[g].role.User?)
    ensures Place(s, pd, page, p).ram[g] == s.ram[g]
  {
    AllocIsMappable(s);
    MapWrites(Alloc(s), pd, page, NextFree(s.used, 0), g);
  }

  lemma PlaceTranslates(s: System, pd: nat, page: nat, p: Page, other: nat, q: nat)
    requires Inv(s) && IsSpace(s, pd) && page < USER_PAGES && NextFree(s.used, 0) < FRAMES
    requires IsSpace(s, other) && q < FRAMES && (other, q) != (pd, page)
    ensures |Place(s, pd, page, p).ram| == FRAMES
    ensures Translate(Place(s, pd, page, p).ram, other, q) == Translate(s.ram, other, q)
  {
    var f, a := NextFree(s.used, 0), Alloc(s);
    MappedIsNotPaging(s, pd, page);
    MapChangesOnePage(a, pd, page, f);
    MapKeeps(a, pd, page, f);
    MapAccount(a, pd, page, f);
    var m := Map(a, pd, page, f);
    assert OthersFrame(m.owner, other, pd) == OthersFrame(a.owner, other, pd);
    assert IsSpace(m, other);
    FillKeeps(m, f, p);
  }

  // Pages placed before keep what they hold.
  lemma PlaceSpares(s: System, pd: nat, page: nat, p: Page, q: nat, c: Page)
    requires Inv(s) && IsSpace(s, pd) && page < USER_PAGES && NextFree(s.used, 0) < FRAMES
    requires q < USER_PAGES && q != page && Shows(s, pd, q, c)
    ensures Inv(Place(s, pd, page, p)) && Shows(Place(s, pd, page, p), pd, q, c)
  {
    PlaceKeeps(s, pd, page, p);
    PlaceTranslates(s, pd, page, p, pd, q);
    UserFrame(s, pd, q);
    PlaceWrites(s, pd, page, p, Translate(s.ram, pd, q));
  }

  // The other spaces see what they saw, and so do the other pages of this one.
  ghost predicate SeenSame(was: System, s: System, pd: nat, other: nat, q: nat) {
    |was.ram| == |s.ram| == FRAMES && other < FRAMES && q < USER_PAGES && IsSpace(was, other) && other != pd
    ==> Seen(s, other, q) == Seen(was, other, q)
  }

  // They own what they owned and see what they saw.
  ghost predicate OthersKept(was: System, s: System, pd: nat) {
    SameOthers(s.owner, was.owner, pd) && forall other: nat, q: nat :: SeenSame(was, s, pd, other, q)
  }

  lemma PlaceIsPrivate(s: System, pd: nat, page: nat, p: Page, other: nat, q: nat)
    requires Inv(s) && IsSpace(s, pd) && page < USER_PAGES && NextFree(s.used, 0) < FRAMES
    ensures SeenSame(s, Place(s, pd, page, p), pd, other, q)
  {
    if other < FRAMES && q < USER_PAGES && IsSpace(s, other) && other != pd {
      PlaceTranslates(s, pd, page, p, other, q);
      if Translate(s.ram, other, q) < FRAMES {
        UserFrame(s, other, q);
        PlaceWrites(s, pd, page, p, Translate(s.ram, other, q));
      }
    }
  }

  lemma PlaceOthers(was: System, s: System, pd: nat, page: nat, p: Page)
    requires Inv(s) == true && IsSpace(s, pd) && page < USER_PAGES && NextFree(s.used, 0) < FRAMES
    requires |was.ram| == FRAMES && OthersKept(was, s, pd) == true
    ensures OthersKept(was, Place(s, pd, page, p), pd) == true
  {
    var r := Place(s, pd, page, p);
    PlaceKeeps(s, pd, page, p);
    forall f: nat ensures OthersFrame(r.owner, f, pd) == OthersFrame(was.owner, f, pd) {
      assert OthersFrame(r.owner, f, pd) == OthersFrame(s.owner, f, pd);
    }
    forall other: nat, q: nat ensures SeenSame(was, r, pd, other, q) {
      assert SeenSame(was, s, pd, other, q);
      assert OthersFrame(s.owner, other, pd) == OthersFrame(was.owner, other, pd);
      PlaceIsPrivate(s, pd, page, p, other, q);
    }
  }

  // ---- Placing a whole file ----

  // Every page of the plan holds what is planned for it.
  ghost predicate AllShown(s: System, pd: nat, plan: map<nat, Page>)
    requires Shaped(s) && pd < FRAMES
  {
    forall q | q in plan :: q < USER_PAGES && Shows(s, pd, q, plan[q])
  }

  lemma PlaceShown(s: System, pd: nat, plan: map<nat, Page>, page: nat, p: Page)
    requires Inv(s) && IsSpace(s, pd) && NextFree(s.used, 0) < FRAMES && page < USER_PAGES && AllShown(s, pd, plan)
    ensures Inv(Place(s, pd, page, p)) && AllShown(Place(s, pd, page, p), pd, plan[page := p])
  {
    var r := Place(s, pd, page, p);
    PlaceKeeps(s, pd, page, p);
    forall q | q in plan && q != page ensures q < USER_PAGES && Shows(r, pd, q, plan[q]) {
      PlaceSpares(s, pd, page, p, q, plan[q]);
    }
  }

  // Pages outside the plan are mapped as before.
  ghost predicate Untouched(was: System, s: System, pd: nat, plan: map<nat, Page>)
    requires |was.ram| == |s.ram| == FRAMES && pd < FRAMES
  {
    forall q: nat :: q < USER_PAGES && q !in plan ==> Translate(s.ram, pd, q) == Translate(was.ram, pd, q)
  }

  lemma PlaceUntouched(was: System, s: System, pd: nat, plan: map<nat, Page>, page: nat, p: Page)
    requires Inv(s) && IsSpace(s, pd) && page < USER_PAGES && NextFree(s.used, 0) < FRAMES
    requires |was.ram| == FRAMES && pd < FRAMES && Untouched(was, s, pd, plan)
    ensures |Place(s, pd, page, p).ram| == FRAMES && Untouched(was, Place(s, pd, page, p), pd, plan[page := p])
  {
    PlaceKeeps(s, pd, page, p);
    forall q: nat | q < USER_PAGES && q !in plan[page := p]
      ensures Translate(Place(s, pd, page, p).ram, pd, q) == Translate(was.ram, pd, q)
    {
      PlaceTranslates(s, pd, page, p, pd, q);
    }
  }

  // ---- The segments as the process sees them ----

  // Segments that share no page.
  ghost predicate PageDisjoint(gs: seq<Segment>) {
    forall a, b | 0 <= a < b < |gs| :: Apart(gs[a], gs[b])
  }

  predicate Apart(g: Segment, h: Segment) {
    g.vaddr / FRAME_SIZE + PageCount(g) <= h.vaddr / FRAME_SIZE
      || h.vaddr / FRAME_SIZE + PageCount(h) <= g.vaddr / FRAME_SIZE
  }

  lemma PlanHere(plan: map<nat, Page>, elf: seq<byte>, g: Segment, p: nat)
    requires InFile(elf, g) && p < PageCount(g)
    ensures var q := g.vaddr / FRAME_SIZE + p;
      q in SegmentPlan(plan, elf, g) && SegmentPlan(plan, elf, g)[q] == PageImage(elf, g, p)
  {
    var images := Images(elf, g, PageCount(g));
    assert images[p] == PageImage(elf, g, p);
    WithPagesAt(plan, g.vaddr / FRAME_SIZE, images, PageCount(g), g.vaddr / FRAME_SIZE + p);
  }

  lemma PlanElsewhere(plan: map<nat, Page>, elf: seq<byte>, g: Segment, q: nat)
    requires InFile(elf, g) && q in plan && !(g.vaddr / FRAME_SIZE <= q < g.vaddr / FRAME_SIZE + PageCount(g))
    ensures q in SegmentPlan(plan, elf, g) && SegmentPlan(plan, elf, g)[q] == plan[q]
  {
    WithPagesAt(plan, g.vaddr / FRAME_SIZE, Images(elf, g, PageCount(g)), PageCount(g), q);
  }

  lemma {:induction false} PlanOf(elf: seq<byte>, gs: seq<Segment>, k: nat, p: nat)
    requires forall k | 0 <= k < |gs| :: InFile(elf, gs[k])
    requires k < |gs| && p < PageCount(gs[k]) && PageDisjoint(gs)
    ensures var q := gs[k].vaddr / FRAME_SIZE + p;
      q in AllPages(elf, gs) && AllPages(elf, gs)[q] == PageImage(elf, gs[k], p)
  {
    var init, last := gs[..|gs| - 1], gs[|gs| - 1];
    if k < |gs| - 1 {
      PlanOf(elf, init, k, p);
      assert Apart(gs[k], last);
      PlanElsewhere(AllPages(elf, init), elf, last, gs[k].vaddr / FRAME_SIZE + p);
    } else {
      PlanHere(AllPages(elf, init), elf, last, p);
    }
  }

  // The byte at virtual address a; -1 when its page is not mapped.
  function ByteAt(s: System, pd: nat, a: nat): int
    requires |s.ram| == FRAMES && pd < FRAMES && a < U32
  {
    var f := Translate(s.ram, pd, a / FRAME_SIZE);
    if f < FRAMES then s.ram[f][a % FRAME_SIZE] else -1
  }

  lemma PageSplit(first: nat, o: nat)
    ensures (first * FRAME_SIZE + o) / FRAME_SIZE == first + o / FRAME_SIZE
    ensures (first * FRAME_SIZE + o) % FRAME_SIZE == o % FRAME_SIZE
    ensures o / FRAME_SIZE * FRAME_SIZE + o % FRAME_SIZE == o
  {
  }

  lemma PageIsShown(s: System, pd: nat, elf: seq<byte>, gs: seq<Segment>, k: nat, p: nat)
    requires Inv(s) && IsSpace(s, pd)
    requires forall k | 0 <= k < |gs| :: InFile(elf, gs[k])
    requires AllShown(s, pd, AllPages(elf, gs)) && PageDisjoint(gs)
    requires k < |gs| && p < PageCount(gs[k])
    ensures gs[k].vaddr / FRAME_SIZE + p < USER_PAGES
      && Shows(s, pd, gs[k].vaddr / FRAME_SIZE + p, PageImage(elf, gs[k], p))
  {
    PlanOf(elf, gs, k, p);
  }

  lemma PageInside(o: nat, n: nat)
    requires o < n * FRAME_SIZE
    ensures o / FRAME_SIZE < n
  {
  }

  lemma ByteOfImage(elf: seq<byte>, g: Segment, o: nat)
    requires InFile(elf, g)
    ensures PageImage(elf, g, o / FRAME_SIZE)[o % FRAME_SIZE] == SegmentByte(elf, g, o)
  {
    PageSplit(0, o);
  }

  lemma ByteOfPage(s: System, pd: nat, first: nat, o: nat, p: Page)
    requires Shaped(s) && pd < FRAMES && first + o / FRAME_SIZE < FRAMES
    requires Shows(s, pd, first + o / FRAME_SIZE, p)
    ensures first * FRAME_SIZE + o < U32
    ensures ByteAt(s, pd, first * FRAME_SIZE + o)
      == if HasTable(s.ram, pd, DirIndex(first + o / FRAME_SIZE)) then p[o % FRAME_SIZE] else -1
  {
    PageSplit(first, o);
  }

  // The byte at address a is that of a page in place; -1 when the page's table is missing.
  ghost predicate ShowsByte(s: System, pd: nat, a: nat, b: byte)
    requires |s.ram| == FRAMES && pd < FRAMES
  {
    a < U32 && ByteAt(s, pd, a) == if HasTable(s.ram, pd, DirIndex(a / FRAME_SIZE)) then b else -1
  }

  // Byte o of segment k is found o bytes after the start of the segment's first page.
  lemma SegmentsAreVisible(s: System, pd: nat, elf: seq<byte>, gs: seq<Segment>, k: nat, o: nat)
    requires Inv(s) == true && IsSpace(s, pd) && pd < FRAMES
    requires forall k | 0 <= k < |gs| :: InFile(elf, gs[k])
    requires |s.ram| == FRAMES && AllShown(s, pd, AllPages(elf, gs)) == true && PageDisjoint(gs) == true
    requires k < |gs| && o < PageCount(gs[k]) * FRAME_SIZE
    ensures ShowsByte(s, pd, gs[k].vaddr / FRAME_SIZE * FRAME_SIZE + o, SegmentByte(elf, gs[k], o))
  {
    var g, p := gs[k], o / FRAME_SIZE;
    PageInside(o, PageCount(g));
    PageIsShown(s, pd, elf, gs, k, p);
    ByteOfPage(s, pd, g.vaddr / FRAME_SIZE, o, PageImage(elf, g, p));
    ByteOfImage(elf, g, o);
    PageSplit(g.vaddr / FRAME_SIZE, o);
  }

  lemma WholePages(g: Segment, o: nat)
    requires o < g.memsz
    ensures o < PageCount(g) * FRAME_SIZE
  {
  }

  // For page-aligned segments that is the segment's own address: the file's bytes below filesz,
  // zeroes from there to memsz.
  lemma AlignedSegmentsAreRight(s: System, pd: nat, elf: seq<byte>, gs: seq<Segment>, k: nat, o: nat)
    requires Inv(s) == true && IsSpace(s, pd) && pd < FRAMES
    requires forall k | 0 <= k < |gs| :: InFile(elf, gs[k])
    requires |s.ram| == FRAMES && AllShown(s, pd, AllPages(elf, gs)) == true && PageDisjoint(gs) == true
    requires k < |gs| && gs[k].vaddr % FRAME_SIZE == 0 && o < gs[k].memsz
    ensures ShowsByte(s, pd, gs[k].vaddr + o, if o < gs[k].filesz then elf[gs[k].offset + o] else 0)
  {
    WholePages(gs[k], o);
    SegmentsAreVisible(s, pd, elf, gs, k, o);
  }

  // A segment that does not start on a page boundary is read back shifted: its first byte is at
  // the start of the page, vaddr % 4096 bytes too low.
  lemma UnalignedSegmentsAreShifted(s: System, pd: nat, elf: seq<byte>, gs: seq<Segment>, k: nat, o: nat)
    requires Inv(s) == true && IsSpace(s, pd) && pd < FRAMES
    requires forall k | 0 <= k < |gs| :: InFile(elf, gs[k])
    requires |s.ram| == FRAMES && AllShown(s, pd, AllPages(elf, gs)) == true && PageDisjoint(gs) == true
    requires k < |gs| && o + gs[k].vaddr % FRAME_SIZE < PageCount(gs[k]) * FRAME_SIZE
    ensures ShowsByte(s, pd, gs[k].vaddr + o, SegmentByte(elf, gs[k], o + gs[k].vaddr % FRAME_SIZE))
  {
    SegmentsAreVisible(s, pd, elf, gs, k, o + gs[k].vaddr % FRAME_SIZE);
  }

  // Its tail may lie in a page that is not placed for it at all; unless another segment is there,
  // the process finds what it found before: nothing, in a new address space.
  lemma UnalignedTailIsMissing(was: System, s: System, pd: nat, elf: seq<byte>, gs: seq<Segment>, k: nat, o: nat)
    requires |was.ram| == |s.ram| == FRAMES && pd < FRAMES && forall k | 0 <= k < |gs| :: InFile(elf, gs[k])
    requires Untouched(was, s, pd, AllPages(elf, gs)) == true
    requires k < |gs| && o < gs[k].memsz && PageCount(gs[k]) * FRAME_SIZE <= o + gs[k].vaddr % FRAME_SIZE
    requires gs[k].vaddr + o < KERNEL_VBASE && (gs[k].vaddr + o) / FRAME_SIZE !in AllPages(elf, gs)
    ensures (gs[k].vaddr + o) / FRAME_SIZE == gs[k].vaddr / FRAME_SIZE + PageCount(gs[k])
    ensures Translate(s.ram, pd, (gs[k].vaddr + o) / FRAME_SIZE)
      == Translate(was.ram, pd, (gs[k].vaddr + o) / FRAME_SIZE)
  {
    PageSplit(gs[k].vaddr / FRAME_SIZE, gs[k].vaddr % FRAME_SIZE + o);
    WholePages(gs[k], o);
  }
}
