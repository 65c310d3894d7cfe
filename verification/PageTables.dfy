// Two-level 32-bit page tables kept inside physical frames: what an address space translates,
// and which frames make it up.
module PageTables {
  import opened Bytes
  import opened Physical

  const ENTRIES: nat := 1024
  const USER_ENTRIES: nat := 768 // directory entries below 0xC0000000
  const LOW_FRAMES: nat := 256 // frames below 1 MiB

  type Page = p: seq<byte> | |p| == FRAME_SIZE witness seq(FRAME_SIZE, _ => 0)

  function Entry(p: Page, i: nat): (e: nat)
    requires i < ENTRIES
    ensures e < U32
  {
    WordAt(p, 4 * i)
  }

  function SetEntry(p: Page, i: nat, e: nat): Page
    requires i < ENTRIES && e < U32
  {
    Patch(p, 4 * i, WordBytes(e))
  }

  lemma EntryAfterSet(p: Page, i: nat, e: nat, j: nat)
    requires i < ENTRIES && j < ENTRIES && e < U32
    ensures Entry(SetEntry(p, i, e), j) == if j == i then e else Entry(p, j)
  {
    if j == i { WordPatched(p, 4 * i, e); } else { WordUntouched(p, 4 * i, WordBytes(e), 4 * j); }
  }

  predicate Present(e: nat) { e % 2 == 1 }

  // Frame number in an entry, e & 0xFFFFF000.
  function FrameOf(e: nat): (f: nat)
    requires e < U32
    ensures f < FRAMES
  {
    e / FRAME_SIZE
  }

  function MakeEntry(f: nat, flags: nat): (e: nat)
    requires f < FRAMES
    ensures e < U32 && FrameOf(e) == f && (Present(e) <==> flags % 2 == 1)
  {
    f * FRAME_SIZE + flags % FRAME_SIZE
  }

  // A page is named by its number, address / 4096.
  function DirIndex(page: nat): (i: nat)
    requires page < FRAMES
    ensures i < ENTRIES
  {
    page / ENTRIES
  }

  function TableIndex(page: nat): (i: nat)
    ensures i < ENTRIES
  {
    page % ENTRIES
  }

  lemma IndicesNamePage(a: nat, b: nat)
    requires a < FRAMES && b < FRAMES
    ensures a == b <==> DirIndex(a) == DirIndex(b) && TableIndex(a) == TableIndex(b)
  {
  }

  // What the processor finds for a page: its frame, or FRAMES when it is not mapped.
  function Translate(ram: seq<Page>, pd: nat, page: nat): (f: nat)
    requires |ram| == FRAMES && pd < FRAMES && page < FRAMES
    ensures f <= FRAMES
  {
    var pde := Entry(ram[pd], DirIndex(page));
    if !Present(pde) then FRAMES
    else
      var pte := Entry(ram[FrameOf(pde)], TableIndex(page));
      if Present(pte) then FrameOf(pte) else FRAMES
  }

  // ---- The frames of an address space ----

  predicate HasTable(ram: seq<Page>, pd: nat, i: nat)
    requires |ram| == FRAMES && pd < FRAMES && i < ENTRIES
  {
    Present(Entry(ram[pd], i))
  }

  function TableAt(ram: seq<Page>, pd: nat, i: nat): (t: nat)
    requires |ram| == FRAMES && pd < FRAMES && i < ENTRIES
    ensures t < FRAMES
  {
    FrameOf(Entry(ram[pd], i))
  }

  // User page tables of a directory, and the kernel's, which all directories share.
  ghost function Tables(ram: seq<Page>, pd: nat): set<nat>
    requires |ram| == FRAMES && pd < FRAMES
  {
    set i | 0 <= i < USER_ENTRIES && HasTable(ram, pd, i) :: TableAt(ram, pd, i)
  }

  ghost function SharedTables(ram: seq<Page>, pd: nat): set<nat>
    requires |ram| == FRAMES && pd < FRAMES
  {
    set i | USER_ENTRIES <= i < ENTRIES && HasTable(ram, pd, i) :: TableAt(ram, pd, i)
  }

  // Frames mapped into the user half.
  ghost function Mapped(ram: seq<Page>, pd: nat): set<nat>
    requires |ram| == FRAMES && pd < FRAMES
  {
    set page | 0 <= page < USER_ENTRIES * ENTRIES && Translate(ram, pd, page) < FRAMES :: Translate(ram, pd, page)
  }

  // Writing frames outside an address space's directory and tables leaves its translation alone.
  lemma TranslateFrame(ram: seq<Page>, ram': seq<Page>, pd: nat, page: nat)
    requires |ram| == |ram'| == FRAMES && pd < FRAMES && page < FRAMES && ram'[pd] == ram[pd]
    requires HasTable(ram, pd, DirIndex(page)) ==>
      ram'[TableAt(ram, pd, DirIndex(page))] == ram[TableAt(ram, pd, DirIndex(page))]
    ensures Translate(ram', pd, page) == Translate(ram, pd, page)
  {
  }

  lemma TableIsKnown(ram: seq<Page>, pd: nat, i: nat)
    requires |ram| == FRAMES && pd < FRAMES && i < ENTRIES && HasTable(ram, pd, i)
    ensures TableAt(ram, pd, i) in if i < USER_ENTRIES then Tables(ram, pd) else SharedTables(ram, pd)
  {
  }
}
