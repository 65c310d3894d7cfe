// The paging manager: address spaces built, extended and torn down inside physical frames.
module Paging {
  import opened Finite
  import opened Physical
  import opened PageTables
  import opened AddressSpaces
  import opened AddressSpaceRuns

  // What the walk has freed after n pages and k tables.
  ghost function PagesFreed(ram: seq<Page>, pd: nat, n: nat): set<nat>
    requires |ram| == FRAMES && pd < FRAMES && n <= FRAMES
  {
    if n == 0 then {} else PagesFreed(ram, pd, n - 1) + Freeable(Translate(ram, pd, n - 1))
  }

  ghost function TablesFreed(ram: seq<Page>, pd: nat, k: nat): set<nat>
    requires |ram| == FRAMES && pd < FRAMES && k <= ENTRIES
  {
    if k == 0 then {}
    else TablesFreed(ram, pd, k - 1) + if HasTable(ram, pd, k - 1) then {TableAt(ram, pd, k - 1)} else {}
  }

  lemma {:induction false} PagesFreedIs(ram: seq<Page>, pd: nat, n: nat, f: nat)
    requires |ram| == FRAMES && pd < FRAMES && n <= FRAMES
    ensures f in PagesFreed(ram, pd, n)
      <==> LOW_FRAMES <= f < FRAMES && exists page: nat :: page < n && Translate(ram, pd, page) == f
  {
    if n > 0 { PagesFreedIs(ram, pd, n - 1, f); }
  }

  lemma {:induction false} TablesFreedIs(ram: seq<Page>, pd: nat, k: nat, f: nat)
    requires |ram| == FRAMES && pd < FRAMES && k <= ENTRIES
    ensures f in TablesFreed(ram, pd, k) <==> exists i: nat :: i < k && HasTable(ram, pd, i) && TableAt(ram, pd, i) == f
  {
    if k > 0 { TablesFreedIs(ram, pd, k - 1, f); }
  }

  // Pages behind an absent directory entry are not mapped.
  lemma {:induction false} AbsentFreesNothing(ram: seq<Page>, pd: nat, i: nat, j: nat)
    requires |ram| == FRAMES && pd < FRAMES && i < ENTRIES && j <= ENTRIES && !HasTable(ram, pd, i)
    ensures ENTRIES * i + j <= FRAMES && PagesFreed(ram, pd, ENTRIES * i + j) == PagesFreed(ram, pd, ENTRIES * i)
  {
    if j > 0 {
      AbsentFreesNothing(ram, pd, i, j - 1);
      assert DirIndex(ENTRIES * i + j - 1) == i;
    }
  }

  lemma Minus(a: set<nat>, b: set<nat>, c: set<nat>)
    ensures a - b - c == a - (b + c) && a - b - c == a - (c + b)
  {
  }

  lemma FrameAt(f: nat)
    ensures f * FRAME_SIZE / FRAME_SIZE == f
  {
  }

  lemma PageOf(i: nat, j: nat) returns (page: nat)
    requires i < USER_ENTRIES && j < ENTRIES
    ensures page == ENTRIES * i + j && page < USER_PAGES && DirIndex(page) == i && TableIndex(page) == j
  {
    page := ENTRIES * i + j;
  }

  // Freed once the first i tables have been walked.
  ghost function Walked(ram: seq<Page>, pd: nat, i: nat): set<nat>
    requires |ram| == FRAMES && pd < FRAMES && i <= ENTRIES
  {
    TablesFreed(ram, pd, i) + PagesFreed(ram, pd, ENTRIES * i)
  }

  lemma WalkedTable(ram: seq<Page>, pd: nat, i: nat, was: set<nat>)
    requires |ram| == FRAMES && pd < FRAMES && i < ENTRIES && HasTable(ram, pd, i)
    ensures was - Walked(ram, pd, i) == (was - TablesFreed(ram, pd, i)) - PagesFreed(ram, pd, ENTRIES * i)
    ensures (was - TablesFreed(ram, pd, i)) - PagesFreed(ram, pd, ENTRIES * (i + 1)) - {TableAt(ram, pd, i)}
      == was - Walked(ram, pd, i + 1)
  {
    var t, p := TablesFreed(ram, pd, i), PagesFreed(ram, pd, ENTRIES * (i + 1));
    assert Walked(ram, pd, i + 1) == t + {TableAt(ram, pd, i)} + p;
  }

  lemma WalkedNothing(ram: seq<Page>, pd: nat, i: nat)
    requires |ram| == FRAMES && pd < FRAMES && i < ENTRIES && !HasTable(ram, pd, i)
    ensures Walked(ram, pd, i + 1) == Walked(ram, pd, i)
  {
    AbsentFreesNothing(ram, pd, i, ENTRIES);
    assert ENTRIES * i + ENTRIES == ENTRIES * (i + 1);
  }

  lemma WalkFrees(ram: seq<Page>, pd: nat)
    requires |ram| == FRAMES && pd < FRAMES
    ensures {pd} + Walked(ram, pd, USER_ENTRIES) == Freed(ram, pd)
  {
    forall f: nat ensures f in TablesFreed(ram, pd, USER_ENTRIES) <==> f in Tables(ram, pd) {
      TablesFreedIs(ram, pd, USER_ENTRIES, f);
    }
    forall f: nat ensures f in PagesFreed(ram, pd, USER_PAGES) <==> f in Mapped(ram, pd) && LOW_FRAMES <= f {
      PagesFreedIs(ram, pd, USER_PAGES, f);
    }
  }

  lemma DestroyedUsed(s: System, pd: nat)
    requires |s.ram| == FRAMES && pd < FRAMES
    ensures Destroy(s, pd).used == s.used - Walked(s.ram, pd, USER_ENTRIES) - {pd}
    ensures Destroy(s, pd).ram == s.ram && Destroy(s, pd).kernel == s.kernel
  {
    WalkFrees(s.ram, pd);
    Minus(s.used, Walked(s.ram, pd, USER_ENTRIES), {pd});
  }

  // Of the frames was, those left after the first j pages of table i and all before.
  ghost predicate Left(used: set<nat>, was: set<nat>, ram: seq<Page>, pd: nat, i: nat, j: nat)
    requires |ram| == FRAMES && pd < FRAMES && i < USER_ENTRIES && j <= ENTRIES
  {
    used == was - PagesFreed(ram, pd, ENTRIES * i + j)
  }

  class PagingManager {
    const frames: FrameBitmap
    const kernel: nat
    var ram: seq<Page>
    ghost var sys: System

    // (A predicate compared with true is one that the verifier is to pass on in one piece.)
    ghost predicate Valid()
      reads this, frames.bitmap
    {
      Tied() == true && Inv(sys) == true
    }

    // The real fields are what the ghost one says.
    ghost predicate Tied()
      reads this, frames.bitmap
    {
      frames.Valid() && sys.ram == ram && sys.used == frames.Used() && sys.kernel == kernel
    }

    // The kernel's directory and tables are in place; every used frame is the kernel's.
    constructor (bitmap: FrameBitmap, memory: seq<Page>, directory: nat)
      requires bitmap.Valid()
      requires Inv(System(memory, bitmap.Used(), directory, bitmap.Used(), map[]))
      ensures Valid() && frames == bitmap && sys == System(memory, bitmap.Used(), directory, bitmap.Used(), map[])
    {
      frames, ram, kernel := bitmap, memory, directory;
      sys := System(memory, bitmap.Used(), directory, bitmap.Used(), map[]);
    }

    // The lowest free frame, or 0; the caller says what it is for.
    method TakeFrame() returns (address: nat)
      requires frames.Valid() && 0 in frames.Used()
      modifies frames.bitmap
      ensures var f := NextFree(old(frames.Used()), 0);
        if f == FRAMES then address == 0 && frames.Used() == old(frames.Used())
        else address == f * FRAME_SIZE && address != 0 && frames.Used() == old(frames.Used()) + {f}
    {
      ghost var was := frames.Used();
      address := frames.AllocFrame();
      ghost var f := NextFree(was, 0);
      assert address != 0 ==> f == address / FRAME_SIZE;
      assert f < FRAMES ==> f in Below(FRAMES);
    }

    method CreateAddressSpace() returns (address: nat)
      requires Valid()
      modifies this`ram, this`sys, frames.bitmap
      ensures Valid() && sys == Create(old(sys))
      ensures address == 0 <==> NextFree(old(sys).used, 0) == FRAMES
      ensures address != 0 ==> address == NextFree(old(sys).used, 0) * FRAME_SIZE && IsSpace(sys, address / FRAME_SIZE)
    {
      ghost var now := Create(sys);
      CreateKeeps(sys);
      address := TakeFrame();
      if address != 0 {
        assert address / FRAME_SIZE == NextFree(sys.used, 0);
        ram := ram[address / FRAME_SIZE := NewDirectory(ram[kernel])];
      }
      assert ram == now.ram && frames.Used() == now.used;
      sys := now;
    }

    // A frame for the kernel to use.
    method AllocFrame() returns (address: nat)
      requires Valid()
      modifies this`sys, frames.bitmap
      ensures Valid() && sys == Alloc(old(sys))
      ensures if NextFree(old(sys).used, 0) == FRAMES then address == 0
              else address == NextFree(old(sys).used, 0) * FRAME_SIZE && address != 0
    {
      AllocKeeps(sys);
      address := TakeFrame();
      sys := Alloc(sys);
    }

    // A store through the kernel's direct map of memory, outside every page table.
    method StoreFrame(f: nat, p: Page)
      requires Valid() && f < FRAMES && !PagingFrame(sys, f)
      modifies this`ram, this`sys
      ensures Valid() && sys == Fill(old(sys), f, p)
    {
      FillKeeps(sys, f, p);
      ram := ram[f := p];
      sys := Fill(sys, f, p);
    }

    // The new page table, zeroed entry by entry.
    method ZeroTable(t: nat)
      requires |ram| == FRAMES && t < FRAMES
      modifies this`ram
      ensures ram == old(ram)[t := ZeroPage()]
    {
      var i, page := 0, ram[t];
      while i < ENTRIES
        invariant 0 <= i <= ENTRIES && forall b :: 0 <= b < 4 * i ==> page[b] == 0
      {
        page := SetEntry(page, i, 0);
        i := i + 1;
      }
      assert page == ZeroPage();
      ram := ram[t := page];
    }

    // An empty table in frame t, entered in the directory.
    method EnterTable(pd: nat, i: nat, t: nat)
      requires |ram| == FRAMES && pd < FRAMES && i < ENTRIES && t < FRAMES && t != pd
      modifies this`ram
      ensures ram == Pointed(old(ram)[t := ZeroPage()], pd, i, t)
    {
      ZeroTable(t);
      ram := ram[pd := SetEntry(ram[pd], i, MakeEntry(t, USER_FLAGS))];
    }

    method MakeTable(pd: nat, i: nat) returns (present: bool)
      requires Valid() && IsSpace(sys, pd) && i < USER_ENTRIES
      modifies this`ram, this`sys, frames.bitmap
      ensures Valid() && sys == WithTable(old(sys), pd, i)
      ensures present <==> HasTable(ram, pd, i)
    {
      NewTableKeeps(sys, pd, i);
      present := Present(Entry(ram[pd], i));
      if !present { present := NewTable(pd, i); }
    }

    method NewTable(pd: nat, i: nat) returns (made: bool)
      requires Valid() && IsSpace(sys, pd) && i < USER_ENTRIES && !HasTable(sys.ram, pd, i)
      modifies this`ram, this`sys, frames.bitmap
      ensures Valid() && sys == WithTable(old(sys), pd, i)
      ensures made <==> HasTable(ram, pd, i)
    {
      ghost var was := sys;
      NewTableKeeps(was, pd, i);
      sys := WithTable(was, pd, i);
      var address := TakeFrame();
      made := address != 0;
      if made {
        var t := address / FRAME_SIZE;
        assert t == NextFree(was.used, 0);
        EnterTable(pd, i, t);
        NewTableEntries(was, pd, i, i);
      }
    }

    // Nothing happens when a table is missing and no frame is left for one.
    method MapUserPage(pdPhysical: nat, virtualAddr: nat, physicalAddr: nat)
      requires Valid() && IsSpace(sys, pdPhysical / FRAME_SIZE) && virtualAddr / FRAME_SIZE < USER_PAGES
      requires physicalAddr / FRAME_SIZE < FRAMES
      modifies this`ram, this`sys, frames.bitmap
      ensures Tied() && sys == Map(old(sys), pdPhysical / FRAME_SIZE, virtualAddr / FRAME_SIZE,
        physicalAddr / FRAME_SIZE)
      ensures Mappable(old(sys), physicalAddr / FRAME_SIZE) ==> Valid()
    {
      var pd, page, f := pdPhysical / FRAME_SIZE, virtualAddr / FRAME_SIZE, physicalAddr / FRAME_SIZE;
      if Mappable(sys, f) { MapKeeps(sys, pd, page, f); }
      var i := DirIndex(page);
      var present := MakeTable(pd, i);
      if present {
        ram := Pointed(ram, TableAt(ram, pd, i), TableIndex(page), f);
        sys := Point(sys, pd, page, f);
      }
    }

    // The frame behind entry j of table i, low memory passed over.
    method FreePage(pd: nat, i: nat, j: nat, ghost was: set<nat>)
      requires frames.Valid() && |ram| == FRAMES && pd < FRAMES && i < USER_ENTRIES && HasTable(ram, pd, i)
        && j < ENTRIES
      requires Left(frames.Used(), was, ram, pd, i, j) == true
      modifies frames.bitmap
      ensures Left(frames.Used(), was, ram, pd, i, j + 1) == true
    {
      ghost var page := PageOf(i, j);
      Minus(was, PagesFreed(ram, pd, page), Freeable(Translate(ram, pd, page)));
      var pte := Entry(ram[TableAt(ram, pd, i)], j);
      if Present(pte) {
        var frame := FrameOf(pte) * FRAME_SIZE;
        assert frame / FRAME_SIZE == Translate(ram, pd, page);
        if frame >= 0x100000 {
          frames.FreeFrame(frame);
        }
      }
    }

    method FreePages(pd: nat, i: nat, ghost was: set<nat>)
      requires frames.Valid() && |ram| == FRAMES && pd < FRAMES && i < USER_ENTRIES && HasTable(ram, pd, i)
      requires frames.Used() == was - PagesFreed(ram, pd, ENTRIES * i)
      modifies frames.bitmap
      ensures frames.Used() == was - PagesFreed(ram, pd, ENTRIES * (i + 1))
    {
      var j := 0;
      while j < ENTRIES
        invariant 0 <= j <= ENTRIES && Left(frames.Used(), was, ram, pd, i, j) == true
      {
        FreePage(pd, i, j, was);
        j := j + 1;
      }
      assert ENTRIES * i + ENTRIES == ENTRIES * (i + 1);
    }

    // The pages of one table, then the table itself.
    method FreeTable(pd: nat, i: nat, ghost was: set<nat>)
      requires frames.Valid() && |ram| == FRAMES && pd < FRAMES && i < USER_ENTRIES
      requires frames.Used() == was - Walked(ram, pd, i)
      modifies frames.bitmap
      ensures frames.Used() == was - Walked(ram, pd, i + 1)
    {
      if Present(Entry(ram[pd], i)) {
        WalkedTable(ram, pd, i, was);
        FreePages(pd, i, was - TablesFreed(ram, pd, i));
        var table := TableAt(ram, pd, i);
        FrameAt(table);
        frames.FreeFrame(table * FRAME_SIZE);
      } else {
        WalkedNothing(ram, pd, i);
      }
    }

    method FreeTables(pd: nat)
      requires frames.Valid() && |ram| == FRAMES && pd < FRAMES
      modifies frames.bitmap
      ensures frames.Used() == old(frames.Used()) - Walked(ram, pd, USER_ENTRIES)
    {
      ghost var was := frames.Used();
      var i := 0;
      while i < USER_ENTRIES
        invariant 0 <= i <= USER_ENTRIES
        invariant frames.Used() == was - Walked(ram, pd, i)
      {
        FreeTable(pd, i, was);
        i := i + 1;
      }
    }

    method DestroyAddressSpace(pdPhysical: nat)
      requires Valid() && IsSpace(sys, pdPhysical / FRAME_SIZE)
      modifies this`sys, frames.bitmap
      ensures Valid() && sys == Destroy(old(sys), pdPhysical / FRAME_SIZE)
    {
      var pd := pdPhysical / FRAME_SIZE;
      DestroyKeeps(sys, pd);
      DestroyedUsed(sys, pd);
      FreeSpace(pdPhysical, pd);
      sys := Destroy(sys, pd);
    }

    // The user pages and tables, and the directory itself.
    method FreeSpace(pdPhysical: nat, pd: nat)
      requires frames.Valid() && |ram| == FRAMES && pd == pdPhysical / FRAME_SIZE && pd < FRAMES
      modifies frames.bitmap
      ensures frames.Used() == old(frames.Used()) - Walked(ram, pd, USER_ENTRIES) - {pd}
    {
      FreeTables(pd);
      frames.FreeFrame(pdPhysical);
    }
  }
}
