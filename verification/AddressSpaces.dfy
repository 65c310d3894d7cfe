// Every address space at once: page directories, page tables and user pages all live in the
// frames of one memory, so what keeps them apart is who each used frame belongs to.
module AddressSpaces {
  import opened Bytes
  import opened Physical
  import opened PageTables

  const USER_PAGES: nat := USER_ENTRIES * ENTRIES
  const USER_FLAGS: nat := 7 // present, writable, user

  datatype Role = Directory | Table(index: nat) | User(page: nat)
  datatype Owner = Owner(pd: nat, role: Role)

  // held: used frames that no address space will give back (the kernel's own, device memory
  // and whatever has been lost). owner: what each other used frame is for.
  datatype System = System(ram: seq<Page>, used: set<nat>, kernel: nat, held: set<nat>, owner: map<nat, Owner>)

  ghost predicate Shaped(s: System) {
    && |s.ram| == FRAMES && s.kernel < FRAMES
    && forall f :: f in s.used ==> f < FRAMES
  }

  predicate IsSpace(s: System, pd: nat) { pd in s.owner && s.owner[pd] == Owner(pd, Directory) }

  ghost predicate KernelFrame(s: System, f: nat)
    requires Shaped(s)
  {
    f == s.kernel || f in SharedTables(s.ram, s.kernel)
  }

  ghost predicate Accounted(s: System) {
    s.used == s.held + s.owner.Keys && s.held !! s.owner.Keys && 0 in s.held
  }

  ghost predicate KernelHeld(s: System)
    requires Shaped(s)
  {
    forall f | KernelFrame(s, f) :: f in s.held
  }

  predicate SharesEntry(ram: seq<Page>, kernel: nat, pd: nat, i: nat)
    requires |ram| == FRAMES && kernel < FRAMES && pd < FRAMES && i < ENTRIES
  {
    Entry(ram[pd], i) == Entry(ram[kernel], i)
  }

  ghost predicate SharesKernel(s: System, pd: nat)
    requires Shaped(s) && pd < FRAMES
  {
    forall i | USER_ENTRIES <= i < ENTRIES :: SharesEntry(s.ram, s.kernel, pd, i)
  }

  // The table behind directory entry i belongs to that entry alone.
  predicate TableOwned(s: System, pd: nat, i: nat)
    requires |s.ram| == FRAMES && pd < FRAMES && i < ENTRIES
  {
    HasTable(s.ram, pd, i) ==>
      TableAt(s.ram, pd, i) in s.owner && s.owner[TableAt(s.ram, pd, i)] == Owner(pd, Table(i))
  }

  // A mapped frame belongs to that page alone, or is low memory that destruction passes over.
  ghost predicate PageOwned(s: System, pd: nat, page: nat)
    requires Shaped(s) && pd < FRAMES && page < FRAMES
  {
    var f := Translate(s.ram, pd, page);
    && (LOW_FRAMES <= f < FRAMES ==> f in s.owner && s.owner[f] == Owner(pd, User(page)))
    && (f < LOW_FRAMES ==> f in s.held && !KernelFrame(s, f))
  }

  ghost predicate SpaceOk(s: System, pd: nat)
    requires Shaped(s) && pd < FRAMES
  {
    && SharesKernel(s, pd)
    && (forall i | 0 <= i < USER_ENTRIES :: TableOwned(s, pd, i))
    && (forall page | 0 <= page < USER_PAGES :: PageOwned(s, pd, page))
  }

  // An owned frame really serves the purpose recorded for it.
  predicate Serves(ram: seq<Page>, f: nat, o: Owner)
    requires |ram| == FRAMES && o.pd < FRAMES
  {
    match o.role
    case Directory => f == o.pd
    case Table(i) => i < USER_ENTRIES && HasTable(ram, o.pd, i) && TableAt(ram, o.pd, i) == f
    case User(page) => page < USER_PAGES && LOW_FRAMES <= f < FRAMES && Translate(ram, o.pd, page) == f
  }

  predicate Realised(s: System, f: nat)
    requires |s.ram| == FRAMES && f in s.owner
  {
    IsSpace(s, s.owner[f].pd) && s.owner[f].pd < FRAMES && Serves(s.ram, f, s.owner[f])
  }

  ghost predicate Inv(s: System) {
    && Shaped(s) && Accounted(s) && KernelHeld(s)
    && (forall pd: nat | IsSpace(s, pd) :: pd < FRAMES && SpaceOk(s, pd))
    && (forall f | f in s.owner :: Realised(s, f))
  }

  // ---- The operations ----

  // The lowest frame not used, from f on; FRAMES when there is none.
  function NextFree(used: set<nat>, f: nat): (r: nat)
    requires f <= FRAMES
    ensures f <= r <= FRAMES && (r < FRAMES ==> r !in used)
    ensures forall g: nat :: f <= g < r ==> g in used
    decreases FRAMES - f
  {
    if f == FRAMES || f !in used then f else NextFree(used, f + 1)
  }

  // Frame f with table entry j pointing at g.
  function Pointed(ram: seq<Page>, t: nat, j: nat, g: nat): (r: seq<Page>)
    requires |ram| == FRAMES && t < FRAMES && j < ENTRIES && g < FRAMES
    ensures |r| == FRAMES && forall f :: 0 <= f < FRAMES && f != t ==> r[f] == ram[f]
    ensures r[t] == SetEntry(ram[t], j, MakeEntry(g, USER_FLAGS))
  {
    ram[t := SetEntry(ram[t], j, MakeEntry(g, USER_FLAGS))]
  }

  function ZeroPage(): Page { seq(FRAME_SIZE, _ => 0) }

  lemma ZeroEntries(i: nat)
    requires i < ENTRIES
    ensures Entry(ZeroPage(), i) == 0
  {
    ValueOfWord(ZeroPage(), 4 * i);
  }

  // The kernel's upper quarter above an empty user part.
  function NewDirectory(kernelPage: Page): (p: Page) {
    ZeroPage()[..4 * USER_ENTRIES] + kernelPage[4 * USER_ENTRIES..]
  }

  lemma NewDirectoryEntries(kernelPage: Page, i: nat)
    requires i < ENTRIES
    ensures Entry(NewDirectory(kernelPage), i) == if i < USER_ENTRIES then 0 else Entry(kernelPage, i)
  {
    if i < USER_ENTRIES {
      ValueOfWord(NewDirectory(kernelPage), 4 * i);
    } else {
      assert NewDirectory(kernelPage)[4 * i..4 * i + 4] == kernelPage[4 * i..4 * i + 4];
    }
  }

  function Create(s: System): System
    requires |s.ram| == FRAMES && s.kernel < FRAMES
  {
    var f := NextFree(s.used, 0);
    if f == FRAMES then s
    else System(s.ram[f := NewDirectory(s.ram[s.kernel])], s.used + {f}, s.kernel, s.held,
                s.owner[f := Owner(f, Directory)])
  }

  // A frame taken by the kernel.
  function Alloc(s: System): System {
    var f := NextFree(s.used, 0);
    if f == FRAMES then s else System(s.ram, s.used + {f}, s.kernel, s.held + {f}, s.owner)
  }

  // New contents for a frame.
  function Fill(s: System, f: nat, p: Page): System
    requires |s.ram| == FRAMES && f < FRAMES
  {
    s.(ram := s.ram[f := p])
  }

  // The page's table, made when the directory has none and a frame is left.
  function WithTable(s: System, pd: nat, i: nat): (r: System)
    requires |s.ram| == FRAMES && pd < FRAMES && i < ENTRIES
    ensures |r.ram| == FRAMES
  {
    var t := NextFree(s.used, 0);
    if HasTable(s.ram, pd, i) || t == FRAMES then s
    else System(Pointed(s.ram[t := ZeroPage()], pd, i, t), s.used + {t}, s.kernel, s.held,
                s.owner[t := Owner(pd, Table(i))])
  }

  function Without(owner: map<nat, Owner>, fs: set<nat>): (r: map<nat, Owner>)
    ensures r.Keys == owner.Keys - fs
    ensures forall f | f in r :: r[f] == owner[f]
  {
    owner - fs
  }

  // {f}, for a frame that destruction would free.
  function Freeable(f: nat): (r: set<nat>)
  {
    if LOW_FRAMES <= f < FRAMES then {f} else {}
  }

  function Given(owner: map<nat, Owner>, f: nat, o: Owner): map<nat, Owner> {
    if LOW_FRAMES <= f < FRAMES then owner[f := o] else owner
  }

  // The page's entry in its table; the frame it had before is forgotten.
  function Point(s: System, pd: nat, page: nat, f: nat): (r: System)
    requires |s.ram| == FRAMES && pd < FRAMES && page < FRAMES && f < FRAMES
    requires HasTable(s.ram, pd, DirIndex(page))
  {
    var was := Freeable(Translate(s.ram, pd, page));
    System(Pointed(s.ram, TableAt(s.ram, pd, DirIndex(page)), TableIndex(page), f), s.used, s.kernel,
           s.held + was - Freeable(f), Given(Without(s.owner, was), f, Owner(pd, User(page))))
  }

  function Map(s: System, pd: nat, page: nat, f: nat): System
    requires |s.ram| == FRAMES && pd < FRAMES && page < FRAMES && f < FRAMES
  {
    var r := WithTable(s, pd, DirIndex(page));
    if HasTable(r.ram, pd, DirIndex(page)) then Point(r, pd, page, f) else r
  }

  // What the walk over a directory frees.
  ghost function Freed(ram: seq<Page>, pd: nat): set<nat>
    requires |ram| == FRAMES && pd < FRAMES
  {
    {pd} + Tables(ram, pd) + set f | f in Mapped(ram, pd) && LOW_FRAMES <= f
  }

  ghost function OwnedBy(s: System, pd: nat): set<nat> {
    set f | f in s.owner && s.owner[f].pd == pd
  }

  ghost function Destroy(s: System, pd: nat): System
    requires |s.ram| == FRAMES && pd < FRAMES
  {
    System(s.ram, s.used - Freed(s.ram, pd), s.kernel, s.held, Without(s.owner, OwnedBy(s, pd)))
  }

  // ---- Each operation keeps the invariant ----

  // Frames that make up the page tables of some space, or of the kernel.
  ghost predicate PagingFrame(s: System, f: nat)
    requires Shaped(s)
  {
    KernelFrame(s, f) || (f in s.owner && !s.owner[f].role.User?)
  }

  lemma TablesArePaging(s: System, pd: nat, i: nat)
    requires Inv(s) && IsSpace(s, pd) && i < ENTRIES && HasTable(s.ram, pd, i)
    ensures i < USER_ENTRIES ==>
      TableAt(s.ram, pd, i) in s.owner && s.owner[TableAt(s.ram, pd, i)] == Owner(pd, Table(i))
    ensures i >= USER_ENTRIES ==> KernelFrame(s, TableAt(s.ram, pd, i))
    ensures PagingFrame(s, TableAt(s.ram, pd, i))
  {
    if i < USER_ENTRIES {
      assert TableOwned(s, pd, i);
    } else {
      assert SharesEntry(s.ram, s.kernel, pd, i);
      TableIsKnown(s.ram, s.kernel, i);
    }
  }

  lemma KernelSame(s: System, r: System, f: nat)
    requires Shaped(s) && Shaped(r) && r.kernel == s.kernel && r.ram[r.kernel] == s.ram[s.kernel]
    ensures KernelFrame(r, f) == KernelFrame(s, f)
  {
    forall i | USER_ENTRIES <= i < ENTRIES
      ensures HasTable(r.ram, r.kernel, i) == HasTable(s.ram, s.kernel, i)
      ensures TableAt(r.ram, r.kernel, i) == TableAt(s.ram, s.kernel, i) {}
    assert SharedTables(r.ram, r.kernel) == SharedTables(s.ram, s.kernel);
  }

  // Nothing that space pd is made of has been written or given away.
  ghost predicate Spared(s: System, r: System, pd: nat)
    requires Shaped(s) && Shaped(r) && pd < FRAMES
  {
    && r.ram[pd] == s.ram[pd]
    && (forall i | 0 <= i < ENTRIES && HasTable(s.ram, pd, i) ::
      r.ram[TableAt(s.ram, pd, i)] == s.ram[TableAt(s.ram, pd, i)])
    && (forall f | f in s.owner && s.owner[f].pd == pd :: f in r.owner && r.owner[f] == s.owner[f])
  }

  ghost predicate KernelSpared(s: System, r: System)
    requires Shaped(s) && Shaped(r)
  {
    && r.kernel == s.kernel && r.ram[r.kernel] == s.ram[s.kernel]
    && forall f | f in s.held && f < LOW_FRAMES :: f in r.held
  }

  lemma SparedPage(s: System, r: System, pd: nat, page: nat)
    requires Inv(s) && Shaped(r) && IsSpace(s, pd) && Spared(s, r, pd) && KernelSpared(s, r) && page < FRAMES
    ensures Translate(r.ram, pd, page) == Translate(s.ram, pd, page)
    ensures page < USER_PAGES ==> PageOwned(r, pd, page)
  {
    TranslateFrame(s.ram, r.ram, pd, page);
    if page < USER_PAGES {
      assert PageOwned(s, pd, page);
      KernelSame(s, r, Translate(s.ram, pd, page));
    }
  }

  lemma SparedSpace(s: System, r: System, pd: nat)
    requires Inv(s) && Shaped(r) && IsSpace(s, pd) && Spared(s, r, pd) && KernelSpared(s, r)
    ensures IsSpace(r, pd) && SpaceOk(r, pd)
  {
    forall i | USER_ENTRIES <= i < ENTRIES ensures SharesEntry(r.ram, r.kernel, pd, i) {
      assert SharesEntry(s.ram, s.kernel, pd, i);
    }
    forall i | 0 <= i < USER_ENTRIES ensures TableOwned(r, pd, i) { assert TableOwned(s, pd, i); }
    forall page | 0 <= page < USER_PAGES ensures PageOwned(r, pd, page) { SparedPage(s, r, pd, page); }
  }

  lemma SparedOwner(s: System, r: System, f: nat)
    requires Inv(s) && Shaped(r) && f in s.owner && Spared(s, r, s.owner[f].pd) && KernelSpared(s, r)
    ensures f in r.owner && Realised(r, f)
  {
    assert Realised(s, f);
    var o := s.owner[f];
    assert s.owner[o.pd].pd == o.pd;
    match o.role
    case Directory =>
    case Table(i) =>
    case User(page) => SparedPage(s, r, o.pd, page);
  }

  // Writing a frame that belongs to no page table spares every space.
  lemma UnwrittenSpared(s: System, r: System, pd: nat)
    requires Inv(s) && Shaped(r) && IsSpace(s, pd)
    requires forall g: nat | g < FRAMES && PagingFrame(s, g) :: r.ram[g] == s.ram[g]
    requires forall f | f in s.owner && s.owner[f].pd == pd :: f in r.owner && r.owner[f] == s.owner[f]
    ensures Spared(s, r, pd)
  {
    forall i | 0 <= i < ENTRIES && HasTable(s.ram, pd, i)
      ensures r.ram[TableAt(s.ram, pd, i)] == s.ram[TableAt(s.ram, pd, i)]
    {
      TablesArePaging(s, pd, i);
    }
  }

  lemma FillKeeps(s: System, f: nat, p: Page)
    requires Inv(s) && f < FRAMES && !PagingFrame(s, f)
    ensures Inv(Fill(s, f, p))
    ensures forall pd: nat, page: nat | IsSpace(s, pd) && page < FRAMES ::
      Translate(Fill(s, f, p).ram, pd, page) == Translate(s.ram, pd, page)
  {
    var r := Fill(s, f, p);
    forall pd: nat | IsSpace(s, pd) ensures Spared(s, r, pd) { UnwrittenSpared(s, r, pd); }
    AllSpared(s, r);
    forall pd: nat, page: nat | IsSpace(s, pd) && page < FRAMES
      ensures Translate(r.ram, pd, page) == Translate(s.ram, pd, page)
    {
      SparedPage(s, r, pd, page);
    }
  }

  // When every space is spared and none is new, the invariant carries over.
  lemma AllSpared(s: System, r: System)
    requires Inv(s) && Shaped(r) && Accounted(r) && KernelSpared(s, r) && r.owner == s.owner
    requires forall f | f in s.held :: f in r.held
    requires forall pd: nat | IsSpace(s, pd) :: Spared(s, r, pd)
    ensures Inv(r)
  {
    forall pd: nat | IsSpace(r, pd) ensures SpaceOk(r, pd) {
      assert IsSpace(s, pd);
      SparedSpace(s, r, pd);
    }
    forall f | f in r.owner ensures Realised(r, f) {
      assert Realised(s, f);
      SparedOwner(s, r, f);
    }
    forall f | KernelFrame(r, f) ensures f in r.held { KernelSame(s, r, f); }
  }

  // The same when only space pd has changed, or is new.
  lemma AllButOneSpared(s: System, r: System, pd: nat)
    requires Inv(s) && Shaped(r) && Accounted(r) && KernelSpared(s, r) && pd < FRAMES && SpaceOk(r, pd)
    requires forall other: nat | IsSpace(r, other) && other != pd :: IsSpace(s, other) && Spared(s, r, other)
    requires forall f | f in r.owner :: Realised(r, f)
    requires forall f | KernelFrame(s, f) :: f in r.held
    ensures Inv(r)
  {
    forall other: nat | IsSpace(r, other) ensures SpaceOk(r, other) {
      if other != pd { SparedSpace(s, r, other); }
    }
    forall f | KernelFrame(r, f) ensures f in r.held { KernelSame(s, r, f); }
  }

  lemma AllocKeeps(s: System)
    requires Inv(s)
    ensures Inv(Alloc(s))
  {
    var r := Alloc(s);
    forall pd: nat | IsSpace(s, pd) ensures Spared(s, r, pd) {}
    AllSpared(s, r);
  }

  lemma PagingIsUsed(s: System, f: nat)
    requires Inv(s) && f !in s.used
    ensures !PagingFrame(s, f)
  {
  }

  lemma FreshDirectory(s: System, pd: nat)
    requires Shaped(s) && pd < FRAMES && pd != s.kernel && s.ram[pd] == NewDirectory(s.ram[s.kernel])
    ensures SpaceOk(s, pd)
    ensures forall page: nat | page < USER_PAGES :: Translate(s.ram, pd, page) == FRAMES
  {
    forall i | USER_ENTRIES <= i < ENTRIES ensures SharesEntry(s.ram, s.kernel, pd, i) {
      NewDirectoryEntries(s.ram[s.kernel], i);
    }
    forall i | 0 <= i < USER_ENTRIES ensures !HasTable(s.ram, pd, i) { NewDirectoryEntries(s.ram[s.kernel], i); }
    forall page: nat | page < USER_PAGES ensures Translate(s.ram, pd, page) == FRAMES {
      assert !HasTable(s.ram, pd, DirIndex(page));
    }
  }

  lemma CreateSpares(s: System, pd: nat)
    requires Inv(s) && IsSpace(s, pd)
    ensures Shaped(Create(s)) && KernelSpared(s, Create(s)) && Spared(s, Create(s), pd)
  {
    var f := NextFree(s.used, 0);
    if f < FRAMES {
      PagingIsUsed(s, f);
      UnwrittenSpared(s, Create(s), pd);
    }
  }

  lemma CreateInv(s: System)
    requires Inv(s) && NextFree(s.used, 0) < FRAMES
    ensures Inv(Create(s))
  {
    var f, r := NextFree(s.used, 0), Create(s);
    PagingIsUsed(s, f);
    FreshDirectory(r, f);
    forall pd: nat | IsSpace(s, pd) ensures Spared(s, r, pd) { CreateSpares(s, pd); }
    forall g | g in r.owner ensures Realised(r, g) {
      if g != f {
        assert Realised(s, g);
        SparedOwner(s, r, g);
      }
    }
    AllButOneSpared(s, r, f);
  }

  // A new address space maps nothing below the kernel, shares the kernel half, and leaves every
  // other space as it was.
  lemma CreateKeeps(s: System)
    requires Inv(s)
    ensures Inv(Create(s))
    ensures var f := NextFree(s.used, 0); f < FRAMES ==>
      && !IsSpace(s, f) && IsSpace(Create(s), f) && SharesKernel(Create(s), f)
      && forall page: nat | page < USER_PAGES :: Translate(Create(s).ram, f, page) == FRAMES
    ensures forall pd: nat, page: nat | IsSpace(s, pd) && page < FRAMES ::
      Translate(Create(s).ram, pd, page) == Translate(s.ram, pd, page)
  {
    var f, r := NextFree(s.used, 0), Create(s);
    if f < FRAMES {
      CreateInv(s);
      PagingIsUsed(s, f);
      FreshDirectory(r, f);
    }
    forall pd: nat, page: nat | IsSpace(s, pd) && page < FRAMES
      ensures Translate(r.ram, pd, page) == Translate(s.ram, pd, page)
    {
      CreateSpares(s, pd);
      SparedPage(s, r, pd, page);
    }
  }

  // ---- Mapping a page ----

  // Two spaces have no table in common below the kernel, and none is a directory.
  lemma OtherSpared(s: System, r: System, pd: nat, i: nat, other: nat)
    requires Inv(s) && Shaped(r) && IsSpace(s, pd) && IsSpace(s, other) && other != pd && i < USER_ENTRIES
    requires forall g: nat ::
      g < FRAMES && g in s.used && g != pd && !(g in s.owner && s.owner[g] == Owner(pd, Table(i))) ==>
        r.ram[g] == s.ram[g]
    requires forall f | f in s.owner && s.owner[f].pd == other :: f in r.owner && r.owner[f] == s.owner[f]
    ensures Spared(s, r, other)
  {
    forall j | 0 <= j < ENTRIES && HasTable(s.ram, other, j)
      ensures r.ram[TableAt(s.ram, other, j)] == s.ram[TableAt(s.ram, other, j)]
    {
      TablesArePaging(s, other, j);
    }
  }

  // A page's translation depends on one entry of the directory and on one table.
  lemma TranslateSame(ram: seq<Page>, ram': seq<Page>, pd: nat, page: nat)
    requires |ram| == |ram'| == FRAMES && pd < FRAMES && page < FRAMES
    requires Entry(ram'[pd], DirIndex(page)) == Entry(ram[pd], DirIndex(page))
    requires HasTable(ram, pd, DirIndex(page)) ==>
      Entry(ram'[TableAt(ram, pd, DirIndex(page))], TableIndex(page))
        == Entry(ram[TableAt(ram, pd, DirIndex(page))], TableIndex(page))
    ensures Translate(ram', pd, page) == Translate(ram, pd, page)
  {
  }

  lemma NewTableEntries(s: System, pd: nat, i: nat, j: nat)
    requires Inv(s) && IsSpace(s, pd) && i < USER_ENTRIES && j < ENTRIES
    requires !HasTable(s.ram, pd, i) && NextFree(s.used, 0) < FRAMES
    ensures Entry(WithTable(s, pd, i).ram[pd], j) == if j == i then MakeEntry(NextFree(s.used, 0), USER_FLAGS)
      else Entry(s.ram[pd], j)
  {
    var t := NextFree(s.used, 0);
    EntryAfterSet(s.ram[pd], i, MakeEntry(t, USER_FLAGS), j);
  }

  lemma NewTableTranslates(s: System, pd: nat, i: nat, page: nat)
    requires Inv(s) && IsSpace(s, pd) && i < USER_ENTRIES && page < FRAMES
    ensures Translate(WithTable(s, pd, i).ram, pd, page) == Translate(s.ram, pd, page)
  {
    var t, d, r := NextFree(s.used, 0), DirIndex(page), WithTable(s, pd, i);
    if !HasTable(s.ram, pd, i) && t < FRAMES {
      NewTableEntries(s, pd, i, d);
      PagingIsUsed(s, t);
      if d == i {
        assert r.ram[t] == ZeroPage();
        ZeroEntries(TableIndex(page));
      } else if HasTable(s.ram, pd, d) {
        TablesArePaging(s, pd, d);
        assert TableAt(s.ram, pd, d) != pd;
        TranslateSame(s.ram, r.ram, pd, page);
      }
    }
  }

  lemma NewTableSpace(s: System, pd: nat, i: nat)
    requires Inv(s) && IsSpace(s, pd) && i < USER_ENTRIES && !HasTable(s.ram, pd, i) && NextFree(s.used, 0) < FRAMES
    ensures Shaped(WithTable(s, pd, i)) && SpaceOk(WithTable(s, pd, i), pd)
  {
    var t, r := NextFree(s.used, 0), WithTable(s, pd, i);
    PagingIsUsed(s, t);
    forall j | USER_ENTRIES <= j < ENTRIES ensures SharesEntry(r.ram, r.kernel, pd, j) {
      assert SharesEntry(s.ram, s.kernel, pd, j);
      NewTableEntries(s, pd, i, j);
    }
    forall j | 0 <= j < USER_ENTRIES ensures TableOwned(r, pd, j) {
      assert TableOwned(s, pd, j);
      NewTableEntries(s, pd, i, j);
    }
    forall page | 0 <= page < USER_PAGES ensures PageOwned(r, pd, page) {
      assert PageOwned(s, pd, page);
      NewTableTranslates(s, pd, i, page);
      KernelSame(s, r, Translate(s.ram, pd, page));
    }
  }

  lemma NewTableSpares(s: System, pd: nat, i: nat, other: nat)
    requires Inv(s) && IsSpace(s, pd) && IsSpace(s, other) && other != pd && i < USER_ENTRIES
    ensures Shaped(WithTable(s, pd, i)) && KernelSpared(s, WithTable(s, pd, i)) && Spared(s, WithTable(s, pd, i), other)
  {
    var t := NextFree(s.used, 0);
    if !HasTable(s.ram, pd, i) && t < FRAMES {
      PagingIsUsed(s, t);
      OtherSpared(s, WithTable(s, pd, i), pd, i, other);
    }
  }

  lemma NewTableInv(s: System, pd: nat, i: nat)
    requires Inv(s) && IsSpace(s, pd) && i < USER_ENTRIES && !HasTable(s.ram, pd, i) && NextFree(s.used, 0) < FRAMES
    ensures Inv(WithTable(s, pd, i))
  {
    var r := WithTable(s, pd, i);
    PagingIsUsed(s, NextFree(s.used, 0));
    NewTableSpace(s, pd, i);
    forall other: nat | IsSpace(s, other) && other != pd ensures Spared(s, r, other) {
      NewTableSpares(s, pd, i, other);
    }
    forall g | g in r.owner ensures Realised(r, g) { NewTableOwner(s, pd, i, g); }
    AllButOneSpared(s, r, pd);
  }

  lemma NewTableKeeps(s: System, pd: nat, i: nat)
    requires Inv(s) && IsSpace(s, pd) && i < USER_ENTRIES
    ensures Inv(WithTable(s, pd, i))
    ensures forall other: nat, page: nat | IsSpace(s, other) && page < FRAMES ::
      Translate(WithTable(s, pd, i).ram, other, page) == Translate(s.ram, other, page)
  {
    var r := WithTable(s, pd, i);
    if !HasTable(s.ram, pd, i) && NextFree(s.used, 0) < FRAMES { NewTableInv(s, pd, i); }
    forall other: nat, page: nat | IsSpace(s, other) && page < FRAMES
      ensures Translate(r.ram, other, page) == Translate(s.ram, other, page)
    {
      if other == pd {
        NewTableTranslates(s, pd, i, page);
      } else {
        NewTableSpares(s, pd, i, other);
        SparedPage(s, r, other, page);
      }
    }
  }

  lemma NewTableOwner(s: System, pd: nat, i: nat, g: nat)
    requires Inv(s) && IsSpace(s, pd) && i < USER_ENTRIES && !HasTable(s.ram, pd, i) && NextFree(s.used, 0) < FRAMES
    requires g in WithTable(s, pd, i).owner
    ensures Realised(WithTable(s, pd, i), g)
  {
    var t, r := NextFree(s.used, 0), WithTable(s, pd, i);
    PagingIsUsed(s, t);
    if g == t {
      NewTableEntries(s, pd, i, i);
    } else {
      assert Realised(s, g);
      var o := s.owner[g];
      if o.pd != pd {
        NewTableSpares(s, pd, i, o.pd);
        SparedOwner(s, r, g);
      } else {
        match o.role
        case Directory =>
        case Table(j) => NewTableEntries(s, pd, i, j);
        case User(page) => NewTableTranslates(s, pd, i, page);
      }
    }
  }

  // A frame that may be mapped: used, owned by no space, and no part of the kernel's tables.
  ghost predicate Mappable(s: System, f: nat)
    requires Shaped(s)
  {
    f in s.held && !KernelFrame(s, f)
  }

  lemma PointTranslates(s: System, pd: nat, page: nat, f: nat, q: nat)
    requires Inv(s) && IsSpace(s, pd) && page < USER_PAGES && HasTable(s.ram, pd, DirIndex(page))
    requires f < FRAMES && q < FRAMES
    ensures Translate(Point(s, pd, page, f).ram, pd, q) == if q == page then f else Translate(s.ram, pd, q)
  {
    var i, j, d := DirIndex(page), TableIndex(page), DirIndex(q);
    var t, r := TableAt(s.ram, pd, i), Point(s, pd, page, f);
    TablesArePaging(s, pd, i);
    EntryAfterSet(s.ram[t], j, MakeEntry(f, USER_FLAGS), TableIndex(q));
    IndicesNamePage(page, q);
    if HasTable(s.ram, pd, d) && d != i { TablesArePaging(s, pd, d); }
    if q != page { TranslateSame(s.ram, r.ram, pd, q); }
  }

  lemma PointSpace(s: System, pd: nat, page: nat, f: nat)
    requires Inv(s) && IsSpace(s, pd) && page < USER_PAGES && HasTable(s.ram, pd, DirIndex(page))
    requires f < FRAMES && Mappable(s, f)
    ensures Shaped(Point(s, pd, page, f)) && SpaceOk(Point(s, pd, page, f), pd)
  {
    var r := Point(s, pd, page, f);
    TablesArePaging(s, pd, DirIndex(page));
    assert PageOwned(s, pd, page);
    forall i | USER_ENTRIES <= i < ENTRIES ensures SharesEntry(r.ram, r.kernel, pd, i) {
      assert SharesEntry(s.ram, s.kernel, pd, i);
    }
    forall i | 0 <= i < USER_ENTRIES ensures TableOwned(r, pd, i) { assert TableOwned(s, pd, i); }
    forall q | 0 <= q < USER_PAGES ensures PageOwned(r, pd, q) {
      assert PageOwned(s, pd, q);
      PointTranslates(s, pd, page, f, q);
      KernelSame(s, r, Translate(r.ram, pd, q));
    }
  }

  lemma PointSpares(s: System, pd: nat, page: nat, f: nat, other: nat)
    requires Inv(s) && IsSpace(s, pd) && page < USER_PAGES && HasTable(s.ram, pd, DirIndex(page))
    requires f < FRAMES && Mappable(s, f) && IsSpace(s, other) && other != pd
    ensures Shaped(Point(s, pd, page, f)) && KernelSpared(s, Point(s, pd, page, f))
      && Spared(s, Point(s, pd, page, f), other)
  {
    var r := Point(s, pd, page, f);
    TablesArePaging(s, pd, DirIndex(page));
    assert PageOwned(s, pd, page);
    OtherSpared(s, r, pd, DirIndex(page), other);
  }

  lemma PointOwner(s: System, pd: nat, page: nat, f: nat, g: nat)
    requires Inv(s) && IsSpace(s, pd) && page < USER_PAGES && HasTable(s.ram, pd, DirIndex(page))
    requires f < FRAMES && Mappable(s, f) && g in Point(s, pd, page, f).owner
    ensures Realised(Point(s, pd, page, f), g)
  {
    var r := Point(s, pd, page, f);
    TablesArePaging(s, pd, DirIndex(page));
    PointTranslates(s, pd, page, f, page);
    assert PageOwned(s, pd, page);
    assert Realised(s, pd);
    assert IsSpace(r, pd);
    if g in s.owner {
      assert Realised(s, g);
      var o := s.owner[g];
      if o.pd != pd {
        PointSpares(s, pd, page, f, o.pd);
        SparedOwner(s, r, g);
      } else if o.role.User? {
        PointTranslates(s, pd, page, f, o.role.page);
      }
    }
  }

  lemma PointInv(s: System, pd: nat, page: nat, f: nat)
    requires Inv(s) && IsSpace(s, pd) && page < USER_PAGES && HasTable(s.ram, pd, DirIndex(page))
    requires f < FRAMES && Mappable(s, f)
    ensures Inv(Point(s, pd, page, f))
  {
    var r := Point(s, pd, page, f);
    PointSpace(s, pd, page, f);
    assert PageOwned(s, pd, page);
    TablesArePaging(s, pd, DirIndex(page));
    forall other: nat | IsSpace(s, other) && other != pd ensures Spared(s, r, other) {
      PointSpares(s, pd, page, f, other);
    }
    forall g | g in r.owner ensures Realised(r, g) { PointOwner(s, pd, page, f, g); }
    AllButOneSpared(s, r, pd);
  }

  // The tables of other spaces are others, so whatever frame is mapped, they are not written.
  lemma PointOthers(s: System, pd: nat, page: nat, f: nat, other: nat, q: nat)
    requires Inv(s) && IsSpace(s, pd) && page < USER_PAGES && HasTable(s.ram, pd, DirIndex(page))
    requires f < FRAMES && q < FRAMES && IsSpace(s, other) && other != pd
    ensures Translate(Point(s, pd, page, f).ram, other, q) == Translate(s.ram, other, q)
  {
    TablesArePaging(s, pd, DirIndex(page));
    if HasTable(s.ram, other, DirIndex(q)) { TablesArePaging(s, other, DirIndex(q)); }
    TranslateFrame(s.ram, Point(s, pd, page, f).ram, other, q);
  }

  // A table for the page exists or can still be made.
  predicate CanMap(s: System, pd: nat, page: nat)
    requires |s.ram| == FRAMES && pd < FRAMES && page < FRAMES
  {
    HasTable(s.ram, pd, DirIndex(page)) || NextFree(s.used, 0) < FRAMES
  }

  lemma TableReady(s: System, pd: nat, i: nat)
    requires Inv(s) && IsSpace(s, pd) && i < USER_ENTRIES
    requires HasTable(s.ram, pd, i) || NextFree(s.used, 0) < FRAMES
    ensures var r := WithTable(s, pd, i); Shaped(r) && HasTable(r.ram, pd, i)
    ensures forall f: nat :: Mappable(s, f) ==> Mappable(WithTable(s, pd, i), f)
    ensures forall other: nat :: IsSpace(s, other) ==> IsSpace(WithTable(s, pd, i), other)
  {
    var t, r := NextFree(s.used, 0), WithTable(s, pd, i);
    if !HasTable(s.ram, pd, i) {
      NewTableEntries(s, pd, i, i);
      PagingIsUsed(s, t);
      forall f: nat | Mappable(s, f) ensures Mappable(r, f) { KernelSame(s, r, f); }
    }
  }

  // Mapping any frame at all changes the translation of exactly one page in exactly one address
  // space, and does nothing, silently, exactly when a table is missing and no frame is left for
  // it.
  lemma MapChangesOnePage(s: System, pd: nat, page: nat, f: nat)
    requires Inv(s) && IsSpace(s, pd) && page < USER_PAGES && f < FRAMES
    ensures |Map(s, pd, page, f).ram| == FRAMES
    ensures forall other: nat, q: nat | IsSpace(s, other) && q < FRAMES ::
      Translate(Map(s, pd, page, f).ram, other, q) ==
      if other == pd && q == page && CanMap(s, pd, page) then f else Translate(s.ram, other, q)
    ensures !CanMap(s, pd, page) ==> Map(s, pd, page, f) == s
  {
    var i := DirIndex(page);
    var m := WithTable(s, pd, i);
    NewTableKeeps(s, pd, i);
    if CanMap(s, pd, page) {
      TableReady(s, pd, i);
      forall other: nat, q: nat | IsSpace(s, other) && q < FRAMES
        ensures Translate(Map(s, pd, page, f).ram, other, q) ==
          if other == pd && q == page then f else Translate(s.ram, other, q)
      {
        if other == pd { PointTranslates(m, pd, page, f, q); } else { PointOthers(m, pd, page, f, other, q); }
      }
    }
  }

  // For a frame that is the kernel's to give, the invariant is kept.
  lemma MapKeeps(s: System, pd: nat, page: nat, f: nat)
    requires Inv(s) && IsSpace(s, pd) && page < USER_PAGES && f < FRAMES && Mappable(s, f)
    ensures Inv(Map(s, pd, page, f))
  {
    var i := DirIndex(page);
    NewTableKeeps(s, pd, i);
    if CanMap(s, pd, page) {
      TableReady(s, pd, i);
      PointInv(WithTable(s, pd, i), pd, page, f);
    }
  }
}
