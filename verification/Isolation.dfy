// Mapping a frame of the caller's choice: exactly when the spaces stay isolated from each other.
module Isolation {
  import opened Physical
  import opened PageTables
  import opened AddressSpaces
  import opened AddressSpaceRuns

  // The translations that matter: all of every space's, and of the kernel's own those above the
  // user part, which all spaces share.
  predicate Watched(s: System, other: nat, q: nat) {
    other < FRAMES && q < FRAMES && (IsSpace(s, other) || (other == s.kernel && USER_PAGES <= q))
  }

  ghost predicate SameTranslation(s: System, r: System, other: nat, q: nat)
    requires |s.ram| == |r.ram| == FRAMES
  {
    Watched(s, other, q) ==> Translate(r.ram, other, q) == Translate(s.ram, other, q)
  }

  // What user page q of space other shows above 1 MiB.
  ghost predicate SameView(s: System, r: System, other: nat, q: nat)
    requires |s.ram| == |r.ram| == FRAMES
  {
    IsSpace(s, other) && Watched(s, other, q) && q < USER_PAGES && LOW_FRAMES <= Translate(s.ram, other, q) ==>
      Seen(r, other, q) == Seen(s, other, q)
  }

  // A store through that page changes no translation, and no other page above 1 MiB.
  ghost predicate Contained(s: System, pd: nat, page: nat, p: Page)
    requires |s.ram| == FRAMES && pd < FRAMES && page < FRAMES
  {
    var f := Translate(s.ram, pd, page);
    f < FRAMES ==>
      && (forall other: nat, q: nat :: SameTranslation(s, Fill(s, f, p), other, q))
      && (forall other: nat, q: nat :: (other, q) == (pd, page) || SameView(s, Fill(s, f, p), other, q))
  }

  ghost predicate Isolated(s: System)
    requires |s.ram| == FRAMES
  {
    forall pd: nat, page: nat, p: Page | IsSpace(s, pd) && pd < FRAMES && page < USER_PAGES :: Contained(s, pd, page, p)
  }

  // The frame that becomes the page's table.
  ghost predicate BecomesTable(s: System, pd: nat, page: nat, f: nat)
    requires |s.ram| == FRAMES && pd < FRAMES && page < FRAMES
  {
    !HasTable(s.ram, pd, DirIndex(page)) && f == NextFree(s.used, 0)
  }

  // A frame that may be mapped without harm: no page table, and below 1 MiB or shown by no other page.
  ghost predicate Harmless(s: System, pd: nat, page: nat, f: nat)
    requires Shaped(s) && pd < FRAMES && page < FRAMES
  {
    && !PagingFrame(s, f) && !BecomesTable(s, pd, page, f)
    && (LOW_FRAMES <= f ==> forall other: nat, q: nat :: (other, q) == (pd, page) || !Shown(s, other, q, f))
  }

  ghost predicate Shown(s: System, other: nat, q: nat, f: nat)
    requires Shaped(s)
  {
    IsSpace(s, other) && other < FRAMES && q < USER_PAGES && Translate(s.ram, other, q) == f
  }

  // The memory after the mapping, with the same spaces.
  function Remapped(s: System, pd: nat, page: nat, f: nat): System
    requires |s.ram| == FRAMES && pd < FRAMES && page < FRAMES && f < FRAMES
  {
    s.(ram := Map(s, pd, page, f).ram)
  }

  // ---- Tables after the mapping ----

  lemma DirectoryAfter(s: System, pd: nat, page: nat, f: nat, other: nat, j: nat)
    requires Inv(s) && IsSpace(s, pd) && page < USER_PAGES && f < FRAMES && CanMap(s, pd, page) && j < ENTRIES
    requires IsSpace(s, other) || (other == s.kernel && USER_ENTRIES <= j)
    ensures other < FRAMES && PagingFrame(s, other) && |Remapped(s, pd, page, f).ram| == FRAMES
    ensures var r := Remapped(s, pd, page, f);
      if other == pd && j == DirIndex(page) && !HasTable(s.ram, pd, j) then
        HasTable(r.ram, pd, j) && TableAt(r.ram, pd, j) == NextFree(s.used, 0)
      else
        HasTable(r.ram, other, j) == HasTable(s.ram, other, j) && TableAt(r.ram, other, j) == TableAt(s.ram, other, j)
  {
    var i := DirIndex(page);
    var m := WithTable(s, pd, i);
    TableReady(s, pd, i);
    NewTableKeeps(s, pd, i);
    TablesArePaging(m, pd, i);
    assert other in s.used && pd in s.used;
    if !HasTable(s.ram, pd, i) {
      NewTableEntries(s, pd, i, i);
      if other == pd { NewTableEntries(s, pd, i, j); }
    }
  }

  lemma TableAfter(s: System, pd: nat, page: nat, f: nat, other: nat, j: nat)
    requires Inv(s) && IsSpace(s, pd) && page < USER_PAGES && f < FRAMES && CanMap(s, pd, page) && j < ENTRIES
    requires IsSpace(s, other) || (other == s.kernel && USER_ENTRIES <= j)
    ensures other < FRAMES && |Remapped(s, pd, page, f).ram| == FRAMES
    ensures var r := Remapped(s, pd, page, f); HasTable(r.ram, other, j) ==>
      PagingFrame(s, TableAt(r.ram, other, j)) || BecomesTable(s, pd, page, TableAt(r.ram, other, j))
  {
    DirectoryAfter(s, pd, page, f, other, j);
    if HasTable(s.ram, other, j) {
      if IsSpace(s, other) { TablesArePaging(s, other, j); } else { TableIsKnown(s.ram, s.kernel, j); }
    }
  }

  // ---- A harmless mapping keeps the isolation ----

  lemma HarmlessTranslations(s: System, pd: nat, page: nat, f: nat, g: nat, p: Page, other: nat, q: nat)
    requires Inv(s) && IsSpace(s, pd) && page < USER_PAGES && f < FRAMES && CanMap(s, pd, page)
    requires g < FRAMES && !PagingFrame(s, g) && !BecomesTable(s, pd, page, g)
    ensures |Remapped(s, pd, page, f).ram| == FRAMES
    ensures var r := Remapped(s, pd, page, f); SameTranslation(r, Fill(r, g, p), other, q)
  {
    var r := Remapped(s, pd, page, f);
    DirectoryAfter(s, pd, page, f, pd, 0);
    if Watched(r, other, q) {
      DirAbove(q);
      TableAfter(s, pd, page, f, other, DirIndex(q));
      DirectoryAfter(s, pd, page, f, other, DirIndex(q));
      TranslateFrame(r.ram, Fill(r, g, p).ram, other, q);
    }
  }

  lemma DirAbove(q: nat)
    requires q < FRAMES
    ensures USER_PAGES <= q <==> USER_ENTRIES <= DirIndex(q)
  {
  }

  // The frame behind a user page after the mapping.
  lemma ShownAfter(s: System, pd: nat, page: nat, f: nat, d: nat, pg: nat)
    requires Inv(s) && IsSpace(s, pd) && page < USER_PAGES && f < FRAMES && CanMap(s, pd, page)
      && Harmless(s, pd, page, f)
    requires IsSpace(s, d) && pg < USER_PAGES
    ensures d < FRAMES && |Remapped(s, pd, page, f).ram| == FRAMES
    ensures var g := Translate(Remapped(s, pd, page, f).ram, d, pg);
      && g == (if (d, pg) == (pd, page) then f else Translate(s.ram, d, pg))
      && (g < FRAMES ==> !PagingFrame(s, g) && !BecomesTable(s, pd, page, g))
  {
    MapChangesOnePage(s, pd, page, f);
    assert PageOwned(s, d, pg);
  }

  lemma HarmlessContained(s: System, pd: nat, page: nat, f: nat, d: nat, pg: nat, p: Page)
    requires Inv(s) && IsSpace(s, pd) && page < USER_PAGES && f < FRAMES && CanMap(s, pd, page)
      && Harmless(s, pd, page, f)
    requires IsSpace(s, d) && pg < USER_PAGES
    ensures d < FRAMES && |Remapped(s, pd, page, f).ram| == FRAMES && Contained(Remapped(s, pd, page, f), d, pg, p)
  {
    var r := Remapped(s, pd, page, f);
    ShownAfter(s, pd, page, f, d, pg);
    var g := Translate(r.ram, d, pg);
    if g < FRAMES {
      forall other: nat, q: nat ensures SameTranslation(r, Fill(r, g, p), other, q) {
        HarmlessTranslations(s, pd, page, f, g, p, other, q);
      }
      forall other: nat, q: nat | (other, q) != (d, pg) ensures SameView(r, Fill(r, g, p), other, q) {
        HarmlessTranslations(s, pd, page, f, g, p, other, q);
        HarmlessView(s, pd, page, f, d, pg, p, other, q);
      }
    }
  }

  lemma HarmlessView(s: System, pd: nat, page: nat, f: nat, d: nat, pg: nat, p: Page, other: nat, q: nat)
    requires Inv(s) && IsSpace(s, pd) && page < USER_PAGES && f < FRAMES && CanMap(s, pd, page)
      && Harmless(s, pd, page, f)
    requires IsSpace(s, d) && d < FRAMES && pg < USER_PAGES && (other, q) != (d, pg)
    requires |Remapped(s, pd, page, f).ram| == FRAMES && Translate(Remapped(s, pd, page, f).ram, d, pg) < FRAMES
    requires var r := Remapped(s, pd, page, f); SameTranslation(r, Fill(r, Translate(r.ram, d, pg), p), other, q)
    ensures var r := Remapped(s, pd, page, f); SameView(r, Fill(r, Translate(r.ram, d, pg), p), other, q)
  {
    var r := Remapped(s, pd, page, f);
    if IsSpace(s, other) && Watched(r, other, q) && q < USER_PAGES {
      ShownAfter(s, pd, page, f, d, pg);
      ShownAfter(s, pd, page, f, other, q);
      assert PageOwned(s, d, pg) && PageOwned(s, other, q);
      assert (d, pg) != (pd, page) ==> Shown(s, d, pg, Translate(r.ram, d, pg));
      assert (other, q) != (pd, page) ==> Shown(s, other, q, Translate(r.ram, other, q));
    }
  }

  // ---- Any other mapping breaks it ----

  // Contents that make entry i of a frame that is its own directory point back at it, or nowhere.
  lemma DirectoryBreaks(r: System, d: nat, i: nat) returns (p: Page)
    requires |r.ram| == FRAMES && d < FRAMES && i < ENTRIES
    ensures 1024 * i + i < FRAMES && Translate(Fill(r, d, p).ram, d, 1024 * i + i) != Translate(r.ram, d, 1024 * i + i)
  {
    var q := 1024 * i + i;
    assert DirIndex(q) == i && TableIndex(q) == i;
    var loop := SetEntry(ZeroPage(), i, MakeEntry(d, USER_FLAGS));
    EntryAfterSet(ZeroPage(), i, MakeEntry(d, USER_FLAGS), i);
    ZeroEntries(i);
    p := if Translate(r.ram, d, q) == FRAMES then loop else ZeroPage();
  }

  lemma TableBreaks(r: System, d: nat, i: nat, f: nat) returns (p: Page)
    requires |r.ram| == FRAMES && d < FRAMES && i < ENTRIES && HasTable(r.ram, d, i) && TableAt(r.ram, d, i) == f
      && f != d
    ensures 1024 * i < FRAMES && Translate(Fill(r, f, p).ram, d, 1024 * i) != Translate(r.ram, d, 1024 * i)
  {
    var q := 1024 * i;
    assert DirIndex(q) == i && TableIndex(q) == 0;
    EntryAfterSet(ZeroPage(), 0, MakeEntry(f, USER_FLAGS), 0);
    ZeroEntries(0);
    p := if Translate(r.ram, d, q) == FRAMES then SetEntry(ZeroPage(), 0, MakeEntry(f, USER_FLAGS)) else ZeroPage();
  }

  // Mapping a page table lets a store through the page change a translation.
  lemma PagingBreaks(s: System, pd: nat, page: nat, f: nat) returns (p: Page, other: nat, q: nat)
    requires Inv(s) && IsSpace(s, pd) && page < USER_PAGES && f < FRAMES && CanMap(s, pd, page)
    requires PagingFrame(s, f) || BecomesTable(s, pd, page, f)
    ensures |Remapped(s, pd, page, f).ram| == FRAMES
    ensures !SameTranslation(Remapped(s, pd, page, f), Fill(Remapped(s, pd, page, f), f, p), other, q)
  {
    var r := Remapped(s, pd, page, f);
    var i: nat;
    if BecomesTable(s, pd, page, f) {
      other, i := pd, DirIndex(page);
      DirectoryAfter(s, pd, page, f, other, i);
      assert f != pd;
    } else if f == s.kernel {
      other, i := f, USER_ENTRIES;
      DirectoryAfter(s, pd, page, f, other, i);
    } else if KernelFrame(s, f) {
      var j :| USER_ENTRIES <= j < ENTRIES && HasTable(s.ram, s.kernel, j) && f == TableAt(s.ram, s.kernel, j);
      other, i := s.kernel, j;
      DirectoryAfter(s, pd, page, f, other, i);
    } else {
      assert Realised(s, f);
      other := s.owner[f].pd;
      i := if s.owner[f].role.Directory? then 0 else s.owner[f].role.index;
      DirectoryAfter(s, pd, page, f, other, i);
    }
    if f == other {
      p := DirectoryBreaks(r, f, i);
      q := 1024 * i + i;
    } else {
      p := TableBreaks(r, other, i, f);
      q := 1024 * i;
    }
  }

  lemma OtherPage(p: Page) returns (p': Page)
    ensures p' != p
  {
    p' := p[0 := if p[0] == 0 then 1 else 0];
    assert p'[0] != p[0];
  }

  // Mapping a frame above 1 MiB that another page shows lets a store through one change the other.
  lemma SharingBreaks(s: System, pd: nat, page: nat, f: nat, other: nat, q: nat) returns (p: Page)
    requires Inv(s) && IsSpace(s, pd) && page < USER_PAGES && LOW_FRAMES <= f < FRAMES && CanMap(s, pd, page)
    requires Shown(s, other, q, f) && (other, q) != (pd, page)
    ensures pd < FRAMES && other < FRAMES && |Remapped(s, pd, page, f).ram| == FRAMES
    ensures var r := Remapped(s, pd, page, f);
      && Translate(r.ram, pd, page) == f == Translate(r.ram, other, q) && !Mappable(s, f)
      && !Contained(r, pd, page, p)
  {
    MapChangesOnePage(s, pd, page, f);
    assert PageOwned(s, other, q);
    var r := Remapped(s, pd, page, f);
    p := OtherPage(r.ram[f]);
    var w := Fill(r, f, p);
    assert SameTranslation(r, w, other, q) ==> Seen(w, other, q) == p && Seen(r, other, q) == r.ram[f];
    assert !(SameTranslation(r, w, other, q) && SameView(r, w, other, q));
  }

  // The spaces stay isolated exactly when the frame is no page table, and below 1 MiB or shown
  // by no other page.
  lemma IsolationIff(s: System, pd: nat, page: nat, f: nat)
    requires Inv(s) && IsSpace(s, pd) && page < USER_PAGES && f < FRAMES && CanMap(s, pd, page)
    ensures pd < FRAMES && |Remapped(s, pd, page, f).ram| == FRAMES
    ensures Isolated(Remapped(s, pd, page, f)) <==> Harmless(s, pd, page, f)
  {
    var r := Remapped(s, pd, page, f);
    MapChangesOnePage(s, pd, page, f);
    if Harmless(s, pd, page, f) {
      forall d: nat, pg: nat, p: Page | IsSpace(r, d) && d < FRAMES && pg < USER_PAGES ensures Contained(r, d, pg, p) {
        HarmlessContained(s, pd, page, f, d, pg, p);
      }
    } else if PagingFrame(s, f) || BecomesTable(s, pd, page, f) {
      var p, other, q := PagingBreaks(s, pd, page, f);
      assert !Contained(r, pd, page, p);
    } else {
      var other: nat, q: nat :| (other, q) != (pd, page) && Shown(s, other, q, f);
      var p := SharingBreaks(s, pd, page, f, other, q);
    }
  }

  // Frames that are the kernel's to give do no harm.
  lemma MappableIsHarmless(s: System, pd: nat, page: nat, f: nat)
    requires Inv(s) && IsSpace(s, pd) && page < USER_PAGES && f < FRAMES && Mappable(s, f)
    ensures pd < FRAMES && Harmless(s, pd, page, f)
  {
    forall other: nat, q: nat | LOW_FRAMES <= f ensures !Shown(s, other, q, f) {
      if IsSpace(s, other) && q < USER_PAGES { assert PageOwned(s, other, q); }
    }
  }

  // ---- Runs ----

  lemma InvContains(s: System, pd: nat, page: nat, p: Page)
    requires Inv(s) && IsSpace(s, pd) && page < USER_PAGES
    ensures pd < FRAMES && Contained(s, pd, page, p)
  {
    var f := Translate(s.ram, pd, page);
    assert PageOwned(s, pd, page);
    if f < FRAMES {
      FillKeeps(s, f, p);
      forall other: nat, q: nat ensures SameTranslation(s, Fill(s, f, p), other, q) {
        if Watched(s, other, q) && other == s.kernel { KernelSpares(s, f, p, q); }
      }
      forall other: nat, q: nat | (other, q) != (pd, page) ensures SameView(s, Fill(s, f, p), other, q) {
        if IsSpace(s, other) && q < USER_PAGES { assert PageOwned(s, other, q); }
      }
    }
  }

  lemma KernelSpares(s: System, f: nat, p: Page, q: nat)
    requires Inv(s) && f < FRAMES && !PagingFrame(s, f) && USER_PAGES <= q < FRAMES
    ensures Translate(Fill(s, f, p).ram, s.kernel, q) == Translate(s.ram, s.kernel, q)
  {
    DirAbove(q);
    if HasTable(s.ram, s.kernel, DirIndex(q)) { TableIsKnown(s.ram, s.kernel, DirIndex(q)); }
    TranslateFrame(s.ram, Fill(s, f, p).ram, s.kernel, q);
  }

  // As long as only frames are mapped that are the kernel's to give, the spaces are isolated in
  // every state of a run.
  lemma RunsStayIsolated(states: seq<System>, ops: seq<Op>, k: nat)
    requires IsRun(states, ops) && Inv(states[0]) && k <= |ops|
    ensures |states[k].ram| == FRAMES && Isolated(states[k])
  {
    RunKeeps(states, ops, k);
    forall pd: nat, page: nat, p: Page | IsSpace(states[k], pd) && pd < FRAMES && page < USER_PAGES
      ensures Contained(states[k], pd, page, p)
    {
      InvContains(states[k], pd, page, p);
    }
  }
}
