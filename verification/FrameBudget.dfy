// How many frames placing pages takes: one for each page, and one for each page table that the
// address space does not have yet.
module FrameBudget {
  import opened Physical
  import opened PageTables
  import opened AddressSpaces
  import opened ElfImage

  // Frames left, and the directory entries that have a table.
  datatype Budget = Budget(free: nat, tables: set<nat>)

  function FreeFrames(used: set<nat>): set<nat> {
    set f | 0 <= f < FRAMES && f !in used
  }

  function FreeCount(used: set<nat>): nat { |FreeFrames(used)| }

  ghost function BudgetOf(s: System, pd: nat): Budget
    requires |s.ram| == FRAMES && pd < FRAMES
  {
    Budget(FreeCount(s.used), set i | 0 <= i < USER_ENTRIES && HasTable(s.ram, pd, i))
  }

  // A page placed; the table is not made when its page took the last frame.
  function Spend(b: Budget, page: nat): Budget {
    if b.free == 0 then b
    else if DirNumber(page) in b.tables || b.free == 1 then Budget(b.free - 1, b.tables)
    else Budget(b.free - 2, b.tables + {DirNumber(page)})
  }

  // The directory entry of any page number.
  function DirNumber(page: nat): nat { page / ENTRIES }

  // ---- One page ----

  lemma FreeIff(s: System)
    requires Shaped(s)
    ensures FreeCount(s.used) > 0 <==> NextFree(s.used, 0) < FRAMES
  {
    if NextFree(s.used, 0) < FRAMES {
      assert NextFree(s.used, 0) in FreeFrames(s.used);
    } else {
      assert FreeFrames(s.used) == {};
    }
  }

  lemma OneTaken(used: set<nat>, f: nat)
    requires f < FRAMES && f !in used
    ensures FreeCount(used + {f}) == FreeCount(used) - 1
  {
    assert FreeFrames(used) == FreeFrames(used + {f}) + {f};
  }

  // Making a table enters it in the directory.
  lemma TableEntered(s: System, pd: nat, i: nat, j: nat)
    requires Inv(s) && IsSpace(s, pd) && i < USER_ENTRIES && j < ENTRIES
    ensures var t := NextFree(s.used, 0);
      HasTable(WithTable(s, pd, i).ram, pd, j) <==> HasTable(s.ram, pd, j) || (j == i && t < FRAMES)
  {
    var t := NextFree(s.used, 0);
    if !HasTable(s.ram, pd, i) && t < FRAMES {
      assert pd in s.used;
      EntryAfterSet(s.ram[pd], i, MakeEntry(t, USER_FLAGS), j);
    }
  }

  lemma PointEntered(s: System, pd: nat, page: nat, f: nat, j: nat)
    requires Inv(s) && IsSpace(s, pd) && page < USER_PAGES && f < FRAMES && j < ENTRIES
      && HasTable(s.ram, pd, DirIndex(page))
    ensures HasTable(Point(s, pd, page, f).ram, pd, j) <==> HasTable(s.ram, pd, j)
  {
    TablesArePaging(s, pd, DirIndex(page));
  }

  lemma MapEnters(s: System, pd: nat, page: nat, f: nat, j: nat)
    requires Inv(s) && IsSpace(s, pd) && page < USER_PAGES && f < FRAMES && j < ENTRIES
    ensures |Map(s, pd, page, f).ram| == FRAMES
    ensures HasTable(Map(s, pd, page, f).ram, pd, j)
       <==> HasTable(s.ram, pd, j) || (j == DirIndex(page) && NextFree(s.used, 0) < FRAMES)
  {
    var r := WithTable(s, pd, DirIndex(page));
    TableEntered(s, pd, DirIndex(page), j);
    NewTableKeeps(s, pd, DirIndex(page));
    if HasTable(r.ram, pd, DirIndex(page)) { PointEntered(r, pd, page, f, j); }
  }

  lemma MapUses(s: System, pd: nat, page: nat, f: nat)
    requires Shaped(s) && pd < FRAMES && page < FRAMES && f < FRAMES
    ensures FreeCount(Map(s, pd, page, f).used)
         == FreeCount(s.used) - if HasTable(s.ram, pd, DirIndex(page)) || FreeCount(s.used) == 0 then 0 else 1
  {
    FreeIff(s);
    if NextFree(s.used, 0) < FRAMES { OneTaken(s.used, NextFree(s.used, 0)); }
  }

  lemma PlaceUses(s: System, pd: nat, page: nat, p: Page)
    requires Shaped(s) && pd < FRAMES && page < FRAMES && NextFree(s.used, 0) < FRAMES
    ensures FreeCount(s.used) > 0
    ensures FreeCount(Place(s, pd, page, p).used)
         == FreeCount(s.used) - if HasTable(s.ram, pd, DirIndex(page)) || FreeCount(s.used) == 1 then 1 else 2
  {
    var f := NextFree(s.used, 0);
    FreeIff(s);
    OneTaken(s.used, f);
    MapUses(Alloc(s), pd, page, f);
  }

  lemma PlaceEnters(s: System, pd: nat, page: nat, p: Page, j: nat)
    requires Inv(s) == true && IsSpace(s, pd) && page < USER_PAGES && NextFree(s.used, 0) < FRAMES && j < ENTRIES
    ensures pd < FRAMES && |Place(s, pd, page, p).ram| == FRAMES
    ensures HasTable(Place(s, pd, page, p).ram, pd, j)
       <==> HasTable(s.ram, pd, j) || (j == DirIndex(page) && FreeCount(s.used) > 1)
  {
    var f, a := NextFree(s.used, 0), Alloc(s);
    MappedIsNotPaging(s, pd, page);
    FreeIff(a);
    OneTaken(s.used, f);
    MapEnters(a, pd, page, f, j);
    assert pd in s.used;
  }

  // Directory entry j has a table after page number page has been placed.
  ghost predicate Enters(s: System, r: System, pd: nat, page: nat, j: nat)
    requires |s.ram| == |r.ram| == FRAMES && pd < FRAMES && page < FRAMES && j < ENTRIES
  {
    HasTable(r.ram, pd, j) <==> HasTable(s.ram, pd, j) || (j == DirIndex(page) && FreeCount(s.used) > 1)
  }

  lemma BudgetStep(s: System, r: System, pd: nat, page: nat)
    requires |s.ram| == |r.ram| == FRAMES && pd < FRAMES && page < USER_PAGES && FreeCount(s.used) > 0
    requires forall j: nat | j < USER_ENTRIES :: Enters(s, r, pd, page, j)
    requires FreeCount(r.used)
          == FreeCount(s.used) - if HasTable(s.ram, pd, DirIndex(page)) || FreeCount(s.used) == 1 then 1 else 2
    ensures BudgetOf(r, pd) == Spend(BudgetOf(s, pd), page)
  {
    DirBelow(page);
    forall j: nat | j < USER_ENTRIES ensures j in BudgetOf(r, pd).tables <==> j in Spend(BudgetOf(s, pd), page).tables {
      assert Enters(s, r, pd, page, j);
    }
    assert BudgetOf(r, pd).tables == Spend(BudgetOf(s, pd), page).tables;
  }

  lemma PlaceSpends(s: System, pd: nat, page: nat, p: Page)
    requires Inv(s) == true && IsSpace(s, pd) && page < USER_PAGES && NextFree(s.used, 0) < FRAMES
    ensures var r := Place(s, pd, page, p);
      |r.ram| == FRAMES && pd < FRAMES && BudgetOf(r, pd) == Spend(BudgetOf(s, pd), page)
  {
    PlaceEnters(s, pd, page, p, 0);
    PlaceUses(s, pd, page, p);
    forall j: nat | j < USER_ENTRIES ensures Enters(s, Place(s, pd, page, p), pd, page, j) {
      PlaceEnters(s, pd, page, p, j);
    }
    BudgetStep(s, Place(s, pd, page, p), pd, page);
  }

  lemma DirBelow(page: nat)
    requires page < USER_PAGES
    ensures page < FRAMES && DirNumber(page) == DirIndex(page) < USER_ENTRIES
  {
  }

  // ---- Many pages ----

  function Spent(b: Budget, qs: seq<nat>): Budget {
    if qs == [] then b else Spend(Spent(b, qs[..|qs| - 1]), qs[|qs| - 1])
  }

  // There is a frame for each of the pages when its turn comes.
  predicate Lasts(b: Budget, qs: seq<nat>) {
    qs == [] || (Lasts(b, qs[..|qs| - 1]) && Spent(b, qs[..|qs| - 1]).free > 0)
  }

  lemma {:induction false} LastsAppend(b: Budget, xs: seq<nat>, ys: seq<nat>)
    ensures Spent(b, xs + ys) == Spent(Spent(b, xs), ys)
    ensures Lasts(b, xs + ys) <==> Lasts(b, xs) && Lasts(Spent(b, xs), ys)
  {
    if ys == [] {
      assert xs + ys == xs;
    } else {
      var m := |ys| - 1;
      LastsAppend(b, xs, ys[..m]);
      assert (xs + ys)[..|xs + ys| - 1] == xs + ys[..m];
    }
  }

  // The directory entries of pages.
  function DirsOf(qs: seq<nat>): set<nat> {
    if qs == [] then {} else DirsOf(qs[..|qs| - 1]) + {DirNumber(qs[|qs| - 1])}
  }

  // Frames for the pages, and for the tables that are missing.
  function Cost(b: Budget, qs: seq<nat>): nat {
    |qs| + |DirsOf(qs) - b.tables|
  }

  lemma CostGrows(b: Budget, qs: seq<nat>)
    requires qs != []
    ensures var init, i := qs[..|qs| - 1], DirNumber(qs[|qs| - 1]);
      Cost(b, qs) == Cost(b, init) + if i in b.tables + DirsOf(init) then 1 else 2
  {
    var init, i := qs[..|qs| - 1], DirNumber(qs[|qs| - 1]);
    if i in b.tables + DirsOf(init) {
      assert DirsOf(qs) - b.tables == DirsOf(init) - b.tables;
    } else {
      assert DirsOf(qs) - b.tables == DirsOf(init) - b.tables + {i};
    }
  }

  // What is known of the budget after placing qs.
  ghost predicate Reckoned(b: Budget, qs: seq<nat>, left: Budget, lasts: bool) {
    if Cost(b, qs) <= b.free then lasts && left == Budget(b.free - Cost(b, qs), b.tables + DirsOf(qs))
    else lasts ==> left.free == 0 && qs != [] && DirNumber(qs[|qs| - 1]) !in left.tables
  }

  lemma ReckonedNext(b: Budget, qs: seq<nat>, left: Budget, lasts: bool)
    requires qs != []
    requires Reckoned(b, qs[..|qs| - 1], left, lasts)
    ensures Reckoned(b, qs, Spend(left, qs[|qs| - 1]), lasts && left.free > 0)
  {
    CostGrows(b, qs);
  }

  lemma {:induction false} SpentIs(b: Budget, qs: seq<nat>)
    ensures Reckoned(b, qs, Spent(b, qs), Lasts(b, qs)) == true
  {
    if qs == [] {
      assert b.tables + {} == b.tables && {} - b.tables == {};
    } else {
      var init := qs[..|qs| - 1];
      SpentIs(b, init);
      ReckonedNext(b, qs, Spent(b, init), Lasts(b, init));
    }
  }

  // The frames last exactly when there are enough for the pages and for the tables missing
  // before the last of them.
  lemma LastsIff(b: Budget, qs: seq<nat>)
    requires qs != []
    ensures Lasts(b, qs) <==> Cost(b, qs[..|qs| - 1]) + 1 <= b.free
  {
    SpentIs(b, qs[..|qs| - 1]);
  }

  // One frame too few is not noticed: when the last page takes the last frame and its table is
  // missing, and then it stays without one.
  lemma ShortOfOne(b: Budget, qs: seq<nat>)
    requires Lasts(b, qs) && Cost(b, qs) > b.free
    ensures qs != [] && Cost(b, qs) == b.free + 1
    ensures DirNumber(qs[|qs| - 1]) !in b.tables + DirsOf(qs[..|qs| - 1])
    ensures DirNumber(qs[|qs| - 1]) !in Spent(b, qs).tables
  {
    SpentIs(b, qs);
    LastsIff(b, qs);
    CostGrows(b, qs);
  }

  lemma {:induction false} InDirs(qs: seq<nat>, q: nat)
    requires q in qs
    ensures DirNumber(q) in DirsOf(qs)
  {
    var m := |qs| - 1;
    if q != qs[m] {
      assert q in qs[..m];
      InDirs(qs[..m], q);
    }
  }

  // Every page has a table in the end exactly when there are frames for all pages and tables.
  lemma TablesIff(b: Budget, qs: seq<nat>)
    requires Lasts(b, qs)
    ensures (forall q: nat :: q in qs ==> DirNumber(q) in Spent(b, qs).tables) <==> Cost(b, qs) <= b.free
  {
    SpentIs(b, qs);
    if Cost(b, qs) <= b.free {
      forall q: nat | q in qs ensures DirNumber(q) in Spent(b, qs).tables { InDirs(qs, q); }
    } else {
      assert qs[|qs| - 1] in qs;
    }
  }
}
