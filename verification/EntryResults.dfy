// What creating an entry promises: when it succeeds, what it leaves alone, what the directory
// shows afterwards, and that the new entry is found.
module EntryResults {
  import opened Bytes
  import opened Finite
  import opened FatChains
  import opened FatLayout
  import opened FileData
  import opened Names
  import opened DirectorySlots
  import opened DirectoryChain
  import opened DirectoryPlaces
  import opened EntryWriting
  import opened EntryCreation

  // ---- When it succeeds ----

  // Room for total slots with the free clusters, one of which goes to the content of a directory.
  ghost predicate Enough(slots: seq<Slot>, free: nat, n: nat, total: nat, dir: bool) {
    if dir then free >= 1 && Room(slots, free - 1, n, total) else Room(slots, free, n, total)
  }

  lemma RoomFacts(d: Dir, r: Found, n: nat, total: nat)
    requires Good(d, n) == true && r == RoomIn(d, n, total) && total >= 1
    ensures var slots, free := SlotsIn(d, n), |FreeClusters(d.v.fat)|;
      && (r.p >= 0 <==> Room(slots, free, n, total))
      && (free >= 1 ==> (r.p >= 0 && !Full(r.d.v) <==> Room(slots, free - 1, n, total)))
      && (free == 0 ==> Full(r.d.v))
  {
    RoomLeft(d, r, n, total);
    RoomAmount(d, n, total, |FreeClusters(d.v.fat)|);
    if |FreeClusters(d.v.fat)| >= 1 { RoomAmount(d, n, total, |FreeClusters(d.v.fat)| - 1); }
  }

  lemma RoomLeft(d: Dir, r: Found, n: nat, total: nat)
    requires Good(d, n) == true && r == RoomIn(d, n, total) && total >= 1
    ensures |r.d.cs| - |d.cs| <= |FreeClusters(d.v.fat)|
    ensures Full(r.d.v) <==> |r.d.cs| - |d.cs| == |FreeClusters(d.v.fat)|
  {
    RoomExact(d, n, total);
    LeftIn(d, r, n, total);
  }

  lemma LeftIn(d: Dir, r: Found, n: nat, total: nat)
    requires Exact(d, r, n, total) == true
    ensures |r.d.cs| - |d.cs| <= |FreeClusters(d.v.fat)|
    ensures Full(r.d.v) <==> |r.d.cs| - |d.cs| == |FreeClusters(d.v.fat)|
  {
    FreeTaken(d, r.d, n);
    FullIff(r.d.v);
  }

  // An entry is made exactly when its slots fit into the directory and the free clusters, and
  // for a directory with one of them set aside.
  lemma CreationIff(d: Dir, n: nat, name: seq<byte>, attr: byte, root: nat)
    requires Good(d, n) == true && n >= 2 && Nameable(name)
    ensures var o, total := Creation(d, n, name, attr, root), |NewSlots(name, attr)|;
      && (o.Made? <==> Enough(SlotsIn(d, n), |FreeClusters(d.v.fat)|, n, total, IsDirectory(attr)))
      && (o.NoRoom? <==> !Room(SlotsIn(d, n), |FreeClusters(d.v.fat)|, n, total))
  {
    var ns := NewSlots(name, attr);
    var r := RoomIn(d, n, |ns|);
    CreationIs(d, n, name, attr, root, ns, r);
    RoomFacts(d, r, n, |ns|);
  }

  // ---- What it leaves alone ----

  function ContentOf(o: Outcome): seq<nat> { if o.Made? then o.content else [] }

  // The directory d has become d': a chain still, with clusters that were free added to it or
  // taken for content, and nothing else changed.
  ghost predicate Confined(d: Dir, d': Dir, content: seq<nat>, n: nat) {
    && Good(d', n) && d.cs <= d'.cs && OnlyTouches(d.v, d'.v, d.cs, d'.cs + content, 0)
  }

  lemma LaidConfined(d0: Dir, d: Dir, n: nat, p: nat, ns: seq<Slot>)
    requires Good(d, n) == true && OnlyLonger(d0.v, d.v, d0.cs, d.cs, n) == true && p + |ns| <= Row(|d.cs|, n)
    ensures Confined(d0, Laid(d, n, p, ns), [], n) == true
  {
    var w := Laid(d, n, p, ns).v;
    assert d.cs + [] == d.cs;
    forall c: nat | c < |d.v.data| && c !in d.cs ensures w.data[c] == d.v.data[c] {
      PutFrame(d.v.data, d.cs, n, p, ns, c);
    }
    assert forall c :: c in d0.cs ==> c in d.cs;
  }

  lemma ContentConfined(d0: Dir, d: Dir, n: nat, c: nat, parent: nat)
    requires Confined(d0, d, [], n) == true && c in FreeClusters(d.v.fat) && c < |d.v.data| && c < U32
      && parent < U32 && n >= 2
    ensures Confined(d0, Dir(WithContent(d.v, n, c, parent), d.cs), [c], n) == true
  {
    assert d.cs + [] == d.cs;
    var w := WithContent(d.v, n, c, parent);
    assert c !in d.cs by {
      if c in d.cs { ChainNotFree(d.v.fat, d.cs, c); }
    }
    forall i | 0 <= i < |d.cs| ensures w.fat[d.cs[i]] == d.v.fat[d.cs[i]] { assert d.cs[i] in d.cs; }
    ChainFrame(d.v.fat, w.fat, d.cs);
    assert d0.v.fat[c] == FAT_FREE by {
      assert c !in d.cs && c !in d0.cs;
    }
    assert forall x :: x in d.cs + [c] <==> x in d.cs || x == c;
  }

  lemma PlacedConfined(d: Dir, r: Found, n: nat, ns: seq<Slot>, dir: bool, parent: nat)
    requires Exact(d, r, n, |ns|) == true && Good(r.d, n) == true && n >= 2 && ns != [] && parent < U32
    ensures var o := Placed(r, n, ns, dir, parent); Confined(d, o.d, ContentOf(o), n) == true
  {
    GoodSlots(r.d, n);
    if r.p < 0 {
      LaidConfined(d, r.d, n, 0, []);
      assert Laid(r.d, n, 0, []) == r.d;
    } else {
      LaidConfined(d, r.d, n, r.p, ns);
      LaidConfined(d, r.d, n, r.p, ns[..KeptSlots(r.d, n, r.p, ns)]);
      if dir && !Full(r.d.v) {
        var c := FirstFree(r.d.v.fat, 2);
        LaidConfined(d, r.d, n, r.p, Naming(ns, c));
        ContentConfined(d, Laid(r.d, n, r.p, Naming(ns, c)), n, c, parent);
      }
    }
  }

  lemma CreationConfined(d: Dir, n: nat, name: seq<byte>, attr: byte, root: nat)
    requires Good(d, n) == true && n >= 2 && Nameable(name)
    ensures var o := Creation(d, n, name, attr, root); Confined(d, o.d, ContentOf(o), n) == true && Good(o.d, n) == true
    ensures d.cs != [] && Creation(d, n, name, attr, root).d.cs != []
      && Creation(d, n, name, attr, root).d.cs[0] == d.cs[0]
  {
    var ns := NewSlots(name, attr);
    var r := RoomIn(d, n, |ns|);
    CreationIs(d, n, name, attr, root, ns, r);
    RoomExact(d, n, |ns|);
    PlacedConfined(d, r, n, ns, IsDirectory(attr), ParentOf(d.cs[0], root));
  }

  // Whatever the outcome, every file apart from the directory keeps its chain and its bytes.
  lemma CreationKeepsFiles(d: Dir, n: nat, name: seq<byte>, attr: byte, root: nat, start: nat, es: seq<nat>,
      bytes: seq<byte>)
    requires Good(d, n) == true && n >= 2 && Nameable(name)
    requires Holds(d.v, start, es, bytes) && Elems(es) !! Elems(d.cs)
    ensures var o := Creation(d, n, name, attr, root);
      Holds(o.d.v, start, es, bytes) && Elems(es) !! Elems(o.d.cs + ContentOf(o))
  {
    var o := Creation(d, n, name, attr, root);
    CreationConfined(d, n, name, attr, root);
    assert forall i :: 0 <= i < |es| ==> InRange(d.v.fat, es[i]);
    OthersKept(d.v, o.d.v, d.cs, o.d.cs + ContentOf(o), 0, start, es, bytes);
  }

  // ---- What the directory shows ----

  lemma LaidSlots(d: Dir, n: nat, p: nat, ns: seq<Slot>)
    requires Good(d, n) == true && p + |ns| <= |SlotsIn(d, n)|
    ensures SlotsIn(Laid(d, n, p, ns), n) == Written(SlotsIn(d, n), p, ns)
  {
    GoodSlots(d, n);
    PutWrites(d.v.data, d.cs, n, p, ns);
  }

  lemma ContentSlots(d: Dir, n: nat, c: nat, parent: nat)
    requires Clusters(d.v.data, d.cs, n) && c !in d.cs && c < |d.v.fat| && c < |d.v.data| && c < U32 && parent < U32
      && n >= 2
    ensures SlotsIn(Dir(WithContent(d.v, n, c, parent), d.cs), n) == SlotsIn(d, n)
  {
    var w := WithContent(d.v, n, c, parent);
    assert Clusters(w.data, d.cs, n);
    DirSlotsFrame(d.v.data, w.data, d.cs, n);
  }

  // The slots that creation writes: all, or those before the content cluster was missing.
  function Wrote(o: Outcome, ns: seq<Slot>): (r: seq<Slot>)
    requires ns != []
    ensures |r| <= |ns|
  {
    match o
    case NoRoom(_) => []
    case NoContent(_, _, kept) => if kept < |ns| then ns[..kept] else []
    case Made(_, _, short, _) => ns[..|ns| - 1] + [short]
  }

  lemma PlacedSlots(r: Found, n: nat, ns: seq<Slot>, dir: bool, parent: nat)
    requires Good(r.d, n) == true && n >= 2 && ns != [] && parent < U32 && 0 <= r.p && r.p + |ns| <= |SlotsIn(r.d, n)|
    ensures var o := Placed(r, n, ns, dir, parent); SlotsIn(o.d, n) == Written(SlotsIn(r.d, n), r.p, Wrote(o, ns))
  {
    LaidSlots(r.d, n, r.p, ns);
    LaidSlots(r.d, n, r.p, ns[..KeptSlots(r.d, n, r.p, ns)]);
    assert ns[..|ns| - 1] + [ns[|ns| - 1]] == ns;
    if dir && !Full(r.d.v) {
      var c := FirstFree(r.d.v.fat, 2);
      LaidSlots(r.d, n, r.p, Naming(ns, c));
      FreeOutside(r.d, n, c);
      LaidClusters(r.d, n, r.p, Naming(ns, c));
      ContentSlots(Laid(r.d, n, r.p, Naming(ns, c)), n, c, parent);
    }
  }

  lemma FreeOutside(d: Dir, n: nat, c: nat)
    requires Good(d, n) == true && c in FreeClusters(d.v.fat)
    ensures c !in d.cs
  {
    if c in d.cs { ChainNotFree(d.v.fat, d.cs, c); }
  }

  lemma LaidClusters(d: Dir, n: nat, p: nat, ns: seq<Slot>)
    requires Good(d, n) == true
    ensures Clusters(Laid(d, n, p, ns).v.data, d.cs, n)
  {
    GoodSlots(d, n);
  }

  // es' is es with one entry more, of that name and short slot, at slot number at.
  ghost predicate Inserted(es: seq<Seen>, es': seq<Seen>, x: Seen) {
    exists m: nat :: InsertedAt(es, es', x, m)
  }

  ghost predicate InsertedAt(es: seq<Seen>, es': seq<Seen>, x: Seen, m: nat) {
    m <= |es| && |es'| == |es| + 1 && es'[m] == x && es'[..m] == es[..m] && es'[m + 1..] == es[m..]
  }

  lemma InsertedBetween(a: seq<Seen>, b: seq<Seen>, x: Seen)
    ensures Inserted(a + b, a + ([x] + b), x)
  {
    assert InsertedAt(a + b, a + ([x] + b), x, |a|);
  }

  lemma EntryShown(slots: seq<Slot>, p: nat, ns: seq<Slot>, shown: seq<byte>, short: Slot)
    requires WellFormed(slots) == true && IsEntry(ns, shown, short) == true && RunAt(slots, p, |ns|) == true
    ensures WellFormed(Written(slots, p, ns)) == true
    ensures Inserted(Entries(slots), Entries(Written(slots, p, ns)), Seen(shown, short, p + |ns| - 1))
  {
    CreateKeepsForm(slots, p, ns, shown, short);
    CreateAdds(slots, p, ns, shown, short);
    InsertedBetween(Passed(slots, p), Scan(Written(slots, p, ns), p + |ns|, []), Seen(shown, short, p + |ns| - 1));
  }

  // A short slot that names a cluster is seen like the one without.
  lemma NamingEntry(ns: seq<Slot>, shown: seq<byte>, short: Slot, c: nat)
    requires IsEntry(ns, shown, short) == true && c < U32
    ensures IsEntry(Naming(ns, c), shown, WithCluster(short, c)) == true
  {
    var ns' := Naming(ns, c);
    ClusterNamed(short, c);
    SameKind(short, WithCluster(short, c));
    assert ns'[..|ns'| - 1] == ns[..|ns| - 1];
    forall k | 0 <= k < |ns'| - 1 ensures IsLfn(ns'[k]) { assert ns'[k] == ns[k]; }
  }

  // ---- Long-name slots left behind ----

  // Long-name slots at the start of a free run, with a free slot behind them, show nothing.
  lemma OrphansSilent(slots: seq<Slot>, p: nat, lfn: seq<Slot>, total: nat)
    requires WellFormed(slots) && RunAt(slots, p, total) && |lfn| < total <= MAX_LFN
    requires forall k :: 0 <= k < |lfn| ==> IsLfn(lfn[k])
    ensures Entries(Written(slots, p, lfn)) == Entries(slots)
  {
    var r := Written(slots, p, lfn);
    RunIsClear(slots, p, total);
    RunShorter(slots, p, total, |lfn|);
    ScanSplit(slots, p);
    PassedSame(slots, r, p);
    ScanSplit(r, p);
    BehindRun(slots, p, lfn);
    OrphansDropped(r, p, lfn);
  }

  lemma OrphansDropped(r: seq<Slot>, p: nat, lfn: seq<Slot>)
    requires p + |lfn| < |r| && |lfn| <= MAX_LFN && IsFree(r[p + |lfn|])
    requires forall k :: 0 <= k < |lfn| ==> IsLfn(lfn[k]) && r[p + k] == lfn[k]
    ensures Scan(r, p, []) == Scan(r, p + |lfn|, [])
  {
    ScanLfn(r, p, [], lfn);
    assert [] + lfn == lfn;
  }

  lemma OrphansNoOverrun(slots: seq<Slot>, p: nat, lfn: seq<Slot>, total: nat)
    requires WellFormed(slots) && RunAt(slots, p, total) && |lfn| < total <= MAX_LFN
    ensures NoOverrun(Written(slots, p, lfn))
  {
    var r, q := Written(slots, p, lfn), p + |lfn|;
    assert r[q] == slots[q] && IsFree(slots[q]);
    forall i | 0 <= i && i + MAX_LFN <= |r| ensures !AllLfn(r, i) {
      if i <= q < i + MAX_LFN {
      } else if i + MAX_LFN <= p || i > q {
        assert !AllLfn(slots, i);
        var j :| i <= j < i + MAX_LFN && !IsLfn(slots[j]);
        assert r[j] == slots[j];
      } else {
        assert LeadsOn(slots, p - 1);
        assert r[p - 1] == slots[p - 1] && IsFree(slots[p]);
      }
    }
  }

  // They do spoil the form of the directory.
  lemma OrphansIll(slots: seq<Slot>, p: nat, lfn: seq<Slot>, total: nat)
    requires WellFormed(slots) && RunAt(slots, p, total) && |lfn| < total <= MAX_LFN
    requires forall k :: 0 <= k < |lfn| ==> IsLfn(lfn[k])
    ensures WellFormed(Written(slots, p, lfn)) <==> lfn == []
  {
    var r, q := Written(slots, p, lfn), p + |lfn|;
    if lfn == [] {
      assert r == slots;
    } else {
      assert IsLfn(r[q - 1]) && r[q] == slots[q] && IsFree(slots[q]);
      assert !LeadsOn(r, q - 1);
    }
  }

  // Slots are left behind exactly when the run of free slots reaches over the end of a cluster.
  lemma KeptIff(d: Dir, n: nat, p: nat, ns: seq<Slot>)
    requires Good(d, n) == true && ns != [] && p + |ns| <= Row(|d.cs|, n)
    ensures KeptSlots(d, n, p, ns) == 0 <==> SpotAt(d.cs, n, p).cluster == SpotAt(d.cs, n, p + |ns| - 1).cluster
  {
    var k, i := PlaceOf(d.cs, n, p);
    var k', i' := PlaceOf(d.cs, n, p + |ns| - 1);
    if k < k' {
      RowMono(k + 1, k', n);
      assert d.cs[k] != d.cs[k'];
    } else if k' < k {
      RowMono(k' + 1, k, n);
    }
  }

  // An entry that is later put behind them is seen under their name instead of its own.
  lemma OrphansRename(slots: seq<Slot>, p: nat, lfn: seq<Slot>, total: nat, short: Slot)
    requires WellFormed(slots) && RunAt(slots, p, total) && |lfn| < total <= MAX_LFN && IsVisible(short)
    requires forall k :: 0 <= k < |lfn| ==> IsLfn(lfn[k])
    ensures var r := Written(Written(slots, p, lfn), p + |lfn|, [short]);
      Inserted(Entries(slots), Entries(r), Seen(NameOf(lfn, short), short, p + |lfn|))
  {
    var both := lfn + [short];
    EntryOf(lfn, short, NameOf(lfn, short));
    RunShorter(slots, p, total, |both|);
    EntryShown(slots, p, both, NameOf(lfn, short), short);
    assert Written(Written(slots, p, lfn), p + |lfn|, [short]) == Written(slots, p, both);
  }

  lemma RunShorter(slots: seq<Slot>, p: nat, total: nat, m: nat)
    requires RunAt(slots, p, total) && m <= total
    ensures RunAt(slots, p, m)
  {
  }

  // ---- Results ----

  // A directory es has become es' by creating an entry seen as x, or by failing to.
  ghost predicate Showing(slots: seq<Slot>, slots': seq<Slot>, o: Outcome, shown: seq<byte>) {
    var es, es' := Entries(slots), Entries(slots');
    && NoOverrun(slots')
    && match o
       case NoRoom(_) => es' == es && WellFormed(slots')
       case NoContent(_, _, kept) => es' == es && (WellFormed(slots') <==> kept == 0)
       case Made(_, at, short, _) => WellFormed(slots') && Inserted(es, es', Seen(shown, short, at))
  }

  // All of ns written into a run of free slots, the short one perhaps with a cluster named in it.
  lemma MadeShows(slots: seq<Slot>, p: nat, ns: seq<Slot>, shown: seq<byte>, short: Slot, o: Outcome)
    requires WellFormed(slots) == true && RunAt(slots, p, |ns|) == true && IsEntry(ns, shown, short) == true && o.Made?
    requires o.at == p + |ns| - 1 && (o.short == short || exists c: nat :: c < U32 && o.short == WithCluster(short, c))
    ensures Showing(slots, Written(slots, p, Wrote(o, ns)), o, shown) == true
  {
    if o.short == short {
      assert Wrote(o, ns) == ns;
      EntryShown(slots, p, ns, shown, short);
    } else {
      var c: nat :| c < U32 && o.short == WithCluster(short, c);
      NamingEntry(ns, shown, short, c);
      assert Wrote(o, ns) == Naming(ns, c);
      EntryShown(slots, p, Naming(ns, c), shown, o.short);
    }
  }

  // Only a first part of them written, or none.
  lemma FailedShows(slots: seq<Slot>, p: nat, ns: seq<Slot>, shown: seq<byte>, short: Slot, o: Outcome)
    requires WellFormed(slots) == true && RunAt(slots, p, |ns|) == true && IsEntry(ns, shown, short) == true
      && o.NoContent? && o.kept < |ns|
    ensures Showing(slots, Written(slots, p, Wrote(o, ns)), o, shown) == true
  {
    var lfn := Wrote(o, ns);
    OrphansSilent(slots, p, lfn, |ns|);
    OrphansNoOverrun(slots, p, lfn, |ns|);
    OrphansIll(slots, p, lfn, |ns|);
  }

  // The same from before the directory was made longer.
  lemma ShowingLonger(slots: seq<Slot>, m: nat, slots': seq<Slot>, o: Outcome, shown: seq<byte>)
    requires WellFormed(slots) == true && Showing(slots + Zeros(m), slots', o, shown) == true
    ensures Showing(slots, slots', o, shown) == true
  {
    ExtensionIsSilent(slots, m);
  }

  lemma PlacedShows(r: Found, n: nat, ns: seq<Slot>, dir: bool, parent: nat, shown: seq<byte>, short: Slot)
    requires Good(r.d, n) == true && n >= 2 && parent < U32
    requires WellFormed(SlotsIn(r.d, n)) == true && IsEntry(ns, shown, short) == true
    requires r.p >= 0 ==> RunAt(SlotsIn(r.d, n), r.p, |ns|) == true
    ensures var o := Placed(r, n, ns, dir, parent); Showing(SlotsIn(r.d, n), SlotsIn(o.d, n), o, shown) == true
  {
    var o := Placed(r, n, ns, dir, parent);
    if r.p >= 0 {
      PlacedSlots(r, n, ns, dir, parent);
      if o.Made? {
        MadeShows(SlotsIn(r.d, n), r.p, ns, shown, short, o);
      } else {
        FailedShows(SlotsIn(r.d, n), r.p, ns, shown, short, o);
      }
    }
  }

  // Creation in a well-formed directory: with success one entry more is shown, the others as
  // before; without, the same entries, in a well-formed directory unless slots were left behind.
  lemma CreationShows(d: Dir, n: nat, name: seq<byte>, attr: byte, root: nat)
    requires Good(d, n) == true && n >= 2 && Nameable(name) && Plain(attr) && WellFormed(SlotsIn(d, n)) == true
    ensures var o := Creation(d, n, name, attr, root);
      Showing(SlotsIn(d, n), SlotsIn(o.d, n), o, StoredName(name)) == true
  {
    var ns := NewSlots(name, attr);
    var r := RoomIn(d, n, |ns|);
    CreationIs(d, n, name, attr, root, ns, r);
    NewEntry(name, attr);
    RoomWell(d, r, n, |ns|);
    ShownIn(d, r, n, ns, IsDirectory(attr), ParentOf(d.cs[0], root), StoredName(name), ShortSlot(name, attr));
  }

  lemma ShownIn(d: Dir, r: Found, n: nat, ns: seq<Slot>, dir: bool, parent: nat, shown: seq<byte>, short: Slot)
    requires Good(r.d, n) == true && n >= 2 && parent < U32 && |d.cs| <= |r.d.cs|
    requires WellFormed(SlotsIn(d, n)) == true && IsEntry(ns, shown, short) == true
      && WellFormed(SlotsIn(r.d, n)) == true
    requires SlotsIn(r.d, n) == SlotsIn(d, n) + Zeros(Row(|r.d.cs| - |d.cs|, n))
    requires r.p >= 0 ==> RunAt(SlotsIn(r.d, n), r.p, |ns|) == true
    ensures var o := Placed(r, n, ns, dir, parent); Showing(SlotsIn(d, n), SlotsIn(o.d, n), o, shown) == true
  {
    PlacedShows(r, n, ns, dir, parent, shown, short);
    var o := Placed(r, n, ns, dir, parent);
    ShowingLonger(SlotsIn(d, n), Row(|r.d.cs| - |d.cs|, n), SlotsIn(o.d, n), o, shown);
  }

  lemma LongerWell(d: Dir, r: Found, n: nat, total: nat)
    requires Exact(d, r, n, total) == true && WellFormed(SlotsIn(d, n)) == true
    ensures WellFormed(SlotsIn(r.d, n)) == true && (r.p >= 0 ==> RunAt(SlotsIn(r.d, n), r.p, total) == true)
    ensures |d.cs| <= |r.d.cs| && SlotsIn(r.d, n) == SlotsIn(d, n) + Zeros(Row(|r.d.cs| - |d.cs|, n))
  {
    ExtensionIsSilent(SlotsIn(d, n), Row(|r.d.cs| - |d.cs|, n));
  }

  lemma RoomWell(d: Dir, r: Found, n: nat, total: nat)
    requires Good(d, n) == true && total >= 1 && r == RoomIn(d, n, total) && WellFormed(SlotsIn(d, n)) == true
    ensures WellFormed(SlotsIn(r.d, n)) == true && (r.p >= 0 ==> RunAt(SlotsIn(r.d, n), r.p, total) == true)
    ensures |d.cs| <= |r.d.cs| && SlotsIn(r.d, n) == SlotsIn(d, n) + Zeros(Row(|r.d.cs| - |d.cs|, n))
  {
    RoomExact(d, n, total);
    LongerWell(d, r, n, total);
  }

  // A new file has no cluster. A new directory has one, which its entry names; it is a
  // well-formed directory of its own that shows no entry and leads back to the parent.
  lemma CreationContent(d: Dir, n: nat, name: seq<byte>, attr: byte, root: nat)
    requires Good(d, n) == true && n >= 2 && Nameable(name) && Creation(d, n, name, attr, root).Made?
    ensures var o := Creation(d, n, name, attr, root);
      if !IsDirectory(attr) then o.content == [] && o.short == ShortSlot(name, attr)
      else |o.content| == 1 && NewDirectory(o, n, ParentOf(d.cs[0], root))
  {
    var ns := NewSlots(name, attr);
    var r := RoomIn(d, n, |ns|);
    CreationIs(d, n, name, attr, root, ns, r);
    if IsDirectory(attr) { PlacedContent(r, n, ns, ParentOf(d.cs[0], root)); }
  }

  ghost predicate NewDirectory(o: Outcome, n: nat, parent: nat)
    requires o.Made? && |o.content| == 1
  {
    var c, d := o.content[0], Dir(o.d.v, o.content);
    && c < U32 && parent < U32 && StartAt(o.short, 0) == c && c !in o.d.cs
    && n >= 2 && Good(d, n) && WellFormed(SlotsIn(d, n)) && Entries(SlotsIn(d, n)) == []
    && SlotsIn(d, n) == [DotSlot([DOT], c), DotSlot([DOT, DOT], parent)] + Zeros(n - 2)
  }

  lemma PlacedContent(r: Found, n: nat, ns: seq<Slot>, parent: nat)
    requires Good(r.d, n) == true && n >= 2 && ns != [] && parent < U32 && r.p >= 0 && !Full(r.d.v)
    ensures var o := Placed(r, n, ns, true, parent); o.Made? && |o.content| == 1 && NewDirectory(o, n, parent)
  {
    var o, c := Placed(r, n, ns, true, parent), FirstFree(r.d.v.fat, 2);
    FreeOutside(r.d, n, c);
    ClusterNamed(ns[|ns| - 1], c);
    NewDirectoryEmpty(o.d.v, c, parent, n);
  }

  // ---- Creating, then looking up ----

  // In a directory without the name, one entry more is found under it exactly when it is its own.
  lemma InsertedFound(es: seq<Seen>, es': seq<Seen>, x: Seen, name: seq<byte>)
    requires Inserted(es, es', x) && Absent(es, name)
    ensures var k := FirstNamed(es', name, 0);
      if x.name == name then k < |es'| && es'[k] == x else k == |es'|
  {
    var m: nat :| InsertedAt(es, es', x, m);
    forall j | 0 <= j < |es'| && j != m ensures es'[j].name != name {
      if j < m {
        assert es'[j] == es'[..m][j] == es[j];
      } else {
        assert es'[j] == es'[m + 1..][j - m - 1] == es[j - 1];
      }
    }
  }

  lemma NothingFound(es: seq<Seen>, name: seq<byte>)
    requires Absent(es, name)
    ensures FirstNamed(es, name, 0) == |es|
  {
  }

  lemma LookedUp(slots: seq<Slot>, slots': seq<Slot>, o: Outcome, name: seq<byte>, cs: seq<nat>, n: nat)
    requires Showing(slots, slots', o, StoredName(name)) == true && Absent(Entries(slots), name) && Nameable(name)
    ensures Answer(Entries(slots'), FirstNamed(Entries(slots'), name, 0), cs, n)
         == if o.Made? && Faithful(name) then Located(name, o.short, SpotAt(cs, n, o.at)) else Missing
  {
    FaithfulExactly(name);
    if o.Made? {
      InsertedFound(Entries(slots), Entries(slots'), Seen(StoredName(name), o.short, o.at), name);
    } else {
      NothingFound(Entries(slots), name);
    }
  }

  // Create an entry in a directory without the name, then look it up: found, in the slot that
  // creation reported, exactly when creation succeeds and the name keeps its form.
  method CreateThenFind(creator: Creator, dirCluster: nat, name: seq<byte>, attr: byte, ghost d: Dir)
    returns (ok: bool, out: Spot, found: Located, ghost o: Outcome)
    requires creator.Valid() && creator.fs.V() == d.v && Good(d, creator.PerCluster()) == true && dirCluster == d.cs[0]
    requires Nameable(name) && Plain(attr) && WellFormed(SlotsIn(d, creator.PerCluster())) == true
    requires Absent(Entries(SlotsIn(d, creator.PerCluster())), name)
    modifies creator.fs.dev, creator.fs.dev.cache
    ensures creator.Valid() && creator.fs.V() == o.d.v && (ok <==> o.Made?)
    ensures o == Creation(d, creator.PerCluster(), name, attr, creator.rootCluster)
    ensures ok <==> Enough(SlotsIn(d, creator.PerCluster()), |FreeClusters(d.v.fat)|, creator.PerCluster(),
                           |NewSlots(name, attr)|, IsDirectory(attr))
    ensures found == if o.Made? && Faithful(name) then Located(name, o.short, out) else Missing
  {
    ghost var n := creator.PerCluster();
    CreationIff(d, n, name, attr, creator.rootCluster);
    CreationShows(d, n, name, attr, creator.rootCluster);
    CreationConfined(d, n, name, attr, creator.rootCluster);
    ok, out, o := creator.CreateEntry(dirCluster, name, attr, d.cs);
    found := Find(creator, dirCluster, name, d, o);
  }

  // The look-up.
  method Find(creator: Creator, dirCluster: nat, name: seq<byte>, ghost d: Dir, ghost o: Outcome)
      returns (found: Located)
    requires creator.Valid() && creator.fs.V() == o.d.v && Good(o.d, creator.PerCluster()) == true
      && dirCluster == o.d.cs[0]
    requires Nameable(name) && Absent(Entries(SlotsIn(d, creator.PerCluster())), name)
    requires Showing(SlotsIn(d, creator.PerCluster()), SlotsIn(o.d, creator.PerCluster()), o, StoredName(name)) == true
    modifies creator.fs.dev, creator.fs.dev.cache
    ensures creator.Valid() && creator.fs.V() == o.d.v
    ensures found == if o.Made? && Faithful(name)
      then Located(name, o.short, SpotAt(o.d.cs, creator.PerCluster(), o.at)) else Missing
  {
    ghost var n := creator.PerCluster();
    LookedUp(SlotsIn(d, n), SlotsIn(o.d, n), o, name, o.d.cs, n);
    found := creator.directory.FindEntry(dirCluster, name, o.d.cs);
  }
}
