// Reading a directory: the entries of a chain, one by its name, and the first run of free
// slots, with the chain made longer where there is none.
module FatDirectory {
  import opened Bytes
  import opened FatChains
  import opened FatLayout
  import opened Fat32
  import opened Names
  import opened DirectorySlots
  import opened DirectoryChain
  import opened DirectoryPlaces

  // The slots from base on are those of a cluster.
  ghost predicate Covers(slots: seq<Slot>, base: nat, buf: seq<byte>, n: nat) {
    && |buf| == 32 * n && base + n <= |slots|
    && forall i :: 0 <= i < n ==> slots[base + i] == SlotOf(buf, n, i)
  }

  lemma ClusterCovers(d: Dir, n: nat, k: nat)
    requires Good(d, n) == true && k < |d.cs|
    ensures InRange(d.v.fat, d.cs[k]) && Covers(SlotsIn(d, n), Row(k, n), d.v.data[d.cs[k]], n)
  {
    GoodSlots(d, n);
    RowSum(k + 1, |d.cs| - (k + 1), n);
    assert InRange(d.v.fat, d.cs[k]);
    forall i | 0 <= i < n ensures SlotsIn(d, n)[Row(k, n) + i] == SlotOf(d.v.data[d.cs[k]], n, i) {
      DirSlotAt(d.v.data, d.cs, n, k, i);
    }
  }

  lemma InChain(d: Dir, n: nat, k: nat)
    requires Good(d, n) == true && k < |d.cs|
    ensures 2 <= d.cs[k] < FAT_EOC && d.cs[k] < |d.v.fat|
  {
    assert InRange(d.v.fat, d.cs[k]);
  }

  // What reading on through a cluster comes to.
  datatype Step = Ended | At(name: seq<byte>, slot: Slot, i: nat) | More(left: nat, lfn: seq<Slot>)

  // The entry a reader has picked after that step through the cluster whose slots start at base.
  function After(step: Step, slots: seq<Slot>, base: nat, n: nat): Picked {
    match step
    case Ended => None
    case At(name, slot, i) => Some(Seen(name, slot, base + i))
    case More(left, lfn) => Pick(slots, base + n, lfn, left)
  }

  lemma PickNone(slots: seq<Slot>, pos: nat, lfn: seq<Slot>, left: nat)
    requires pos == |slots|
    ensures Pick(slots, pos, lfn, left) == None
  {
  }

  // The rest of the search is that from the next cluster on.
  lemma PickMore(slots: seq<Slot>, k: nat, n: nat, step: Step)
    requires step.More?
    ensures After(step, slots, Row(k, n), n) == Pick(slots, Row(k + 1, n), step.lfn, step.left)
  {
  }

  lemma PickedIn(p: Picked, step: Step, slots: seq<Slot>, cs: seq<nat>, n: nat, k: nat)
    requires k < |cs| && step.At? && step.i < n && p == After(step, slots, Row(k, n), n)
    ensures Locate(p, cs, n) == Located(step.name, step.slot, Spot(cs[k], step.i))
  {
    SpotIs(cs, n, k, step.i);
  }

  // The search for p has come to the start of cluster number k, or past the last.
  ghost predicate Picking(p: Picked, d: Dir, n: nat, slots: seq<Slot>, k: nat, cluster: nat, lfn: seq<Slot>,
      left: nat) {
    && k <= |d.cs| && |slots| == Row(|d.cs|, n) && p == Pick(slots, Row(k, n), lfn, left)
    && if k < |d.cs| then cluster == d.cs[k] else cluster >= FAT_EOC
  }

  lemma PickStart(d: Dir, n: nat, slots: seq<Slot>, index: nat)
    requires Good(d, n) == true && slots == SlotsIn(d, n)
    ensures Picking(Pick(slots, 0, [], index), d, n, slots, 0, d.cs[0], [], index) == true && 2 <= d.cs[0] < FAT_EOC
  {
    InChain(d, n, 0);
    GoodSlots(d, n);
  }

  lemma PickEnd(p: Picked, d: Dir, n: nat, slots: seq<Slot>, k: nat, cluster: nat, lfn: seq<Slot>, left: nat)
    requires Good(d, n) == true && Picking(p, d, n, slots, k, cluster, lfn, left) == true && !(2 <= cluster < FAT_EOC)
    ensures p == None
  {
    if k < |d.cs| { InChain(d, n, k); }
    PickNone(slots, Row(k, n), lfn, left);
  }

  lemma PickHere(p: Picked, d: Dir, n: nat, slots: seq<Slot>, k: nat, cluster: nat, lfn: seq<Slot>, left: nat)
    requires Picking(p, d, n, slots, k, cluster, lfn, left) == true && cluster < FAT_EOC
    ensures k < |d.cs| && cluster == d.cs[k] && p == Pick(slots, Row(k, n), lfn, left)
  {
  }

  lemma PickNext(p: Picked, d: Dir, n: nat, slots: seq<Slot>, k: nat, cluster: nat, lfn: seq<Slot>, left: nat,
      step: Step,
                 next: nat)
    requires Picking(p, d, n, slots, k, cluster, lfn, left) == true && k < |d.cs| && (step.At? ==> step.i < n)
    requires Pick(slots, Row(k, n), lfn, left) == After(step, slots, Row(k, n), n)
    requires step.More? ==> if k + 1 < |d.cs| then next == d.cs[k + 1] else next >= FAT_EOC
    ensures step.Ended? ==> Locate(p, d.cs, n) == Missing
    ensures step.At? ==> Locate(p, d.cs, n) == Located(step.name, step.slot, Spot(cluster, step.i))
    ensures step.More? ==> Picking(p, d, n, slots, k + 1, next, step.lfn, step.left) == true
  {
    if step.At? { PickedIn(p, step, slots, d.cs, n, k); }
    if step.More? { PickMore(slots, k, n, step); }
  }

  class Directory {
    const fs: Filesystem

    constructor (filesystem: Filesystem)
      ensures fs == filesystem
    {
      fs := filesystem;
    }

    // Slots in a cluster.
    function PerCluster(): nat { 16 * fs.g.spc }

    // The volume and a directory's chain in it.
    ghost function D(cs: seq<nat>): Dir
      reads fs.dev
    {
      Dir(fs.V(), cs)
    }

    // The slots of one cluster, from base on, in search of the entry that has left entries before it.
    method ScanCluster(buf: seq<byte>, left0: nat, lfn0: seq<Slot>, ghost slots: seq<Slot>, ghost base: nat)
        returns (r: Step)
      requires Covers(slots, base, buf, PerCluster())
      ensures r.At? ==> r.i < PerCluster()
      ensures Pick(slots, base, lfn0, left0) == After(r, slots, base, PerCluster())
    {
      var n := PerCluster();
      var left, lfn, i := left0, lfn0, 0;
      while i < n
        invariant 0 <= i <= n && left >= 0 && Pick(slots, base, lfn0, left0) == Pick(slots, base + i, lfn, left)
      {
        var s: Slot := SlotOf(buf, n, i);
        assert s == slots[base + i];
        if s[0] == END { return Ended; }
        if s[0] == FREE {
          lfn := [];
        } else if s[11] == LFN_ATTR {
          if |lfn| < MAX_LFN { lfn := lfn + [s]; }
        } else if s[11] / 8 % 2 == 1 {
          lfn := [];
        } else if s[0] == DOT && (s[1] == SPACE || s[1] == DOT) {
          lfn := [];
        } else {
          if left == 0 { return At(NameOf(lfn, s), s, i); }
          left, lfn := left - 1, [];
        }
        i := i + 1;
      }
      return More(left, lfn);
    }

    // Entry number index of the directory.
    method ReadDirEntry(dirCluster: nat, index: nat, ghost cs: seq<nat>) returns (r: Located)
      requires fs.Valid() && Good(D(cs), PerCluster()) == true && dirCluster == cs[0]
        && NoOverrun(SlotsIn(D(cs), PerCluster())) == true
      modifies fs.dev, fs.dev.cache
      ensures fs.Valid() && fs.V() == old(fs.V())
      ensures r == Answer(Entries(SlotsIn(old(D(cs)), PerCluster())), index, cs, PerCluster())
    {
      ghost var slots := SlotsIn(D(cs), PerCluster());
      PickIsScan(slots, 0, [], index);
      r := ReadPicked(dirCluster, index, D(cs), slots);
    }

    method ReadPicked(dirCluster: nat, index: nat, ghost d: Dir, ghost slots: seq<Slot>) returns (r: Located)
      requires fs.Valid() && fs.V() == d.v && Good(d, PerCluster()) == true && dirCluster == d.cs[0]
      requires slots == SlotsIn(d, PerCluster())
      modifies fs.dev, fs.dev.cache
      ensures fs.Valid() && fs.V() == d.v
      ensures r == Locate(Pick(slots, 0, [], index), d.cs, PerCluster())
    {
      ghost var n, k: nat := PerCluster(), 0;
      ghost var p := Pick(slots, 0, [], index);
      PickStart(d, n, slots, index);
      var cluster: nat, left: nat, lfn: seq<Slot> := dirCluster, index, [];
      while 2 <= cluster < FAT_EOC
        invariant fs.Valid() && fs.V() == d.v && Picking(p, d, n, slots, k, cluster, lfn, left) == true
        decreases |d.cs| - k
      {
        PickHere(p, d, n, slots, k, cluster, lfn, left);
        var step, next := ReadOne(cluster, left, lfn, d, k, slots);
        PickNext(p, d, n, slots, k, cluster, lfn, left, step, next);
        if step.Ended? { return Missing; }
        if step.At? { return Located(step.name, step.slot, Spot(cluster, step.i)); }
        left, lfn, cluster := step.left, step.lfn, next;
        k := k + 1;
      }
      PickEnd(p, d, n, slots, k, cluster, lfn, left);
      return Missing;
    }

    // One cluster, and the link behind it.
    method ReadOne(cluster: nat, left: nat, lfn: seq<Slot>, ghost d: Dir, ghost k: nat, ghost slots: seq<Slot>)
      returns (step: Step, next: nat)
      requires fs.Valid() && fs.V() == d.v && Good(d, PerCluster()) == true && slots == SlotsIn(d, PerCluster())
      requires k < |d.cs| && cluster == d.cs[k]
      modifies fs.dev, fs.dev.cache
      ensures fs.Valid() && fs.V() == d.v && (step.At? ==> step.i < PerCluster())
      ensures Pick(slots, Row(k, PerCluster()), lfn, left) == After(step, slots, Row(k, PerCluster()), PerCluster())
      ensures step.More? ==> if k + 1 < |d.cs| then next == d.cs[k + 1] && 2 <= next < FAT_EOC else next >= FAT_EOC
    {
      ClusterCovers(d, PerCluster(), k);
      var buf := fs.ReadCluster(cluster);
      step := ScanCluster(buf, left, lfn, slots, Row(k, PerCluster()));
      next := 0;
      if step.More? {
        ChainNext(d.v.fat, d.cs, k);
        next := fs.FatGet(cluster);
      }
    }

    // The first entry of that name.
    method FindEntry(dirCluster: nat, name: seq<byte>, ghost cs: seq<nat>) returns (r: Located)
      requires fs.Valid() && Good(D(cs), PerCluster()) == true && dirCluster == cs[0]
        && NoOverrun(SlotsIn(D(cs), PerCluster())) == true
      modifies fs.dev, fs.dev.cache
      ensures fs.Valid() && fs.V() == old(fs.V())
      ensures var es := Entries(SlotsIn(old(D(cs)), PerCluster()));
        r == Answer(es, FirstNamed(es, name, 0), cs, PerCluster())
    {
      ghost var es := Entries(SlotsIn(D(cs), PerCluster()));
      var i := 0;
      while true
        invariant fs.Valid() && fs.V() == old(fs.V()) && 0 <= i <= |es|
          && FirstNamed(es, name, 0) == FirstNamed(es, name, i)
        decreases |es| - i
      {
        r := ReadDirEntry(dirCluster, i, cs);
        if r == Missing || r.name == name { return; }
        i := i + 1;
      }
    }

    // ---- Room for a new entry ----

    // The slots of one cluster, in search of total free ones in a row; run of them so far, from
    // start on.
    method SearchCluster(buf: seq<byte>, cluster: nat, total: nat, run: nat, start: Spot, ghost slots: seq<Slot>,
        ghost base: nat)
      returns (run': nat, start': Spot, i: nat)
      requires Covers(slots, base, buf, PerCluster()) && run < total && run == RunOf(slots, base)
      ensures i <= PerCluster() && run' == RunOf(slots, base + i)
      ensures run' == total || (run' < total && i == PerCluster())
      ensures NextRun(slots, base, run, total) == NextRun(slots, base + i, run', total)
      ensures run' > 0 ==> start' == if run' <= i then Spot(cluster, i - run') else start
    {
      var n := PerCluster();
      i, run', start' := 0, run, start;
      while i < n
        invariant 0 <= i <= n && run' < total && run' == RunOf(slots, base + i)
        invariant NextRun(slots, base, run, total) == NextRun(slots, base + i, run', total)
        invariant run' > 0 ==> start' == if run' <= i then Spot(cluster, i - run') else start
      {
        var s: Slot := SlotOf(buf, n, i);
        assert s == slots[base + i];
        if s[0] == END || s[0] == FREE {
          if run' == 0 { start' := Spot(cluster, i); }
          run' := run' + 1;
          i := i + 1;
          if run' >= total { return; }
        } else {
          run' := 0;
          i := i + 1;
        }
      }
    }

    // A zeroed cluster behind the last one of the chain; 0 exactly when the volume is full.
    method AddCluster(last: nat, ghost d: Dir) returns (c: nat)
      requires fs.Valid() && fs.V() == d.v && Good(d, PerCluster()) == true && last == d.cs[|d.cs| - 1]
      modifies fs.dev, fs.dev.cache
      ensures fs.Valid() && (c == 0 <==> Full(d.v))
      ensures c == 0 ==> fs.V() == d.v
      ensures c != 0 ==> D(d.cs + [c]) == Longer(d, PerCluster()) && 2 <= c < FAT_EOC
    {
      InChain(d, PerCluster(), |d.cs| - 1);
      c := LinkNew(last);
      if c == 0 { return; }
      fs.WriteCluster(c, ZeroCluster(PerCluster()));
      LongerIs(d, fs.V(), c, PerCluster());
    }

    // Its table entries.
    method LinkNew(last: nat) returns (c: nat)
      requires fs.Valid() && last < fs.g.count
      modifies fs.dev, fs.dev.cache
      ensures fs.Valid() && (c == 0 <==> Full(old(fs.V())))
      ensures c == 0 ==> fs.V() == old(fs.V())
      ensures c != 0 ==> 2 <= c < fs.g.count && c == FirstFree(old(fs.V()).fat, 2)
      ensures c != 0 ==> fs.V() == old(fs.V()).(fat := old(fs.V()).fat[c := FAT_EOC][last := c][c := FAT_EOC])
    {
      c := fs.AllocateCluster();
      if c == 0 { return; }
      EntryFits(c);
      fs.FatSet(last, c);
      fs.FatSet(c, FAT_EOC);
      fs.FlushFat();
    }

    // One cluster of the search; i slots into it a run has been found, or it is at its end.
    method SearchOne(cluster: nat, total: nat, run: nat, start: Spot, ghost d: Dir, ghost k: nat)
      returns (run': nat, start': Spot, ghost i: nat)
      requires fs.Valid() && fs.V() == d.v && Good(d, PerCluster()) == true
        && Searching(d, PerCluster(), k, run, start, total) == true
      requires k < |d.cs| && cluster == d.cs[k]
      modifies fs.dev, fs.dev.cache
      ensures fs.Valid() && fs.V() == d.v && i <= PerCluster()
      ensures run' == total ==> HitAt(d, PerCluster(), k, i, start', total) == true
      ensures run' != total ==> Searching(d, PerCluster(), k + 1, run', start', total) == true
    {
      ghost var n, slots := PerCluster(), SlotsIn(d, PerCluster());
      ClusterCovers(d, n, k);
      var buf := fs.ReadCluster(cluster);
      var j;
      run', start', j := SearchCluster(buf, cluster, total, run, start, slots, Row(k, n));
      i := j;
      Hit(d, n, k, start, total, i, run', start', run);
    }

    // Behind cluster number k: the next one, added if there is none; 0 when the volume is full.
    method NextOrNew(cluster: nat, ghost d: Dir, ghost k: nat, ghost run: nat, ghost start: Spot, ghost total: nat)
      returns (next: nat, ghost d': Dir)
      requires fs.Valid() && fs.V() == d.v && Good(d, PerCluster()) == true && k < |d.cs| && cluster == d.cs[k]
        && total >= 1
      requires Searching(d, PerCluster(), k + 1, run, start, total) == true
      modifies fs.dev, fs.dev.cache
      ensures fs.Valid() && fs.V() == d'.v && d' == (if k + 1 < |d.cs| || next == 0 then d else Longer(d, PerCluster()))
      ensures next == 0 <==> k + 1 == |d.cs| && Full(d.v)
      ensures next != 0 ==> k + 1 < |d'.cs| && next == d'.cs[k + 1] && 2 <= next < FAT_EOC
    {
      d' := d;
      ChainNext(d.v.fat, d.cs, k);
      next := fs.FatGet(cluster);
      if next >= FAT_EOC {
        next := AddCluster(cluster, d);
        if next != 0 { d' := Longer(d, PerCluster()); }
      }
    }

    // The first total free slots in a row, with the directory made longer until there are some.
    method FindRun(dirCluster: nat, total: nat, ghost d0: Dir, ghost r: Found) returns (found: bool, start: Spot)
      requires fs.Valid() && fs.V() == d0.v && Good(d0, PerCluster()) == true && dirCluster == d0.cs[0] && total >= 1
      requires r == RoomIn(d0, PerCluster(), total)
      modifies fs.dev, fs.dev.cache
      ensures fs.Valid() && fs.V() == r.d.v && (found <==> r.p >= 0)
      ensures found ==> start == SpotAt(r.d.cs, PerCluster(), r.p)
    {
      ghost var d, k: nat := d0, 0;
      var cluster: nat, run: nat := dirCluster, 0;
      start, found := Spot(0, 0), false;
      InChain(d, PerCluster(), 0);
      while 2 <= cluster < FAT_EOC && !found
        invariant fs.Valid() && fs.V() == d.v
        invariant Hunting(r, d, PerCluster(), total, found, cluster, k, run, start) == true
        decreases |FreeClusters(d.v.fat)|, |d.cs| - k, cluster, !found
      {
        found, cluster, run, start, d, k := FindTurn(cluster, total, run, start, r, d, k);
      }
      Hunted(r, d, PerCluster(), total, found, cluster, k, run, start);
    }

    // One round of it.
    method FindTurn(cluster: nat, total: nat, run: nat, start: Spot, ghost r: Found, ghost d: Dir, ghost k: nat)
      returns (found: bool, next: nat, run': nat, start': Spot, ghost d': Dir, ghost k': nat)
      requires fs.Valid() && fs.V() == d.v && total >= 1 && cluster != 0
      requires Hunting(r, d, PerCluster(), total, false, cluster, k, run, start) == true
      modifies fs.dev, fs.dev.cache
      ensures fs.Valid() && fs.V() == d'.v && Hunting(r, d', PerCluster(), total, found, next, k', run', start') == true
      ensures d' == d || |FreeClusters(d'.v.fat)| < |FreeClusters(d.v.fat)|
      ensures d' == d ==> k < k' <= |d.cs| || (k' == k && (next < cluster || (next == cluster && found)))
    {
      ghost var n, i := PerCluster(), 0;
      found, next, d', k' := false, cluster, d, k;
      HuntHere(r, d, n, total, cluster, k, run, start);
      run', start', i := SearchOne(cluster, total, run, start, d, k);
      if run' == total {
        found := true;
        HuntHit(r, d, n, total, cluster, k, i, run, run', start, start');
      } else {
        next, d' := NextOrNew(cluster, d, k, run', start', total);
        HuntNext(r, d, d', n, total, cluster, next, k, run, run', start, start');
        if next != 0 { k' := k + 1; }
      }
    }
  }

  // Where the search stands: at its end, with the room found or none, or before cluster number k.
  ghost predicate Hunting(r: Found, d: Dir, n: nat, total: nat, found: bool, cluster: nat, k: nat, run: nat,
      start: Spot) {
    && Good(d, n) && r == RoomIn(d, n, total)
    && if found then r.d == d && r.p >= 0 && start == SpotAt(d.cs, n, r.p)
       else if cluster == 0 then r.d == d && r.p < 0
       else k < |d.cs| && cluster == d.cs[k] && 2 <= cluster < FAT_EOC && Searching(d, n, k, run, start, total)
  }

  lemma HuntHere(r: Found, d: Dir, n: nat, total: nat, cluster: nat, k: nat, run: nat, start: Spot)
    requires Hunting(r, d, n, total, false, cluster, k, run, start) == true && cluster != 0
    ensures Good(d, n) == true && Searching(d, n, k, run, start, total) == true && k < |d.cs| && cluster == d.cs[k]
  {
  }

  lemma HuntHit(r: Found, d: Dir, n: nat, total: nat, cluster: nat, k: nat, i: nat, run: nat, run': nat, start: Spot,
                start': Spot)
    requires Hunting(r, d, n, total, false, cluster, k, run, start) == true && cluster != 0
    requires HitAt(d, n, k, i, start', total) == true
    ensures Hunting(r, d, n, total, true, cluster, k, run', start') == true
  {
    RoomHit(d, n, k, i, start', total);
  }

  lemma HuntNext(r: Found, d: Dir, d': Dir, n: nat, total: nat, cluster: nat, next: nat, k: nat, run: nat, run': nat,
                 start: Spot, start': Spot)
    requires Hunting(r, d, n, total, false, cluster, k, run, start) == true && cluster != 0 && total >= 1
    requires Searching(d, n, k + 1, run', start', total) == true
    requires d' == (if k + 1 < |d.cs| || next == 0 then d else Longer(d, n))
    requires next == 0 <==> k + 1 == |d.cs| && Full(d.v)
    requires next != 0 ==> k + 1 < |d'.cs| && next == d'.cs[k + 1] && 2 <= next < FAT_EOC
    ensures Hunting(r, d', n, total, false, next, if next != 0 then k + 1 else k, run', start') == true
    ensures d' == d || |FreeClusters(d'.v.fat)| < |FreeClusters(d.v.fat)|
  {
    SearchNext(d, d', n, k, run', start', total);
  }

  lemma Hunted(r: Found, d: Dir, n: nat, total: nat, found: bool, cluster: nat, k: nat, run: nat, start: Spot)
    requires Hunting(r, d, n, total, found, cluster, k, run, start) == true && (found || !(2 <= cluster < FAT_EOC))
    ensures r.d == d && (found <==> r.p >= 0) && (found ==> start == SpotAt(d.cs, n, r.p))
  {
  }

  // A run of total free slots ends i slots into cluster number k and begins at start.
  ghost predicate HitAt(d: Dir, n: nat, k: nat, i: nat, start: Spot, total: nat) {
    var slots, p := SlotsIn(d, n), Row(k, n) + i - total;
    NextRun(slots, 0, 0, total) == p && p >= 0 && start == SpotAt(d.cs, n, p)
  }

  lemma Hit(d: Dir, n: nat, k: nat, start: Spot, total: nat, i: nat, run': nat, start': Spot, run: nat)
    requires Good(d, n) == true && Searching(d, n, k, run, start, total) == true && k < |d.cs| && i <= n && total >= 1
    requires Row(k, n) + n <= |SlotsIn(d, n)| && run' == RunOf(SlotsIn(d, n), Row(k, n) + i)
    requires run' == total || (run' < total && i == n)
    requires NextRun(SlotsIn(d, n), Row(k, n), run, total) == NextRun(SlotsIn(d, n), Row(k, n) + i, run', total)
    requires run' > 0 ==> start' == if run' <= i then Spot(d.cs[k], i - run') else start
    ensures run' == total ==> HitAt(d, n, k, i, start', total) == true
    ensures run' != total ==> Searching(d, n, k + 1, run', start', total) == true
  {
    StartMoved(SlotsIn(d, n), k, start, d.cs, n, i);
  }

  lemma RoomHit(d: Dir, n: nat, k: nat, i: nat, start: Spot, total: nat)
    requires Good(d, n) == true && HitAt(d, n, k, i, start, total) == true
    ensures var r := RoomIn(d, n, total); r.d == d && r.p >= 0 && start == SpotAt(d.cs, n, r.p)
  {
    RoomStep(d, n, total);
  }

  // After a cluster without a run: on to the next, or into the longer directory, or nowhere.
  lemma SearchNext(d: Dir, d': Dir, n: nat, k: nat, run: nat, start: Spot, total: nat)
    requires Good(d, n) == true && Searching(d, n, k + 1, run, start, total) == true && k < |d.cs| && total >= 1
    requires d' == if k + 1 < |d.cs| || Full(d.v) then d else Longer(d, n)
    ensures Good(d', n) == true && RoomIn(d', n, total) == RoomIn(d, n, total)
    ensures k + 1 == |d.cs| && Full(d.v) ==> RoomIn(d, n, total).d == d && RoomIn(d, n, total).p < 0
    ensures !(k + 1 == |d.cs| && Full(d.v)) ==> Searching(d', n, k + 1, run, start, total) == true
    ensures d' != d ==> |FreeClusters(d'.v.fat)| < |FreeClusters(d.v.fat)|
  {
    GoodSlots(d, n);
    RoomStep(d, n, total);
    if k + 1 == |d.cs| && !Full(d.v) { SearchGrows(d, n, run, start, total); }
  }

  lemma LongerIs(d: Dir, w: Volume, c: nat, n: nat)
    requires Good(d, n) == true && !Full(d.v) && c == FirstFree(d.v.fat, 2)
    requires var last := d.cs[|d.cs| - 1];
      && last < |d.v.fat| && c < |d.v.data|
      && w == d.v.(fat := d.v.fat[c := FAT_EOC][last := c][c := FAT_EOC], data := d.v.data[c := ZeroCluster(n)])
    ensures Dir(w, d.cs + [c]) == Longer(d, n) && 2 <= c < FAT_EOC
  {
    var last := d.cs[|d.cs| - 1];
    ChainNotFree(d.v.fat, d.cs, last);
    assert d.v.fat[c := FAT_EOC][last := c][c := FAT_EOC] == d.v.fat[c := FAT_EOC][last := c];
  }
}
