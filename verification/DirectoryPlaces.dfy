// Places of slots in a directory's chain; picking an entry and finding free slots by walking
// over the slots; and a directory that grows until it has room.
module DirectoryPlaces {
  import opened Bytes
  import opened FatChains
  import opened FatLayout
  import FileData
  import opened Fat32
  import opened Names
  import opened DirectorySlots
  import opened DirectoryChain

  // ---- Places ----

  // A slot by its cluster and its number there.
  datatype Spot = Spot(cluster: nat, i: nat)

  // Where slot number at of a directory is, with n slots in each of the clusters cs.
  function SpotAt(cs: seq<nat>, n: nat, at: nat): Spot {
    if cs == [] then Spot(0, 0)
    else if at < n then Spot(cs[0], at)
    else SpotAt(cs[1..], n, at - n)
  }

  lemma {:induction false} SpotIs(cs: seq<nat>, n: nat, k: nat, i: nat)
    requires k < |cs| && i < n
    ensures SpotAt(cs, n, Row(k, n) + i) == Spot(cs[k], i)
  {
    if k > 0 {
      RowSum(1, k - 1, n);
      SpotIs(cs[1..], n, k - 1, i);
    }
  }

  // Slots keep their places when clusters are added behind.
  lemma {:induction false} SpotStays(cs: seq<nat>, n: nat, at: nat, c: nat)
    requires at < Row(|cs|, n)
    ensures SpotAt(cs + [c], n, at) == SpotAt(cs, n, at)
  {
    RowSum(1, |cs| - 1, n);
    if at >= n {
      assert (cs + [c])[1..] == cs[1..] + [c];
      SpotStays(cs[1..], n, at - n, c);
    }
  }

  // The link behind cluster number k of a chain.
  lemma ChainNext(fat: seq<nat>, cs: seq<nat>, k: nat)
    requires IsChain(fat, cs) && k < |cs| && Table(fat)
    ensures if k + 1 < |cs| then Link(fat, cs[k]) == cs[k + 1] && 2 <= cs[k + 1] < FAT_EOC
            else Link(fat, cs[k]) >= FAT_EOC
  {
  }

  // ---- Picking an entry ----

  datatype Picked = None | Some(e: Seen)

  // Entry number index of those from slot pos on, with long-name slots already collected.
  function Pick(slots: seq<Slot>, pos: nat, lfn: seq<Slot>, index: nat): Picked
    decreases |slots| - pos
  {
    if pos >= |slots| || IsEnd(slots[pos]) then None
    else if !IsVisible(slots[pos]) then Pick(slots, pos + 1, Collected(lfn, slots[pos]), index)
    else if index == 0 then Some(Seen(NameOf(lfn, slots[pos]), slots[pos], pos))
    else Pick(slots, pos + 1, [], index - 1)
  }

  lemma {:induction false} PickIsScan(slots: seq<Slot>, pos: nat, lfn: seq<Slot>, index: nat)
    requires pos <= |slots|
    ensures var es := Scan(slots, pos, lfn);
      Pick(slots, pos, lfn, index) == if index < |es| then Some(es[index]) else None
    decreases |slots| - pos
  {
    if pos < |slots| && !IsEnd(slots[pos]) {
      if !IsVisible(slots[pos]) {
        PickIsScan(slots, pos + 1, Collected(lfn, slots[pos]), index);
      } else if index > 0 {
        PickIsScan(slots, pos + 1, [], index - 1);
      }
    }
  }

  // A directory entry and where its short slot is on disk.
  datatype Located = Missing | Located(name: seq<byte>, slot: Slot, spot: Spot)

  function Locate(p: Picked, cs: seq<nat>, n: nat): Located {
    if p.None? then Missing else Located(p.e.name, p.e.slot, SpotAt(cs, n, p.e.at))
  }

  // The answer to a request for entry number index of a directory with these entries.
  function Answer(es: seq<Seen>, index: nat, cs: seq<nat>, n: nat): Located {
    if index < |es| then Located(es[index].name, es[index].slot, SpotAt(cs, n, es[index].at)) else Missing
  }

  // ---- Finding free slots ----

  // The first total free slots in a row from slot pos on, of which run have been passed; -1 when
  // there are none.
  function NextRun(slots: seq<Slot>, pos: nat, run: nat, total: nat): int
    decreases |slots| - pos
  {
    if run >= total then pos - run
    else if pos >= |slots| then -1
    else NextRun(slots, pos + 1, if IsFree(slots[pos]) then run + 1 else 0, total)
  }

  ghost predicate FreeRun(slots: seq<Slot>, p: nat, total: nat) {
    p + total <= |slots| && forall i :: p <= i < p + total ==> IsFree(slots[i])
  }

  // No total free slots in a row end at or before pos.
  ghost predicate NoRun(slots: seq<Slot>, pos: nat, total: nat) {
    forall p: nat :: p + total <= pos ==> !FreeRun(slots, p, total)
  }

  // The run slots before pos are free, and what is before them is not.
  ghost predicate FreeTail(slots: seq<Slot>, pos: nat, run: nat) {
    && run <= pos <= |slots| && (forall i :: pos - run <= i < pos ==> IsFree(slots[i]))
    && (pos - run > 0 ==> !IsFree(slots[pos - run - 1]))
  }

  lemma NoRunOn(slots: seq<Slot>, pos: nat, run: nat, total: nat)
    requires 0 < pos && FreeTail(slots, pos, run) && NoRun(slots, pos - 1, total) && run < total
    ensures NoRun(slots, pos, total)
  {
    forall p: nat | p + total <= pos ensures !FreeRun(slots, p, total) {
      if p + total == pos { assert p <= pos - run - 1 < p + total; }
    }
  }

  // What is found is the first such run, and none is missed.
  lemma {:induction false} NextRunExact(slots: seq<Slot>, pos: nat, run: nat, total: nat)
    requires FreeTail(slots, pos, run) && run <= total && total >= 1 && (pos > 0 ==> NoRun(slots, pos - 1, total))
    ensures var p := NextRun(slots, pos, run, total);
      if p >= 0 then RunAt(slots, p, total) && NoRun(slots, p + total - 1, total)
      else p == -1 && NoRun(slots, |slots|, total)
    decreases |slots| - pos
  {
    if run < total {
      if pos > 0 { NoRunOn(slots, pos, run, total); }
      if pos < |slots| { NextRunExact(slots, pos + 1, if IsFree(slots[pos]) then run + 1 else 0, total); }
    }
  }

  // Free slots in a row just before slot pos.
  function RunOf(slots: seq<Slot>, pos: nat): (r: nat)
    requires pos <= |slots|
    ensures r <= pos
  {
    if pos > 0 && IsFree(slots[pos - 1]) then RunOf(slots, pos - 1) + 1 else 0
  }

  // A walk that has found nothing is the same walk when slots are added behind.
  lemma {:induction false} WalkedTo(slots: seq<Slot>, slots': seq<Slot>, pos: nat, total: nat)
    requires slots <= slots' && pos <= |slots| && total >= 1 && NextRun(slots, 0, 0, total) == -1
    ensures RunOf(slots', pos) == RunOf(slots, pos)
    ensures NextRun(slots, pos, RunOf(slots, pos), total) == -1
    ensures NextRun(slots', 0, 0, total) == NextRun(slots', pos, RunOf(slots, pos), total)
  {
    if pos > 0 { WalkedTo(slots, slots', pos - 1, total); }
  }

  lemma {:induction false} RunOver(slots: seq<Slot>, base: nat, i: nat)
    requires base + i <= |slots|
    ensures RunOf(slots, base + i) <= i || RunOf(slots, base + i) == RunOf(slots, base) + i
  {
    if i > 0 { RunOver(slots, base, i - 1); }
  }

  // Where the free run begins that ends i slots into cluster number k.
  lemma StartMoved(slots: seq<Slot>, k: nat, start: Spot, cs: seq<nat>, n: nat, i: nat)
    requires k < |cs| && i <= n && Row(k, n) + i <= |slots|
    requires RunOf(slots, Row(k, n)) > 0 ==> start == SpotAt(cs, n, Row(k, n) - RunOf(slots, Row(k, n)))
    ensures var run := RunOf(slots, Row(k, n) + i);
      run > 0 ==> SpotAt(cs, n, Row(k, n) + i - run) == if run <= i then Spot(cs[k], i - run) else start
  {
    var run := RunOf(slots, Row(k, n) + i);
    RunOver(slots, Row(k, n), i);
    if 0 < run <= i { SpotIs(cs, n, k, i - run); }
  }

  // ---- A directory that grows ----

  datatype Dir = Dir(v: Volume, cs: seq<nat>)

  // A chain, with n slots in every cluster of the volume.
  ghost predicate Good(d: Dir, n: nat) {
    && d.cs != [] && IsChain(d.v.fat, d.cs) && Table(d.v.fat) && |d.v.fat| == |d.v.data|
    && forall c :: 2 <= c < |d.v.data| ==> |d.v.data[c]| == 32 * n
  }

  ghost function SlotsIn(d: Dir, n: nat): seq<Slot> {
    if Clusters(d.v.data, d.cs, n) then DirSlots(d.v.data, d.cs, n) else []
  }

  lemma GoodSlots(d: Dir, n: nat)
    requires Good(d, n)
    ensures Clusters(d.v.data, d.cs, n) && |SlotsIn(d, n)| == Row(|d.cs|, n)
  {
    forall k | 0 <= k < |d.cs| ensures d.cs[k] < |d.v.data| && |d.v.data[d.cs[k]]| == 32 * n {
      assert InRange(d.v.fat, d.cs[k]);
    }
  }

  // With the first free cluster zeroed and linked behind the last one.
  function Longer(d: Dir, n: nat): Dir {
    if d.cs == [] || |d.v.fat| < 2 || |d.v.fat| != |d.v.data| || d.cs[|d.cs| - 1] >= |d.v.fat| || Full(d.v) then d
    else
      var c := FirstFree(d.v.fat, 2);
      Dir(Linked(d.v, d.cs[|d.cs| - 1], c, n), d.cs + [c])
  }

  predicate Full(v: Volume) { |v.fat| < 2 || FirstFree(v.fat, 2) == |v.fat| }

  lemma FullIff(v: Volume)
    ensures Full(v) <==> FreeClusters(v.fat) == {}
  {
    if !Full(v) { assert FirstFree(v.fat, 2) in FreeClusters(v.fat); }
  }

  lemma LongerGood(d: Dir, n: nat)
    requires Good(d, n) && !Full(d.v)
    ensures Good(Longer(d, n), n) && SlotsIn(Longer(d, n), n) == SlotsIn(d, n) + Zeros(n)
    ensures FreeClusters(Longer(d, n).v.fat) == FreeClusters(d.v.fat) - {FirstFree(d.v.fat, 2)}
  {
    var c := FirstFree(d.v.fat, 2);
    GoodSlots(d, n);
    assert InRange(d.v.fat, d.cs[|d.cs| - 1]);
    assert c in FreeClusters(d.v.fat);
    ChainExtended(d.v.fat, d.cs, c);
    SlotsByOne(d.v.data, d.cs, c, n);
    OneFreeLess(d.v, d.cs, c, n);
    GoodSlots(Longer(d, n), n);
  }

  datatype Found = Found(d: Dir, p: int)

  // The first total free slots in a row, in the directory made longer until there are some; -1
  // when the volume is full before.
  ghost function RoomIn(d: Dir, n: nat, total: nat): Found
    decreases |FreeClusters(d.v.fat)|
  {
    var p := NextRun(SlotsIn(d, n), 0, 0, total);
    if p >= 0 || |FreeClusters(Longer(d, n).v.fat)| >= |FreeClusters(d.v.fat)| then Found(d, p)
    else RoomIn(Longer(d, n), n, total)
  }

  // ---- When there is room ----

  // Total free slots in a row, once the directory has been given all free clusters.
  ghost predicate Room(slots: seq<Slot>, free: nat, n: nat, total: nat) {
    exists p: nat :: FreeRun(slots + Zeros(Row(free, n)), p, total)
  }

  // One step of the search.
  lemma RoomStep(d: Dir, n: nat, total: nat)
    requires Good(d, n)
    ensures var p := NextRun(SlotsIn(d, n), 0, 0, total);
      RoomIn(d, n, total) == if p >= 0 || Full(d.v) then Found(d, p) else RoomIn(Longer(d, n), n, total)
    ensures !Full(d.v) ==> |FreeClusters(Longer(d, n).v.fat)| < |FreeClusters(d.v.fat)|
  {
    if !Full(d.v) {
      LongerGood(d, n);
      assert FirstFree(d.v.fat, 2) in FreeClusters(d.v.fat);
    }
  }

  lemma LongerStill(d0: Dir, d: Dir, n: nat)
    requires Good(d, n) && OnlyLonger(d0.v, d.v, d0.cs, d.cs, n) && !Full(d.v)
    ensures OnlyLonger(d0.v, Longer(d, n).v, d0.cs, Longer(d, n).cs, n)
  {
    var c := FirstFree(d.v.fat, 2);
    assert InRange(d.v.fat, d.cs[|d.cs| - 1]);
    assert c in FreeClusters(d.v.fat);
    LongerByOne(d0.v, d.v, d0.cs, d.cs, c, n);
  }

  // r is a search result for a directory that was d0: a good directory, only longer.
  ghost predicate Result(d0: Dir, r: Found, n: nat, total: nat) {
    && Good(r.d, n) && OnlyLonger(d0.v, r.d.v, d0.cs, r.d.cs, n)
    && r.p == NextRun(SlotsIn(r.d, n), 0, 0, total) && (r.p < 0 ==> Full(r.d.v))
  }

  lemma {:induction false} RoomGrows(d0: Dir, d: Dir, n: nat, total: nat)
    requires Good(d, n) == true && OnlyLonger(d0.v, d.v, d0.cs, d.cs, n) == true
    ensures Result(d0, RoomIn(d, n, total), n, total) == true
    decreases |FreeClusters(d.v.fat)|
  {
    RoomStep(d, n, total);
    if !Full(d.v) && NextRun(SlotsIn(d, n), 0, 0, total) < 0 {
      LongerGood(d, n);
      LongerStill(d0, d, n);
      RoomGrows(d0, Longer(d, n), n, total);
    }
  }

  // The clusters added are those no longer free.
  lemma FreeTaken(d: Dir, d': Dir, n: nat)
    requires OnlyLonger(d.v, d'.v, d.cs, d'.cs, n) == true
    ensures |d.cs| <= |d'.cs| && |FreeClusters(d'.v.fat)| + |d'.cs| - |d.cs| == |FreeClusters(d.v.fat)|
  {
    FileData.FreeBalance(d.v, d'.v, d.cs, d'.cs, 0);
  }

  lemma LongerSlots(d: Dir, d': Dir, n: nat)
    requires OnlyLonger(d.v, d'.v, d.cs, d'.cs, n) == true
    ensures |d.cs| <= |d'.cs| && SlotsIn(d', n) == SlotsIn(d, n) + Zeros(Row(|d'.cs| - |d.cs|, n))
  {
  }

  // What a search finds is the first run of free slots; it finds one exactly when there is room.
  ghost predicate Exact(d: Dir, r: Found, n: nat, total: nat) {
    && Good(r.d, n) && OnlyLonger(d.v, r.d.v, d.cs, r.d.cs, n) && |d.cs| <= |r.d.cs| && total >= 1
    && SlotsIn(r.d, n) == SlotsIn(d, n) + Zeros(Row(|r.d.cs| - |d.cs|, n))
    && (r.p >= 0 ==> RunAt(SlotsIn(r.d, n), r.p, total) && NoRun(SlotsIn(r.d, n), r.p + total - 1, total))
    && (r.p >= 0 <==> Room(SlotsIn(d, n), |FreeClusters(d.v.fat)|, n, total))
  }

  lemma ResultExact(d: Dir, r: Found, n: nat, total: nat)
    requires Result(d, r, n, total) == true && total >= 1
    ensures Exact(d, r, n, total) == true
  {
    FreeTaken(d, r.d, n);
    LongerSlots(d, r.d, n);
    FullIff(r.d.v);
    FirstRun(SlotsIn(d, n), SlotsIn(r.d, n), |r.d.cs| - |d.cs|, |FreeClusters(d.v.fat)|, n, total, r.p);
  }

  lemma RoomExact(d: Dir, n: nat, total: nat)
    requires Good(d, n) == true && total >= 1
    ensures Exact(d, RoomIn(d, n, total), n, total) == true
  {
    StartsLonger(d, n);
    RoomGrows(d, d, n, total);
    ResultExact(d, RoomIn(d, n, total), n, total);
  }

  lemma StartsLonger(d: Dir, n: nat)
    requires Good(d, n) == true
    ensures OnlyLonger(d.v, d.v, d.cs, d.cs, n) == true
  {
    GoodSlots(d, n);
    LongerStart(d.v, d.cs, n);
  }

  lemma FirstRun(slots: seq<Slot>, slots': seq<Slot>, more: nat, all: nat, n: nat, total: nat, p: int)
    requires more <= all && slots' == slots + Zeros(Row(more, n)) && total >= 1
    requires p == NextRun(slots', 0, 0, total) && (p < 0 ==> more == all)
    ensures p >= 0 ==> RunAt(slots', p, total) && NoRun(slots', p + total - 1, total) == true
    ensures p >= 0 <==> Room(slots, all, n, total)
  {
    NextRunExact(slots', 0, 0, total);
    RoomIff(slots, slots', more, all, n, total, p);
  }

  // slots' is slots with the slots of more clusters added, of all that are free.
  lemma RoomIff(slots: seq<Slot>, slots': seq<Slot>, more: nat, all: nat, n: nat, total: nat, p: int)
    requires more <= all && slots' == slots + Zeros(Row(more, n)) && total >= 1
    requires if p >= 0 then FreeRun(slots', p, total) else more == all && NoRun(slots', |slots'|, total)
    ensures p >= 0 <==> Room(slots, all, n, total)
  {
    if p >= 0 {
      RowSum(more, all - more, n);
      var longest := slots + Zeros(Row(all, n));
      forall i | p <= i < p + total ensures IsFree(longest[i]) { assert IsFree(slots'[i]); }
      assert FreeRun(longest, p, total);
    }
  }

  // From d0 to d no cluster was added that was not needed.
  ghost predicate NoLongerThanNeeded(d0: Dir, d: Dir, n: nat, total: nat) {
    |d.cs| > |d0.cs| ==> NextRun(SlotsIn(d0, n) + Zeros(Row(|d.cs| - |d0.cs| - 1, n)), 0, 0, total) < 0
  }

  lemma NeededOneMore(d0: Dir, d: Dir, n: nat, total: nat)
    requires Good(d, n) && OnlyLonger(d0.v, d.v, d0.cs, d.cs, n) && !Full(d.v)
      && NextRun(SlotsIn(d, n), 0, 0, total) < 0
    ensures NoLongerThanNeeded(d0, Longer(d, n), n, total) == true
  {
    assert InRange(d.v.fat, d.cs[|d.cs| - 1]);
    assert |Longer(d, n).cs| == |d.cs| + 1;
  }

  lemma {:induction false} RoomMinimal(d0: Dir, d: Dir, n: nat, total: nat)
    requires Good(d, n) == true && OnlyLonger(d0.v, d.v, d0.cs, d.cs, n) == true
    requires NoLongerThanNeeded(d0, d, n, total) == true
    ensures NoLongerThanNeeded(d0, RoomIn(d, n, total).d, n, total) == true
    decreases |FreeClusters(d.v.fat)|
  {
    RoomStep(d, n, total);
    if !Full(d.v) && NextRun(SlotsIn(d, n), 0, 0, total) < 0 {
      LongerGood(d, n);
      LongerStill(d0, d, n);
      NeededOneMore(d0, d, n, total);
      RoomMinimal(d0, Longer(d, n), n, total);
    }
  }

  lemma RoomMono(slots: seq<Slot>, a: nat, b: nat, n: nat, total: nat)
    requires a <= b && Room(slots, a, n, total)
    ensures Room(slots, b, n, total)
  {
    var short, long := slots + Zeros(Row(a, n)), slots + Zeros(Row(b, n));
    var p: nat :| FreeRun(short, p, total);
    RowMono(a, b, n);
    forall i | p <= i < p + total ensures IsFree(long[i]) { assert IsFree(short[i]); }
    assert FreeRun(long, p, total);
  }

  // added clusters, and no fewer, give room at p; or (p < 0) all free ones do not.
  lemma RoomWith(slots: seq<Slot>, added: nat, free: nat, n: nat, total: nat, p: int, m: nat)
    requires total >= 1 && m <= free
    requires if p >= 0 then FreeRun(slots + Zeros(Row(added, n)), p, total) else !Room(slots, free, n, total)
    requires p >= 0 && added > 0 ==> NextRun(slots + Zeros(Row(added - 1, n)), 0, 0, total) < 0
    ensures Room(slots, m, n, total) <==> p >= 0 && added <= m
  {
    if p >= 0 && added <= m {
      RoomMono(slots, added, m, n, total);
    } else if Room(slots, m, n, total) {
      if p < 0 {
        RoomMono(slots, m, free, n, total);
      } else {
        RoomMono(slots, m, added - 1, n, total);
        NextRunExact(slots + Zeros(Row(added - 1, n)), 0, 0, total);
      }
    }
  }

  // With m of the free clusters there is room exactly when the search adds no more than that.
  lemma RoomAmount(d: Dir, n: nat, total: nat, m: nat)
    requires Good(d, n) == true && total >= 1 && m <= |FreeClusters(d.v.fat)|
    ensures var r := RoomIn(d, n, total);
      Room(SlotsIn(d, n), m, n, total) <==> r.p >= 0 && |r.d.cs| - |d.cs| <= m
  {
    RoomExact(d, n, total);
    StartsLonger(d, n);
    RoomMinimal(d, d, n, total);
    AmountIn(d, RoomIn(d, n, total), n, total, m);
  }

  lemma AmountIn(d: Dir, r: Found, n: nat, total: nat, m: nat)
    requires Exact(d, r, n, total) == true && NoLongerThanNeeded(d, r.d, n, total) == true
    requires total >= 1 && m <= |FreeClusters(d.v.fat)|
    ensures Room(SlotsIn(d, n), m, n, total) <==> r.p >= 0 && |r.d.cs| - |d.cs| <= m
  {
    RoomWith(SlotsIn(d, n), |r.d.cs| - |d.cs|, |FreeClusters(d.v.fat)|, n, total, r.p, m);
  }

  // ---- The search along the chain ----

  // A search that comes to the start of cluster number k with run free slots before it.
  ghost predicate Searching(d: Dir, n: nat, k: nat, run: nat, start: Spot, total: nat) {
    var slots := SlotsIn(d, n);
    && k <= |d.cs| && Row(k, n) <= |slots| && run == RunOf(slots, Row(k, n)) && run < total
    && NextRun(slots, 0, 0, total) == NextRun(slots, Row(k, n), run, total)
    && (run > 0 ==> start == SpotAt(d.cs, n, Row(k, n) - run))
  }

  // At the end of a chain without a run, the search goes on in the directory made longer.
  lemma SearchGrows(d: Dir, n: nat, run: nat, start: Spot, total: nat)
    requires Good(d, n) && Searching(d, n, |d.cs|, run, start, total) && !Full(d.v) && total >= 1
    ensures Searching(Longer(d, n), n, |d.cs|, run, start, total) && Good(Longer(d, n), n)
    ensures RoomIn(d, n, total) == RoomIn(Longer(d, n), n, total)
  {
    GoodSlots(d, n);
    LongerGood(d, n);
    RoomStep(d, n, total);
    var slots := SlotsIn(d, n);
    assert NextRun(slots, 0, 0, total) == -1;
    WalkedTo(slots, slots + Zeros(n), |slots|, total);
    var c := FirstFree(d.v.fat, 2);
    assert Longer(d, n).cs == d.cs + [c] by { assert InRange(d.v.fat, d.cs[|d.cs| - 1]); }
    if run > 0 { SpotStays(d.cs, n, |slots| - run, c); }
  }
}
