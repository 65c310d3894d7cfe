// Removing an entry from a directory on disk: the entry looked up, its clusters freed, its slots
// marked a cluster buffer at a time; and what that leaves of the directory and of the volume.
module EntryRemover {
  import opened Bytes
  import opened Finite
  import opened FatChains
  import opened FatLayout
  import opened FileData
  import opened Fat32
  import opened Names
  import opened DirectorySlots
  import opened DirectoryChain
  import opened DirectoryPlaces
  import opened FatDirectory
  import opened EntryWriting
  import opened EntryCreation
  import opened EntryResults
  import opened EntryRemoval

  // ---- A cluster of slots in the row of a directory's slots ----

  lemma {:induction false} BackLocal(slots: seq<Slot>, lo: nat, n: nat, i: nat)
    requires lo + n <= |slots| && i <= n
    ensures Back(slots, lo, lo + i) == lo + Back(slots[lo..lo + n], 0, i)
    decreases i
  {
    if i > 0 { BackLocal(slots, lo, n, i - 1); }
  }

  // Marked in the row: from slot lo on, the slots walked over back from the i-th one, up to the e-th.
  ghost predicate RowMarked(slots: seq<Slot>, r: seq<Slot>, lo: nat, i: nat, e: nat) {
    i <= e && lo + e <= |slots| && r == Erased(slots, Back(slots, lo, lo + i), lo + e)
  }

  // Marking in a buffer is marking in the row.
  lemma MarkLocal(slots: seq<Slot>, own: seq<Slot>, marked: seq<Slot>, r: seq<Slot>, lo: nat, n: nat, i: nat, e: nat)
    requires lo + n <= |slots| && i <= e <= n && own == slots[lo..lo + n] && |own| == n
    requires marked == Erased(own, Back(own, 0, i), e) && r == Written(slots, lo, marked)
    ensures RowMarked(slots, r, lo, i, e) == true
  {
    BackLocal(slots, lo, n, i);
    MarkLocalAt(slots, own, marked, r, lo, n, Back(own, 0, i), e, Back(slots, lo, lo + i), lo + e);
    RowIsMarked(slots, r, lo, i, e, lo + i, lo + e);
  }

  lemma RowIsMarked(slots: seq<Slot>, r: seq<Slot>, lo: nat, i: nat, e: nat, from: nat, to: nat)
    requires i <= e && from == lo + i && to == lo + e <= |slots| && r == Erased(slots, Back(slots, lo, from), to)
    ensures RowMarked(slots, r, lo, i, e) == true
  {
  }

  lemma MarkLocalAt(slots: seq<Slot>, own: seq<Slot>, marked: seq<Slot>, r: seq<Slot>, lo: nat, n: nat, a: nat, e: nat,
                    from: nat, to: nat)
    requires lo + n <= |slots| && a <= e <= n && own == slots[lo..lo + n] && |own| == n
    requires from == lo + a && to == lo + e && marked == Erased(own, a, e) && r == Written(slots, lo, marked)
    ensures r == Erased(slots, from, to)
  {
    forall j | 0 <= j < |slots| ensures r[j] == Erased(slots, from, to)[j] {
      if lo <= j < lo + n { assert own[j - lo] == slots[j]; }
    }
  }

  lemma OwnSlots(data: seq<seq<byte>>, cs: seq<nat>, n: nat, k: nat)
    requires Clusters(data, cs, n) == true && k < |cs|
    ensures Row(k, n) + n <= Row(|cs|, n) && cs[k] < |data| && |data[cs[k]]| == 32 * n
    ensures SlotsOf(data[cs[k]], n) == DirSlots(data, cs, n)[Row(k, n)..Row(k, n) + n]
  {
    RowSum(k + 1, |cs| - (k + 1), n);
    assert cs[k] < |data| && |data[cs[k]]| == 32 * n;
    forall i | 0 <= i < n ensures SlotsOf(data[cs[k]], n)[i] == DirSlots(data, cs, n)[Row(k, n) + i] {
      DirSlotAt(data, cs, n, k, i);
    }
  }

  lemma RowOrder(a: nat, b: nat, n: nat)
    ensures a < b ==> Row(a, n) + n <= Row(b, n)
  {
    if a < b { RowMono(a + 1, b, n); }
  }

  lemma OneRow(k: nat, i: nat, k': nat, i': nat, n: nat)
    requires i < n && i' < n && Row(k, n) + i == Row(k', n) + i'
    ensures k == k'
  {
    RowOrder(k, k', n);
    RowOrder(k', k, n);
  }

  // A cluster written: its slots in the row, the others as they were.
  lemma ClusterWritten(data: seq<seq<byte>>, cs: seq<nat>, n: nat, k: nat, buf: seq<byte>)
    requires Clusters(data, cs, n) == true && Distinct(cs) == true && k < |cs| && |buf| == 32 * n
    ensures cs[k] < |data| && Clusters(data[cs[k] := buf], cs, n) == true && Row(k, n) + n <= Row(|cs|, n)
    ensures DirSlots(data[cs[k] := buf], cs, n) == Written(DirSlots(data, cs, n), Row(k, n), SlotsOf(buf, n))
  {
    OwnSlots(data, cs, n, k);
    var data' := data[cs[k] := buf];
    ClustersWritten(data, cs, n, cs[k], buf);
    forall j | 0 <= j < Row(|cs|, n)
      ensures DirSlots(data', cs, n)[j] == Written(DirSlots(data, cs, n), Row(k, n), SlotsOf(buf, n))[j]
    {
      SlotThere(data, data', cs, n, k, buf, j);
    }
  }

  lemma SlotThere(data: seq<seq<byte>>, data': seq<seq<byte>>, cs: seq<nat>, n: nat, k: nat, buf: seq<byte>, j: nat)
    requires Clusters(data, cs, n) == true && Distinct(cs) == true && k < |cs| && |buf| == 32 * n && cs[k] < |data|
    requires data' == data[cs[k] := buf] && Clusters(data', cs, n) == true && j < Row(|cs|, n)
    ensures DirSlots(data', cs, n)[j]
      == if Row(k, n) <= j < Row(k, n) + n then SlotsOf(buf, n)[j - Row(k, n)] else DirSlots(data, cs, n)[j]
  {
    var k', i := PlaceOf(cs, n, j);
    DirSlotAt(data, cs, n, k', i);
    DirSlotAt(data', cs, n, k', i);
    if Row(k, n) <= j < Row(k, n) + n { OneRow(k, j - Row(k, n), k', i, n); }
    if k' != k { assert cs[k'] != cs[k]; }
  }

  // ---- The places walked over ----

  // The first slot of the cluster before cluster number k, if there is one.
  function RowBefore(k: nat, n: nat): (r: nat)
    ensures r <= Row(k, n)
  {
    if k == 0 then 0 else Row(k - 1, n)
  }

  // The directory after the entry with short slot at, in cluster number k, has been marked.
  ghost predicate MarkedIn(d: Dir, w: Volume, n: nat, k: nat, i: nat, at: nat) {
    && k < |d.cs| && i < n && at == Row(k, n) + i && Good(Dir(w, d.cs), n) && w == d.v.(data := w.data)
      && |w.data| == |d.v.data|
    && (forall c :: 0 <= c < |w.data| && c !in d.cs ==> w.data[c] == d.v.data[c])
    && WithoutEntry(SlotsIn(d, n), SlotsIn(Dir(w, d.cs), n), RowBefore(k, n), Row(k, n), at)
  }

  ghost predicate WithoutEntry(slots: seq<Slot>, r: seq<Slot>, prev: nat, base: nat, at: nat) {
    prev <= base <= at < |slots| && r == Removed(slots, prev, base, at)
  }

  // The marks made in the buffer of the cluster, and in that of the one before.
  ghost predicate Marks(was: seq<byte>, buf: seq<byte>, n: nat, i: nat, e: nat) {
    && |was| == |buf| == 32 * n && i <= e <= n
    && SlotsOf(buf, n) == Erased(SlotsOf(was, n), Back(SlotsOf(was, n), 0, i), e)
  }

  lemma MarksWritten(data: seq<seq<byte>>, cs: seq<nat>, n: nat, k: nat, buf: seq<byte>, i: nat, e: nat,
                     slots: seq<Slot>, lo: nat)
    requires Clusters(data, cs, n) == true && Distinct(cs) == true && k < |cs| && cs[k] < |data| && lo == Row(k, n)
    requires Marks(data[cs[k]], buf, n, i, e) == true && slots == DirSlots(data, cs, n)
    ensures Clusters(data[cs[k] := buf], cs, n) == true
    ensures RowMarked(slots, DirSlots(data[cs[k] := buf], cs, n), lo, i, e) == true
  {
    ClusterWritten(data, cs, n, k, buf);
    OwnSlots(data, cs, n, k);
    MarkLocal(slots, SlotsOf(data[cs[k]], n), SlotsOf(buf, n), DirSlots(data[cs[k] := buf], cs, n), lo, n, i, e);
  }

  // The short slot marked first, then those before it.
  lemma ShortToo(was: seq<byte>, mid: seq<byte>, buf: seq<byte>, n: nat, i: nat)
    requires |was| == 32 * n && i < n && mid == WithSlot(was, n, i, Marked(SlotOf(was, n, i)))
    requires Marks(mid, buf, n, i, i) == true
    ensures Marks(was, buf, n, i, i + 1) == true
  {
    var slots := SlotsOf(was, n);
    SlotsAfterWrite(was, n, i, Marked(SlotOf(was, n, i)));
    BackSame(slots, slots[i := Marked(slots[i])], 0, i);
  }

  lemma GoodParts(d: Dir, n: nat)
    requires Good(d, n) == true
    ensures Clusters(d.v.data, d.cs, n) == true && Distinct(d.cs) == true
      && SlotsIn(d, n) == DirSlots(d.v.data, d.cs, n)
  {
    GoodSlots(d, n);
  }

  lemma FirstOf(data: seq<seq<byte>>, cs: seq<nat>, n: nat, k: nat, buf: seq<byte>)
    requires k < |cs| && cs[k] < |data| && |buf| == 32 * n && n > 0 && Clusters(data[cs[k] := buf], cs, n) == true
    ensures Row(k, n) < Row(|cs|, n) && DirSlots(data[cs[k] := buf], cs, n)[Row(k, n)] == SlotOf(buf, n, 0)
  {
    DirSlotAt(data[cs[k] := buf], cs, n, k, 0);
  }

  lemma HereWritten(d: Dir, n: nat, k: nat, i: nat, buf: seq<byte>)
    requires Good(d, n) == true && k < |d.cs| && d.cs[k] < |d.v.data| && i < n
    requires Marks(d.v.data[d.cs[k]], buf, n, i, i + 1) == true
    ensures Clusters(d.v.data[d.cs[k] := buf], d.cs, n) == true
    ensures var here := DirSlots(d.v.data[d.cs[k] := buf], d.cs, n);
      && RowMarked(SlotsIn(d, n), here, Row(k, n), i, i + 1) == true && Row(k, n) < |here|
      && Going(here, Row(k, n), i, GoesOn(SlotOf(buf, n, 0), i == 0)) == true
  {
    GoodParts(d, n);
    MarksWritten(d.v.data, d.cs, n, k, buf, i, i + 1, SlotsIn(d, n), Row(k, n));
    FirstOf(d.v.data, d.cs, n, k, buf);
  }

  lemma BeforeWritten(data: seq<seq<byte>>, cs: seq<nat>, n: nat, k: nat, buf: seq<byte>, before: seq<byte>)
    requires Distinct(cs) == true && 0 < k < |cs| && cs[k - 1] < |data| && cs[k] < |data|
    requires Clusters(data[cs[k] := buf], cs, n) == true && Marks(data[cs[k - 1]], before, n, n, n) == true
    ensures var w := data[cs[k - 1] := before][cs[k] := buf];
      && Clusters(w, cs, n) == true
      && RowMarked(DirSlots(data[cs[k] := buf], cs, n), DirSlots(w, cs, n), RowBefore(k, n), n, n) == true
  {
    Apart(cs, k);
    UpdatesCommute(data, cs[k], buf, cs[k - 1], before);
    MarksWritten(data[cs[k] := buf], cs, n, k - 1, before, n, n, DirSlots(data[cs[k] := buf], cs, n), Row(k - 1, n));
  }

  lemma Apart(cs: seq<nat>, k: nat)
    requires Distinct(cs) == true && 0 < k < |cs|
    ensures cs[k - 1] != cs[k]
  {
  }

  predicate Going(here: seq<Slot>, base: nat, i: nat, goes: bool) {
    base < |here| && goes == GoesOn(here[base], i == 0)
  }

  lemma RemovedHere(slots: seq<Slot>, here: seq<Slot>, prev: nat, base: nat, i: nat, at: nat, goes: bool)
    requires RowMarked(slots, here, base, i, i + 1) == true && prev <= base && at == base + i
    requires Going(here, base, i, goes) == true && (prev == base || !goes)
    ensures WithoutEntry(slots, here, prev, base, at) == true
  {
    NothingErased(here, base);
  }

  lemma RemovedBoth(slots: seq<Slot>, here: seq<Slot>, r: seq<Slot>, prev: nat, base: nat, n: nat, i: nat, at: nat)
    requires RowMarked(slots, here, base, i, i + 1) == true && RowMarked(here, r, prev, n, n) == true
    requires prev + n == base && Going(here, base, i, true) == true && at == base + i
    ensures WithoutEntry(slots, r, prev, base, at) == true
  {
    assert here == MarkedHere(slots, base, at);
  }

  lemma RowAfter(k: nat, n: nat)
    requires k > 0
    ensures RowBefore(k, n) + n == Row(k, n)
  {
  }

  // What is written: the buffer of the cluster, and before it that of the one before, if any.
  function WithMarks(data: seq<seq<byte>>, cs: seq<nat>, k: nat, buf: seq<byte>, goes: bool, before: seq<byte>):
      (r: seq<seq<byte>>)
    requires k < |cs| && cs[k] < |data| && (k > 0 ==> cs[k - 1] < |data|)
    ensures |r| == |data|
  {
    (if goes && k > 0 then data[cs[k - 1] := before] else data)[cs[k] := buf]
  }

  // The buffers are what marking makes of the clusters.
  ghost predicate Buffers(data: seq<seq<byte>>, cs: seq<nat>, n: nat, k: nat, i: nat, buf: seq<byte>, goes: bool,
                          before: seq<byte>) {
    && HereMarked(data, cs, n, k, i, buf) == true && goes == GoesOn(SlotOf(buf, n, 0), i == 0)
    && (k > 0 ==> cs[k - 1] < |data|) && (k > 0 && goes ==> BeforeMarked(data, cs, n, k, before) == true)
  }

  ghost predicate HereMarked(data: seq<seq<byte>>, cs: seq<nat>, n: nat, k: nat, i: nat, buf: seq<byte>) {
    k < |cs| && cs[k] < |data| && i < n && |buf| == 32 * n && Marks(data[cs[k]], buf, n, i, i + 1) == true
  }

  ghost predicate BeforeMarked(data: seq<seq<byte>>, cs: seq<nat>, n: nat, k: nat, before: seq<byte>) {
    0 < k < |cs| && cs[k - 1] < |data| && |before| == 32 * n && Marks(data[cs[k - 1]], before, n, n, n) == true
  }

  lemma MarkedOne(d: Dir, n: nat, k: nat, i: nat, buf: seq<byte>, goes: bool, before: seq<byte>, w: seq<seq<byte>>,
                  slots: seq<Slot>, prev: nat, base: nat, at: nat)
    requires Good(d, n) == true && Buffers(d.v.data, d.cs, n, k, i, buf, goes, before) == true
    requires w == d.v.data[d.cs[k] := buf] && slots == SlotsIn(d, n) && !(k > 0 && goes)
    requires prev == RowBefore(k, n) && base == Row(k, n) && at == base + i
    ensures Clusters(w, d.cs, n) == true && WithoutEntry(slots, DirSlots(w, d.cs, n), prev, base, at) == true
  {
    HereWritten(d, n, k, i, buf);
    RemovedHere(slots, DirSlots(w, d.cs, n), prev, base, i, at, goes);
  }

  lemma BothWritten(d: Dir, n: nat, k: nat, i: nat, buf: seq<byte>, before: seq<byte>, mid: seq<seq<byte>>,
                    w: seq<seq<byte>>)
    requires Good(d, n) == true && k > 0 && Buffers(d.v.data, d.cs, n, k, i, buf, true, before) == true
    requires mid == d.v.data[d.cs[k] := buf] && w == d.v.data[d.cs[k - 1] := before][d.cs[k] := buf]
    ensures Clusters(mid, d.cs, n) == true && Clusters(w, d.cs, n) == true
    ensures RowMarked(SlotsIn(d, n), DirSlots(mid, d.cs, n), Row(k, n), i, i + 1) == true
    ensures RowMarked(DirSlots(mid, d.cs, n), DirSlots(w, d.cs, n), RowBefore(k, n), n, n) == true
    ensures Going(DirSlots(mid, d.cs, n), Row(k, n), i, true) == true
  {
    GoodParts(d, n);
    HereWritten(d, n, k, i, buf);
    BeforeWritten(d.v.data, d.cs, n, k, buf, before);
  }

  lemma MarkedBoth(d: Dir, n: nat, k: nat, i: nat, buf: seq<byte>, before: seq<byte>, mid: seq<seq<byte>>,
                   w: seq<seq<byte>>, slots: seq<Slot>, prev: nat, base: nat, at: nat)
    requires Good(d, n) == true && k > 0 && Buffers(d.v.data, d.cs, n, k, i, buf, true, before) == true
    requires mid == d.v.data[d.cs[k] := buf] && w == d.v.data[d.cs[k - 1] := before][d.cs[k] := buf]
    requires slots == SlotsIn(d, n) && prev == RowBefore(k, n) && base == Row(k, n) && at == base + i
    ensures Clusters(w, d.cs, n) == true && WithoutEntry(slots, DirSlots(w, d.cs, n), prev, base, at) == true
  {
    BothWritten(d, n, k, i, buf, before, mid, w);
    RowAfter(k, n);
    RemovedBoth(slots, DirSlots(mid, d.cs, n), DirSlots(w, d.cs, n), prev, base, n, i, at);
  }

  lemma RestKept(d: Dir, n: nat, k: nat, i: nat, buf: seq<byte>, goes: bool, before: seq<byte>, w: seq<seq<byte>>)
    requires Good(d, n) == true && Buffers(d.v.data, d.cs, n, k, i, buf, goes, before) == true
    requires w == WithMarks(d.v.data, d.cs, k, buf, goes, before)
    ensures Good(Dir(d.v.(data := w), d.cs), n) == true
    ensures forall c :: 0 <= c < |w| && c !in d.cs ==> w[c] == d.v.data[c]
  {
  }

  lemma MarksMade(d: Dir, n: nat, k: nat, i: nat, buf: seq<byte>, goes: bool, before: seq<byte>, w: Volume, at: nat)
    requires Good(d, n) == true && Buffers(d.v.data, d.cs, n, k, i, buf, goes, before) == true
    requires w == d.v.(data := WithMarks(d.v.data, d.cs, k, buf, goes, before)) && at == Row(k, n) + i
    ensures MarkedIn(d, w, n, k, i, at) == true
  {
    RestKept(d, n, k, i, buf, goes, before, w.data);
    SlotsMade(d, n, k, i, buf, goes, before, w.data, SlotsIn(d, n), RowBefore(k, n), Row(k, n), at);
    GoodParts(Dir(w, d.cs), n);
  }

  lemma SlotsMade(d: Dir, n: nat, k: nat, i: nat, buf: seq<byte>, goes: bool, before: seq<byte>, w: seq<seq<byte>>,
                  slots: seq<Slot>, prev: nat, base: nat, at: nat)
    requires Good(d, n) == true && Buffers(d.v.data, d.cs, n, k, i, buf, goes, before) == true
    requires w == WithMarks(d.v.data, d.cs, k, buf, goes, before) && slots == SlotsIn(d, n)
    requires prev == RowBefore(k, n) && base == Row(k, n) && at == base + i
    ensures Clusters(w, d.cs, n) == true && WithoutEntry(slots, DirSlots(w, d.cs, n), prev, base, at) == true
  {
    if goes && k > 0 {
      MarkedBoth(d, n, k, i, buf, before, d.v.data[d.cs[k] := buf], w, slots, prev, base, at);
    } else {
      MarkedOne(d, n, k, i, buf, goes, before, w, slots, prev, base, at);
    }
  }

  // ---- The clusters of the entry ----

  // The clusters es are those of the entry with that short slot: a chain apart from the directory
  // cs, and that of a directory if the entry is one.
  ghost predicate Owns(v: Volume, slot: Slot, cs: seq<nat>, es: seq<nat>, n: nat) {
    && FileChain(v.fat, StartAt(slot, 0), es) && Elems(es) !! Elems(cs)
    && (IsDirectory(slot[11]) && es != [] ==> NoOverrun(SlotsIn(Dir(v, es), n)))
  }

  // A directory that shows an entry of its own.
  ghost predicate Busy(v: Volume, slot: Slot, es: seq<nat>, n: nat) {
    IsDirectory(slot[11]) && es != [] && Entries(SlotsIn(Dir(v, es), n)) != []
  }

  // The clusters es are free, and nothing else has changed.
  ghost predicate Freed(v0: Volume, v: Volume, es: seq<nat>) {
    v == v0.(fat := v.fat) && OnlyTouches(v0, v, es, [], 0) && FreeClusters(v.fat) == FreeClusters(v0.fat) + Elems(es)
  }

  lemma {:induction false} NowhereTo(fat: seq<nat>, start: nat, m: nat)
    requires !InRange(fat, start)
    ensures Nth(fat, start, m) == start
  {
    if m > 0 { NowhereTo(fat, start, m - 1); }
  }

  lemma NothingFreed(fat: seq<nat>, start: nat, fat': seq<nat>)
    requires !InRange(fat, start) && FreedFrom(fat, start, fat')
    ensures fat' == fat
  {
    forall c | 0 <= c < |fat| ensures !Reaches(fat, start, c) {
      if Reaches(fat, start, c) {
        var m: nat :| Nth(fat, start, m) == c;
        NowhereTo(fat, start, m);
      }
    }
  }

  lemma ChainFreed(d: Dir, n: nat, slot: Slot, es: seq<nat>, w: Volume)
    requires Good(d, n) == true && Owns(d.v, slot, d.cs, es, n) == true
    requires w == d.v.(fat := w.fat)
    requires if es == [] then w == d.v else FreedFrom(d.v.fat, es[0], w.fat)
    ensures Freed(d.v, w, es) == true
  {
    if es != [] { Emptied(d.v, es, 0, w.fat); }
    FreeBalance(d.v, w, es, [], 0);
    assert Elems(es) - Elems([]) == Elems(es);
  }

  // The directory is still there.
  lemma FreedGood(d: Dir, n: nat, es: seq<nat>, w: Volume)
    requires Good(d, n) == true && Freed(d.v, w, es) == true && Elems(es) !! Elems(d.cs)
    ensures Good(Dir(w, d.cs), n) == true && SlotsIn(Dir(w, d.cs), n) == SlotsIn(d, n)
  {
    forall i | 0 <= i < |d.cs| ensures w.fat[d.cs[i]] == d.v.fat[d.cs[i]] {
      assert d.cs[i] in Elems(d.cs) && InRange(d.v.fat, d.cs[i]);
    }
    ChainFrame(d.v.fat, w.fat, d.cs);
    forall c | 0 <= c < |w.fat| ensures w.fat[c] < 0x1000_0000 {
      if c in es { assert w.fat[c] == FAT_FREE; }
    }
  }

  // The entry with short slot at is gone, its clusters es are free; nothing else has changed.
  ghost predicate Gone(d: Dir, w: Volume, n: nat, k: nat, at: nat, es: seq<nat>) {
    && Good(Dir(w, d.cs), n) && OnlyTouches(d.v, w, d.cs + es, d.cs, 0)
    && FreeClusters(w.fat) == FreeClusters(d.v.fat) + Elems(es)
    && WithoutEntry(SlotsIn(d, n), SlotsIn(Dir(w, d.cs), n), RowBefore(k, n), Row(k, n), at)
  }

  lemma FreedAndMarked(d: Dir, n: nat, es: seq<nat>, v: Volume, w: Volume, k: nat, i: nat, at: nat)
    requires Good(d, n) == true && Freed(d.v, v, es) == true && Elems(es) !! Elems(d.cs)
    requires MarkedIn(Dir(v, d.cs), w, n, k, i, at) == true
    ensures Gone(d, w, n, k, at, es) == true
  {
    FreedGood(d, n, es, v);
    TouchedBoth(d, n, es, v, w);
  }

  lemma TouchedBoth(d: Dir, n: nat, es: seq<nat>, v: Volume, w: Volume)
    requires Good(d, n) == true && Freed(d.v, v, es) == true && Elems(es) !! Elems(d.cs)
    requires Good(Dir(w, d.cs), n) == true && w == v.(data := w.data) && |w.data| == |v.data|
    requires forall c :: 0 <= c < |w.data| && c !in d.cs ==> w.data[c] == v.data[c]
    ensures OnlyTouches(d.v, w, d.cs + es, d.cs, 0)
  {
    forall c | 0 <= c < |w.fat| && c in d.cs + es && c !in d.cs ensures w.fat[c] == FAT_FREE { assert c in es; }
    forall c | 0 <= c < |w.fat| ensures |w.data[c]| == |d.v.data[c]| {
      if c in d.cs { assert InRange(w.fat, c); }
    }
  }

  lemma OwnGood(d: Dir, n: nat, slot: Slot, es: seq<nat>)
    requires Good(d, n) == true && Owns(d.v, slot, d.cs, es, n) == true && es != []
    ensures Good(Dir(d.v, es), n) == true && es[0] == StartAt(slot, 0) && InRange(d.v.fat, es[0])
  {
  }

  // ---- The entry looked up ----

  // The entry a lookup has come to is at number at of the slots, in that cluster.
  lemma EntryPlace(d: Dir, n: nat, es: seq<Seen>, m: nat) returns (k: nat, i: nat)
    requires Good(d, n) == true && es == Entries(SlotsIn(d, n)) && m < |es|
    ensures k < |d.cs| && i < n && es[m].at == Row(k, n) + i && SpotAt(d.cs, n, es[m].at) == Spot(d.cs[k], i)
  {
    GoodSlots(d, n);
    ScanPlaces(SlotsIn(d, n), 0, [], m);
    k, i := PlaceOf(d.cs, n, es[m].at);
  }

  // What removing the entry with that name comes to: whether it is removed, and the volume then.
  ghost predicate Removal(d: Dir, n: nat, name: seq<byte>, es: seq<nat>, ok: bool, w: Volume, k: nat) {
    var seen := Entries(SlotsIn(d, n));
    var m := FirstNamed(seen, name, 0);
    && (ok <==> m < |seen| && !Busy(d.v, seen[m].slot, es, n))
    && if ok then Gone(d, w, n, k, seen[m].at, es) else w == d.v
  }

  class Remover {
    const directory: Directory
    const fs: Filesystem

    constructor (dir: Directory)
      ensures directory == dir && fs == dir.fs
    {
      directory, fs := dir, dir.fs;
    }

    ghost predicate Valid()
      reads fs, fs.dev, fs.dev.cache
    {
      directory.fs == fs && fs.Valid()
    }

    function PerCluster(): nat { 16 * fs.g.spc }

    // Slots with the attribute, back from slot i, marked in a buffer.
    method MarkBack(buf: seq<byte>, i: nat) returns (r: seq<byte>)
      requires |buf| == 32 * PerCluster() && i <= PerCluster()
      ensures Marks(buf, r, PerCluster(), i, i) == true
    {
      var n := PerCluster();
      ghost var slots := SlotsOf(buf, n);
      var j := i;
      r := buf;
      NothingErased(slots, i);
      while j > 0
        invariant 0 <= j <= i && |r| == |buf| && Back(slots, 0, i) == Back(slots, 0, j)
        invariant SlotsOf(r, n) == Erased(slots, j, i)
      {
        var s: Slot := SlotOf(r, n, j - 1);
        assert s == SlotsOf(r, n)[j - 1];
        if !LfnAttr(s) { break; }
        SlotsAfterWrite(r, n, j - 1, Marked(s));
        r := WithSlot(r, n, j - 1, Marked(s));
        j := j - 1;
      }
    }

    // The cluster before the one given in the directory's chain; the first one itself has none.
    method ClusterBefore(dirCluster: nat, entryCluster: nat, ghost d: Dir, ghost k: nat) returns (prev: nat)
      requires Valid() && fs.V() == d.v && Good(d, PerCluster()) == true && dirCluster == d.cs[0]
      requires k < |d.cs| && entryCluster == d.cs[k]
      modifies fs.dev, fs.dev.cache
      ensures Valid() && fs.V() == d.v && prev == d.cs[if k == 0 then 0 else k - 1]
    {
      prev := dirCluster;
      var cur: nat := dirCluster;
      ghost var j: nat := 0;
      while cur != entryCluster && 2 <= cur < FAT_EOC
        invariant Valid() && fs.V() == d.v && j <= k && cur == d.cs[j] && prev == d.cs[if j == 0 then 0 else j - 1]
        decreases k - j
      {
        NotThere(d, PerCluster(), j, k);
        prev := cur;
        cur := fs.FatGet(cur);
        j := j + 1;
      }
      NowThere(d, PerCluster(), j, k);
    }

    // The slots before those of the cluster, if there is a cluster before.
    method MarkBefore(dirCluster: nat, entryCluster: nat, ghost d: Dir, ghost k: nat) returns (ghost before: seq<byte>)
      requires Valid() && fs.V() == d.v && Good(d, PerCluster()) == true && dirCluster == d.cs[0]
      requires k < |d.cs| && entryCluster == d.cs[k]
      modifies fs.dev, fs.dev.cache
      ensures Valid() && (k == 0 ==> fs.V() == d.v)
      ensures k > 0 ==> d.cs[k - 1] < |d.v.data| && BeforeMarked(d.v.data, d.cs, PerCluster(), k, before) == true
      ensures k > 0 ==> fs.V() == d.v.(data := d.v.data[d.cs[k - 1] := before])
    {
      before := [];
      var prev := ClusterBefore(dirCluster, entryCluster, d, k);
      if prev != entryCluster {
        InChain(d, PerCluster(), k - 1);
        var buf := fs.ReadCluster(prev);
        buf := MarkBack(buf, PerCluster());
        fs.WriteCluster(prev, buf);
        before := buf;
      }
    }

    // The short slot, and those before it in its cluster.
    method MarkHere(was: seq<byte>, i: nat) returns (buf: seq<byte>)
      requires |was| == 32 * PerCluster() && i < PerCluster()
      ensures Marks(was, buf, PerCluster(), i, i + 1) == true
    {
      var mid := WithSlot(was, PerCluster(), i, Marked(SlotOf(was, PerCluster(), i)));
      buf := MarkBack(mid, i);
      ShortToo(was, mid, buf, PerCluster(), i);
    }

    method ReadMarked(spot: Spot, ghost d: Dir, ghost k: nat) returns (buf: seq<byte>)
      requires Valid() && fs.V() == d.v && Good(d, PerCluster()) == true
      requires k < |d.cs| && spot.cluster == d.cs[k] && spot.i < PerCluster()
      modifies fs.dev, fs.dev.cache
      ensures Valid() && fs.V() == d.v && |buf| == 32 * PerCluster()
      ensures HereMarked(d.v.data, d.cs, PerCluster(), k, spot.i, buf) == true
    {
      InChain(d, PerCluster(), k);
      var was := fs.ReadCluster(spot.cluster);
      buf := MarkHere(was, spot.i);
    }

    // All slots of the entry whose short slot is at that place, in cluster number k.
    method MarkSlots(dirCluster: nat, spot: Spot, ghost d: Dir, ghost k: nat, ghost at: nat)
      requires Valid() && fs.V() == d.v && Good(d, PerCluster()) == true && dirCluster == d.cs[0]
      requires k < |d.cs| && spot.cluster == d.cs[k] && spot.i < PerCluster()
        && at == Row(k, PerCluster()) + spot.i
      modifies fs.dev, fs.dev.cache
      ensures Valid() && MarkedIn(d, fs.V(), PerCluster(), k, spot.i, at) == true
    {
      InChain(d, PerCluster(), k);
      if k > 0 { InChain(d, PerCluster(), k - 1); }
      var buf := ReadMarked(spot, d, k);
      ghost var before := [];
      var goes := GoesOn(SlotOf(buf, PerCluster(), 0), spot.i == 0);
      if goes {
        before := MarkBefore(dirCluster, spot.cluster, d, k);
      }
      fs.WriteCluster(spot.cluster, buf);
      fs.FlushFat();
      MarksMade(d, PerCluster(), k, spot.i, buf, goes, before, fs.V(), at);
    }

    // Whether the directory that begins with that cluster shows an entry.
    method HasEntry(start: nat, ghost v: Volume, ghost es: seq<nat>) returns (has: bool)
      requires Valid() && fs.V() == v && FileChain(v.fat, start, es) == true
      requires es != [] ==> Good(Dir(v, es), PerCluster()) == true
      requires es != [] ==> NoOverrun(SlotsIn(Dir(v, es), PerCluster())) == true
      modifies fs.dev, fs.dev.cache
      ensures Valid() && fs.V() == v && has == (es != [] && Entries(SlotsIn(Dir(v, es), PerCluster())) != [])
    {
      has := false;
      if 2 <= start {
        var r := directory.ReadDirEntry(start, 0, es);
        has := r != Missing;
      }
    }

    method FreeContent(start: nat, dir: bool, ghost d: Dir, ghost slot: Slot, ghost es: seq<nat>)
      requires Valid() && fs.V() == d.v && Good(d, PerCluster()) == true && start == StartAt(slot, 0)
      requires Owns(d.v, slot, d.cs, es, PerCluster()) == true
      modifies fs.dev, fs.dev.cache
      ensures Valid() && Freed(d.v, fs.V(), es) == true
    {
      if es != [] { OwnGood(d, PerCluster(), slot, es); }
      if dir { fs.FreeChain(start); }
      if !dir && start >= 2 { fs.FreeChain(start); }
      if es == [] && dir { NothingFreed(d.v.fat, start, fs.V().fat); }
      ChainFreed(d, PerCluster(), slot, es, fs.V());
    }

    // The entry at that place, if it is not that of a directory with entries.
    method RemoveFound(dirCluster: nat, slot: Slot, spot: Spot, ghost d: Dir, ghost es: seq<nat>, ghost k: nat,
                       ghost at: nat)
      returns (ok: bool)
      requires Valid() && fs.V() == d.v && Good(d, PerCluster()) == true && dirCluster == d.cs[0]
      requires k < |d.cs| && spot.cluster == d.cs[k] && spot.i < PerCluster() && at == Row(k, PerCluster()) + spot.i
      requires Owns(d.v, slot, d.cs, es, PerCluster()) == true
      modifies fs.dev, fs.dev.cache
      ensures Valid() && ok == !Busy(d.v, slot, es, PerCluster())
      ensures if ok then Gone(d, fs.V(), PerCluster(), k, at, es) == true else fs.V() == d.v
    {
      if es != [] { OwnGood(d, PerCluster(), slot, es); }
      var start := StartAt(slot, 0);
      if IsDirectory(slot[11]) {
        var has := HasEntry(start, d.v, es);
        if has { return false; }
      }
      FreeContent(start, IsDirectory(slot[11]), d, slot, es);
      ghost var v := fs.V();
      FreedGood(d, PerCluster(), es, v);
      MarkSlots(dirCluster, spot, Dir(v, d.cs), k, at);
      FreedAndMarked(d, PerCluster(), es, v, fs.V(), k, spot.i, at);
      ok := true;
    }

    // The first entry of that name.
    method RemoveEntry(dirCluster: nat, name: seq<byte>, ghost d: Dir, ghost es: seq<nat>)
      returns (ok: bool, ghost k: nat)
      requires Valid() && fs.V() == d.v && Good(d, PerCluster()) == true && dirCluster == d.cs[0]
      requires NoOverrun(SlotsIn(d, PerCluster())) == true
      requires var seen := Entries(SlotsIn(d, PerCluster()));
        var m := FirstNamed(seen, name, 0);
        m < |seen| ==> Owns(d.v, seen[m].slot, d.cs, es, PerCluster()) == true
      modifies fs.dev, fs.dev.cache
      ensures Valid() && Removal(d, PerCluster(), name, es, ok, fs.V(), k) == true
    {
      ghost var seen := Entries(SlotsIn(d, PerCluster()));
      ghost var m := FirstNamed(seen, name, 0);
      k := 0;
      var r := directory.FindEntry(dirCluster, name, d.cs);
      if r == Missing { return false, 0; }
      ghost var i;
      k, i := EntryPlace(d, PerCluster(), seen, m);
      ok := RemoveFound(dirCluster, r.slot, r.spot, d, es, k, seen[m].at);
    }
  }

  lemma NotThere(d: Dir, n: nat, j: nat, k: nat)
    requires Good(d, n) == true && j <= k < |d.cs| && d.cs[j] != d.cs[k]
    ensures j + 1 <= k && Link(d.v.fat, d.cs[j]) == d.cs[j + 1]
  {
    ChainNext(d.v.fat, d.cs, j);
  }

  lemma NowThere(d: Dir, n: nat, j: nat, k: nat)
    requires Good(d, n) == true && j <= k < |d.cs| && !(d.cs[j] != d.cs[k] && 2 <= d.cs[j] < FAT_EOC)
    ensures j == k
  {
    InChain(d, n, j);
  }

  // ---- Results ----

  // The entry that goes is the first of that name, and when it robs none no other is shown less
  // or otherwise; the form is kept exactly when its slots do not reach too far back.
  lemma RemovalResult(d: Dir, n: nat, name: seq<byte>, es: seq<nat>, w: Volume, k: nat) returns (m: nat, s: nat)
    requires Good(d, n) == true && Removal(d, n, name, es, true, w, k) == true && WellFormed(SlotsIn(d, n)) == true
    ensures var slots, seen := SlotsIn(d, n), Entries(SlotsIn(d, n));
      && m < |seen| && m == FirstNamed(seen, name, 0) && seen[m].name == name && Occupies(slots, s, seen[m].at)
      && (!Robs(slots, RowBefore(k, n), Row(k, n), s) ==> Entries(SlotsIn(Dir(w, d.cs), n)) == Without(seen, m))
      && (!Robs(slots, RowBefore(k, n), Row(k, n), s)
          ==> (WellFormed(SlotsIn(Dir(w, d.cs), n)) <==> s >= StopsAt(n, k, seen[m].at)))
  {
    var slots, seen := SlotsIn(d, n), Entries(SlotsIn(d, n));
    m := FirstNamed(seen, name, 0);
    ScanPlaces(slots, 0, [], m);
    s := RunBefore(slots, seen[m].at);
    if !Robs(slots, RowBefore(k, n), Row(k, n), s) { GoneIsGone(d, w, n, k, seen[m].at, es, m, s); }
  }

  // How far back the slots of the entry with short slot at are looked for.
  function StopsAt(n: nat, k: nat, at: nat): nat { if at == Row(k, n) then RowBefore(k, n) else Row(k, n) }

  // A removed entry that robs none is the only one that is no longer shown.
  lemma GoneIsGone(d: Dir, w: Volume, n: nat, k: nat, at: nat, es: seq<nat>, m: nat, s: nat)
    requires Good(d, n) == true && Gone(d, w, n, k, at, es) == true && WellFormed(SlotsIn(d, n)) == true
    requires Occupies(SlotsIn(d, n), s, at) && !Robs(SlotsIn(d, n), RowBefore(k, n), Row(k, n), s)
    requires m < |Entries(SlotsIn(d, n))| && Entries(SlotsIn(d, n))[m].at == at
    ensures Entries(SlotsIn(Dir(w, d.cs), n)) == Without(Entries(SlotsIn(d, n)), m)
    ensures WellFormed(SlotsIn(Dir(w, d.cs), n)) <==> s >= StopsAt(n, k, at)
  {
    RemovalShows(SlotsIn(d, n), RowBefore(k, n), Row(k, n), s, at, m);
  }

  // Every file apart from the directory and from what was removed keeps its chain and its bytes.
  lemma RemovalKeepsFiles(d: Dir, w: Volume, n: nat, k: nat, at: nat, es: seq<nat>, start: nat, fs: seq<nat>,
                          bytes: seq<byte>)
    requires Good(d, n) == true && Gone(d, w, n, k, at, es) == true
    requires Holds(d.v, start, fs, bytes) && Elems(fs) !! Elems(d.cs + es)
    ensures Holds(w, start, fs, bytes)
  {
    assert forall i :: 0 <= i < |fs| ==> InRange(d.v.fat, fs[i]);
    OthersKept(d.v, w, d.cs + es, d.cs, 0, start, fs, bytes);
  }

  // The clusters of the entry are free again, all of them and no others.
  lemma RemovalFrees(d: Dir, w: Volume, n: nat, k: nat, at: nat, es: seq<nat>)
    requires Good(d, n) == true && Gone(d, w, n, k, at, es) == true && IsChain(d.v.fat, es)
    ensures |FreeClusters(w.fat)| == |FreeClusters(d.v.fat)| + |es|
  {
    forall c | c in Elems(es) ensures c !in FreeClusters(d.v.fat) { ChainNotFree(d.v.fat, es, c); }
    DistinctSize(es);
  }

  // ---- Created, then removed ----

  lemma InsertedOut(es: seq<Seen>, es': seq<Seen>, x: Seen, slots: seq<Slot>) returns (m: nat)
    requires Inserted(es, es', x) == true && es' == Entries(slots)
    ensures m < |es'| && es'[m] == x && Without(es', m) == es
    ensures x.at < |slots| && IsVisible(slots[x.at])
  {
    m :| InsertedAt(es, es', x, m);
    assert es == es[..m] + es[m..];
    ScanPlaces(slots, 0, [], m);
  }

  // An entry of the table after clusters have been taken, some for content, and these freed.
  lemma EntryAgain(v0: Volume, v1: Volume, w: Volume, cs: seq<nat>, cs': seq<nat>, content: seq<nat>, c: nat)
    requires OnlyTouches(v0, v1, cs, cs' + content, 0) == true && OnlyTouches(v1, w, cs' + content, cs', 0) == true
    requires c < |w.fat|
    ensures |v0.fat| == |w.fat| && (c in cs' && c !in cs ==> v0.fat[c] == FAT_FREE)
    ensures c !in cs && c !in cs' ==> w.fat[c] == v0.fat[c]
  {
    assert c in cs' + content <==> c in cs' || c in content;
  }

  // The clusters taken for an entry that has been removed again: those the directory has grown by.
  lemma FreeAgain(d: Dir, d': Dir, w: Volume, n: nat, k: nat, at: nat, content: seq<nat>)
    requires Good(d, n) == true && Confined(d, d', content, n) == true && Gone(d', w, n, k, at, content) == true
    ensures |FreeClusters(w.fat)| + |d'.cs| == |FreeClusters(d.v.fat)| + |d.cs|
  {
    forall c: nat | c < |w.fat|
      ensures c !in d.cs && c !in d'.cs ==> w.fat[c] == d.v.fat[c]
      ensures c in d'.cs && c !in d.cs ==> d.v.fat[c] == FAT_FREE
    {
      EntryAgain(d.v, d'.v, w, d.cs, d'.cs, content, c);
    }
    assert IsChain(w.fat, d'.cs) && IsChain(d.v.fat, d.cs);
    CountAgain(d.v, w.fat, d.cs, d'.cs);
  }

  lemma CountAgain(v: Volume, fat: seq<nat>, cs: seq<nat>, cs': seq<nat>)
    requires IsChain(v.fat, cs) && IsChain(fat, cs') && |fat| == |v.fat| == |v.data| && cs <= cs'
    requires forall c: nat | c < |fat| :: c !in cs && c !in cs' ==> fat[c] == v.fat[c]
    requires forall c: nat | c < |fat| :: c in cs' && c !in cs ==> v.fat[c] == FAT_FREE
    ensures |FreeClusters(fat)| + |cs'| == |FreeClusters(v.fat)| + |cs|
  {
    var w := v.(fat := fat);
    forall c | c in cs ensures c in cs' {}
    assert OnlyTouches(v, w, cs, cs', 0);
    FreeBalance(v, w, cs, cs', 0);
  }

  // Create an entry, then remove it: the directory shows what it showed before, and the free
  // clusters are those of before less the ones the directory has grown by.
  lemma CreateThenRemove(d: Dir, n: nat, name: seq<byte>, attr: byte, root: nat, w: Volume, k: nat, s: nat)
    requires Good(d, n) == true && n >= 2 && Nameable(name) && Plain(attr) && WellFormed(SlotsIn(d, n)) == true
    requires Creation(d, n, name, attr, root).Made?
    requires var o := Creation(d, n, name, attr, root);
      && Gone(o.d, w, n, k, o.at, o.content) == true && Occupies(SlotsIn(o.d, n), s, o.at)
      && !Robs(SlotsIn(o.d, n), RowBefore(k, n), Row(k, n), s)
    ensures var o := Creation(d, n, name, attr, root);
      && Entries(SlotsIn(Dir(w, o.d.cs), n)) == Entries(SlotsIn(d, n))
      && |FreeClusters(w.fat)| + |o.d.cs| == |FreeClusters(d.v.fat)| + |d.cs|
  {
    var o := Creation(d, n, name, attr, root);
    CreationShows(d, n, name, attr, root);
    CreationConfined(d, n, name, attr, root);
    Restored(d, o, n, StoredName(name), w, k, s);
    FreeAgain(d, o.d, w, n, k, o.at, o.content);
  }

  lemma Restored(d: Dir, o: Outcome, n: nat, shown: seq<byte>, w: Volume, k: nat, s: nat)
    requires Good(o.d, n) == true && o.Made? && Gone(o.d, w, n, k, o.at, o.content) == true
    requires Showing(SlotsIn(d, n), SlotsIn(o.d, n), o, shown) == true && Occupies(SlotsIn(o.d, n), s, o.at)
    requires !Robs(SlotsIn(o.d, n), RowBefore(k, n), Row(k, n), s)
    ensures Entries(SlotsIn(Dir(w, o.d.cs), n)) == Entries(SlotsIn(d, n))
  {
    var m := InsertedOut(Entries(SlotsIn(d, n)), Entries(SlotsIn(o.d, n)), Seen(shown, o.short, o.at), SlotsIn(o.d, n));
    GoneIsGone(o.d, w, n, k, o.at, o.content, m, s);
  }
}
