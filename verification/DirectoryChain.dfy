// A directory laid out along a cluster chain: its slots cluster after cluster, and how writing
// slots and adding clusters change them.
module DirectoryChain {
  import opened Bytes
  import opened Finite
  import opened FatChains
  import opened FatLayout
  import opened FileData
  import opened Names
  import opened DirectorySlots

  // Slot i of a cluster that holds n of them.
  function SlotOf(buf: seq<byte>, n: nat, i: nat): Slot
    requires |buf| == 32 * n && i < n
  {
    buf[32 * i..32 * i + 32]
  }

  function SlotsOf(buf: seq<byte>, n: nat): (r: seq<Slot>)
    requires |buf| == 32 * n
    ensures |r| == n && forall i :: 0 <= i < n ==> r[i] == SlotOf(buf, n, i)
  {
    seq(n, i requires 0 <= i < n => SlotOf(buf, n, i))
  }

  function WithSlot(buf: seq<byte>, n: nat, i: nat, s: Slot): (r: seq<byte>)
    requires |buf| == 32 * n && i < n
    ensures |r| == 32 * n
  {
    Patch(buf, 32 * i, s)
  }

  lemma SlotsAfterWrite(buf: seq<byte>, n: nat, i: nat, s: Slot)
    requires |buf| == 32 * n && i < n
    ensures SlotsOf(WithSlot(buf, n, i, s), n) == SlotsOf(buf, n)[i := s]
  {
    var r := WithSlot(buf, n, i, s);
    forall j | 0 <= j < n ensures SlotOf(r, n, j) == if j == i then s else SlotOf(buf, n, j) {}
  }

  // Clusters of n slots each.
  ghost predicate Clusters(data: seq<seq<byte>>, cs: seq<nat>, n: nat) {
    forall k :: 0 <= k < |cs| ==> cs[k] < |data| && |data[cs[k]]| == 32 * n
  }

  function DirSlots(data: seq<seq<byte>>, cs: seq<nat>, n: nat): (r: seq<Slot>)
    requires Clusters(data, cs, n)
    ensures |r| == Row(|cs|, n)
  {
    if cs == [] then [] else DirSlots(data, cs[..|cs| - 1], n) + SlotsOf(data[cs[|cs| - 1]], n)
  }

  lemma {:induction false} DirSlotAt(data: seq<seq<byte>>, cs: seq<nat>, n: nat, k: nat, i: nat)
    requires Clusters(data, cs, n) && k < |cs| && i < n
    ensures Row(k, n) + i < Row(|cs|, n) && DirSlots(data, cs, n)[Row(k, n) + i] == SlotOf(data[cs[k]], n, i)
  {
    var m := |cs| - 1;
    RowFits(k, |cs|, n, i);
    if k < m {
      DirSlotAt(data, cs[..m], n, k, i);
    } else {
      assert SlotsOf(data[cs[m]], n)[i] == SlotOf(data[cs[m]], n, i);
    }
  }

  lemma {:induction false} DirSlotsFrame(data: seq<seq<byte>>, data': seq<seq<byte>>, cs: seq<nat>, n: nat)
    requires Clusters(data, cs, n) && Clusters(data', cs, n)
    requires forall k :: 0 <= k < |cs| ==> data'[cs[k]] == data[cs[k]]
    ensures DirSlots(data', cs, n) == DirSlots(data, cs, n)
  {
    if cs != [] { DirSlotsFrame(data, data', cs[..|cs| - 1], n); }
  }

  lemma UpdateLeft(a: seq<Slot>, b: seq<Slot>, i: nat, s: Slot)
    requires i < |a|
    ensures a[i := s] + b == (a + b)[i := s]
  {
  }

  lemma UpdateRight(a: seq<Slot>, b: seq<Slot>, i: nat, s: Slot)
    requires i < |b|
    ensures a + b[i := s] == (a + b)[|a| + i := s]
  {
  }

  lemma RowFits(k: nat, m: nat, n: nat, i: nat)
    requires k < m && i < n
    ensures Row(k, n) + i < Row(m, n)
  {
    RowSum(k + 1, m - (k + 1), n);
  }

  lemma ClustersWritten(data: seq<seq<byte>>, cs: seq<nat>, n: nat, c: nat, buf: seq<byte>)
    requires Clusters(data, cs, n) && c < |data| && |buf| == 32 * n
    ensures Clusters(data[c := buf], cs, n)
  {
  }

  lemma LastSlotWritten(data: seq<seq<byte>>, init: seq<nat>, last: nat, n: nat, i: nat, s: Slot)
    requires Clusters(data, init, n) && last !in init && last < |data| && |data[last]| == 32 * n && i < n
    ensures var data' := data[last := WithSlot(data[last], n, i, s)];
      && Clusters(data', init, n)
      && DirSlots(data', init, n) + SlotsOf(data'[last], n)
        == (DirSlots(data, init, n) + SlotsOf(data[last], n))[Row(|init|, n) + i := s]
  {
    var data' := data[last := WithSlot(data[last], n, i, s)];
    ClustersWritten(data, init, n, last, WithSlot(data[last], n, i, s));
    DirSlotsFrame(data, data', init, n);
    SlotsAfterWrite(data[last], n, i, s);
    UpdateRight(DirSlots(data, init, n), SlotsOf(data[last], n), i, s);
  }

  // Writing one slot of one cluster writes one slot of the directory.
  lemma {:induction false} DirSlotWritten(data: seq<seq<byte>>, cs: seq<nat>, n: nat, k: nat, i: nat, s: Slot)
    requires Clusters(data, cs, n) && Distinct(cs) && k < |cs| && i < n
    ensures var data' := data[cs[k] := WithSlot(data[cs[k]], n, i, s)];
      Clusters(data', cs, n) && Row(k, n) + i < Row(|cs|, n)
        && DirSlots(data', cs, n) == DirSlots(data, cs, n)[Row(k, n) + i := s]
  {
    var m := |cs| - 1;
    var init, last := cs[..m], cs[m];
    RowFits(k, |cs|, n, i);
    ClustersWritten(data, cs, n, cs[k], WithSlot(data[cs[k]], n, i, s));
    if k < m {
      DirSlotWritten(data, init, n, k, i, s);
      assert init[k] == cs[k] && last != cs[k];
      UpdateLeft(DirSlots(data, init, n), SlotsOf(data[last], n), Row(k, n) + i, s);
    } else {
      LastSlotWritten(data, init, last, n, i, s);
    }
  }

  // A zeroed cluster at the end of the chain.
  lemma DirSlotsExtended(data: seq<seq<byte>>, cs: seq<nat>, n: nat, c: nat)
    requires Clusters(data, cs + [c], n) && c < |data| && data[c] == ZeroCluster(n)
    ensures Clusters(data, cs, n) && DirSlots(data, cs + [c], n) == DirSlots(data, cs, n) + Zeros(n)
  {
    forall k | 0 <= k < |cs| ensures cs[k] < |data| && |data[cs[k]]| == 32 * n { assert (cs + [c])[k] == cs[k]; }
    assert (cs + [c])[..|cs|] == cs && (cs + [c])[|cs|] == c;
    forall i | 0 <= i < n ensures SlotsOf(data[c], n)[i] == ZeroSlot() {}
    assert SlotsOf(data[c], n) == Zeros(n);
  }

  lemma ZerosMore(slots: seq<Slot>, m: nat, n: nat)
    ensures slots + Zeros(m) + Zeros(n) == slots + Zeros(m + n)
  {
  }

  // ---- The chain of a directory as it grows ----

  // cur continues cs with clusters that were free; apart from them and the directory's own
  // clusters nothing has changed.
  ghost predicate Extends(v0: Volume, v: Volume, cs: seq<nat>, cur: seq<nat>) {
    OnlyTouches(v0, v, cs, cur, 0) && cs <= cur && IsChain(v0.fat, cs) && IsChain(v.fat, cur)
  }

  // The directory shows the same slots as before, with only zeroed ones added.
  ghost predicate OnlyLonger(v0: Volume, v: Volume, cs: seq<nat>, cur: seq<nat>, n: nat) {
    && Extends(v0, v, cs, cur) && Clusters(v0.data, cs, n) && Clusters(v.data, cur, n)
    && DirSlots(v.data, cur, n) == DirSlots(v0.data, cs, n) + Zeros(Row(|cur| - |cs|, n))
  }

  lemma LongerStart(v: Volume, cs: seq<nat>, n: nat)
    requires IsChain(v.fat, cs) && |v.fat| == |v.data| && Clusters(v.data, cs, n)
    ensures OnlyLonger(v, v, cs, cs, n)
  {
    assert DirSlots(v.data, cs, n) + Zeros(0) == DirSlots(v.data, cs, n);
  }

  function ZeroCluster(n: nat): (r: seq<byte>)
    ensures |r| == 32 * n
  {
    seq(32 * n, _ => 0)
  }

  // The volume with a zeroed cluster c linked behind the last one.
  function Linked(v: Volume, last: nat, c: nat, n: nat): Volume
    requires last < |v.fat| && c < |v.fat| && c < |v.data|
  {
    Volume(v.fat[c := FAT_EOC][last := c], v.top, v.data[c := ZeroCluster(n)], v.boot)
  }

  lemma ExtendsByOne(v0: Volume, v: Volume, cs: seq<nat>, cur: seq<nat>, c: nat, n: nat)
    requires Extends(v0, v, cs, cur) == true && cur != [] && c in FreeClusters(v.fat) && |v.data[c]| == 32 * n
    ensures c !in cur && Extends(v0, Linked(v, cur[|cur| - 1], c, n), cs, cur + [c]) == true
  {
    ChainExtended(v.fat, cur, c);
    forall d | d in cs ensures d in cur {}
    assert v0.fat[c] == FAT_FREE;
    assert forall d :: d in cur + [c] <==> d in cur || d == c;
  }

  lemma SlotsByOne(data: seq<seq<byte>>, cur: seq<nat>, c: nat, n: nat)
    requires Clusters(data, cur, n) == true && c < |data| && c !in cur
    ensures var data' := data[c := ZeroCluster(n)];
      Clusters(data', cur + [c], n) == true && DirSlots(data', cur + [c], n) == DirSlots(data, cur, n) + Zeros(n)
  {
    var data' := data[c := ZeroCluster(n)];
    ClustersGrown(data, cur, c, n);
    DirSlotsExtended(data', cur, n, c);
    DirSlotsFrame(data, data', cur, n);
  }

  lemma OneFreeLess(v: Volume, cur: seq<nat>, c: nat, n: nat)
    requires IsChain(v.fat, cur) && cur != [] && |v.fat| == |v.data| && c in FreeClusters(v.fat)
    ensures FreeClusters(Linked(v, cur[|cur| - 1], c, n).fat) == FreeClusters(v.fat) - {c}
  {
    ChainNotFree(v.fat, cur, cur[|cur| - 1]);
  }

  lemma LongerByOne(v0: Volume, v: Volume, cs: seq<nat>, cur: seq<nat>, c: nat, n: nat)
    requires OnlyLonger(v0, v, cs, cur, n) == true && cur != [] && c in FreeClusters(v.fat) && |v.data[c]| == 32 * n
    ensures OnlyLonger(v0, Linked(v, cur[|cur| - 1], c, n), cs, cur + [c], n) == true
    ensures DirSlots(Linked(v, cur[|cur| - 1], c, n).data, cur + [c], n) == DirSlots(v.data, cur, n) + Zeros(n)
  {
    var m := |cur| - |cs|;
    ExtendsByOne(v0, v, cs, cur, c, n);
    SlotsByOne(v.data, cur, c, n);
    ZerosMore(DirSlots(v0.data, cs, n), Row(m, n), n);
    NextRow(m, n);
    assert |cur + [c]| - |cs| == m + 1;
  }

  lemma NextRow(m: nat, n: nat)
    ensures Row(m, n) + n == Row(m + 1, n)
  {
  }

  lemma ClustersGrown(data: seq<seq<byte>>, cur: seq<nat>, c: nat, n: nat)
    requires Clusters(data, cur, n) && c < |data| && c !in cur
    ensures Clusters(data[c := ZeroCluster(n)], cur + [c], n) && Clusters(data[c := ZeroCluster(n)], cur, n)
    ensures forall k :: 0 <= k < |cur| ==> data[c := ZeroCluster(n)][cur[k]] == data[cur[k]]
  {
  }

}
