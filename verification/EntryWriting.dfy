// Writing the slots of a new entry along a directory's chain, a cluster buffer at a time, and
// the content cluster of a new directory.
module EntryWriting {
  import opened Bytes
  import opened Finite
  import opened FatChains
  import opened FatLayout
  import opened FileData
  import opened Names
  import opened DirectorySlots
  import opened DirectoryChain
  import opened DirectoryPlaces

  // ---- Slots written along a chain ----

  // The clusters with s written as slot number at of the directory.
  function PutOne(data: seq<seq<byte>>, cs: seq<nat>, n: nat, at: nat, s: Slot): (r: seq<seq<byte>>)
    ensures |r| == |data| && forall c :: 0 <= c < |data| ==> |r[c]| == |data[c]|
  {
    var spot := SpotAt(cs, n, at);
    if spot.cluster < |data| && |data[spot.cluster]| == 32 * n && spot.i < n
    then data[spot.cluster := WithSlot(data[spot.cluster], n, spot.i, s)] else data
  }

  // The same for slots ns from slot number p on.
  function Put(data: seq<seq<byte>>, cs: seq<nat>, n: nat, p: nat, ns: seq<Slot>): (r: seq<seq<byte>>)
    ensures |r| == |data| && forall c :: 0 <= c < |data| ==> |r[c]| == |data[c]|
  {
    if ns == [] then data
    else PutOne(Put(data, cs, n, p, ns[..|ns| - 1]), cs, n, p + |ns| - 1, ns[|ns| - 1])
  }

  lemma {:induction false} PlaceOf(cs: seq<nat>, n: nat, at: nat) returns (k: nat, i: nat)
    requires at < Row(|cs|, n)
    ensures k < |cs| && i < n && at == Row(k, n) + i && SpotAt(cs, n, at) == Spot(cs[k], i)
    decreases |cs|
  {
    var m := |cs| - 1;
    if at < Row(m, n) {
      k, i := PlaceOf(cs[..m], n, at);
    } else {
      k, i := m, at - Row(m, n);
    }
    SpotIs(cs, n, k, i);
  }

  // Writing the slots of a directory where they are writes them in its row of slots.
  lemma {:induction false} PutWrites(data: seq<seq<byte>>, cs: seq<nat>, n: nat, p: nat, ns: seq<Slot>)
    requires Clusters(data, cs, n) == true && Distinct(cs) == true && p + |ns| <= Row(|cs|, n)
    ensures Clusters(Put(data, cs, n, p, ns), cs, n) == true
    ensures DirSlots(Put(data, cs, n, p, ns), cs, n) == Written(DirSlots(data, cs, n), p, ns)
    decreases |ns|
  {
    if ns == [] {
      assert Written(DirSlots(data, cs, n), p, ns) == DirSlots(data, cs, n);
    } else {
      var m := |ns| - 1;
      var put := Put(data, cs, n, p, ns[..m]);
      PutWrites(data, cs, n, p, ns[..m]);
      PutOneWrites(put, cs, n, p + m, ns[m]);
      assert Put(data, cs, n, p, ns) == PutOne(put, cs, n, p + m, ns[m]);
      WrittenMore(DirSlots(data, cs, n), p, ns);
    }
  }

  lemma PutOneWrites(data: seq<seq<byte>>, cs: seq<nat>, n: nat, at: nat, s: Slot)
    requires Clusters(data, cs, n) == true && Distinct(cs) == true && at < Row(|cs|, n)
    ensures Clusters(PutOne(data, cs, n, at, s), cs, n) == true
    ensures DirSlots(PutOne(data, cs, n, at, s), cs, n) == DirSlots(data, cs, n)[at := s]
  {
    var k, i := PlaceOf(cs, n, at);
    DirSlotWritten(data, cs, n, k, i, s);
  }

  lemma WrittenMore(slots: seq<Slot>, p: nat, ns: seq<Slot>)
    requires ns != [] && p + |ns| <= |slots|
    ensures Written(slots, p, ns[..|ns| - 1])[p + |ns| - 1 := ns[|ns| - 1]] == Written(slots, p, ns)
  {
  }

  // Nothing but clusters of the directory is written.
  lemma {:induction false} PutFrame(data: seq<seq<byte>>, cs: seq<nat>, n: nat, p: nat, ns: seq<Slot>, c: nat)
    requires p + |ns| <= Row(|cs|, n) && c < |data| && c !in cs
    ensures Put(data, cs, n, p, ns)[c] == data[c]
    decreases |ns|
  {
    if ns != [] {
      PutFrame(data, cs, n, p, ns[..|ns| - 1], c);
      var k, i := PlaceOf(cs, n, p + |ns| - 1);
    }
  }

  // ---- With a buffer ----

  // The cluster at hand, its buffer, and the next slot to write in it.
  datatype Pen = Pen(cluster: nat, buf: seq<byte>, i: nat)

  // Of j slots put so far, with slot i of a cluster next, those in the clusters before it.
  function Flushed(j: nat, i: nat): (f: nat)
    ensures f <= j
  {
    if j > i then j - i else 0
  }

  // j of the slots ns have been written from slot p on of the directory that had the clusters
  // was; those in the cluster at hand only in the buffer.
  ghost predicate Writing(was: seq<seq<byte>>, data: seq<seq<byte>>, cs: seq<nat>, n: nat, p: nat, ns: seq<Slot>,
                          pen: Pen, j: nat) {
    && j < |ns| && p + |ns| <= Row(|cs|, n) && Clusters(was, cs, n) && |data| == |was|
    && SpotAt(cs, n, p + j) == Spot(pen.cluster, pen.i) && pen.cluster < |was| && |pen.buf| == 32 * n
    && data[pen.cluster := pen.buf] == Put(was, cs, n, p, ns[..j])
    && data == Put(was, cs, n, p, ns[..Flushed(j, pen.i)])
  }

  lemma WritingStart(was: seq<seq<byte>>, cs: seq<nat>, n: nat, p: nat, ns: seq<Slot>, start: Spot)
    requires ns != [] && p + |ns| <= Row(|cs|, n) && Clusters(was, cs, n) && start == SpotAt(cs, n, p)
    ensures start.cluster in cs && start.cluster < |was|
    ensures Writing(was, was, cs, n, p, ns, Pen(start.cluster, was[start.cluster], start.i), 0) == true
  {
    var k, i := PlaceOf(cs, n, p);
    assert was[start.cluster := was[start.cluster]] == was;
    assert ns[..0] == [];
  }

  // Where the next slot goes: on in this cluster, or first in the next one of the chain.
  lemma PlaceNext(cs: seq<nat>, n: nat, at: nat)
    requires at + 1 < Row(|cs|, n)
    ensures SpotAt(cs, n, at).i < n
    ensures var s := SpotAt(cs, n, at);
      s.i + 1 < n ==> SpotAt(cs, n, at + 1) == Spot(s.cluster, s.i + 1)
  {
    var k, i := PlaceOf(cs, n, at);
    if i + 1 < n { SpotIs(cs, n, k, i + 1); }
  }

  lemma PlaceTurn(cs: seq<nat>, n: nat, at: nat) returns (k: nat)
    requires at + 1 < Row(|cs|, n) && SpotAt(cs, n, at).i + 1 >= n
    ensures k + 1 < |cs| && SpotAt(cs, n, at).cluster == cs[k] && SpotAt(cs, n, at + 1) == Spot(cs[k + 1], 0)
  {
    var k', i := PlaceOf(cs, n, at);
    k := k';
    if k + 1 < |cs| { SpotIs(cs, n, k + 1, 0); }
  }

  lemma PenPlace(was: seq<seq<byte>>, data: seq<seq<byte>>, cs: seq<nat>, n: nat, p: nat, ns: seq<Slot>, pen: Pen,
      j: nat)
    requires Writing(was, data, cs, n, p, ns, pen, j) == true
    ensures pen.i < n && pen.cluster in cs
  {
    var k, i := PlaceOf(cs, n, p + j);
  }

  // A slot put into the buffer.
  lemma PutInBuffer(was: seq<seq<byte>>, data: seq<seq<byte>>, cs: seq<nat>, n: nat, p: nat, ns: seq<Slot>,
                    pen: Pen, j: nat, s: Slot)
    requires Writing(was, data, cs, n, p, ns, pen, j) == true
    ensures pen.i < n && pen.cluster in cs
    ensures data[pen.cluster := WithSlot(pen.buf, n, pen.i, s)] == Put(was, cs, n, p, ns[..j] + [s])
  {
    PenPlace(was, data, cs, n, p, ns, pen, j);
    assert (ns[..j] + [s])[..j] == ns[..j];
    var put := Put(was, cs, n, p, ns[..j]);
    assert put[pen.cluster] == pen.buf;
    assert data[pen.cluster := WithSlot(pen.buf, n, pen.i, s)] == put[pen.cluster := WithSlot(pen.buf, n, pen.i, s)];
  }

  lemma Prefixes(ns: seq<Slot>, j: nat)
    requires j < |ns|
    ensures ns[..j] + [ns[j]] == ns[..j + 1]
  {
  }

  lemma WritingOn(was: seq<seq<byte>>, data: seq<seq<byte>>, cs: seq<nat>, n: nat, p: nat, ns: seq<Slot>, pen: Pen,
      j: nat)
    requires Writing(was, data, cs, n, p, ns, pen, j) == true && j + 1 < |ns| && pen.i + 1 < n
    ensures Writing(was, data, cs, n, p, ns, Pen(pen.cluster, WithSlot(pen.buf, n, pen.i, ns[j]), pen.i + 1), j + 1)
      == true
  {
    PutInBuffer(was, data, cs, n, p, ns, pen, j, ns[j]);
    PlaceNext(cs, n, p + j);
    Prefixes(ns, j);
  }

  // The buffer full: written out, and the next cluster of the chain taken.
  lemma WritingTurn(was: seq<seq<byte>>, data: seq<seq<byte>>, cs: seq<nat>, n: nat, p: nat, ns: seq<Slot>, pen: Pen,
      j: nat)
    returns (k: nat)
    requires Writing(was, data, cs, n, p, ns, pen, j) == true && j + 1 < |ns| && pen.i + 1 == n
    ensures k + 1 < |cs| && pen.cluster == cs[k] && pen.cluster < |data| && cs[k + 1] < |data|
    ensures var data' := data[pen.cluster := WithSlot(pen.buf, n, pen.i, ns[j])];
      Writing(was, data', cs, n, p, ns, Pen(cs[k + 1], data'[cs[k + 1]], 0), j + 1) == true
  {
    PutInBuffer(was, data, cs, n, p, ns, pen, j, ns[j]);
    k := PlaceTurn(cs, n, p + j);
    Prefixes(ns, j);
    var data' := data[pen.cluster := WithSlot(pen.buf, n, pen.i, ns[j])];
    assert data'[cs[k + 1] := data'[cs[k + 1]]] == data';
  }

  // ---- The content of a new directory ----

  // A short entry that names a first cluster; its size stays zero.
  function WithCluster(s: Slot, c: nat): (r: Slot)
    requires c < U32
  {
    WithFields(s, 0, c, 0)
  }

  // "." or "..", the entry of a directory that names the directory itself or its parent.
  function DotSlot(name: seq<byte>, c: nat): Slot
    requires |name| <= 11 && c < U32
  {
    WithCluster(ShortWith(Pad(name, 11), 0x10), c)
  }

  function DotCluster(c: nat, parent: nat, n: nat): (r: seq<byte>)
    requires c < U32 && parent < U32 && n >= 2
    ensures |r| == 32 * n
  {
    DotSlot([DOT], c) + DotSlot([DOT, DOT], parent) + seq(32 * (n - 2), _ => 0)
  }

  lemma ClusterNamed(s: Slot, c: nat)
    requires c < U32
    ensures StartAt(WithCluster(s, c), 0) == c && WithCluster(s, c)[..20] == s[..20]
  {
    FieldsReadBack(s, 0, c, 0);
  }

  // Slots that start alike are of the same kind.
  lemma SameKind(s: Slot, r: Slot)
    requires r[..20] == s[..20]
    ensures IsHidden(r) == IsHidden(s) && IsVisible(r) == IsVisible(s) && IsLfn(r) == IsLfn(s)
    ensures r[..11] == s[..11] && r[12] == s[12]
  {
    assert forall i :: 0 <= i < 20 ==> r[i] == r[..20][i] && s[i] == s[..20][i];
  }

  lemma DotsHidden(s: Slot, name: seq<byte>)
    requires name == [DOT] || name == [DOT, DOT]
    requires s[..11] == Pad(name, 11) && s[11] == 0x10
    ensures IsHidden(s)
  {
    assert s[0] == s[..11][0] && s[1] == s[..11][1];
  }

  lemma DotHidden(name: seq<byte>, c: nat)
    requires c < U32 && (name == [DOT] || name == [DOT, DOT])
    ensures IsHidden(DotSlot(name, c))
  {
    var s := ShortWith(Pad(name, 11), 0x10);
    DotsHidden(s, name);
    ClusterNamed(s, c);
    SameKind(s, WithCluster(s, c));
  }

  lemma DotSlots(c: nat, parent: nat, n: nat)
    requires c < U32 && parent < U32 && n >= 2
    ensures SlotsOf(DotCluster(c, parent, n), n) == [DotSlot([DOT], c), DotSlot([DOT, DOT], parent)] + Zeros(n - 2)
  {
    var buf := DotCluster(c, parent, n);
    var want := [DotSlot([DOT], c), DotSlot([DOT, DOT], parent)] + Zeros(n - 2);
    forall i | 0 <= i < n ensures SlotOf(buf, n, i) == want[i] {
      if i >= 2 { assert SlotOf(buf, n, i) == ZeroSlot(); }
    }
  }

  // A directory of two hidden slots and zeroes is empty and well-formed.
  lemma HiddenOnly(a: Slot, b: Slot, m: nat)
    requires IsHidden(a) && IsHidden(b)
    ensures Entries([a, b] + Zeros(m)) == [] && WellFormed([a, b] + Zeros(m))
  {
    var two := [a, b];
    assert forall i :: 0 <= i < 2 ==> EndsAll(two, i) && LeadsOn(two, i);
    assert Scan(two, 2, []) == [];
    assert Scan(two, 1, []) == [];
    ExtensionIsSilent(two, m);
  }

  lemma {:induction false} OneCluster(v: Volume, c: nat, n: nat)
    requires InRange(v.fat, c) && v.fat[c] == FAT_EOC && |v.fat| == |v.data| && |v.data[c]| == 32 * n
    ensures IsChain(v.fat, [c]) && SlotsIn(Dir(v, [c]), n) == SlotsOf(v.data[c], n)
  {
    var cs := [c];
    assert cs[..0] == [];
    assert DirSlots(v.data, cs[..0], n) == [];
    assert DirSlots(v.data, cs, n) == [] + SlotsOf(v.data[c], n);
  }

  lemma NewDirectoryEmpty(v: Volume, c: nat, parent: nat, n: nat)
    requires InRange(v.fat, c) && v.fat[c] == FAT_EOC && |v.fat| == |v.data| && n >= 2
    requires c < U32 && parent < U32 && v.data[c] == DotCluster(c, parent, n)
    ensures var slots := SlotsIn(Dir(v, [c]), n);
      && IsChain(v.fat, [c]) && Entries(slots) == [] && WellFormed(slots)
      && slots == [DotSlot([DOT], c), DotSlot([DOT, DOT], parent)] + Zeros(n - 2)
  {
    OneCluster(v, c, n);
    DotHidden([DOT], c);
    DotHidden([DOT, DOT], parent);
    DotSlots(c, parent, n);
    HiddenOnly(DotSlot([DOT], c), DotSlot([DOT, DOT], parent), n - 2);
  }
}
