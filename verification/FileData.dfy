// A file as the sequence of bytes along its cluster chain, and the fields of its
// 32-byte directory entry that name the chain and the size.
module FileData {
  import opened Bytes
  import opened Finite
  import opened FatChains
  import opened FatLayout

  // The bytes of the clusters cs, one after the other.
  function Content(data: seq<seq<byte>>, cs: seq<nat>): seq<byte>
    requires forall i :: 0 <= i < |cs| ==> cs[i] < |data|
  {
    if cs == [] then [] else Content(data, cs[..|cs| - 1]) + data[cs[|cs| - 1]]
  }

  // The clusters cs hold the bytes of a file of that size, chained from start.
  ghost predicate Holds(v: Volume, start: nat, cs: seq<nat>, bytes: seq<byte>) {
    && FileChain(v.fat, start, cs)
    && |v.data| == |v.fat|
    && bytes <= Content(v.data, cs)
  }

  // Position p of a file is byte Rem(p, size) of its cluster number Quot(p, size): remainder
  // and quotient of p by size.
  function Quot(p: nat, size: nat): (q: nat)
    requires 0 < size
  {
    if p < size then 0 else Quot(p - size, size) + 1
  }

  function Rem(p: nat, size: nat): (r: nat)
    requires 0 < size
    ensures r < size && p == Row(Quot(p, size), size) + r
  {
    if p < size then p else Rem(p - size, size)
  }

  // They are the quotient and the remainder that the code computes.
  lemma DivMod(p: nat, size: nat)
    requires 0 < size
    ensures Quot(p, size) == p / size && Rem(p, size) == p % size
  {
    var q', r' := p / size, p % size;
    assert p == q' * size + r';
    RowIs(q', size);
    QuotUnique(p, size, q', r');
  }

  lemma {:induction false} QuotUnique(p: nat, size: nat, q: nat, r: nat)
    requires r < size && p == Row(q, size) + r
    ensures Quot(p, size) == q && Rem(p, size) == r
  {
    if q > 0 { QuotUnique(p - size, size, q - 1, r); }
  }

  lemma WholeClusters(k: nat, size: nat)
    requires 0 < size
    ensures Quot(Row(k, size), size) == k && Rem(Row(k, size), size) == 0
  {
    QuotUnique(Row(k, size), size, k, 0);
  }

  lemma QuotInside(p: nat, m: nat, size: nat)
    requires 0 < size && p < Row(m, size)
    ensures Quot(p, size) < m
  {
    var r := Rem(p, size);
    if m <= Quot(p, size) { RowMono(m, Quot(p, size), size); }
  }

  // Number of clusters for len bytes.
  function Needed(len: nat, size: nat): nat
    requires 0 < size
  {
    Quot(len + size - 1, size)
  }

  lemma {:induction false} ContentSize(data: seq<seq<byte>>, cs: seq<nat>, size: nat)
    requires forall i :: 0 <= i < |cs| ==> cs[i] < |data| && |data[cs[i]]| == size
    ensures |Content(data, cs)| == Row(|cs|, size)
  {
    if cs != [] {
      ContentSize(data, cs[..|cs| - 1], size);
    }
  }

  lemma {:induction false} ContentFrame(data: seq<seq<byte>>, data': seq<seq<byte>>, cs: seq<nat>)
    requires |data'| == |data| && forall i :: 0 <= i < |cs| ==> cs[i] < |data| && data'[cs[i]] == data[cs[i]]
    ensures Content(data', cs) == Content(data, cs)
  {
    if cs != [] { ContentFrame(data, data', cs[..|cs| - 1]); }
  }

  // Cluster number k of the chain holds bytes k * size to (k + 1) * size of the content.
  lemma {:induction false} ContentCluster(data: seq<seq<byte>>, cs: seq<nat>, size: nat, k: nat)
    requires forall i :: 0 <= i < |cs| ==> cs[i] < |data| && |data[cs[i]]| == size
    requires k < |cs|
    ensures |Content(data, cs)| == Row(|cs|, size) && 0 <= Row(k, size) <= Row(k + 1, size) <= Row(|cs|, size)
    ensures Content(data, cs)[Row(k, size)..Row(k + 1, size)] == data[cs[k]]
  {
    ContentSize(data, cs, size);
    var init := cs[..|cs| - 1];
    ContentSize(data, init, size);
    RowMono(k + 1, |cs|, size);
    if k < |cs| - 1 {
      ContentCluster(data, init, size, k);
      assert Content(data, cs)[..Row(|init|, size)] == Content(data, init);
      assert Content(data, cs)[Row(k, size)..Row(k + 1, size)] == Content(data, init)[Row(k, size)..Row(k + 1, size)];
    } else {
      assert |init| == k;
    }
  }

  lemma {:induction false} ContentPrefix(data: seq<seq<byte>>, cs: seq<nat>, k: nat)
    requires forall i :: 0 <= i < |cs| ==> cs[i] < |data|
    requires k <= |cs|
    ensures Content(data, cs[..k]) <= Content(data, cs)
  {
    if k < |cs| {
      var init := cs[..|cs| - 1];
      ContentPrefix(data, init, k);
      assert init[..k] == cs[..k];
    } else {
      assert cs[..k] == cs;
    }
  }

  // ---- Directory entry fields ----

  // firstClusterHigh << 16 | firstClusterLow of the entry at offset o.
  function StartAt(buf: seq<byte>, o: nat): (c: nat)
    requires o + 32 <= |buf|
    ensures c < U32
  {
    Half(buf[o + 20], buf[o + 21]) * 0x1_0000 + Half(buf[o + 26], buf[o + 27])
  }

  // The buffer after fileSize, firstClusterHigh and firstClusterLow of that entry are set.
  function WithFields(buf: seq<byte>, o: nat, start: nat, size: nat): (r: seq<byte>)
    requires o + 32 <= |buf| && start < U32 && size < U32
    ensures |r| == |buf|
  {
    var sized := Patch(buf, o + 28, WordBytes(size));
    var high := Patch(sized, o + 20, HalfBytes(start / 0x1_0000));
    Patch(high, o + 26, HalfBytes(start % 0x1_0000))
  }

  lemma FieldsReadBack(buf: seq<byte>, o: nat, start: nat, size: nat)
    requires o + 32 <= |buf| && start < U32 && size < U32
    ensures var r := WithFields(buf, o, start, size);
      && StartAt(r, o) == start && WordAt(r, o + 28) == size
      && forall i :: 0 <= i < |buf| && !(o + 20 <= i < o + 22 || o + 26 <= i < o + 32) ==> r[i] == buf[i]
  {
    var sized := Patch(buf, o + 28, WordBytes(size));
    var high := Patch(sized, o + 20, HalfBytes(start / 0x1_0000));
    WordPatched(buf, o + 28, size);
    WordUntouched(sized, o + 20, HalfBytes(start / 0x1_0000), o + 28);
    WordUntouched(high, o + 26, HalfBytes(start % 0x1_0000), o + 28);
  }

  // The same for entry number idx; entries are 32 bytes long.
  function EntryStart(buf: seq<byte>, idx: nat): (c: nat)
    requires (idx + 1) * 32 <= |buf|
    ensures c < U32
  {
    StartAt(buf, idx * 32)
  }

  function EntrySize(buf: seq<byte>, idx: nat): nat
    requires (idx + 1) * 32 <= |buf|
  {
    WordAt(buf, idx * 32 + 28)
  }

  function EntryUpdated(buf: seq<byte>, idx: nat, start: nat, size: nat): (r: seq<byte>)
    requires (idx + 1) * 32 <= |buf| && start < U32 && size < U32
    ensures |r| == |buf|
  {
    WithFields(buf, idx * 32, start, size)
  }

  // The slot that a byte offset falls into lies inside the cluster.
  lemma SlotInside(g: Geometry, offset: nat)
    requires offset < g.ClusterSize()
    ensures (offset / 32 + 1) * 32 <= g.ClusterSize()
  {
    assert g.ClusterSize() == 32 * (16 * g.spc);
  }

  // The volume with entry idx of cluster c naming that chain and size.
  function Rewritten(v: Volume, c: nat, idx: nat, start: nat, size: nat): Volume {
    if c < |v.data| && (idx + 1) * 32 <= |v.data[c]| && start < U32 && size < U32
    then v.(data := v.data[c := EntryUpdated(v.data[c], idx, start, size)]) else v
  }

  predicate NamesChain(idx: nat, i: nat) {
    var o := idx * 32;
    o + 20 <= i < o + 22 || o + 26 <= i < o + 32
  }

  // The updated entry reads back as written, and all bytes but those eight are kept.
  lemma EntryRoundTrip(buf: seq<byte>, idx: nat, start: nat, size: nat)
    requires (idx + 1) * 32 <= |buf| && start < U32 && size < U32
    ensures var r := EntryUpdated(buf, idx, start, size);
      && EntryStart(r, idx) == start && EntrySize(r, idx) == size
      && forall i :: 0 <= i < |buf| && !NamesChain(idx, i) ==> r[i] == buf[i]
  {
    FieldsReadBack(buf, idx * 32, start, size);
  }

  // The part of a file that a read of n bytes at an offset asks for.
  function Slice(bytes: seq<byte>, offset: nat, n: nat): (r: seq<byte>) {
    if offset >= |bytes| then []
    else bytes[offset..if offset + n < |bytes| then offset + n else |bytes|]
  }

  lemma SliceOfSlice(s: seq<byte>, a: nat, b: nat, r: nat, n: nat)
    requires a <= b <= |s| && r + n <= b - a
    ensures s[a..b][r..r + n] == s[a + r..a + r + n]
  {
    var inner := s[a..b];
    assert forall i :: r <= i < r + n ==> inner[i] == s[a + i];
  }

  // n bytes of cluster number k of a file, from byte r of it on.
  lemma PieceOfCluster(v: Volume, start: nat, cs: seq<nat>, bytes: seq<byte>, size: nat, k: nat, r: nat, n: nat)
    requires Holds(v, start, cs, bytes) && forall i :: 0 <= i < |cs| ==> |v.data[cs[i]]| == size
    requires k < |cs| && r + n <= size && Row(k, size) + r + n <= |bytes|
    ensures v.data[cs[k]][r..r + n] == bytes[Row(k, size) + r..Row(k, size) + r + n]
  {
    var all := Content(v.data, cs);
    ContentCluster(v.data, cs, size, k);
    SliceOfSlice(all, Row(k, size), Row(k + 1, size), r, n);
    SliceOfSlice(all, 0, |bytes|, Row(k, size) + r, n);
  }

  // A piece of one cluster is the matching piece of the file.
  lemma ReadPiece(v: Volume, start: nat, cs: seq<nat>, bytes: seq<byte>, size: nat, pos: nat, n: nat)
    requires 0 < size && Holds(v, start, cs, bytes) && forall i :: 0 <= i < |cs| ==> |v.data[cs[i]]| == size
    requires pos < |bytes| && pos + n <= |bytes| && Rem(pos, size) + n <= size
    ensures Quot(pos, size) < |cs|
    ensures v.data[cs[Quot(pos, size)]][Rem(pos, size)..Rem(pos, size) + n] == bytes[pos..pos + n]
  {
    var k, r := Quot(pos, size), Rem(pos, size);
    ContentSize(v.data, cs, size);
    QuotInside(pos, |cs|, size);
    PieceOfCluster(v, start, cs, bytes, size, k, r, n);
  }

  // ---- One file rewritten ----

  // Only clusters of the file, before (cs) or after (cs'), and the cluster dir of its directory
  // entry differ; clusters given up are free, clusters gained were free.
  ghost predicate OnlyTouches(v0: Volume, v: Volume, cs: seq<nat>, cs': seq<nat>, dir: nat) {
    && |v.fat| == |v0.fat| == |v.data| == |v0.data| && v.top == v0.top && v.boot == v0.boot
    && (forall c :: 0 <= c < |v.fat| && c !in cs && c !in cs' ==> v.fat[c] == v0.fat[c])
    && (forall c :: 0 <= c < |v.fat| && c !in cs && c !in cs' && c != dir ==> v.data[c] == v0.data[c])
    && (forall c :: 0 <= c < |v.fat| && c in cs && c !in cs' ==> v.fat[c] == FAT_FREE)
    && (forall c :: 0 <= c < |v.fat| && c in cs' && c !in cs ==> v0.fat[c] == FAT_FREE)
    && (forall c :: 0 <= c < |v.fat| ==> |v.data[c]| == |v0.data[c]|)
  }

  // Every other file keeps its chain and, unless the directory entry lies in it, its bytes,
  // and stays disjoint from the rewritten one.
  lemma OthersKept(v0: Volume, v: Volume, cs: seq<nat>, cs': seq<nat>, dir: nat,
                   start: nat, es: seq<nat>, bytes: seq<byte>)
    requires OnlyTouches(v0, v, cs, cs', dir) && Holds(v0, start, es, bytes)
    requires Elems(es) !! Elems(cs)
    ensures Elems(es) !! Elems(cs') && FileChain(v.fat, start, es)
    ensures dir !in es ==> Holds(v, start, es, bytes)
  {
    forall c | c in es ensures c !in cs' && c !in cs && InRange(v0.fat, c) {
      ChainNotFree(v0.fat, es, c);
      assert c in Elems(es);
    }
    ChainFrame(v0.fat, v.fat, es);
    if dir !in es { ContentFrame(v0.data, v.data, es); }
  }

  lemma FreedAndTaken(v0: Volume, v: Volume, cs: seq<nat>, cs': seq<nat>, dir: nat, c: nat)
    requires OnlyTouches(v0, v, cs, cs', dir) && IsChain(v0.fat, cs) && IsChain(v.fat, cs')
    ensures c in FreeClusters(v.fat) <==> (c in FreeClusters(v0.fat) || c in cs) && c !in cs'
    ensures c in cs ==> c !in FreeClusters(v0.fat)
    ensures c in cs' ==> c in FreeClusters(v0.fat) || c in cs
  {
    if c in cs { ChainNotFree(v0.fat, cs, c); }
    if c in cs' { ChainNotFree(v.fat, cs', c); }
  }

  // Free clusters after = free clusters before + old chain - new chain.
  lemma FreeBalance(v0: Volume, v: Volume, cs: seq<nat>, cs': seq<nat>, dir: nat)
    requires OnlyTouches(v0, v, cs, cs', dir) && IsChain(v0.fat, cs) && IsChain(v.fat, cs')
    ensures FreeClusters(v.fat) == FreeClusters(v0.fat) + Elems(cs) - Elems(cs')
    ensures |FreeClusters(v.fat)| + |cs'| == |FreeClusters(v0.fat)| + |cs|
  {
    var f0, f := FreeClusters(v0.fat), FreeClusters(v.fat);
    var old', new' := Elems(cs), Elems(cs');
    forall c: nat
      ensures c in f <==> (c in f0 || c in old') && c !in new'
      ensures c in old' ==> c !in f0
      ensures c in new' ==> c in f0 || c in old'
    {
      FreedAndTaken(v0, v, cs, cs', dir, c);
    }
    DistinctSize(cs);
    DistinctSize(cs');
    CountBalance(f0, old', f, new');
  }

  lemma CountBalance(f0: set<nat>, a: set<nat>, f: set<nat>, b: set<nat>)
    requires forall c: nat :: c in f <==> (c in f0 || c in a) && c !in b
    requires forall c: nat :: c in a ==> c !in f0
    requires forall c: nat :: c in b ==> c in f0 || c in a
    ensures f == f0 + a - b && |f| + |b| == |f0| + |a|
  {
    assert f0 + a == f + b;
    assert f0 !! a && f !! b;
  }

  // ---- Progress of a write ----

  // The file's chain has grown from cs to cur by clusters that were free; nothing else changed.
  ghost predicate Grown(v0: Volume, v: Volume, cs: seq<nat>, cur: seq<nat>, dir: nat) {
    OnlyTouches(v0, v, cs, cur, dir) && cs <= cur && IsChain(v0.fat, cs) && IsChain(v.fat, cur)
    && dir < |v.data| && dir !in cur && v.data[dir] == v0.data[dir]
  }

  lemma GrownStart(v: Volume, cs: seq<nat>, dir: nat)
    requires IsChain(v.fat, cs) && |v.fat| == |v.data| && dir < |v.fat| && dir !in cs
    ensures Grown(v, v, cs, cs, dir)
  {
  }

  // A newly allocated cluster n, linked after the last one.
  lemma GrownByOne(v0: Volume, v: Volume, cs: seq<nat>, cur: seq<nat>, dir: nat, n: nat)
    requires Grown(v0, v, cs, cur, dir) && n in FreeClusters(v.fat) && v.fat[dir] != FAT_FREE
    ensures n !in cur
    ensures var fat1 := v.fat[n := FAT_EOC];
      Grown(v0, v.(fat := if cur == [] then fat1 else fat1[cur[|cur| - 1] := n]), cs, cur + [n], dir)
  {
    ChainExtended(v.fat, cur, n);
    forall c | c in cs ensures c in cur {}
    assert v0.fat[n] == FAT_FREE;
    assert forall c :: c in cur + [n] <==> c in cur || c == n;
  }

  // A cluster of the file rewritten.
  lemma GrownData(v0: Volume, v: Volume, cs: seq<nat>, cur: seq<nat>, dir: nat, c: nat, buf: seq<byte>)
    requires Grown(v0, v, cs, cur, dir) && c in cur && c < |v.data| && |buf| == |v.data[c]|
    ensures Grown(v0, v.(data := v.data[c := buf]), cs, cur, dir)
  {
  }

  // Room: a growing chain takes its clusters from the free ones.
  lemma GrownRoom(v0: Volume, v: Volume, cs: seq<nat>, cur: seq<nat>, dir: nat)
    requires Grown(v0, v, cs, cur, dir)
    ensures |cur| + |FreeClusters(v.fat)| == |cs| + |FreeClusters(v0.fat)|
  {
    FreeBalance(v0, v, cs, cur, dir);
  }

  // The first k clusters of cur carry the first bytes of the input.
  ghost predicate Carries(v: Volume, cur: seq<nat>, k: nat, bytes: seq<byte>)
  {
    && k <= |cur| && (forall i :: 0 <= i < |cur| ==> cur[i] < |v.data|)
    && bytes <= Content(v.data, cur[..k])
  }

  // Writing the next piece into cluster k extends what is carried.
  lemma CarriesMore(v: Volume, cur: seq<nat>, k: nat, bytes: seq<byte>, piece: seq<byte>, buf: seq<byte>)
    requires Carries(v, cur, k, bytes) && k < |cur| && Distinct(cur)
    requires bytes == Content(v.data, cur[..k]) && piece <= buf
    ensures Carries(v.(data := v.data[cur[k] := buf]), cur, k + 1, bytes + piece)
    ensures piece == buf ==> Content(v.data[cur[k] := buf], cur[..k + 1]) == bytes + piece
  {
    var data' := v.data[cur[k] := buf];
    ContentFrame(v.data, data', cur[..k]);
    assert cur[..k + 1][..k] == cur[..k];
    assert Content(data', cur[..k + 1]) == bytes + buf;
  }

  lemma NeededExact(len: nat, size: nat, k: nat)
    requires 0 < size
    ensures Row(k, size) < len ==> k < Needed(len, size)
    ensures len <= Row(k, size) ==> Needed(len, size) <= k
  {
    var q, r := Needed(len, size), Rem(len + size - 1, size);
    if q <= k { RowMono(q, k, size); } else { RowMono(k + 1, q, size); }
  }

  // The table after a chain has been cut behind k clusters and its tail freed.
  lemma TrimmedTable(fat: seq<nat>, cur: seq<nat>, k: nat, fat': seq<nat>)
    requires IsChain(fat, cur) && Table(fat) && 0 < k <= |cur|
    requires var cut := fat[cur[k - 1] := FAT_EOC];
      if k < |cur| then FreedFrom(cut, cur[k], fat') else fat' == cut
    ensures |fat'| == |fat| && IsChain(fat', cur[..k])
    ensures forall c :: 0 <= c < |fat| ==>
      fat'[c] == if c in cur[k..] then FAT_FREE else if c == cur[k - 1] then FAT_EOC else fat[c]
  {
    ChainCut(fat, cur, k);
    var cut, head, tail := fat[cur[k - 1] := FAT_EOC], cur[..k], cur[k..];
    if k < |cur| {
      ChainReached(cut, tail);
      assert tail[0] == cur[k];
    }
    forall i | 0 <= i < |head| ensures fat'[head[i]] == cut[head[i]] {
      assert head[i] == cur[i] && cur[i] !in tail;
    }
    ChainFrame(cut, fat', head);
  }

  lemma SplitMembers(s: seq<nat>, k: nat)
    requires k <= |s|
    ensures forall c :: c in s <==> c in s[..k] || c in s[k..]
  {
    assert s == s[..k] + s[k..];
  }

  lemma Trimmed(v0: Volume, v: Volume, cs: seq<nat>, cur: seq<nat>, dir: nat, k: nat, fat': seq<nat>)
    requires Grown(v0, v, cs, cur, dir) && Table(v.fat) && 0 < k <= |cur|
    requires k < |cur| ==> cur == cs
    requires var cut := v.fat[cur[k - 1] := FAT_EOC];
      if k < |cur| then FreedFrom(cut, cur[k], fat') else fat' == cut
    ensures OnlyTouches(v0, v.(fat := fat'), cs, cur[..k], dir) && IsChain(fat', cur[..k])
  {
    TrimmedTable(v.fat, cur, k, fat');
    SplitMembers(cur, k);
    assert cur[k - 1] == cur[..k][k - 1];
    assert cur[k - 1] in cur[..k];
    if k == |cur| { assert cur[..k] == cur; }
  }

  // State of write's loop after k clusters: bw bytes written along the chain cur, which was
  // first when the loop began and grows only at its end.
  ghost predicate Progress(v0: Volume, v: Volume, cs: seq<nat>, first: seq<nat>, cur: seq<nat>, dir: nat,
                           data: seq<byte>, size: nat, k: nat, bw: nat) {
    && 0 < size && Grown(v0, v, cs, cur, dir) && v.fat[dir] != FAT_FREE
    && (forall c :: 2 <= c < |v.data| ==> |v.data[c]| == size)
    && first != [] && first <= cur && (cur == first || k == |cur|)
    && k <= |cur| && bw <= |data| && Carries(v, cur, k, data[..bw])
    && (bw < |data| ==> bw == Row(k, size) && data[..bw] == Content(v.data, cur[..k]))
    && (bw == |data| ==> k == Needed(|data|, size))
  }

  function Piece(data: seq<byte>, bw: nat, size: nat): (r: seq<byte>)
    requires bw <= |data|
    ensures |r| == if size < |data| - bw then size else |data| - bw
  {
    data[bw..bw + if size < |data| - bw then size else |data| - bw]
  }

  lemma ProgressStart(v0: Volume, v: Volume, cs: seq<nat>, first: seq<nat>, dir: nat, data: seq<byte>, size: nat)
    requires 0 < size && Grown(v0, v, cs, first, dir) && v.fat[dir] != FAT_FREE && first != [] && data != []
    requires forall c :: 2 <= c < |v.data| ==> |v.data[c]| == size
    ensures Progress(v0, v, cs, first, first, dir, data, size, 0, 0)
  {
    assert data[..0] == [] && first[..0] == [];
  }

  // Where write's cluster variables stand after k clusters: on cluster k while there is more
  // to write, past the end of the chain if it has none, on the last cluster when done.
  ghost predicate Stands(cur: seq<nat>, k: nat, done: bool, cluster: nat, prev: nat) {
    if done then 0 < k <= |cur| && cluster == cur[k - 1]
    else if k < |cur| then cluster == cur[k]
    else 0 < k == |cur| && cluster >= FAT_EOC && prev == cur[k - 1]
  }

  // write's loop: more to write, all written, or (not ok) no cluster left to write to.
  ghost predicate Turn(v0: Volume, v: Volume, cs: seq<nat>, first: seq<nat>, cur: seq<nat>, dir: nat, data: seq<byte>,
                       size: nat, k: nat, bw: nat, ok: bool, cluster: nat, prev: nat) {
    && Progress(v0, v, cs, first, cur, dir, data, size, k, bw)
    && if ok then Stands(cur, k, bw == |data|, cluster, prev)
      else bw < |data| && k == |cur| && FreeClusters(v.fat) == {}
  }

  // Cluster k of the chain is there to take the next piece.
  ghost predicate Ready(v0: Volume, v: Volume, cs: seq<nat>, first: seq<nat>, cur: seq<nat>, dir: nat,
                        data: seq<byte>, size: nat, k: nat, bw: nat) {
    && 0 < size && Grown(v0, v, cs, cur, dir) && v.fat[dir] != FAT_FREE
    && (forall c :: 2 <= c < |v.data| ==> |v.data[c]| == size)
    && first != [] && first <= cur && (cur == first || k + 1 == |cur|)
    && k < |cur| && bw < |data| && Carries(v, cur, k, data[..bw])
    && bw == Row(k, size) && data[..bw] == Content(v.data, cur[..k])
  }

  lemma ProgressExtended(v0: Volume, v: Volume, v': Volume, cs: seq<nat>, first: seq<nat>, cur: seq<nat>, dir: nat,
                         data: seq<byte>, size: nat, k: nat, bw: nat, n: nat)
    requires Progress(v0, v, cs, first, cur, dir, data, size, k, bw) && bw < |data| && k == |cur|
    requires Grown(v0, v', cs, cur + [n], dir) && v' == v.(fat := v'.fat) && v'.fat[dir] != FAT_FREE
    ensures Ready(v0, v', cs, first, cur + [n], dir, data, size, k, bw)
  {
    assert (cur + [n])[..k] == cur[..k];
  }

  lemma PieceExtends(data: seq<byte>, bw: nat, size: nat)
    requires bw <= |data|
    ensures data[..bw] + Piece(data, bw, size) == data[..bw + |Piece(data, bw, size)|]
  {
  }

  // Writing the next piece into cluster k of the chain.
  lemma ProgressStep(v0: Volume, v: Volume, cs: seq<nat>, first: seq<nat>, cur: seq<nat>, dir: nat,
                     data: seq<byte>, size: nat, k: nat, bw: nat)
    requires Ready(v0, v, cs, first, cur, dir, data, size, k, bw)
    ensures var piece := Piece(data, bw, size);
      Progress(v0, v.(data := v.data[cur[k] := Patch(v.data[cur[k]], 0, piece)]), cs, first, cur, dir, data, size,
               k + 1, bw + |piece|)
  {
    var piece := Piece(data, bw, size);
    var buf := Patch(v.data[cur[k]], 0, piece);
    var v' := v.(data := v.data[cur[k] := buf]);
    GrownData(v0, v, cs, cur, dir, cur[k], buf);
    CarriesMore(v, cur, k, data[..bw], piece, buf);
    PieceExtends(data, bw, size);
    if bw + |piece| < |data| {
      assert piece == buf;
    } else {
      NeededExact(|data|, size, k);
      NeededExact(|data|, size, k + 1);
    }
  }

  // The link read after cluster k-1 names cluster k, or ends the chain.
  lemma NextLink(fat: seq<nat>, cur: seq<nat>, k: nat)
    requires IsChain(fat, cur) && 0 < k <= |cur|
    ensures if k < |cur| then fat[cur[k - 1]] == cur[k] else fat[cur[k - 1]] >= FAT_EOC
  {
    ChainCut(fat, cur, k);
  }

  // The loop ends with everything written, or with a chain that has taken every free cluster
  // and is still too short.
  lemma RoomDecides(v0: Volume, v: Volume, cs: seq<nat>, first: seq<nat>, cur: seq<nat>, dir: nat,
                    data: seq<byte>, size: nat, k: nat, bw: nat, ok: bool, cluster: nat, prev: nat)
    requires Turn(v0, v, cs, first, cur, dir, data, size, k, bw, ok, cluster, prev) == true && (ok ==> bw == |data|)
    ensures Progress(v0, v, cs, first, cur, dir, data, size, k, bw) == true && (ok <==> bw == |data|)
    ensures ok <==> Needed(|data|, size) <= |cs| + |FreeClusters(v0.fat)|
    ensures ok ==> 0 < k <= |cur| && cluster == cur[k - 1]
  {
    GrownRoom(v0, v, cs, cur, dir);
    NeededExact(|data|, size, k);
  }

  // Freeing the whole chain.
  lemma Emptied(v0: Volume, cs: seq<nat>, dir: nat, fat': seq<nat>)
    requires IsChain(v0.fat, cs) && Table(v0.fat) && cs != [] && |v0.fat| == |v0.data|
    requires FreedFrom(v0.fat, cs[0], fat')
    ensures OnlyTouches(v0, v0.(fat := fat'), cs, [], dir)
  {
    ChainReached(v0.fat, cs);
  }

  // The directory entry, in a cluster of its own, updated after the file's clusters.
  lemma EntryWritten(v0: Volume, v: Volume, cs: seq<nat>, cs': seq<nat>, dir: nat, buf: seq<byte>, start: nat,
      bytes: seq<byte>)
    requires OnlyTouches(v0, v, cs, cs', dir) && Holds(v, start, cs', bytes)
    requires dir < |v.data| && dir !in cs && dir !in cs' && |buf| == |v.data[dir]|
    ensures var v' := v.(data := v.data[dir := buf]); OnlyTouches(v0, v', cs, cs', dir) && Holds(v', start, cs', bytes)
  {
    ContentFrame(v.data, v.data[dir := buf], cs');
  }

  // The file written: its bytes lie along a chain of exactly the clusters they need, the
  // directory entry names that chain and the size, and nothing else has changed.
  ghost predicate Stored(v0: Volume, v: Volume, cs: seq<nat>, cs': seq<nat>, dir: nat, idx: nat,
                         start: nat, bytes: seq<byte>, size: nat) {
    && 0 < size && OnlyTouches(v0, v, cs, cs', dir)
    && Holds(v, start, cs', bytes) && |cs'| == Needed(|bytes|, size)
    && dir < |v.data| && (idx + 1) * 32 <= |v.data[dir]|
    && EntryStart(v.data[dir], idx) == start && EntrySize(v.data[dir], idx) == |bytes|
    && forall i :: 0 <= i < |v.data[dir]| && !NamesChain(idx, i) ==> v.data[dir][i] == v0.data[dir][i]
  }

  lemma StoredNow(v0: Volume, v: Volume, cs: seq<nat>, cs': seq<nat>, dir: nat, idx: nat,
                  start: nat, bytes: seq<byte>, size: nat)
    requires OnlyTouches(v0, v, cs, cs', dir) && Holds(v, start, cs', bytes)
    requires 0 < size && |cs'| == Needed(|bytes|, size) && start < U32 && |bytes| < U32
    requires dir < |v.data| && dir !in cs && dir !in cs' && (idx + 1) * 32 <= |v.data[dir]|
    requires v.data[dir] == v0.data[dir]
    ensures Stored(v0, Rewritten(v, dir, idx, start, |bytes|), cs, cs', dir, idx, start, bytes, size)
  {
    var buf := EntryUpdated(v.data[dir], idx, start, |bytes|);
    EntryRoundTrip(v.data[dir], idx, start, |bytes|);
    EntryWritten(v0, v, cs, cs', dir, buf, start, bytes);
  }

  // The data carried by the chain up to cluster k is the file once the chain is cut there.
  lemma CarriedIsHeld(v: Volume, fat': seq<nat>, cur: seq<nat>, k: nat, bytes: seq<byte>)
    requires Carries(v, cur, k, bytes) && 0 < k && IsChain(fat', cur[..k]) && |fat'| == |v.data|
    ensures Holds(v.(fat := fat'), cur[0], cur[..k], bytes)
  {
  }

  lemma HeldAfterTrim(v0: Volume, v: Volume, v': Volume, cs: seq<nat>, first: seq<nat>, cur: seq<nat>, dir: nat,
                      data: seq<byte>, size: nat, k: nat)
    requires Progress(v0, v, cs, first, cur, dir, data, size, k, |data|) && 0 < k
    requires v' == v.(fat := v'.fat) && |v'.fat| == |v.fat| && IsChain(v'.fat, cur[..k])
    ensures Holds(v', first[0], cur[..k], data) && |cur[..k]| == Needed(|data|, size) && dir !in cur[..k]
    ensures dir !in cs && v'.data[dir] == v0.data[dir] && first[0] < |v'.fat|
  {
    assert data[..|data|] == data;
    CarriedIsHeld(v, v'.fat, cur, k, data);
  }

  // ---- All files of a volume ----

  datatype File = File(start: nat, chain: seq<nat>, bytes: seq<byte>)

  // Every file is held by an acyclic chain, and no two files share a cluster.
  ghost predicate AllHeld(v: Volume, files: map<nat, File>) {
    && (forall f :: f in files ==> Holds(v, files[f].start, files[f].chain, files[f].bytes))
    && (forall f, h :: f in files && h in files && f != h ==> Elems(files[f].chain) !! Elems(files[h].chain))
  }

  // Writing one file gives it the new bytes and leaves every other file as it was.
  lemma WriteKeepsFiles(v0: Volume, v: Volume, files: map<nat, File>, f: nat, cs': seq<nat>, dir: nat, idx: nat,
                        start: nat, bytes: seq<byte>, size: nat)
    requires AllHeld(v0, files) && f in files
    requires forall h :: h in files ==> dir !in files[h].chain
    requires Stored(v0, v, files[f].chain, cs', dir, idx, start, bytes, size)
    ensures AllHeld(v, files[f := File(start, cs', bytes)])
    ensures |FreeClusters(v.fat)| == |FreeClusters(v0.fat)| + |files[f].chain| - Needed(|bytes|, size)
  {
    forall h | h in files && h != f
      ensures Holds(v, files[h].start, files[h].chain, files[h].bytes)
      ensures Elems(files[h].chain) !! Elems(cs')
    {
      OthersKept(v0, v, files[f].chain, cs', dir, files[h].start, files[h].chain, files[h].bytes);
    }
    FreeBalance(v0, v, files[f].chain, cs', dir);
  }
}
