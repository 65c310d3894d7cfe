// The FAT32 file system object: sector and cluster I/O through the cache, FAT management,
// and whole-file write and offset read through a handle.
module Fat32 {
  import opened Bytes
  import opened Finite
  import opened SectorCache
  import opened FatChains
  import opened FatLayout
  import opened FileData

  const MAX_HANDLES: nat := 16

  datatype FileHandle = FileHandle(startCluster: nat, size: nat, dirCluster: nat, dirOffset: nat, inUse: bool)

  // fatGet: out-of-range clusters read as end of chain.
  function Link(fat: seq<nat>, c: nat): nat {
    if c < |fat| then fat[c] else FAT_EOC
  }

  // clusterAtOffset: follow n links, 0 when the chain ends before.
  function Skip(fat: seq<nat>, c: nat, n: nat): nat
    decreases n
  {
    if n == 0 then c
    else if Link(fat, c) >= FAT_EOC then 0
    else Skip(fat, Link(fat, c), n - 1)
  }

  lemma {:induction false} SkipAlongChain(fat: seq<nat>, cs: seq<nat>, i: nat, n: nat)
    requires IsChain(fat, cs) && |fat| <= FAT_BAD && i < |cs|
    ensures Skip(fat, cs[i], n) == if i + n < |cs| then cs[i + n] else 0
    decreases n
  {
    if n > 0 {
      if i < |cs| - 1 {
        assert fat[cs[i]] == cs[i + 1];
        SkipAlongChain(fat, cs, i + 1, n - 1);
      }
    }
  }

  // The value a signed 32-bit result takes.
  function ToI32(n: nat): (r: int)
    requires n < U32
    ensures r == n <==> n < 0x8000_0000
    ensures n >= 0x8000_0000 <==> r < 0
  {
    if n < 0x8000_0000 then n else n - U32
  }

  // A dirty cached sector of the first FAT has its copy in the second one.
  ghost predicate Mirrored(e: Entry, disk: seq<Sector>, g: Geometry) {
    e.valid && e.dirty && g.reserved <= e.lba < g.reserved + g.fatSize
    ==> e.lba + g.fatSize < |disk| && disk[e.lba + g.fatSize] == e.data
  }

  // The result of a write through handle fh0, which becomes fh: the file stored, or, when the
  // volume is full, a longer chain and the directory entry as before.
  ghost predicate Outcome(ok: bool, v0: Volume, v: Volume, fh0: FileHandle, fh: FileHandle, cs: seq<nat>, cs': seq<nat>,
                          data: seq<byte>, size: nat) {
    && fh == fh0.(startCluster := fh.startCluster, size := if ok then |data| else fh0.size)
    && fh.dirCluster < |v.data| == |v0.data|
    && if ok then Stored(v0, v, cs, cs', fh.dirCluster, fh.dirOffset / 32, fh.startCluster, data, size)
       else OnlyTouches(v0, v, cs, cs', fh.dirCluster) && FileChain(v.fat, fh.startCluster, cs')
            && v.data[fh.dirCluster] == v0.data[fh.dirCluster]
  }

  // What write relies on: the handle's chain is intact and its directory entry lies in an
  // allocated cluster outside it.
  ghost predicate Intact(v: Volume, fh: FileHandle, cs: seq<nat>, size: nat) {
    && FileChain(v.fat, fh.startCluster, cs) && |v.fat| == |v.data|
    && 2 <= fh.dirCluster < |v.fat| && fh.dirCluster !in cs && v.fat[fh.dirCluster] != FAT_FREE
    && fh.dirOffset < size && fh.startCluster < U32
  }

  // One sector more of those read from sector lba on.
  lemma SectorRead(disk: seq<Sector>, lba: nat, i: nat)
    requires lba + i < |disk|
    ensures Flat(disk[lba..lba + (i + 1)]) == Flat(disk[lba..lba + i]) + disk[lba + i]
  {
    assert disk[lba..lba + (i + 1)][..i] == disk[lba..lba + i];
  }

  // One sector more of a buffer written from sector lba on.
  lemma SectorWritten(disk: seq<Sector>, lba: nat, i: nat, s: Sector, buf: seq<byte>)
    requires lba + i < |disk| && (i + 1) * 512 <= |buf| && s == buf[i * 512..(i + 1) * 512]
    requires Flat(disk[lba..lba + i]) == buf[..i * 512]
    ensures Flat(disk[lba + i := s][lba..lba + (i + 1)]) == buf[..(i + 1) * 512]
  {
    var now := disk[lba + i := s][lba..lba + (i + 1)];
    assert now[..i] == disk[lba..lba + i] && now[i] == s;
    assert buf[..(i + 1) * 512] == buf[..i * 512] + s;
  }

  class Filesystem {
    const g: Geometry
    const dev: CachedDisk
    const handles: array<FileHandle>

    // Layout fits the device, the cache is coherent and holds no sector of the second FAT. (A
    // predicate compared with true is one that the verifier is to pass on in one piece.)
    ghost predicate Valid()
      reads this, dev, dev.cache
    {
      && dev.Valid() == true
      && g.Fits(|dev.disk|) == true
      && handles.Length == MAX_HANDLES
      && handles as object != dev.cache
      && forall y :: y in Cached(dev.cache[..]) ==> !g.Mirror(y)
    }

    // The volume that the disk stands for.
    ghost function V(): Volume
      reads dev
    {
      if g.Fits(|dev.disk|) then View(dev.disk, g) else Volume([], [], [], [])
    }

    // A freshly mounted volume: empty cache, no open handle.
    constructor (layout: Geometry, sectors: seq<Sector>)
      requires layout.Fits(|sectors|)
      ensures Valid() && V() == View(sectors, layout) && g == layout
      ensures forall i :: 0 <= i < MAX_HANDLES ==> !handles[i].inUse
    {
      g := layout;
      dev := new CachedDisk(sectors);
      handles := new FileHandle[MAX_HANDLES](_ => FileHandle(0, 0, 0, 0, false));
    }

    // ---- Sector / cluster I/O ----

    method ReadSector(lba: nat) returns (buf: Sector)
      requires Valid() && lba < |dev.disk| && !g.Mirror(lba)
      modifies dev, dev.cache
      ensures Valid() && dev.disk == old(dev.disk) && buf == dev.disk[lba]
    {
      buf := dev.CacheRead(lba);
    }

    method WriteSector(lba: nat, buf: Sector)
      requires Valid() && lba < |dev.disk| && !g.Mirror(lba)
      modifies dev, dev.cache
      ensures Valid() && dev.disk == old(dev.disk)[lba := buf]
    {
      dev.CacheWrite(lba, buf);
    }

    method ReadCluster(cluster: nat) returns (buf: seq<byte>)
      requires Valid() && 2 <= cluster < g.count
      modifies dev, dev.cache
      ensures Valid() && dev.disk == old(dev.disk) && buf == V().data[cluster]
    {
      ClusterData(dev.disk, g, cluster);
      buf := ReadSectors(g.Lba(cluster), g.spc);
    }

    // n sectors behind the second FAT.
    method ReadSectors(lba: nat, n: nat) returns (buf: seq<byte>)
      requires Valid() && g.reserved + 2 * g.fatSize <= lba && lba + n <= |dev.disk|
      modifies dev, dev.cache
      ensures Valid() && dev.disk == old(dev.disk) && buf == Flat(dev.disk[lba..lba + n])
    {
      buf := [];
      var i := 0;
      while i < n
        invariant i <= n && Valid() && dev.disk == old(dev.disk) && buf == Flat(dev.disk[lba..lba + i])
      {
        var s := ReadSector(lba + i);
        SectorRead(dev.disk, lba, i);
        buf := buf + s;
        i := i + 1;
      }
    }

    method WriteCluster(cluster: nat, buf: seq<byte>)
      requires Valid() && 2 <= cluster < g.count && |buf| == g.ClusterSize()
      modifies dev, dev.cache
      ensures Valid() && V() == old(V()).(data := old(V()).data[cluster := buf])
    {
      ClusterPlace(g, cluster, |dev.disk|);
      WriteSectors(g.Lba(cluster), g.spc, buf);
      ClusterView(old(dev.disk), dev.disk, g, cluster);
    }

    method WriteSectors(lba: nat, n: nat, buf: seq<byte>)
      requires Valid() && g.reserved + 2 * g.fatSize <= lba && lba + n <= |dev.disk| && |buf| == n * 512
      modifies dev, dev.cache
      ensures Valid() && |dev.disk| == |old(dev.disk)| && Flat(dev.disk[lba..lba + n]) == buf
      ensures forall s :: 0 <= s < |dev.disk| && !(lba <= s < lba + n) ==> dev.disk[s] == old(dev.disk)[s]
    {
      var i := 0;
      while i < n
        invariant i <= n && Valid() && |dev.disk| == |old(dev.disk)|
        invariant forall s :: 0 <= s < |dev.disk| && !(lba <= s < lba + n) ==> dev.disk[s] == old(dev.disk)[s]
        invariant Flat(dev.disk[lba..lba + i]) == buf[..i * 512]
      {
        var s: Sector := buf[i * 512..(i + 1) * 512];
        ghost var before := dev.disk;
        WriteSector(lba + i, s);
        SectorWritten(before, lba, i, s, buf);
        i := i + 1;
      }
      assert buf[..n * 512] == buf;
    }

    // ---- FAT management ----

    method FatGet(cluster: nat) returns (value: nat)
      requires Valid()
      modifies dev, dev.cache
      ensures Valid() && dev.disk == old(dev.disk) && value == Link(V().fat, cluster)
    {
      if cluster >= g.count { return FAT_EOC; }
      FatPlace(g, cluster, |dev.disk|);
      ViewAt(dev.disk, g, g.count, cluster);
      var buf := ReadSector(g.FatSector(cluster));
      value := WordAt(buf, g.FatOffset(cluster)) % 0x1000_0000;
    }

    method FatSet(cluster: nat, value: nat)
      requires Valid()
      modifies dev, dev.cache
      ensures Valid()
      ensures V() == if cluster < g.count then old(V()).(fat := old(V()).fat[cluster := value % 0x1000_0000])
        else old(V())
    {
      if cluster >= g.count { return; }
      FatPlace(g, cluster, |dev.disk|);
      FatSetView(dev.disk, g, cluster, value);
      var sector, offset := g.FatSector(cluster), g.FatOffset(cluster);
      var buf := ReadSector(sector);
      var newVal := Masked(WordAt(buf, offset), value);
      WriteSector(sector, Patch(buf, offset, WordBytes(newVal)));
    }

    // First fit: the lowest free cluster becomes an end of chain; 0 when the volume is full.
    method AllocateCluster() returns (n: nat)
      requires Valid()
      modifies dev, dev.cache
      ensures Valid()
      ensures var f := FirstFree(old(V()).fat, 2);
        if f < g.count then n == f && V() == old(V()).(fat := old(V()).fat[f := FAT_EOC]) else n == 0 && V() == old(V())
    {
      n := 2;
      while n < g.count
        invariant 2 <= n <= g.count && Valid() && dev.disk == old(dev.disk)
        invariant FirstFree(V().fat, 2) == FirstFree(V().fat, n)
      {
        var e := FatGet(n);
        if e == FAT_FREE {
          FatSet(n, FAT_EOC);
          return;
        }
        n := n + 1;
      }
      n := 0;
    }

    // The body of freeChain's loop: read the link, clear the entry.
    method ClearEntry(cluster: nat, ghost fat: seq<nat>, ghost start: nat, ghost freed: set<nat>) returns (next: nat)
      requires Valid() && |fat| == g.count && V().fat == Cleared(fat, freed)
      requires InRange(fat, cluster) && Freeing(fat, start, freed, cluster)
      modifies dev, dev.cache
      ensures Valid() && V() == old(V()).(fat := Cleared(fat, freed + {cluster}))
      ensures next == Cleared(fat, freed)[cluster] && Freeing(fat, start, freed + {cluster}, next)
    {
      next := FatGet(cluster);
      FatSet(cluster, FAT_FREE);
      assert V().fat == Cleared(fat, freed + {cluster});
      FreeingStep(fat, start, freed, cluster);
    }

    // Terminates on every table, cyclic or with links out of range, and frees exactly the
    // clusters reached from the start.
    method FreeChain(startCluster: nat)
      requires Valid()
      modifies dev, dev.cache
      ensures Valid() && V() == old(V()).(fat := V().fat)
      ensures FreedFrom(old(V()).fat, startCluster, V().fat)
    {
      ghost var fat := V().fat;
      ghost var freed: set<nat> := {};
      var cluster: nat := startCluster;
      FreeingStart(fat, startCluster);
      while 2 <= cluster < g.count
        invariant Valid() && V() == old(V()).(fat := Cleared(fat, freed))
        invariant Freeing(fat, startCluster, freed, cluster)
        decreases Below(g.count) - freed, if cluster < 2 then 0 else 1
      {
        var next := ClearEntry(cluster, fat, startCluster, freed);
        assert cluster in Below(g.count);
        freed := freed + {cluster};
        cluster := next;
        if next >= FAT_EOC { break; }
      }
      FreeingDone(fat, startCluster, freed, cluster);
    }

    method MirrorSector(lba: nat, data: Sector)
      requires Valid() && g.reserved <= lba < g.reserved + g.fatSize
      modifies dev
      ensures Valid() && lba + g.fatSize < |old(dev.disk)| && dev.disk == old(dev.disk)[lba + g.fatSize := data]
      ensures dev.cacheAge == old(dev.cacheAge)
    {
      FatPlace(g, 0, |dev.disk|);
      assert g.Mirror(lba + g.fatSize);
      dev.DeviceWrite(lba + g.fatSize, data);
    }

    // Mirrors the dirty FAT sectors still cached to the second FAT; the volume is unchanged.
    method FlushFat()
      requires Valid()
      modifies dev
      ensures Valid() && V() == old(V()) && |dev.disk| == |old(dev.disk)|
      ensures forall i :: 0 <= i < CACHE_SIZE ==> Mirrored(dev.cache[i], dev.disk, g)
    {
      FatPlace(g, 0, |dev.disk|);
      var i := 0;
      while i < CACHE_SIZE
        invariant i <= CACHE_SIZE && Valid() && |dev.disk| == |old(dev.disk)|
        invariant forall s :: 0 <= s < |dev.disk| && !g.Mirror(s) ==> dev.disk[s] == old(dev.disk)[s]
        invariant forall j :: 0 <= j < i ==> Mirrored(dev.cache[j], dev.disk, g)
      {
        var e := dev.cache[i];
        if e.valid && e.dirty && g.reserved <= e.lba < g.reserved + g.fatSize {
          forall j | 0 <= j < i && dev.cache[j].valid ensures dev.cache[j].lba != e.lba {}
          MirrorSector(e.lba, e.data);
        }
        i := i + 1;
      }
      MirrorView(old(dev.disk), dev.disk, g);
    }

    // ---- Reading ----

    method ClusterAtOffset(startCluster: nat, byteOffset: nat) returns (cluster: nat)
      requires Valid()
      modifies dev, dev.cache
      ensures Valid() && dev.disk == old(dev.disk)
      ensures cluster == Skip(V().fat, startCluster, Quot(byteOffset, g.ClusterSize()))
    {
      cluster := FollowLinks(startCluster, Quot(byteOffset, g.ClusterSize()));
    }

    // Its loop.
    method FollowLinks(startCluster: nat, clustersToSkip: nat) returns (cluster: nat)
      requires Valid()
      modifies dev, dev.cache
      ensures Valid() && dev.disk == old(dev.disk)
      ensures cluster == Skip(V().fat, startCluster, clustersToSkip)
    {
      cluster := startCluster;
      var i := 0;
      while i < clustersToSkip
        invariant i <= clustersToSkip && Valid() && dev.disk == old(dev.disk)
        invariant Skip(V().fat, startCluster, clustersToSkip) == Skip(V().fat, cluster, clustersToSkip - i)
      {
        cluster := FatGet(cluster);
        if cluster >= FAT_EOC { return 0; }
        i := i + 1;
      }
    }

    ghost predicate Open(handle: nat)
      requires Valid()
      reads this, dev, dev.cache, handles
    {
      1 <= handle <= MAX_HANDLES && handles[handle - 1].inUse
    }

    // The handle is not stale: its start and size describe the file held by the clusters cs.
    ghost predicate Names(handle: nat, cs: seq<nat>, bytes: seq<byte>)
      requires Valid() && Open(handle)
      reads this, dev, dev.cache, handles
    {
      Holds(V(), handles[handle - 1].startCluster, cs, bytes) && handles[handle - 1].size == |bytes|
    }

    // The body of read's loop: what one cluster has of the bytes wanted from filePos on;
    // nothing when the chain ends early.
    method ReadFrom(startCluster: nat, filePos: nat, remaining: nat, ghost cs: seq<nat>, ghost bytes: seq<byte>)
      returns (piece: seq<byte>)
      requires Valid() && Holds(V(), startCluster, cs, bytes)
      requires 0 < remaining && filePos + remaining <= |bytes|
      modifies dev, dev.cache
      ensures Valid() && dev.disk == old(dev.disk)
      ensures 0 < |piece| <= remaining && piece == bytes[filePos..filePos + |piece|]
    {
      var cluster := ClusterAtOffset(startCluster, filePos);
      var clusterOffset := Rem(filePos, g.ClusterSize());
      var canRead := g.ClusterSize() - clusterOffset;
      var chunk := if canRead < remaining then canRead else remaining;
      ReadPiece(V(), startCluster, cs, bytes, g.ClusterSize(), filePos, chunk);
      SkipAlongChain(V().fat, cs, 0, Quot(filePos, g.ClusterSize()));
      if cluster == 0 || cluster >= FAT_EOC { return []; }
      var clusterBuf := ReadCluster(cluster);
      piece := clusterBuf[clusterOffset..clusterOffset + chunk];
    }

    // Copies the requested part of the file. The byte count is returned as a signed 32-bit
    // value: it is the number of bytes copied exactly when that is below 2^31.
    method Read(handle: nat, offset: nat, len: nat, ghost cs: seq<nat>, ghost bytes: seq<byte>)
      returns (count: int, buf: seq<byte>)
      requires Valid() && offset < U32 && len < U32 && |bytes| < U32
      requires Open(handle) ==> Names(handle, cs, bytes)
      modifies dev, dev.cache
      ensures Valid() && dev.disk == old(dev.disk)
      ensures !Open(handle) ==> count == -1 && buf == []
      ensures Open(handle) ==> buf == Slice(bytes, offset, len) && count == ToI32(|buf|)
    {
      buf := [];
      if handle == 0 || handle > MAX_HANDLES { return -1, []; }
      var fh := handles[handle - 1];
      if !fh.inUse { return -1, []; }
      if offset >= fh.size { return 0, []; }
      var available := fh.size - offset;
      var toRead := if len < available then len else available;
      while |buf| < toRead
        invariant |buf| <= toRead && Valid() && dev.disk == old(dev.disk)
        invariant buf == bytes[offset..offset + |buf|]
      {
        var piece := ReadFrom(fh.startCluster, offset + |buf|, toRead - |buf|, cs, bytes);
        if piece == [] { break; }
        buf := buf + piece;
      }
      count := ToI32(|buf|);
    }

    // ---- Writing ----

    // One piece of data into a cluster, which is read first unless it is overwritten whole.
    method PutPiece(cluster: nat, clusterOffset: nat, piece: seq<byte>)
      requires Valid() && 2 <= cluster < g.count && 0 < |piece| && clusterOffset + |piece| <= g.ClusterSize()
      modifies dev, dev.cache
      ensures Valid()
      ensures V() == old(V()).(data := old(V()).data[cluster := Patch(old(V()).data[cluster], clusterOffset, piece)])
    {
      var clusterBuf := seq(g.ClusterSize(), _ => 0);
      if clusterOffset > 0 || |piece| < g.ClusterSize() { clusterBuf := ReadCluster(cluster); }
      clusterBuf := Patch(clusterBuf, clusterOffset, piece);
      assert clusterBuf == Patch(V().data[cluster], clusterOffset, piece);
      WriteCluster(cluster, clusterBuf);
    }

    // A new cluster, linked behind prevCluster when there is one. 0 when the volume is full.
    method ExtendChain(prevCluster: nat, ghost v0: Volume, ghost cs: seq<nat>, ghost cur: seq<nat>, ghost dir: nat)
      returns (n: nat)
      requires Valid() && Grown(v0, V(), cs, cur, dir) && V().fat[dir] != FAT_FREE
      requires if cur == [] then prevCluster < 2 else prevCluster == cur[|cur| - 1]
      modifies dev, dev.cache
      ensures Valid() && (n == 0 <==> FreeClusters(old(V()).fat) == {})
      ensures n == 0 ==> V() == old(V())
      ensures n != 0 ==>
        Grown(v0, V(), cs, cur + [n], dir) && V() == old(V()).(fat := V().fat) && V().fat[dir] != FAT_FREE
    {
      ghost var v := V();
      n := AllocateCluster();
      if n == 0 {
        assert FirstFree(v.fat, 2) == g.count;
        return;
      }
      assert n in FreeClusters(v.fat);
      GrownByOne(v0, v, cs, cur, dir, n);
      EntryFits(n);
      if prevCluster >= 2 { FatSet(prevCluster, n); }
      assert V() == v.(fat := if cur == [] then v.fat[n := FAT_EOC] else v.fat[n := FAT_EOC][cur[|cur| - 1] := n]);
    }

    method PutNext(at: nat, data: seq<byte>, bw: nat, ghost k: nat,
                   ghost v0: Volume, ghost cs: seq<nat>, ghost first: seq<nat>, ghost cur: seq<nat>, ghost dir: nat)
      returns (written: nat)
      requires Valid() && Ready(v0, V(), cs, first, cur, dir, data, g.ClusterSize(), k, bw) && at == cur[k]
      modifies dev, dev.cache
      ensures Valid() && bw < written && Progress(v0, V(), cs, first, cur, dir, data, g.ClusterSize(), k + 1, written)
    {
      ghost var v := V();
      var clusterOffset := Rem(bw, g.ClusterSize());
      WholeClusters(k, g.ClusterSize());
      var piece := Piece(data, bw, g.ClusterSize() - clusterOffset);
      assert clusterOffset == 0 && piece == Piece(data, bw, g.ClusterSize());
      ProgressStep(v0, v, cs, first, cur, dir, data, g.ClusterSize(), k, bw);
      PutPiece(at, clusterOffset, piece);
      written := bw + |piece|;
      assert V() == v.(data := v.data[cur[k] := Patch(v.data[cur[k]], 0, piece)]);
    }

    // The body of write's loop, on cluster number k of the chain, which is allocated when the
    // chain has no more.
    method WriteNext(cluster: nat, prevCluster: nat, data: seq<byte>, bw: nat, ghost k: nat,
                     ghost v0: Volume, ghost cs: seq<nat>, ghost first: seq<nat>, ghost cur: seq<nat>, ghost dir: nat)
      returns (at: nat, written: nat, ghost cur': seq<nat>)
      requires Valid() && Progress(v0, V(), cs, first, cur, dir, data, g.ClusterSize(), k, bw) == true && bw < |data|
      requires Stands(cur, k, false, cluster, prevCluster)
      modifies dev, dev.cache
      ensures Valid()
      ensures at == 0 <==> k == |cur| && FreeClusters(old(V()).fat) == {}
      ensures at == 0 ==> V() == old(V()) && cur' == cur && written == bw
      ensures at != 0 ==>
        bw < written && Progress(v0, V(), cs, first, cur', dir, data, g.ClusterSize(), k + 1, written) == true
      ensures at != 0 ==> at == cur'[k] && cur <= cur'
    {
      at, written, cur' := cluster, bw, cur;
      if cluster < 2 || cluster >= FAT_EOC {
        ghost var v := V();
        at := ExtendChain(prevCluster, v0, cs, cur, dir);
        if at == 0 { return; }
        ProgressExtended(v0, v, V(), cs, first, cur, dir, data, g.ClusterSize(), k, bw, at);
        cur' := cur + [at];
      }
      written := PutNext(at, data, bw, k, v0, cs, first, cur', dir);
    }

    // The variables for the next round: the cluster after the one just written.
    method Advance(at: nat, done: bool, ghost cur: seq<nat>, ghost k: nat) returns (cluster: nat)
      requires Valid() && IsChain(V().fat, cur) && k < |cur| && at == cur[k]
      modifies dev, dev.cache
      ensures Valid() && dev.disk == old(dev.disk) && Stands(cur, k + 1, done, cluster, at)
    {
      cluster := at;
      if !done {
        NextLink(V().fat, cur, k + 1);
        cluster := FatGet(at);
      }
    }

    // write's loop. On success the data lies along the first clusters of the chain and cluster
    // is the last one written; it fails exactly when the free clusters do not suffice.
    method WriteData(startCluster: nat, data: seq<byte>,
                     ghost v0: Volume, ghost cs: seq<nat>, ghost first: seq<nat>, ghost dir: nat)
      returns (ok: bool, cluster: nat, ghost cur: seq<nat>, ghost k: nat, ghost bw: nat)
      requires Valid() && Grown(v0, V(), cs, first, dir) && V().fat[dir] != FAT_FREE
      requires first != [] && startCluster == first[0] && data != []
      modifies dev, dev.cache
      ensures Valid() && Progress(v0, V(), cs, first, cur, dir, data, g.ClusterSize(), k, bw) == true
      ensures ok <==> bw == |data|
      ensures ok <==> Needed(|data|, g.ClusterSize()) <= |cs| + |FreeClusters(v0.fat)|
      ensures ok ==> 0 < k <= |cur| && cluster == cur[k - 1]
    {
      var prevCluster, bytesWritten := 0, 0;
      cluster, cur, k, ok := startCluster, first, 0, true;
      ProgressStart(v0, V(), cs, first, dir, data, g.ClusterSize());
      while bytesWritten < |data| && ok
        invariant Valid() && bytesWritten <= |data|
        invariant Turn(v0, V(), cs, first, cur, dir, data, g.ClusterSize(), k, bytesWritten, ok, cluster, prevCluster)
          == true
        decreases |data| - bytesWritten, ok
      {
        ok, cluster, prevCluster, bytesWritten, cur, k :=
          WriteTurn(cluster, prevCluster, data, bytesWritten, k, v0, cs, first, cur, dir);
      }
      bw := bytesWritten;
      RoomDecides(v0, V(), cs, first, cur, dir, data, g.ClusterSize(), k, bw, ok, cluster, prevCluster);
    }

    // One round of it.
    method WriteTurn(cluster: nat, prevCluster: nat, data: seq<byte>, bytesWritten: nat, ghost k: nat,
                     ghost v0: Volume, ghost cs: seq<nat>, ghost first: seq<nat>, ghost cur: seq<nat>, ghost dir: nat)
      returns (ok: bool, cluster': nat, prev: nat, written: nat, ghost cur': seq<nat>, ghost k': nat)
      requires Valid() && bytesWritten < |data|
      requires Turn(v0, V(), cs, first, cur, dir, data, g.ClusterSize(), k, bytesWritten, true, cluster, prevCluster)
        == true
      modifies dev, dev.cache
      ensures Valid() && (if ok then bytesWritten < written <= |data| else written == bytesWritten)
      ensures Turn(v0, V(), cs, first, cur', dir, data, g.ClusterSize(), k', written, ok, cluster', prev) == true
    {
      ok, cluster', prev, k' := false, cluster, prevCluster, k;
      var at;
      at, written, cur' := WriteNext(cluster, prevCluster, data, bytesWritten, k, v0, cs, first, cur, dir);
      if at != 0 {
        ok, prev, k' := true, at, k + 1;
        cluster' := Advance(at, written == |data|, cur', k);
      }
    }

    // Ends the chain behind the last cluster written and frees what is left over.
    method TrimChain(cluster: nat, ghost v0: Volume, ghost cs: seq<nat>, ghost cur: seq<nat>, ghost k: nat,
        ghost dir: nat)
      requires Valid() && Grown(v0, V(), cs, cur, dir)
      requires 0 < k <= |cur| && cluster == cur[k - 1] && (k < |cur| ==> cur == cs)
      modifies dev, dev.cache
      ensures Valid() && V() == old(V()).(fat := V().fat)
      ensures OnlyTouches(v0, V(), cs, cur[..k], dir) && IsChain(V().fat, cur[..k])
    {
      ghost var v := V();
      NextLink(v.fat, cur, k);
      var next := FatGet(cluster);
      FatSet(cluster, FAT_EOC);
      if 2 <= next < FAT_EOC { FreeChain(next); }
      Trimmed(v0, v, cs, cur, dir, k, V().fat);
    }

    // Rewrites size and first cluster in the file's directory entry.
    method UpdateEntry(fh: FileHandle)
      requires Valid() && 2 <= fh.dirCluster < g.count && fh.dirOffset < g.ClusterSize()
      requires fh.startCluster < U32 && fh.size < U32
      modifies dev, dev.cache
      ensures Valid() && V() == Rewritten(old(V()), fh.dirCluster, fh.dirOffset / 32, fh.startCluster, fh.size)
    {
      SlotInside(g, fh.dirOffset);
      var clusterBuf := ReadCluster(fh.dirCluster);
      clusterBuf := EntryUpdated(clusterBuf, fh.dirOffset / 32, fh.startCluster, fh.size);
      WriteCluster(fh.dirCluster, clusterBuf);
    }

    // The chain and the bytes are in place: make the directory entry say so and mirror the FAT.
    method CloseEntry(fh: FileHandle, ghost data: seq<byte>, ghost v0: Volume, ghost cs: seq<nat>, ghost cs': seq<nat>)
      requires Valid() && fh.size == |data| < U32
      requires fh.startCluster < U32 && fh.dirOffset < g.ClusterSize()
      requires 2 <= fh.dirCluster < g.count && fh.dirCluster !in cs && fh.dirCluster !in cs'
      requires OnlyTouches(v0, V(), cs, cs', fh.dirCluster) && V().data[fh.dirCluster] == v0.data[fh.dirCluster]
      requires Holds(V(), fh.startCluster, cs', data) && |cs'| == Needed(|data|, g.ClusterSize())
      modifies dev, dev.cache
      ensures Valid()
      ensures Stored(v0, V(), cs, cs', fh.dirCluster, fh.dirOffset / 32, fh.startCluster, data, g.ClusterSize())
    {
      SlotInside(g, fh.dirOffset);
      StoredNow(v0, V(), cs, cs', fh.dirCluster, fh.dirOffset / 32, fh.startCluster, data, g.ClusterSize());
      UpdateEntry(fh);
      FlushFat();
    }

    method Finish(handle: nat, data: seq<byte>, ghost v0: Volume, ghost cs: seq<nat>, ghost cs': seq<nat>)
      requires Valid() && Open(handle) && |data| < U32
      requires var fh := handles[handle - 1];
        && fh.startCluster < U32 && fh.dirOffset < g.ClusterSize()
        && 2 <= fh.dirCluster < g.count && fh.dirCluster !in cs && fh.dirCluster !in cs'
        && OnlyTouches(v0, V(), cs, cs', fh.dirCluster) && V().data[fh.dirCluster] == v0.data[fh.dirCluster]
        && Holds(V(), fh.startCluster, cs', data) && |cs'| == Needed(|data|, g.ClusterSize())
      modifies dev, dev.cache, handles
      ensures Valid() && forall i :: 0 <= i < MAX_HANDLES && i != handle - 1 ==> handles[i] == old(handles[i])
      ensures Outcome(true, v0, V(), old(handles[handle - 1]), handles[handle - 1], cs, cs', data, g.ClusterSize())
    {
      handles[handle - 1] := handles[handle - 1].(size := |data|);
      CloseEntry(handles[handle - 1], data, v0, cs, cs');
    }

    // Replaces the whole content of the file. It succeeds exactly when the file's own clusters
    // and the free ones suffice; then the file is stored in exactly the clusters it needs and no
    // other byte has changed.
    method Write(handle: nat, data: seq<byte>, ghost cs: seq<nat>) returns (ok: bool, ghost cs': seq<nat>)
      requires Valid() && |data| < U32
      requires Open(handle) ==> Intact(V(), handles[handle - 1], cs, g.ClusterSize())
      modifies dev, dev.cache, handles
      ensures Valid() && Open(handle) == old(Open(handle))
      ensures !Open(handle) ==> !ok && V() == old(V()) && handles[..] == old(handles[..])
      ensures Open(handle) ==> (ok <==> Needed(|data|, g.ClusterSize()) <= |cs| + |FreeClusters(old(V()).fat)|)
      ensures forall i :: 0 <= i < MAX_HANDLES && i != handle - 1 ==> handles[i] == old(handles[i])
      ensures Open(handle) ==>
        Outcome(ok, old(V()), V(), old(handles[handle - 1]), handles[handle - 1], cs, cs', data, g.ClusterSize())
    {
      cs' := cs;
      if handle == 0 || handle > MAX_HANDLES { return false, cs; }
      if !handles[handle - 1].inUse { return false, cs; }
      if |data| == 0 {
        NeededExact(0, g.ClusterSize(), 0);
        cs' := WriteNothing(handle, cs);
        ok := true;
      } else {
        ok, cs' := WriteSome(handle, data, cs);
      }
    }

    // Truncation to zero length.
    method WriteNothing(handle: nat, ghost cs: seq<nat>) returns (ghost cs': seq<nat>)
      requires Valid() && Open(handle) && Intact(V(), handles[handle - 1], cs, g.ClusterSize())
      modifies dev, dev.cache, handles
      ensures Valid() && forall i :: 0 <= i < MAX_HANDLES && i != handle - 1 ==> handles[i] == old(handles[i])
      ensures Outcome(true, old(V()), V(), old(handles[handle - 1]), handles[handle - 1], cs, cs', [], g.ClusterSize())
    {
      cs' := [];
      NeededExact(0, g.ClusterSize(), 0);
      ghost var v0 := V();
      var fh := handles[handle - 1];
      if fh.startCluster >= 2 {
        FreeChain(fh.startCluster);
        Emptied(v0, cs, fh.dirCluster, V().fat);
        handles[handle - 1] := fh.(startCluster := 0);
      }
      Finish(handle, [], v0, cs, []);
    }

    // Gives a file without clusters its first one.
    method FirstCluster(handle: nat, ghost cs: seq<nat>) returns (ok: bool, ghost first: seq<nat>)
      requires Valid() && Open(handle) && Intact(V(), handles[handle - 1], cs, g.ClusterSize())
      modifies dev, dev.cache, handles
      ensures Valid() && forall i :: 0 <= i < MAX_HANDLES && i != handle - 1 ==> handles[i] == old(handles[i])
      ensures handles[handle - 1] == old(handles[handle - 1]).(startCluster := handles[handle - 1].startCluster)
      ensures !ok <==> cs == [] && FreeClusters(old(V()).fat) == {}
      ensures !ok ==> V() == old(V()) && handles[..] == old(handles[..])
      ensures ok ==> (first == cs || |first| == 1) && first != [] && cs <= first
      ensures ok ==> handles[handle - 1].startCluster == first[0] < g.count
      ensures ok ==> Grown(old(V()), V(), cs, first, handles[handle - 1].dirCluster)
      ensures ok ==> V().fat[handles[handle - 1].dirCluster] != FAT_FREE
    {
      var fh := handles[handle - 1];
      first := cs;
      ghost var v0 := V();
      GrownStart(v0, cs, fh.dirCluster);
      if fh.startCluster < 2 {
        var newCluster := ExtendChain(0, v0, cs, [], fh.dirCluster);
        if newCluster == 0 { return false, cs; }
        handles[handle - 1] := fh.(startCluster := newCluster);
        first := cs + [newCluster];
        assert first == [newCluster];
      }
      ok := true;
    }

    method WriteSome(handle: nat, data: seq<byte>, ghost cs: seq<nat>) returns (ok: bool, ghost cs': seq<nat>)
      requires Valid() && Open(handle) && Intact(V(), handles[handle - 1], cs, g.ClusterSize()) && 0 < |data| < U32
      modifies dev, dev.cache, handles
      ensures Valid() && forall i :: 0 <= i < MAX_HANDLES && i != handle - 1 ==> handles[i] == old(handles[i])
      ensures ok <==> Needed(|data|, g.ClusterSize()) <= |cs| + |FreeClusters(old(V()).fat)|
      ensures Outcome(ok, old(V()), V(), old(handles[handle - 1]), handles[handle - 1], cs, cs', data, g.ClusterSize())
    {
      ghost var v0 := V();
      NeededExact(|data|, g.ClusterSize(), 0);
      ghost var first, cur, k, bw;
      ok, first := FirstCluster(handle, cs);
      if !ok { return false, cs; }
      var fh := handles[handle - 1];
      var cluster;
      ok, cluster, cur, k, bw := WriteData(fh.startCluster, data, v0, cs, first, fh.dirCluster);
      if !ok { return false, cur; }
      ghost var v := V();
      TrimChain(cluster, v0, cs, cur, k, fh.dirCluster);
      HeldAfterTrim(v0, v, V(), cs, first, cur, fh.dirCluster, data, g.ClusterSize(), k);
      cs' := cur[..k];
      Finish(handle, data, v0, cs, cs');
    }

    // After a successful write every read through the handle returns the bytes written.
    method WriteThenRead(handle: nat, data: seq<byte>, offset: nat, len: nat, ghost cs: seq<nat>)
      returns (ok: bool, count: int, buf: seq<byte>)
      requires Valid() && |data| < U32 && offset < U32 && len < U32
      requires Open(handle) && Intact(V(), handles[handle - 1], cs, g.ClusterSize())
      modifies dev, dev.cache, handles
      ensures Valid()
      ensures ok <==> Needed(|data|, g.ClusterSize()) <= |cs| + |FreeClusters(old(V()).fat)|
      ensures ok ==> buf == Slice(data, offset, len) && count == ToI32(|buf|)
    {
      count, buf := 0, [];
      ghost var cs';
      ok, cs' := Write(handle, data, cs);
      if ok {
        count, buf := Read(handle, offset, len, cs', data);
      }
    }
  }
}
