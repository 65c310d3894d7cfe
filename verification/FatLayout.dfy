// Where the FAT, its mirror and the data clusters live on the disk, and the abstract volume
// (table of next links, reserved bits, cluster contents, boot sectors) that the disk stands for.
module FatLayout {
  import opened Bytes
  import opened FatChains

  // k groups of n, one after the other: k times n.
  function Row(k: nat, n: nat): nat { if k == 0 then 0 else Row(k - 1, n) + n }

  lemma {:induction false} RowIs(k: nat, n: nat)
    ensures Row(k, n) == k * n
  {
    if k > 0 { RowIs(k - 1, n); }
  }

  lemma {:induction false} RowSum(a: nat, b: nat, n: nat)
    ensures Row(a + b, n) == Row(a, n) + Row(b, n)
  {
    if b > 0 { RowSum(a, b - 1, n); }
  }

  lemma RowMono(a: nat, b: nat, n: nat)
    requires a <= b
    ensures Row(a, n) <= Row(b, n)
  {
    RowSum(a, b - a, n);
  }

  // BPB-derived layout: count is the number of FAT entries, spc the sectors per cluster.
  datatype Geometry = Geometry(reserved: nat, numFats: nat, fatSize: nat, spc: nat, count: nat)
  {
    function DataStart(): nat { reserved + Row(numFats, fatSize) }

    function ClusterSize(): nat { 512 * spc }

    // Two FATs at least, room in a FAT for every entry, data clusters inside the device.
    ghost predicate Fits(sectors: nat) {
      && 2 <= numFats && 1 <= spc
      && 2 <= count <= FAT_BAD && 4 * count <= 512 * fatSize
      && DataStart() + Row(count - 2, spc) <= sectors <= U32
    }

    // First sector of a data cluster.
    function Lba(c: nat): nat
      requires 2 <= c
    {
      DataStart() + Row(c - 2, spc)
    }

    function FatSector(c: nat): nat { reserved + 4 * c / 512 }

    function FatOffset(c: nat): nat { 4 * c % 512 }

    // Sectors of the second FAT, written only by flushFat.
    predicate Mirror(lba: nat) { reserved + fatSize <= lba < reserved + 2 * fatSize }
  }

  function Flat(ss: seq<Sector>): (r: seq<byte>)
    ensures |r| == 512 * |ss|
  {
    if ss == [] then [] else Flat(ss[..|ss| - 1]) + ss[|ss| - 1]
  }

  // What the disk stands for. data[c] is the content of cluster c (empty for 0 and 1).
  datatype Volume = Volume(fat: seq<nat>, top: seq<nat>, data: seq<seq<byte>>, boot: seq<Sector>)

  // Table entry c.
  function FatWord(disk: seq<Sector>, g: Geometry, c: nat): (w: nat)
    requires g.Fits(|disk|) && c < g.count
    ensures w < U32
  {
    FatPlace(g, c, |disk|);
    WordAt(disk[g.FatSector(c)], g.FatOffset(c))
  }

  function ClusterBytes(disk: seq<Sector>, g: Geometry, c: nat): (r: seq<byte>)
    requires g.Fits(|disk|) && c < g.count
    ensures 2 <= c ==> |r| == g.ClusterSize()
  {
    if c < 2 then [] else ClusterPlace(g, c, |disk|); Flat(disk[g.Lba(c)..g.Lba(c) + g.spc])
  }

  // The first n table entries: next links, and reserved top bits; and the first n clusters.
  function Links(disk: seq<Sector>, g: Geometry, n: nat): (r: seq<nat>)
    requires g.Fits(|disk|) && n <= g.count
    ensures |r| == n && forall c :: 0 <= c < n ==> r[c] < 0x1000_0000
  {
    if n == 0 then [] else Links(disk, g, n - 1) + [FatWord(disk, g, n - 1) % 0x1000_0000]
  }

  function Tops(disk: seq<Sector>, g: Geometry, n: nat): (r: seq<nat>)
    requires g.Fits(|disk|) && n <= g.count
    ensures |r| == n
  {
    if n == 0 then [] else Tops(disk, g, n - 1) + [FatWord(disk, g, n - 1) / 0x1000_0000]
  }

  function Contents(disk: seq<Sector>, g: Geometry, n: nat): (r: seq<seq<byte>>)
    requires g.Fits(|disk|) && n <= g.count
    ensures |r| == n && forall c :: 2 <= c < n ==> |r[c]| == g.ClusterSize()
  {
    if n == 0 then [] else Contents(disk, g, n - 1) + [ClusterBytes(disk, g, n - 1)]
  }

  lemma {:induction false} ViewAt(disk: seq<Sector>, g: Geometry, n: nat, c: nat)
    requires g.Fits(|disk|) && c < n <= g.count
    ensures Links(disk, g, n)[c] == FatWord(disk, g, c) % 0x1000_0000
    ensures Tops(disk, g, n)[c] == FatWord(disk, g, c) / 0x1000_0000
    ensures Contents(disk, g, n)[c] == ClusterBytes(disk, g, c)
  {
    if c < n - 1 { ViewAt(disk, g, n - 1, c); }
  }

  function View(disk: seq<Sector>, g: Geometry): (v: Volume)
    requires g.Fits(|disk|)
    ensures |v.fat| == |v.top| == |v.data| == g.count
    ensures Table(v.fat)
    ensures forall c :: 2 <= c < g.count ==> |v.data[c]| == g.ClusterSize()
  {
    FatPlace(g, 0, |disk|);
    Volume(Links(disk, g, g.count), Tops(disk, g, g.count), Contents(disk, g, g.count), disk[..g.reserved])
  }

  // ---- Placement ----

  lemma FatPlace(g: Geometry, c: nat, n: nat)
    requires g.Fits(n) && c < g.count
    ensures g.reserved <= g.FatSector(c) < g.reserved + g.fatSize
    ensures g.reserved + 2 * g.fatSize <= g.DataStart() <= n
    ensures g.FatOffset(c) % 4 == 0 && g.FatOffset(c) + 4 <= 512
  {
    RowMono(2, g.numFats, g.fatSize);
  }

  lemma ClusterPlace(g: Geometry, c: nat, n: nat)
    requires g.Fits(n) && 2 <= c < g.count
    ensures g.reserved + 2 * g.fatSize <= g.DataStart() <= g.Lba(c)
    ensures g.Lba(c) + g.spc <= n
  {
    RowMono(2, g.numFats, g.fatSize);
    RowMono(c - 1, g.count - 2, g.spc);
  }

  lemma ClustersApart(g: Geometry, c: nat, d: nat)
    requires 2 <= c < d
    ensures g.Lba(c) + g.spc <= g.Lba(d)
  {
    RowMono(c - 1, d - 2, g.spc);
  }

  // A cluster of the volume is its sectors one after the other.
  lemma ClusterData(disk: seq<Sector>, g: Geometry, c: nat)
    requires g.Fits(|disk|) && 2 <= c < g.count
    ensures g.reserved + 2 * g.fatSize <= g.Lba(c) && g.Lba(c) + g.spc <= |disk|
    ensures View(disk, g).data[c] == Flat(disk[g.Lba(c)..g.Lba(c) + g.spc])
  {
    ClusterPlace(g, c, |disk|);
    ViewAt(disk, g, g.count, c);
  }

  // ---- How the volume changes with the disk ----

  // fatSet's word: the low 28 bits replaced, the top four kept.
  function Masked(existing: nat, value: nat): (w: nat)
    requires existing < U32
    ensures w < U32 && w % 0x1000_0000 == value % 0x1000_0000 && w / 0x1000_0000 == existing / 0x1000_0000
  {
    existing / 0x1000_0000 * 0x1000_0000 + value % 0x1000_0000
  }

  function FatSetDisk(disk: seq<Sector>, g: Geometry, c: nat, value: nat): (r: seq<Sector>)
    requires g.Fits(|disk|) && c < g.count
    ensures |r| == |disk|
  {
    FatPlace(g, c, |disk|);
    var s := g.FatSector(c);
    disk[s := Patch(disk[s], g.FatOffset(c), WordBytes(Masked(FatWord(disk, g, c), value)))]
  }

  lemma FatWordAfterSet(disk: seq<Sector>, g: Geometry, c: nat, value: nat, d: nat)
    requires g.Fits(|disk|) && c < g.count && d < g.count
    ensures FatWord(FatSetDisk(disk, g, c, value), g, d)
         == if d == c then Masked(FatWord(disk, g, c), value) else FatWord(disk, g, d)
  {
    FatPlace(g, c, |disk|);
    FatPlace(g, d, |disk|);
    var s, o, w := g.FatSector(c), g.FatOffset(c), Masked(FatWord(disk, g, c), value);
    if d == c {
      WordPatched(disk[s], o, w);
    } else if g.FatSector(d) == s {
      WordUntouched(disk[s], o, WordBytes(w), g.FatOffset(d));
    }
  }

  lemma SameClusters(disk: seq<Sector>, disk': seq<Sector>, g: Geometry, c: nat)
    requires g.Fits(|disk|) && |disk'| == |disk| && c < g.count
    requires 2 <= c ==> forall s :: g.Lba(c) <= s < g.Lba(c) + g.spc && s < |disk| ==> disk'[s] == disk[s]
    ensures ClusterBytes(disk', g, c) == ClusterBytes(disk, g, c)
  {
    if 2 <= c {
      ClusterPlace(g, c, |disk|);
      var l := g.Lba(c);
      assert disk'[l..l + g.spc] == disk[l..l + g.spc];
    }
  }

  // Setting one FAT entry changes that entry of the volume and nothing else.
  lemma FatSetView(disk: seq<Sector>, g: Geometry, c: nat, value: nat)
    requires g.Fits(|disk|) && c < g.count
    ensures var v := View(disk, g);
      View(FatSetDisk(disk, g, c, value), g) == v.(fat := v.fat[c := value % 0x1000_0000])
  {
    var disk' := FatSetDisk(disk, g, c, value);
    FatPlace(g, c, |disk|);
    var v, v' := View(disk, g), View(disk', g);
    forall d: nat | d < g.count ensures v'.fat[d] == v.fat[c := value % 0x1000_0000][d] && v'.top[d] == v.top[d] {
      FatWordAfterSet(disk, g, c, value, d);
      ViewAt(disk, g, g.count, d);
      ViewAt(disk', g, g.count, d);
    }
    forall d: nat | d < g.count ensures v'.data[d] == v.data[d] {
      ViewAt(disk, g, g.count, d);
      ViewAt(disk', g, g.count, d);
      if 2 <= d { ClusterPlace(g, d, |disk|); }
      SameClusters(disk, disk', g, d);
    }
    assert v'.boot == v.boot;
  }

  // Rewriting the sectors of one cluster changes that cluster of the volume and nothing else.
  lemma ClusterView(disk: seq<Sector>, disk': seq<Sector>, g: Geometry, c: nat)
    requires g.Fits(|disk|) && |disk'| == |disk| && 2 <= c < g.count
    requires forall s :: 0 <= s < |disk| && !(g.Lba(c) <= s < g.Lba(c) + g.spc) ==> disk'[s] == disk[s]
    ensures var v := View(disk, g);
      View(disk', g) == v.(data := v.data[c := ClusterBytes(disk', g, c)])
  {
    ClusterPlace(g, c, |disk|);
    var v, v' := View(disk, g), View(disk', g);
    forall d: nat | d < g.count ensures v'.fat[d] == v.fat[d] && v'.top[d] == v.top[d] {
      FatPlace(g, d, |disk|);
      ViewAt(disk, g, g.count, d);
      ViewAt(disk', g, g.count, d);
    }
    ViewAt(disk', g, g.count, c);
    forall d: nat | d < g.count && d != c ensures v'.data[d] == v.data[d] {
      ViewAt(disk, g, g.count, d);
      ViewAt(disk', g, g.count, d);
      if 2 <= d < c { ClustersApart(g, d, c); } else if c < d { ClustersApart(g, c, d); }
      SameClusters(disk, disk', g, d);
    }
    assert v'.boot == v.boot;
  }

  // Writing mirror sectors changes nothing.
  lemma MirrorView(disk: seq<Sector>, disk': seq<Sector>, g: Geometry)
    requires g.Fits(|disk|) && |disk'| == |disk|
    requires forall s :: 0 <= s < |disk| && !g.Mirror(s) ==> disk'[s] == disk[s]
    ensures View(disk', g) == View(disk, g)
  {
    var v, v' := View(disk, g), View(disk', g);
    forall d: nat | d < g.count ensures v'.fat[d] == v.fat[d] && v'.top[d] == v.top[d] && v'.data[d] == v.data[d] {
      FatPlace(g, d, |disk|);
      if 2 <= d { ClusterPlace(g, d, |disk|); }
      SameClusters(disk, disk', g, d);
      ViewAt(disk, g, g.count, d);
      ViewAt(disk', g, g.count, d);
    }
    FatPlace(g, 0, |disk|);
    assert v'.boot == v.boot;
  }
}
