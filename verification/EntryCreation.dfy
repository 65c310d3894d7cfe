// Creating an entry: the room found for it, its slots written, and for a directory the content
// cluster with its dot entries.
module EntryCreation {
  import opened Bytes
  import opened FatChains
  import opened FatLayout
  import opened Fat32
  import opened Names
  import opened NameWriting
  import opened DirectorySlots
  import opened DirectoryChain
  import opened DirectoryPlaces
  import opened FatDirectory
  import opened EntryWriting

  // What creating an entry comes to, with the directory it leaves: no run of free slots; no
  // cluster for the content of a new directory, when kept slots have been written from slot p
  // on; or the entry, its short slot at number at, and the content cluster if there is one.
  datatype Outcome =
    | NoRoom(d: Dir)
    | NoContent(d: Dir, p: nat, kept: nat)
    | Made(d: Dir, at: nat, short: Slot, content: seq<nat>)

  predicate IsDirectory(attr: byte) { attr / 16 % 2 == 1 }

  // The first cluster that ".." names; the root directory is named by 0.
  function ParentOf(dirCluster: nat, root: nat): nat { if dirCluster == root then 0 else dirCluster }

  // The directory with slots ns written from slot p on.
  function Laid(d: Dir, n: nat, p: nat, ns: seq<Slot>): Dir {
    Dir(d.v.(data := Put(d.v.data, d.cs, n, p, ns)), d.cs)
  }

  // The volume with cluster c taken for the content of a new directory.
  function WithContent(v: Volume, n: nat, c: nat, parent: nat): Volume
    requires c < |v.fat| && c < |v.data| && c < U32 && parent < U32 && n >= 2
  {
    Volume(v.fat[c := FAT_EOC], v.top, v.data[c := DotCluster(c, parent, n)], v.boot)
  }

  // The slots of a new directory's entry: the short one names the content cluster.
  function Naming(ns: seq<Slot>, c: nat): (r: seq<Slot>)
    requires ns != [] && c < U32
    ensures |r| == |ns|
  {
    ns[..|ns| - 1] + [WithCluster(ns[|ns| - 1], c)]
  }

  // How many of the slots before the last one have been written out when it is reached.
  function KeptSlots(d: Dir, n: nat, p: nat, ns: seq<Slot>): (f: nat)
    requires ns != []
    ensures f < |ns|
  {
    Flushed(|ns| - 1, SpotAt(d.cs, n, p + |ns| - 1).i)
  }

  // The slots ns in the room r.
  ghost function Placed(r: Found, n: nat, ns: seq<Slot>, dir: bool, parent: nat): Outcome
    requires Good(r.d, n) == true && n >= 2 && ns != [] && parent < U32
  {
    if r.p < 0 then NoRoom(r.d)
    else if !dir then Made(Laid(r.d, n, r.p, ns), r.p + |ns| - 1, ns[|ns| - 1], [])
    else if Full(r.d.v) then
      var f := KeptSlots(r.d, n, r.p, ns);
      NoContent(Laid(r.d, n, r.p, ns[..f]), r.p, f)
    else
      var c := FirstFree(r.d.v.fat, 2);
      var d := Laid(r.d, n, r.p, Naming(ns, c));
      Made(Dir(WithContent(d.v, n, c, parent), d.cs), r.p + |ns| - 1, WithCluster(ns[|ns| - 1], c), [c])
  }

  // The outcome of creating an entry in the directory d.
  ghost function Creation(d: Dir, n: nat, name: seq<byte>, attr: byte, root: nat): Outcome
    requires Good(d, n) == true && n >= 2 && Nameable(name)
  {
    var ns := NewSlots(name, attr);
    RoomExact(d, n, |ns|);
    assert InRange(d.v.fat, d.cs[0]);
    Placed(RoomIn(d, n, |ns|), n, ns, IsDirectory(attr), ParentOf(d.cs[0], root))
  }

  class Creator {
    const directory: Directory
    const fs: Filesystem
    const rootCluster: nat

    constructor (dir: Directory, root: nat)
      ensures directory == dir && fs == dir.fs && rootCluster == root
    {
      directory, fs, rootCluster := dir, dir.fs, root;
    }

    ghost predicate Valid()
      reads fs, fs.dev, fs.dev.cache
    {
      directory.fs == fs && fs.Valid()
    }

    function PerCluster(): nat { 16 * fs.g.spc }

    // The parts of the new entry.
    method Prepare(name: seq<byte>, attr: byte) returns (long: bool, sum: byte, short: Slot, ghost ns: seq<Slot>)
      requires Nameable(name)
      ensures ns == NewSlots(name, attr) && |ns| == (if long then LfnCount(name) else 0) + 1 && ns[|ns| - 1] == short
      ensures long ==> LongSlots(ns, name, sum) == true
    {
      var shortName := NameToShort(name);
      sum := LfnChecksum(shortName);
      long := CheckLfn(name);
      short := ShortWith(shortName, attr);
      CountBounds(name);
      ns := EntrySlots(name, long, sum, short);
      if long { AreLongSlots(name, sum, short); }
    }

    // One slot before the last; over to the next cluster at the end of this one.
    method PutSlot(pen: Pen, s: Slot, ghost was: seq<seq<byte>>, ghost cs: seq<nat>, ghost p: nat, ghost ns: seq<Slot>,
                   ghost j: nat)
      returns (pen': Pen)
      requires Valid() && IsChain(fs.V().fat, cs) == true && j + 1 < |ns| && s == ns[j]
      requires Writing(was, fs.V().data, cs, PerCluster(), p, ns, pen, j) == true
      modifies fs.dev, fs.dev.cache
      ensures Valid() && fs.V() == old(fs.V()).(data := fs.V().data)
      ensures Writing(was, fs.V().data, cs, PerCluster(), p, ns, pen', j + 1) == true
    {
      var n := PerCluster();
      PutInBuffer(was, fs.V().data, cs, n, p, ns, pen, j, s);
      pen' := Pen(pen.cluster, WithSlot(pen.buf, n, pen.i, s), pen.i + 1);
      if pen'.i >= n {
        ghost var k := WritingTurn(was, fs.V().data, cs, n, p, ns, pen, j);
        pen' := TurnOver(pen'.cluster, pen'.buf, cs, k);
      } else {
        WritingOn(was, fs.V().data, cs, n, p, ns, pen, j);
      }
    }

    // The cluster at hand is full: written out, and the next one read.
    method TurnOver(at: nat, buf: seq<byte>, ghost cs: seq<nat>, ghost k: nat) returns (pen: Pen)
      requires Valid() && IsChain(fs.V().fat, cs) == true && k + 1 < |cs| && at == cs[k] && |buf| == 32 * PerCluster()
      modifies fs.dev, fs.dev.cache
      ensures Valid() && at < |old(fs.V()).data| && fs.V() == old(fs.V()).(data := old(fs.V()).data[at := buf])
      ensures cs[k + 1] < |fs.V().data| && pen == Pen(cs[k + 1], fs.V().data[cs[k + 1]], 0)
    {
      assert InRange(fs.V().fat, cs[k]) && InRange(fs.V().fat, cs[k + 1]);
      ChainNext(fs.V().fat, cs, k);
      fs.WriteCluster(at, buf);
      var next := fs.FatGet(at);
      var buf' := fs.ReadCluster(next);
      pen := Pen(next, buf', 0);
    }

    // The long-name slots, last part of the name first.
    method WriteLong(name: seq<byte>, sum: byte, pen0: Pen, ghost was: seq<seq<byte>>, ghost cs: seq<nat>, ghost p: nat,
                     ghost ns: seq<Slot>)
      returns (pen: Pen)
      requires Valid() && IsChain(fs.V().fat, cs) == true && LongSlots(ns, name, sum) == true
      requires Writing(was, fs.V().data, cs, PerCluster(), p, ns, pen0, 0) == true
      modifies fs.dev, fs.dev.cache
      ensures Valid() && fs.V() == old(fs.V()).(data := fs.V().data)
      ensures Writing(was, fs.V().data, cs, PerCluster(), p, ns, pen, |ns| - 1) == true
    {
      pen := pen0;
      var number := LfnCount(name);
      ghost var j: nat := 0;
      while number >= 1
        invariant Valid() && fs.V() == old(fs.V()).(data := fs.V().data) && j + number + 1 == |ns|
        invariant Writing(was, fs.V().data, cs, PerCluster(), p, ns, pen, j) == true
      {
        pen := PutLong(name, sum, number, pen, was, cs, p, ns, j);
        number, j := number - 1, j + 1;
      }
    }

    // One of them.
    method PutLong(name: seq<byte>, sum: byte, number: nat, pen: Pen, ghost was: seq<seq<byte>>, ghost cs: seq<nat>,
                   ghost p: nat, ghost ns: seq<Slot>, ghost j: nat)
      returns (pen': Pen)
      requires Valid() && IsChain(fs.V().fat, cs) == true && LongSlots(ns, name, sum) == true
      requires 1 <= number && j + number + 1 == |ns|
      requires Writing(was, fs.V().data, cs, PerCluster(), p, ns, pen, j) == true
      modifies fs.dev, fs.dev.cache
      ensures Valid() && fs.V() == old(fs.V()).(data := fs.V().data)
      ensures Writing(was, fs.V().data, cs, PerCluster(), p, ns, pen', j + 1) == true
    {
      LongSlotAt(ns, name, sum, j, number);
      pen' := PutSlot(pen, LfnSlot(name, number, sum), was, cs, p, ns, j);
    }

    // A cluster with the dot entries of a new directory; 0 exactly when the volume is full.
    method AddContent(parent: nat) returns (c: nat)
      requires Valid() && parent < U32
      modifies fs.dev, fs.dev.cache
      ensures Valid() && (c == 0 <==> Full(old(fs.V())))
      ensures c == 0 ==> fs.V() == old(fs.V())
      ensures c != 0 ==> 2 <= c < fs.g.count && c == FirstFree(old(fs.V()).fat, 2)
      ensures c != 0 ==> fs.V() == WithContent(old(fs.V()), PerCluster(), c, parent)
    {
      c := fs.AllocateCluster();
      if c == 0 { return; }
      fs.WriteCluster(c, DotCluster(c, parent, PerCluster()));
      fs.FlushFat();
    }

    // The slots before the last, from start on.
    method WriteFirst(name: seq<byte>, long: bool, sum: byte, start: Spot, ghost d: Dir, ghost p: nat,
        ghost ns: seq<Slot>)
      returns (pen: Pen)
      requires Valid() && fs.V() == d.v && Good(d, PerCluster()) == true && p + |ns| <= Row(|d.cs|, PerCluster())
      requires start == SpotAt(d.cs, PerCluster(), p)
      requires if long then LongSlots(ns, name, sum) == true else |ns| == 1
      modifies fs.dev, fs.dev.cache
      ensures Valid() && fs.V() == d.v.(data := fs.V().data)
      ensures Writing(d.v.data, fs.V().data, d.cs, PerCluster(), p, ns, pen, |ns| - 1) == true
    {
      GoodSlots(d, PerCluster());
      WritingStart(d.v.data, d.cs, PerCluster(), p, ns, start);
      InGood(d, PerCluster(), start.cluster);
      var buf := fs.ReadCluster(start.cluster);
      pen := Pen(start.cluster, buf, start.i);
      if long { pen := WriteLong(name, sum, pen, d.v.data, d.cs, p, ns); }
    }

    // The last slot, and before it the content cluster of a directory.
    method WriteLast(short: Slot, dir: bool, parent: nat, pen: Pen, ghost r: Found, ghost ns: seq<Slot>)
        returns (ok: bool)
      requires Valid() && fs.V() == r.d.v.(data := fs.V().data) && Good(r.d, PerCluster()) == true && r.p >= 0
      requires ns != [] && short == ns[|ns| - 1] && parent < U32
      requires Writing(r.d.v.data, fs.V().data, r.d.cs, PerCluster(), r.p, ns, pen, |ns| - 1) == true
      modifies fs.dev, fs.dev.cache
      ensures Valid()
      ensures var o := Placed(r, PerCluster(), ns, dir, parent); fs.V() == o.d.v && (ok <==> o.Made?)
    {
      ghost var n, v := PerCluster(), fs.V();
      InHand(r, v.data, n, ns, pen);
      var last, c := short, 0;
      if dir {
        c := AddContent(parent);
        if c == 0 { return false; }
        last := WithCluster(short, c);
      }
      fs.WriteCluster(pen.cluster, WithSlot(pen.buf, PerCluster(), pen.i, last));
      Finished(r, n, ns, dir, parent, v, pen, last, c, fs.V());
      ok := true;
    }

    // The slots of the entry in the room r, which begins at start.
    method WriteEntry(name: seq<byte>, long: bool, sum: byte, short: Slot, dir: bool, parent: nat, start: Spot,
                      ghost r: Found, ghost ns: seq<Slot>)
      returns (ok: bool, out: Spot)
      requires Valid() && fs.V() == r.d.v && Good(r.d, PerCluster()) == true && r.p >= 0 && parent < U32
      requires start == SpotAt(r.d.cs, PerCluster(), r.p) && r.p + |ns| <= Row(|r.d.cs|, PerCluster())
      requires ns != [] && short == ns[|ns| - 1] && if long then LongSlots(ns, name, sum) == true else |ns| == 1
      modifies fs.dev, fs.dev.cache
      ensures Valid() && out == SpotAt(r.d.cs, PerCluster(), r.p + |ns| - 1)
      ensures var o := Placed(r, PerCluster(), ns, dir, parent); fs.V() == o.d.v && (ok <==> o.Made?)
    {
      var pen := WriteFirst(name, long, sum, start, r.d, r.p, ns);
      InHand(r, fs.V().data, PerCluster(), ns, pen);
      out := Spot(pen.cluster, pen.i);
      ok := WriteLast(short, dir, parent, pen, r, ns);
    }

    // The first room there is for the entry, and the entry written there.
    method CreateEntry(dirCluster: nat, name: seq<byte>, attr: byte, ghost cs: seq<nat>)
      returns (ok: bool, out: Spot, ghost o: Outcome)
      requires Valid() && Good(Dir(fs.V(), cs), PerCluster()) == true && dirCluster == cs[0] && Nameable(name)
      modifies fs.dev, fs.dev.cache
      ensures Valid() && o == Creation(Dir(old(fs.V()), cs), PerCluster(), name, attr, rootCluster)
      ensures fs.V() == o.d.v && (ok <==> o.Made?) && (ok ==> out == SpotAt(o.d.cs, PerCluster(), o.at))
    {
      ghost var ns;
      var long, sum, short;
      long, sum, short, ns := Prepare(name, attr);
      ghost var r := RoomIn(Dir(fs.V(), cs), PerCluster(), |ns|);
      CreationIs(Dir(fs.V(), cs), PerCluster(), name, attr, rootCluster, ns, r);
      o := Placed(r, PerCluster(), ns, IsDirectory(attr), ParentOf(dirCluster, rootCluster));
      var total := (if long then LfnCount(name) else 0) + 1;
      ok, out := CreateIn(dirCluster, name, long, sum, short, IsDirectory(attr), total, Dir(fs.V(), cs), ns, r);
    }

    method CreateIn(dirCluster: nat, name: seq<byte>, long: bool, sum: byte, short: Slot, dir: bool, total: nat,
                    ghost d: Dir, ghost ns: seq<Slot>, ghost r: Found)
      returns (ok: bool, out: Spot)
      requires Valid() && fs.V() == d.v && Good(d, PerCluster()) == true && dirCluster == d.cs[0]
      requires ns != [] && |ns| == total && short == ns[|ns| - 1]
      requires if long then LongSlots(ns, name, sum) == true else |ns| == 1
      requires r == RoomIn(d, PerCluster(), |ns|) && (r.p >= 0 ==> r.p + |ns| <= Row(|r.d.cs|, PerCluster()))
      requires Good(r.d, PerCluster()) == true && ParentOf(dirCluster, rootCluster) < U32
      modifies fs.dev, fs.dev.cache
      ensures Valid()
      ensures var o := Placed(r, PerCluster(), ns, dir, ParentOf(dirCluster, rootCluster));
        fs.V() == o.d.v && (ok <==> o.Made?) && (ok ==> out == SpotAt(o.d.cs, PerCluster(), o.at))
    {
      var found, start := directory.FindRun(dirCluster, total, d, r);
      ok, out := WriteFound(found, start, dirCluster, name, long, sum, short, dir, ns, r);
    }

    // The entry in the room found, if any.
    method WriteFound(found: bool, start: Spot, dirCluster: nat, name: seq<byte>, long: bool, sum: byte, short: Slot,
                      dir: bool, ghost ns: seq<Slot>, ghost r: Found)
      returns (ok: bool, out: Spot)
      requires Valid() && fs.V() == r.d.v && Good(r.d, PerCluster()) == true && ParentOf(dirCluster, rootCluster) < U32
      requires found <==> r.p >= 0
      requires found ==> start == SpotAt(r.d.cs, PerCluster(), r.p) && r.p + |ns| <= Row(|r.d.cs|, PerCluster())
      requires ns != [] && short == ns[|ns| - 1] && if long then LongSlots(ns, name, sum) == true else |ns| == 1
      modifies fs.dev, fs.dev.cache
      ensures Valid()
      ensures var o := Placed(r, PerCluster(), ns, dir, ParentOf(dirCluster, rootCluster));
        fs.V() == o.d.v && (ok <==> o.Made?) && (ok ==> out == SpotAt(o.d.cs, PerCluster(), o.at))
    {
      ok, out := false, start;
      if found {
        ok, out := WriteEntry(name, long, sum, short, dir, ParentOf(dirCluster, rootCluster), start, r, ns);
      }
    }
  }

  // The room found is inside the directory.
  lemma RoomFits(d: Dir, r: Found, n: nat, total: nat)
    requires Good(d, n) == true && total >= 1 && r == RoomIn(d, n, total)
    ensures Good(r.d, n) == true && (r.p >= 0 ==> r.p + total <= Row(|r.d.cs|, n)) && d.cs != [] && d.cs[0] < U32
  {
    RoomExact(d, n, total);
    GoodSlots(r.d, n);
    InGood(d, n, d.cs[0]);
  }

  lemma CreationIs(d: Dir, n: nat, name: seq<byte>, attr: byte, root: nat, ns: seq<Slot>, r: Found)
    requires Good(d, n) == true && n >= 2 && Nameable(name) && ns == NewSlots(name, attr) && r == RoomIn(d, n, |ns|)
    ensures Good(r.d, n) == true && (r.p >= 0 ==> r.p + |ns| <= Row(|r.d.cs|, n)) && d.cs != []
      && ParentOf(d.cs[0], root) < U32
    ensures Creation(d, n, name, attr, root) == Placed(r, n, ns, IsDirectory(attr), ParentOf(d.cs[0], root))
  {
    RoomFits(d, r, n, |ns|);
  }

  // ns begins with the long-name slots of the name.
  ghost predicate LongSlots(ns: seq<Slot>, name: seq<byte>, sum: byte) {
    && LfnCount(name) <= 20 && |ns| == LfnCount(name) + 1
    && forall number: nat | 1 <= number <= LfnCount(name) :: LongSlot(ns, name, sum, number)
  }

  predicate LongSlot(ns: seq<Slot>, name: seq<byte>, sum: byte, number: nat)
    requires 1 <= number <= LfnCount(name) <= 20 && |ns| == LfnCount(name) + 1
  {
    ns[LfnCount(name) - number] == LfnSlot(name, number, sum)
  }

  lemma LongSlotAt(ns: seq<Slot>, name: seq<byte>, sum: byte, j: nat, number: nat)
    requires LongSlots(ns, name, sum) == true && 1 <= number && j + number + 1 == |ns|
    ensures number <= LfnCount(name) <= 20 && ns[j] == LfnSlot(name, number, sum)
  {
    assert LongSlot(ns, name, sum, number);
  }

  lemma AreLongSlots(name: seq<byte>, sum: byte, short: Slot)
    requires LfnCount(name) <= 20
    ensures LongSlots(EntrySlots(name, true, sum, short), name, sum) == true
  {
    var ns := EntrySlots(name, true, sum, short);
    forall number: nat | 1 <= number <= LfnCount(name) ensures LongSlot(ns, name, sum, number) {
      SlotAt(name, LfnCount(name), sum, LfnCount(name) - number);
    }
  }

  lemma InGood(d: Dir, n: nat, c: nat)
    requires Good(d, n) == true && c in d.cs
    ensures InRange(d.v.fat, c)
  {
  }

  // The pen is on a slot of a cluster of the directory: the last slot of the entry.
  lemma InHand(r: Found, data: seq<seq<byte>>, n: nat, ns: seq<Slot>, pen: Pen)
    requires Good(r.d, n) == true && r.p >= 0 && ns != []
    requires Writing(r.d.v.data, data, r.d.cs, n, r.p, ns, pen, |ns| - 1) == true
    ensures pen.cluster in r.d.cs && InRange(r.d.v.fat, pen.cluster) && pen.i < n && |pen.buf| == 32 * n
    ensures Spot(pen.cluster, pen.i) == SpotAt(r.d.cs, n, r.p + |ns| - 1)
    ensures data == Put(r.d.v.data, r.d.cs, n, r.p, ns[..KeptSlots(r.d, n, r.p, ns)])
  {
    PenPlace(r.d.v.data, data, r.d.cs, n, r.p, ns, pen, |ns| - 1);
    InGood(r.d, n, pen.cluster);
  }

  // The last slot written, with or without a content cluster.
  lemma Finished(r: Found, n: nat, ns: seq<Slot>, dir: bool, parent: nat, v: Volume, pen: Pen, last: Slot, c: nat,
      w: Volume)
    requires Good(r.d, n) == true && r.p >= 0 && n >= 2 && ns != [] && parent < U32 && v == r.d.v.(data := v.data)
    requires Writing(r.d.v.data, v.data, r.d.cs, n, r.p, ns, pen, |ns| - 1) == true
    requires pen.i < n && pen.cluster in r.d.cs
    requires dir ==> !Full(r.d.v) && c == FirstFree(r.d.v.fat, 2) && last == WithCluster(ns[|ns| - 1], c)
    requires !dir ==> last == ns[|ns| - 1]
    requires var buf := WithSlot(pen.buf, n, pen.i, last);
      var v' := if dir then WithContent(v, n, c, parent) else v;
      w == v'.(data := v'.data[pen.cluster := buf])
    ensures w == Placed(r, n, ns, dir, parent).d.v
  {
    PutInBuffer(r.d.v.data, v.data, r.d.cs, n, r.p, ns, pen, |ns| - 1, last);
    if dir {
      FreeApart(r.d, n, c, pen.cluster);
      UpdatesCommute(v.data, c, DotCluster(c, parent, n), pen.cluster, WithSlot(pen.buf, n, pen.i, last));
    } else {
      assert ns[..|ns| - 1] + [last] == ns;
    }
  }

  lemma FreeApart(d: Dir, n: nat, c: nat, x: nat)
    requires Good(d, n) == true && c in FreeClusters(d.v.fat) && x in d.cs
    ensures x != c
  {
    ChainNotFree(d.v.fat, d.cs, x);
  }

  lemma UpdatesCommute(data: seq<seq<byte>>, a: nat, x: seq<byte>, b: nat, y: seq<byte>)
    requires a < |data| && b < |data| && a != b
    ensures data[a := x][b := y] == data[b := y][a := x]
  {
  }
}
