// The heap allocator's block list as a value: first fit with split, free with coalescing,
// extension at the end. Each block is a 12-byte header followed by its payload.
module HeapBlocks {
  import opened Bytes

  const HEADER: nat := 12
  const MIN_BLOCK_SIZE: nat := HEADER + 4

  datatype Block = Block(addr: nat, size: nat, free: bool)
  {
    function End(): nat { addr + HEADER + size }

    function Payload(): nat { addr + HEADER }
  }

  // Each block ends where the next one begins.
  ghost predicate Abutting(bs: seq<Block>) {
    forall i :: 0 <= i < |bs| - 1 ==> bs[i].End() == bs[i + 1].addr
  }

  // The blocks lie one after the other and fill start..end exactly.
  ghost predicate Tiles(bs: seq<Block>, start: nat, end: nat) {
    bs != [] && bs[0].addr == start && bs[|bs| - 1].End() == end && Abutting(bs)
  }

  ghost predicate NoFreeNeighbours(bs: seq<Block>) {
    forall i :: 0 <= i < |bs| - 1 ==> !(bs[i].free && bs[i + 1].free)
  }

  ghost predicate Sound(bs: seq<Block>, start: nat, end: nat) {
    Tiles(bs, start, end) && NoFreeNeighbours(bs)
  }

  lemma AbuttingConcat(a: seq<Block>, b: seq<Block>)
    requires a != [] && b != []
    ensures Abutting(a + b) <==> Abutting(a) && Abutting(b) && a[|a| - 1].End() == b[0].addr
  {
    var s := a + b;
    if Abutting(s) {
      forall i | 0 <= i < |a| - 1 ensures a[i].End() == a[i + 1].addr { assert s[i].End() == s[i + 1].addr; }
      forall i | 0 <= i < |b| - 1 ensures b[i].End() == b[i + 1].addr {
        assert s[|a| + i].End() == s[|a| + i + 1].addr;
      }
      assert s[|a| - 1].End() == s[|a|].addr;
    }
  }

  lemma FreeConcat(a: seq<Block>, b: seq<Block>)
    requires a != [] && b != []
    ensures NoFreeNeighbours(a + b) <==> NoFreeNeighbours(a) && NoFreeNeighbours(b) && !(a[|a| - 1].free && b[0].free)
  {
    var s := a + b;
    if NoFreeNeighbours(s) {
      forall i | 0 <= i < |a| - 1 ensures !(a[i].free && a[i + 1].free) { assert !(s[i].free && s[i + 1].free); }
      forall i | 0 <= i < |b| - 1 ensures !(b[i].free && b[i + 1].free) {
        assert !(s[|a| + i].free && s[|a| + i + 1].free);
      }
      assert !(s[|a| - 1].free && s[|a|].free);
    }
  }

  // Replacing one block by two that fill the same place keeps the tiling.
  lemma Replaced(front: seq<Block>, b: Block, mid: seq<Block>, back: seq<Block>, start: nat, end: nat)
    requires Tiles(front + ([b] + back), start, end)
    requires mid != [] && mid[0].addr == b.addr && mid[|mid| - 1].End() == b.End() && Abutting(mid)
    ensures Tiles(front + (mid + back), start, end)
  {
    if back != [] {
      AbuttingConcat([b], back) by {
        if front != [] { AbuttingConcat(front, [b] + back); } else { assert front + ([b] + back) == [b] + back; }
      }
      AbuttingConcat(mid, back);
    } else {
      assert mid + back == mid && [b] + back == [b];
    }
    if front != [] {
      AbuttingConcat(front, [b] + back);
      AbuttingConcat(front, mid + back);
    } else {
      assert front + (mid + back) == mid + back && front + ([b] + back) == [b] + back;
    }
  }

  lemma ReplacedApart(front: seq<Block>, b: Block, mid: seq<Block>, back: seq<Block>)
    requires NoFreeNeighbours(front + ([b] + back)) && b.free
    requires mid != [] && NoFreeNeighbours(mid)
    ensures NoFreeNeighbours(front + (mid + back))
  {
    if back != [] {
      FreeConcat([b], back) by {
        if front != [] { FreeConcat(front, [b] + back); } else { assert front + ([b] + back) == [b] + back; }
      }
      FreeConcat(mid, back);
    } else {
      assert mid + back == mid && [b] + back == [b];
    }
    if front != [] {
      FreeConcat(front, [b] + back);
      FreeConcat(front, mid + back);
    } else {
      assert front + (mid + back) == mid + back && front + ([b] + back) == [b] + back;
    }
  }

  lemma {:induction false} TilesOrdered(bs: seq<Block>, start: nat, end: nat, i: nat, j: nat)
    requires Tiles(bs, start, end) && i < j < |bs|
    ensures bs[i].End() <= bs[j].addr
    decreases j - i
  {
    if i + 1 < j {
      TilesOrdered(bs, start, end, i + 1, j);
      assert bs[i].End() == bs[i + 1].addr;
    }
  }

  lemma TilesInside(bs: seq<Block>, start: nat, end: nat, i: nat)
    requires Tiles(bs, start, end) && i < |bs|
    ensures start <= bs[i].addr && bs[i].End() <= end
  {
    if 0 < i { TilesOrdered(bs, start, end, 0, i); }
    if i < |bs| - 1 { TilesOrdered(bs, start, end, i, |bs| - 1); }
  }

  // ---- Allocation ----

  // (size + 3) & ~3 on 32-bit values.
  function AlignUp(size: nat): (r: nat)
    requires size < U32
    ensures r % 4 == 0
  {
    (size + 3) % U32 / 4 * 4
  }

  // Rounding up gives at least the requested size exactly when it does not wrap; the three
  // largest requests become 0.
  lemma AlignUpExact(size: nat)
    requires size < U32
    ensures size <= AlignUp(size) <==> size <= U32 - 4
    ensures size <= U32 - 4 ==> AlignUp(size) < size + 4
    ensures size > U32 - 4 ==> AlignUp(size) == 0
  {
  }

  // The first free block at or after i that is large enough; |bs| when there is none.
  function FirstFit(bs: seq<Block>, size: nat, i: nat): (r: nat)
    requires i <= |bs|
    ensures i <= r <= |bs|
    ensures r < |bs| ==> bs[r].free && bs[r].size >= size
    ensures forall j :: i <= j < r ==> !(bs[j].free && bs[j].size >= size)
    decreases |bs| - i
  {
    if i == |bs| || (bs[i].free && bs[i].size >= size) then i else FirstFit(bs, size, i + 1)
  }

  predicate Splits(b: Block, size: nat) { size + MIN_BLOCK_SIZE <= b.size }

  // Block i handed out, its tail split off as a free block if that is worth a header.
  function Taken(bs: seq<Block>, i: nat, size: nat): (r: seq<Block>)
    requires i < |bs| && size <= bs[i].size
  {
    var b := bs[i];
    if Splits(b, size) then
      bs[..i] + [Block(b.addr, size, false), Block(b.addr + HEADER + size, b.size - size - HEADER, true)] + bs[i + 1..]
    else bs[i := b.(free := false)]
  }

  // The block that Taken hands out.
  function Given(b: Block, size: nat): Block
    requires size <= b.size
  {
    if Splits(b, size) then Block(b.addr, size, false) else b.(free := false)
  }

  lemma TakenAt(bs: seq<Block>, i: nat, size: nat)
    requires i < |bs| && size <= bs[i].size
    ensures var r, d := Taken(bs, i, size), if Splits(bs[i], size) then 1 else 0;
      && |r| == |bs| + d && r[i] == Given(bs[i], size)
      && (forall j :: 0 <= j < i ==> r[j] == bs[j])
      && (forall j :: i < j < |bs| ==> r[j + d] == bs[j])
      && (d == 1 ==> r[i + 1] == Block(bs[i].addr + HEADER + size, bs[i].size - size - HEADER, true))
  {
    var r := Taken(bs, i, size);
    if Splits(bs[i], size) {
      forall j | i < j < |bs| ensures r[j + 1] == bs[j] {}
    }
  }

  lemma TakenSound(bs: seq<Block>, start: nat, end: nat, i: nat, size: nat)
    requires Sound(bs, start, end) && i < |bs| && bs[i].free && size <= bs[i].size
    ensures Sound(Taken(bs, i, size), start, end)
  {
    var b, front, back := bs[i], bs[..i], bs[i + 1..];
    var mid := Halves(b, size);
    TakenParts(bs, i, size);
    Replaced(front, b, mid, back, start, end);
    ReplacedApart(front, b, mid, back);
  }

  // What a taken block is replaced by.
  function Halves(b: Block, size: nat): seq<Block>
    requires size <= b.size
  {
    if Splits(b, size) then [Given(b, size), Block(b.addr + HEADER + size, b.size - size - HEADER, true)]
      else [Given(b, size)]
  }

  lemma TakenParts(bs: seq<Block>, i: nat, size: nat)
    requires i < |bs| && size <= bs[i].size
    ensures bs == bs[..i] + ([bs[i]] + bs[i + 1..])
    ensures Taken(bs, i, size) == bs[..i] + (Halves(bs[i], size) + bs[i + 1..])
  {
  }

  // ---- Used blocks ----

  function Used(bs: seq<Block>): set<Block> {
    set b | b in bs && !b.free
  }

  lemma TakenUsed(bs: seq<Block>, i: nat, size: nat)
    requires i < |bs| && bs[i].free && size <= bs[i].size
    ensures Used(Taken(bs, i, size)) == Used(bs) + {Given(bs[i], size)}
  {
    var r := Taken(bs, i, size);
    assert bs == bs[..i] + [bs[i]] + bs[i + 1..];
    if !Splits(bs[i], size) { assert r == bs[..i] + [Given(bs[i], size)] + bs[i + 1..]; }
  }

  // ---- Coalescing ----

  function Merged(a: Block, b: Block): Block { a.(size := a.size + HEADER + b.size) }

  // One pass over the list, joining every free block with the free blocks after it.
  function Coalesce(bs: seq<Block>): (r: seq<Block>)
    ensures bs != [] ==> r != [] && r[0].addr == bs[0].addr && r[0].free == bs[0].free
    decreases |bs|
  {
    if |bs| < 2 then bs
    else if bs[0].free && bs[1].free then Coalesce([Merged(bs[0], bs[1])] + bs[2..])
    else [bs[0]] + Coalesce(bs[1..])
  }

  lemma {:induction false} CoalesceSound(bs: seq<Block>, start: nat, end: nat)
    requires Tiles(bs, start, end)
    ensures Sound(Coalesce(bs), start, end)
    decreases |bs|
  {
    if |bs| < 2 {
    } else if bs[0].free && bs[1].free {
      var ds := [Merged(bs[0], bs[1])] + bs[2..];
      forall i | 0 <= i < |ds| - 1 ensures ds[i].End() == ds[i + 1].addr {
        assert bs[i + 1].End() == bs[i + 2].addr;
      }
      assert ds[|ds| - 1].End() == end by { assert |bs| > 2 ==> ds[|ds| - 1] == bs[|bs| - 1]; }
      CoalesceSound(ds, start, end);
    } else {
      var rest := bs[1..];
      forall i | 0 <= i < |rest| - 1 ensures rest[i].End() == rest[i + 1].addr {
        assert bs[i + 1].End() == bs[i + 2].addr;
      }
      CoalesceSound(rest, bs[1].addr, end);
      var r := Coalesce(rest);
      assert Coalesce(bs) == [bs[0]] + r;
      forall i | 0 <= i < |r| ensures ([bs[0]] + r)[i].End() == ([bs[0]] + r)[i + 1].addr {
        assert bs[0].End() == bs[1].addr;
      }
    }
  }

  lemma {:induction false} CoalesceUsed(bs: seq<Block>)
    ensures Used(Coalesce(bs)) == Used(bs)
    decreases |bs|
  {
    if |bs| < 2 {
    } else if bs[0].free && bs[1].free {
      var ds := [Merged(bs[0], bs[1])] + bs[2..];
      CoalesceUsed(ds);
      assert bs == [bs[0], bs[1]] + bs[2..];
      assert Used(ds) == Used(bs);
    } else {
      CoalesceUsed(bs[1..]);
      assert bs == [bs[0]] + bs[1..];
      assert Used(bs) == Used([bs[0]]) + Used(bs[1..]);
      assert Used([bs[0]] + Coalesce(bs[1..])) == Used([bs[0]]) + Used(Coalesce(bs[1..]));
    }
  }

  lemma {:induction false} CoalesceStays(bs: seq<Block>)
    requires NoFreeNeighbours(bs)
    ensures Coalesce(bs) == bs
    decreases |bs|
  {
    if |bs| >= 2 {
      assert !(bs[0].free && bs[1].free);
      forall i | 0 <= i < |bs[1..]| - 1 ensures !(bs[1..][i].free && bs[1..][i + 1].free) {
        assert !(bs[i + 1].free && bs[i + 2].free);
      }
      CoalesceStays(bs[1..]);
    }
  }

  // Blocks in front that are not followed by a free neighbour are left as they are.
  lemma {:induction false} CoalesceSkips(front: seq<Block>, back: seq<Block>)
    requires back != [] && NoFreeNeighbours(front + [back[0]])
    ensures Coalesce(front + back) == front + Coalesce(back)
    decreases |front|
  {
    if front == [] {
      assert front + back == back;
    } else {
      var f, rest := front[0], front[1..];
      assert front + back == [f] + (rest + back);
      assert front + [back[0]] == [f] + (rest + [back[0]]);
      FreeConcat([f], rest + [back[0]]);
      assert (rest + back)[0] == (rest + [back[0]])[0];
      CoalesceSkips(rest, back);
      CoalesceHead(f, rest + back);
      assert front + Coalesce(back) == [f] + (rest + Coalesce(back));
    }
  }

  lemma CoalesceHead(b: Block, rest: seq<Block>)
    requires rest != [] && !(b.free && rest[0].free)
    ensures Coalesce([b] + rest) == [b] + Coalesce(rest)
  {
    assert ([b] + rest)[1..] == rest;
  }

  function Released(bs: seq<Block>, i: nat): seq<Block>
    requires i < |bs|
  {
    Coalesce(bs[i := bs[i].(free := true)])
  }

  lemma ReleasedSound(bs: seq<Block>, start: nat, end: nat, i: nat)
    requires Tiles(bs, start, end) && i < |bs|
    ensures Sound(Released(bs, i), start, end)
  {
    CoalesceSound(bs[i := bs[i].(free := true)], start, end);
  }

  lemma ReleasedUsed(bs: seq<Block>, start: nat, end: nat, i: nat)
    requires Tiles(bs, start, end) && i < |bs| && !bs[i].free
    ensures Used(Released(bs, i)) == Used(bs) - {bs[i]}
  {
    var ds := bs[i := bs[i].(free := true)];
    CoalesceUsed(ds);
    forall b | b in Used(ds) ensures b in Used(bs) && b != bs[i] {
      var j :| 0 <= j < |ds| && ds[j] == b;
      if j < i { TilesOrdered(bs, start, end, j, i); } else if i < j { TilesOrdered(bs, start, end, i, j); }
    }
    forall b | b in Used(bs) && b != bs[i] ensures b in Used(ds) {
      var j :| 0 <= j < |bs| && bs[j] == b;
      assert ds[j] == b;
    }
  }

  // A free block cut in two is joined again.
  lemma CoalescePair(b: Block, size: nat, back: seq<Block>)
    requires b.free && Splits(b, size) && NoFreeNeighbours([b] + back)
    ensures Coalesce([Block(b.addr, size, true), Block(b.addr + HEADER + size, b.size - size - HEADER, true)] + back)
         == [b] + back
  {
    var pair := [Block(b.addr, size, true), Block(b.addr + HEADER + size, b.size - size - HEADER, true)];
    assert Merged(pair[0], pair[1]) == b;
    assert (pair + back)[2..] == back;
    CoalesceStays([b] + back);
  }

  // Freeing the block just allocated restores the list exactly.
  lemma FreeUndoesAllocate(bs: seq<Block>, i: nat, size: nat)
    requires NoFreeNeighbours(bs) && i < |bs| && bs[i].free && size <= bs[i].size
    ensures i < |Taken(bs, i, size)| && Released(Taken(bs, i, size), i) == bs
  {
    var b, front, back, r := bs[i], bs[..i], bs[i + 1..], Taken(bs, i, size);
    TakenAt(bs, i, size);
    var ds := r[i := r[i].(free := true)];
    if Splits(b, size) {
      var tail := [Block(b.addr, size, true), Block(b.addr + HEADER + size, b.size - size - HEADER, true)] + back;
      assert ds == front + tail;
      assert bs == front + ([b] + back);
      PrefixApart(front, b, back, tail[0]);
      CoalesceSkips(front, tail);
      CoalescePair(b, size, back);
    } else {
      assert ds == bs;
      CoalesceStays(bs);
    }
  }

  lemma PrefixApart(front: seq<Block>, b: Block, back: seq<Block>, c: Block)
    requires NoFreeNeighbours(front + ([b] + back)) && b.free
    ensures NoFreeNeighbours(front + [c]) && NoFreeNeighbours([b] + back)
  {
    if front == [] {
      assert front + ([b] + back) == [b] + back && front + [c] == [c];
    } else {
      FreeConcat(front, [b] + back);
      FreeConcat(front, [c]);
    }
  }

  // ---- Extension ----

  function Extended(bs: seq<Block>, n: nat): seq<Block>
    requires bs != [] && n > HEADER
  {
    var last := bs[|bs| - 1];
    if last.free then bs[|bs| - 1 := last.(size := last.size + n)]
    else bs + [Block(last.End(), n - HEADER, true)]
  }

  lemma ExtendedSound(bs: seq<Block>, start: nat, end: nat, n: nat)
    requires Sound(bs, start, end) && n > HEADER
    ensures Sound(Extended(bs, n), start, end + n)
    ensures Used(Extended(bs, n)) == Used(bs)
  {
    var l := |bs| - 1;
    var last := bs[l];
    if last.free {
      assert bs == bs[..l] + [last];
      assert Extended(bs, n) == bs[..l] + [last.(size := last.size + n)];
      assert Used(Extended(bs, n)) == Used(bs[..l]) == Used(bs);
    } else {
      assert Used(Extended(bs, n)) == Used(bs);
    }
  }

  // ---- When allocation fails ----

  ghost predicate Avoids(b: Block, a: nat, n: nat) { a + n <= b.addr || b.End() <= a }

  // n bytes from a on lie in the region and touch no used block.
  ghost predicate FreeRange(bs: seq<Block>, start: nat, end: nat, a: nat, n: nat) {
    start <= a && a + n <= end && forall i :: 0 <= i < |bs| && !bs[i].free ==> Avoids(bs[i], a, n)
  }

  lemma {:induction false} BlockAround(bs: seq<Block>, start: nat, end: nat, a: nat, k: nat) returns (i: nat)
    requires Tiles(bs, start, end) && k < |bs| && bs[k].addr <= a < end
    ensures i < |bs| && bs[i].addr <= a < bs[i].End()
    decreases |bs| - k
  {
    if a < bs[k].End() {
      i := k;
    } else {
      assert k < |bs| - 1 && bs[k].End() == bs[k + 1].addr;
      i := BlockAround(bs, start, end, a, k + 1);
    }
  }

  // A free range that could hold header and payload lies in one free block of that size.
  lemma RangeInOneBlock(bs: seq<Block>, start: nat, end: nat, a: nat, size: nat)
    requires Sound(bs, start, end) && FreeRange(bs, start, end, a, HEADER + size)
    ensures exists i :: 0 <= i < |bs| && bs[i].free && bs[i].size >= size
  {
    var i := BlockAround(bs, start, end, a, 0);
    assert bs[i].free;
    if i < |bs| - 1 {
      assert bs[i].End() == bs[i + 1].addr && !(bs[i].free && bs[i + 1].free);
      assert !bs[i + 1].free ==> Avoids(bs[i + 1], a, HEADER + size);
    }
  }

  // Header and payload of a block of that size fit at a.
  ghost predicate Room(bs: seq<Block>, start: nat, end: nat, a: nat, size: nat) {
    FreeRange(bs, start, end, a, HEADER + size)
  }

  // First fit finds a block exactly when some range of free bytes can hold header and payload:
  // no request fails for want of joining free neighbours.
  lemma FitIffFreeRange(bs: seq<Block>, start: nat, end: nat, size: nat)
    requires Sound(bs, start, end)
    ensures FirstFit(bs, size, 0) < |bs| <==> exists a: nat :: Room(bs, start, end, a, size)
  {
    var i := FirstFit(bs, size, 0);
    if i < |bs| {
      TilesInside(bs, start, end, i);
      forall j | 0 <= j < |bs| && !bs[j].free ensures Avoids(bs[j], bs[i].addr, HEADER + size) {
        if j < i { TilesOrdered(bs, start, end, j, i); } else { TilesOrdered(bs, start, end, i, j); }
      }
      assert Room(bs, start, end, bs[i].addr, size);
    }
    if a: nat :| Room(bs, start, end, a, size) {
      RangeInOneBlock(bs, start, end, a, size);
    }
  }

  // ---- Every interleaving ----

  // live gives the requested size of every pointer handed out and not yet freed.
  datatype Heap = Heap(blocks: seq<Block>, start: nat, end: nat, live: map<nat, nat>)

  datatype Op = Alloc(size: nat) | Free(ptr: nat) | Grow(n: nat)

  // Index of the block with that payload address.
  function Find(bs: seq<Block>, ptr: nat, i: nat): (r: nat)
    requires i <= |bs|
    ensures i <= r <= |bs|
    ensures r < |bs| ==> bs[r].Payload() == ptr
    ensures forall j :: i <= j < r ==> bs[j].Payload() != ptr
    decreases |bs| - i
  {
    if i == |bs| || bs[i].Payload() == ptr then i else Find(bs, ptr, i + 1)
  }

  // Requests are positive 32-bit values that do not wrap when aligned; only live pointers are
  // freed; the region is extended by memory that is there.
  predicate Legal(h: Heap, op: Op) {
    match op
    case Alloc(size) => 0 < size <= U32 - 4
    case Free(ptr) => ptr in h.live
    case Grow(n) => HEADER < n
  }

  function Allocated(h: Heap, size: nat): Heap
    requires 0 < size <= U32 - 4
  {
    var i := FirstFit(h.blocks, AlignUp(size), 0);
    if i == |h.blocks| then h
    else h.(blocks := Taken(h.blocks, i, AlignUp(size)), live := h.live[h.blocks[i].Payload() := size])
  }

  function Step(h: Heap, op: Op): Heap
    requires Legal(h, op) && h.blocks != []
  {
    match op
    case Alloc(size) => Allocated(h, size)
    case Free(ptr) =>
      var i := Find(h.blocks, ptr, 0);
      if i == |h.blocks| then h else h.(blocks := Released(h.blocks, i), live := h.live - {ptr})
    case Grow(n) => h.(blocks := Extended(h.blocks, n), end := h.end + n)
  }

  // The used blocks are the live allocations, each at least as large as requested.
  ghost predicate Serves(used: set<Block>, live: map<nat, nat>) {
    && (forall b :: b in used ==> b.Payload() in live && live[b.Payload()] <= b.size)
    && (forall p :: p in live ==> exists b :: b in used && b.Payload() == p)
  }

  ghost predicate Inv(h: Heap) {
    Sound(h.blocks, h.start, h.end) && Serves(Used(h.blocks), h.live)
  }

  lemma SamePayload(h: Heap, b: Block, c: Block)
    requires Inv(h) && b in h.blocks && c in h.blocks && b.Payload() == c.Payload()
    ensures b == c
  {
    var i :| 0 <= i < |h.blocks| && h.blocks[i] == b;
    var j :| 0 <= j < |h.blocks| && h.blocks[j] == c;
    if i < j { TilesOrdered(h.blocks, h.start, h.end, i, j); }
    if j < i { TilesOrdered(h.blocks, h.start, h.end, j, i); }
  }

  lemma AllocKeeps(h: Heap, size: nat)
    requires Inv(h) && 0 < size <= U32 - 4
    ensures Inv(Allocated(h, size))
    ensures Allocated(h, size) != h ==> exists p: nat :: p !in h.live && Allocated(h, size).live == h.live[p := size]
  {
    var n := AlignUp(size);
    AlignUpExact(size);
    var i := FirstFit(h.blocks, n, 0);
    if i < |h.blocks| {
      var b := h.blocks[i];
      TakenSound(h.blocks, h.start, h.end, i, n);
      TakenUsed(h.blocks, i, n);
      var p := b.Payload();
      assert p !in h.live by {
        if p in h.live {
          var c :| c in Used(h.blocks) && c.Payload() == p;
          SamePayload(h, b, c);
        }
      }
      var used, live := Used(h.blocks) + {Given(b, n)}, h.live[p := size];
      forall q | q in live ensures exists c :: c in used && c.Payload() == q {
        if q == p { assert Given(b, n) in used && Given(b, n).Payload() == q; }
        else { var c :| c in Used(h.blocks) && c.Payload() == q; assert c in used; }
      }
    }
  }

  lemma FreeKeeps(h: Heap, ptr: nat)
    requires Inv(h) && ptr in h.live
    ensures Inv(Step(h, Free(ptr))) && ptr !in Step(h, Free(ptr)).live
  {
    var b :| b in Used(h.blocks) && b.Payload() == ptr;
    var i := Find(h.blocks, ptr, 0);
    assert i < |h.blocks| && h.blocks[i] == b by {
      var j :| 0 <= j < |h.blocks| && h.blocks[j] == b;
      SamePayload(h, b, h.blocks[i]);
    }
    ReleasedSound(h.blocks, h.start, h.end, i);
    ReleasedUsed(h.blocks, h.start, h.end, i);
    var used, live := Used(h.blocks) - {b}, h.live - {ptr};
    forall c | c in used ensures c.Payload() in live && live[c.Payload()] <= c.size {
      if c.Payload() == ptr { SamePayload(h, b, c); }
    }
    forall q | q in live ensures exists c :: c in used && c.Payload() == q {
      var c :| c in Used(h.blocks) && c.Payload() == q;
      assert c in used;
    }
  }

  lemma StepKeeps(h: Heap, op: Op)
    requires Inv(h) && Legal(h, op)
    ensures Inv(Step(h, op))
  {
    match op
    case Alloc(size) => AllocKeeps(h, size);
    case Free(ptr) => FreeKeeps(h, ptr);
    case Grow(n) => ExtendedSound(h.blocks, h.start, h.end, n);
  }

  ghost predicate LegalRun(h: Heap, ops: seq<Op>)
    decreases |ops|
  {
    h.blocks != [] && (ops != [] ==> Legal(h, ops[0]) && LegalRun(Step(h, ops[0]), ops[1..]))
  }

  ghost function After(h: Heap, ops: seq<Op>): Heap
    requires LegalRun(h, ops)
    decreases |ops|
  {
    if ops == [] then h else After(Step(h, ops[0]), ops[1..])
  }

  // Across every interleaving the blocks tile the region, no two neighbours are both free, and
  // the used blocks are exactly the live allocations.
  lemma {:induction false} RunKeeps(h: Heap, ops: seq<Op>)
    requires Inv(h) && LegalRun(h, ops)
    ensures Inv(After(h, ops))
    decreases |ops|
  {
    if ops != [] {
      StepKeeps(h, ops[0]);
      RunKeeps(Step(h, ops[0]), ops[1..]);
    }
  }

  // Live allocations lie in the region, do not overlap, and are as large as requested.
  lemma LiveAreDisjoint(h: Heap, p: nat, q: nat)
    requires Inv(h) && p in h.live && q in h.live && p != q
    ensures h.start <= p && p + h.live[p] <= h.end
    ensures p + h.live[p] <= q || q + h.live[q] <= p
  {
    var b :| b in Used(h.blocks) && b.Payload() == p;
    var c :| c in Used(h.blocks) && c.Payload() == q;
    var i :| 0 <= i < |h.blocks| && h.blocks[i] == b;
    var j :| 0 <= j < |h.blocks| && h.blocks[j] == c;
    TilesInside(h.blocks, h.start, h.end, i);
    if i < j { TilesOrdered(h.blocks, h.start, h.end, i, j); }
    if j < i { TilesOrdered(h.blocks, h.start, h.end, j, i); }
  }
}
