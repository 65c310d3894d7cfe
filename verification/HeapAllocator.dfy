// The allocator as it works in memory: headers linked by address, split, joined and
// extended in place.
module HeapAllocator {
  import opened Bytes
  import opened HeapBlocks

  // The three header words at a block's address; next is 0 at the end of the list.
  datatype Header = Header(size: nat, free: bool, next: nat)

  // Address of block i, 0 past the end.
  function AddrAt(bs: seq<Block>, i: nat): nat {
    if i < |bs| then bs[i].addr else 0
  }

  // The header of block i is in memory and links to block i + 1.
  predicate Stored(hs: map<nat, Header>, bs: seq<Block>, i: nat)
    requires i < |bs|
  {
    bs[i].addr in hs && hs[bs[i].addr] == Header(bs[i].size, bs[i].free, AddrAt(bs, i + 1))
  }

  ghost predicate Layout(hs: map<nat, Header>, bs: seq<Block>) {
    forall i :: 0 <= i < |bs| ==> Stored(hs, bs, i)
  }

  lemma AddressesDiffer(bs: seq<Block>, start: nat, end: nat, i: nat)
    requires Tiles(bs, start, end) && i < |bs|
    ensures start <= bs[i].addr
    ensures forall j :: 0 <= j < |bs| && j != i ==> bs[j].addr != bs[i].addr
  {
    TilesInside(bs, start, end, i);
    forall j | 0 <= j < |bs| && j != i ensures bs[j].addr != bs[i].addr {
      if j < i { TilesOrdered(bs, start, end, j, i); } else { TilesOrdered(bs, start, end, i, j); }
    }
  }

  // Memory after block i has been handed out.
  function TakenHeaders(hs: map<nat, Header>, b: Block, n: nat, next: nat): map<nat, Header>
    requires n <= b.size
  {
    if Splits(b, n) then
      var rest := b.addr + HEADER + n;
      hs[rest := Header(b.size - n - HEADER, true, next)][b.addr := Header(n, false, rest)]
    else hs[b.addr := Header(b.size, false, next)]
  }

  lemma TakenLayout(hs: map<nat, Header>, bs: seq<Block>, start: nat, end: nat, i: nat, n: nat)
    requires Sound(bs, start, end) && Layout(hs, bs) && i < |bs| && bs[i].free && n <= bs[i].size
    ensures Layout(TakenHeaders(hs, bs[i], n, AddrAt(bs, i + 1)), Taken(bs, i, n))
  {
    TakenAt(bs, i, n);
    var r, d, hs' := Taken(bs, i, n), if Splits(bs[i], n) then 1 else 0, TakenHeaders(hs, bs[i], n, AddrAt(bs, i + 1));
    forall j | 0 <= j < |r| ensures Stored(hs', r, j) {
      if j < i {
        assert Stored(hs, bs, j);
        TilesOrdered(bs, start, end, j, i);
        assert r[j + 1].addr == bs[j + 1].addr;
      } else if j > i + d {
        assert Stored(hs, bs, j - d);
        assert r[j] == bs[j - d];
        TilesOrdered(bs, start, end, i, j - d);
        assert AddrAt(r, j + 1) == AddrAt(bs, j - d + 1);
      } else {
        assert AddrAt(r, i + d + 1) == AddrAt(bs, i + 1);
      }
    }
  }

  // ---- Joining block i with the next one ----

  function Joined(bs: seq<Block>, i: nat): (r: seq<Block>)
    requires i + 1 < |bs|
    ensures |r| == |bs| - 1 && r[i] == Merged(bs[i], bs[i + 1])
    ensures forall j :: 0 <= j < i ==> r[j] == bs[j]
    ensures forall j :: i < j < |r| ==> r[j] == bs[j + 1]
  {
    bs[..i] + [Merged(bs[i], bs[i + 1])] + bs[i + 2..]
  }

  lemma JoinedTiles(bs: seq<Block>, start: nat, end: nat, i: nat)
    requires Tiles(bs, start, end) && i + 1 < |bs|
    ensures Tiles(Joined(bs, i), start, end)
  {
    var r := Joined(bs, i);
    assert bs[i].End() == bs[i + 1].addr;
    forall j | 0 <= j < |r| - 1 ensures r[j].End() == r[j + 1].addr {
      var m := if j < i then j else j + 1;
      assert bs[m].End() == bs[m + 1].addr;
    }
  }

  lemma JoinedLayout(hs: map<nat, Header>, bs: seq<Block>, start: nat, end: nat, i: nat)
    requires Tiles(bs, start, end) && Layout(hs, bs) && i + 1 < |bs|
    ensures bs[i].addr in hs && bs[i + 1].addr in hs
    ensures var h, next := hs[bs[i].addr], hs[bs[i + 1].addr];
      Layout(hs[bs[i].addr := Header(h.size + HEADER + next.size, h.free, next.next)], Joined(bs, i))
  {
    assert Stored(hs, bs, i) && Stored(hs, bs, i + 1);
    var h, next, r := hs[bs[i].addr], hs[bs[i + 1].addr], Joined(bs, i);
    var hs' := hs[bs[i].addr := Header(h.size + HEADER + next.size, h.free, next.next)];
    AddressesDiffer(bs, start, end, i);
    forall j | 0 <= j < |r| ensures Stored(hs', r, j) {
      if j < i {
        assert Stored(hs, bs, j);
      } else if j > i {
        assert Stored(hs, bs, j + 1);
      }
    }
  }

  lemma JoinedCoalesce(bs: seq<Block>, i: nat)
    requires i + 1 < |bs| && bs[i].free && bs[i + 1].free
    ensures Coalesce(Joined(bs, i)[i..]) == Coalesce(bs[i..])
  {
    assert bs[i..][2..] == bs[i + 2..];
    assert Joined(bs, i)[i..] == [Merged(bs[i], bs[i + 1])] + bs[i + 2..];
  }

  lemma PassedCoalesce(bs: seq<Block>, i: nat)
    requires i < |bs| && !(i + 1 < |bs| && bs[i].free && bs[i + 1].free)
    ensures bs[..i] + Coalesce(bs[i..]) == bs[..i + 1] + Coalesce(bs[i + 1..])
  {
    assert bs[i..][1..] == bs[i + 1..];
    assert bs[..i + 1] == bs[..i] + [bs[i]];
  }

  // ---- Extension ----

  lemma ExtendedLayout(hs: map<nat, Header>, bs: seq<Block>, start: nat, end: nat, n: nat)
    requires 0 < start && Tiles(bs, start, end) && Layout(hs, bs) && n > HEADER
    ensures var last := bs[|bs| - 1];
      Layout(if last.free then hs[last.addr := Header(last.size + n, true, 0)]
             else hs[last.End() := Header(n - HEADER, true, 0)][last.addr := Header(last.size, false, last.End())],
             Extended(bs, n))
  {
    var l := |bs| - 1;
    var last, r := bs[l], Extended(bs, n);
    var hs' := if last.free then hs[last.addr := Header(last.size + n, true, 0)]
               else hs[last.End() := Header(n - HEADER, true, 0)][last.addr := Header(last.size, false, last.End())];
    forall j | 0 <= j < |r| ensures Stored(hs', r, j) {
      if j < l {
        assert Stored(hs, bs, j);
        TilesOrdered(bs, start, end, j, l);
        assert r[j] == bs[j];
      }
    }
  }

  // ---- The allocator object ----

  class Allocator {
    ghost var blocks: seq<Block> // the list in address order

    var head: nat
    var regionStart: nat
    var regionEnd: nat
    var headers: map<nat, Header> // memory at block addresses

    ghost predicate Linked()
      reads this
    {
      0 < regionStart && Tiles(blocks, regionStart, regionEnd) && Layout(headers, blocks) && head == blocks[0].addr
    }

    ghost predicate Valid()
      reads this
    {
      Linked() && NoFreeNeighbours(blocks)
    }

    constructor (base: nat, size: nat)
      requires 0 < base && HEADER < size
      ensures Valid() && regionStart == base && regionEnd == base + size
      ensures blocks == [Block(base, size - HEADER, true)]
    {
      head, regionStart, regionEnd := base, base, base + size;
      headers := map[base := Header(size - HEADER, true, 0)];
      blocks := [Block(base, size - HEADER, true)];
    }

    lemma AddrIsNull(i: nat)
      requires Linked() && i <= |blocks|
      ensures AddrAt(blocks, i) == 0 <==> i == |blocks|
    {
      if i < |blocks| { AddressesDiffer(blocks, regionStart, regionEnd, i); }
    }

    // First fit; the result is the payload address, or 0. The size is rounded up to a
    // multiple of four on 32-bit values.
    method Allocate(size: nat) returns (ptr: nat)
      requires Valid() && size < U32
      modifies this`blocks, this`headers
      ensures Valid()
      ensures var i := FirstFit(old(blocks), AlignUp(size), 0);
        if size == 0 || i == |old(blocks)| then ptr == 0 && blocks == old(blocks) && headers == old(headers)
        else ptr == old(blocks)[i].Payload() && blocks == Taken(old(blocks), i, AlignUp(size))
    {
      if size == 0 { return 0; }
      var n := AlignUp(size);
      var current := head;
      ghost var i := 0;
      while current != 0
        invariant Valid() && blocks == old(blocks) && headers == old(headers)
        invariant 0 <= i <= |blocks| && current == AddrAt(blocks, i)
        invariant FirstFit(blocks, n, 0) == FirstFit(blocks, n, i)
        decreases |blocks| - i
      {
        AddrIsNull(i);
        assert Stored(headers, blocks, i);
        var h := headers[current];
        if h.free && h.size >= n {
          TakeBlock(i, current, n);
          return current + HEADER;
        }
        current := h.next;
        i := i + 1;
      }
      AddrIsNull(i);
      return 0;
    }

    // Splits the block if the remainder is worth a header, and marks it used.
    method TakeBlock(ghost i: nat, current: nat, n: nat)
      requires Valid() && i < |blocks| && current == blocks[i].addr && blocks[i].free && n <= blocks[i].size
      modifies this`blocks, this`headers
      ensures Valid() && blocks == Taken(old(blocks), i, n)
    {
      assert Stored(headers, blocks, i);
      TakenSound(blocks, regionStart, regionEnd, i, n);
      TakenLayout(headers, blocks, regionStart, regionEnd, i, n);
      TakenAt(blocks, i, n);
      var h := headers[current];
      var remainder := h.size - n;
      if remainder >= MIN_BLOCK_SIZE {
        var newBlock := current + HEADER + n;
        headers := headers[newBlock := Header(remainder - HEADER, true, h.next)];
        headers := headers[current := Header(n, false, newBlock)];
      } else {
        headers := headers[current := h.(free := false)];
      }
      blocks := Taken(blocks, i, n);
    }

    // Null, foreign and already free pointers are ignored; otherwise the block is freed and
    // free neighbours are joined. A pointer into the region must be a payload address.
    method Free(ptr: nat)
      requires Valid()
      requires regionStart + HEADER <= ptr < regionEnd ==> Find(blocks, ptr, 0) < |blocks|
      modifies this`blocks, this`headers
      ensures Valid()
      ensures var i := Find(old(blocks), ptr, 0);
        blocks == if regionStart + HEADER <= ptr < regionEnd && !old(blocks)[i].free then Released(old(blocks), i)
          else old(blocks)
    {
      if ptr == 0 { return; }
      if ptr < regionStart + HEADER || ptr >= regionEnd { return; }
      ghost var i := Find(blocks, ptr, 0);
      var block := ptr - HEADER;
      assert Stored(headers, blocks, i);
      if headers[block].free { return; }
      AddressesDiffer(blocks, regionStart, regionEnd, i);
      headers := headers[block := headers[block].(free := true)];
      ghost var bs := blocks;
      blocks := blocks[i := blocks[i].(free := true)];
      forall j | 0 <= j < |blocks| ensures Stored(headers, blocks, j) { assert Stored(old(headers), bs, j); }
      CoalesceSound(blocks, regionStart, regionEnd);
      CoalesceAll();
    }

    // The coalescing loop of free.
    method CoalesceAll()
      requires Linked()
      modifies this`blocks, this`headers
      ensures Linked() && blocks == Coalesce(old(blocks))
    {
      var current := head;
      ghost var i := 0;
      assert blocks[0..] == blocks && blocks[..0] == [];
      while current != 0
        invariant Linked() && 0 <= i <= |blocks| && current == AddrAt(blocks, i)
        invariant blocks[..i] + Coalesce(blocks[i..]) == Coalesce(old(blocks))
        decreases |blocks|, |blocks| - i
      {
        AddrIsNull(i);
        AddrIsNull(i + 1);
        assert Stored(headers, blocks, i);
        var h := headers[current];
        if i + 1 < |blocks| { assert Stored(headers, blocks, i + 1); }
        if h.free && h.next != 0 && headers[h.next].free {
          Join(i, current);
        } else {
          PassedCoalesce(blocks, i);
          current := h.next;
          i := i + 1;
        }
      }
      AddrIsNull(i);
      assert blocks[..i] == blocks && blocks[i..] == [];
    }

    method Join(ghost i: nat, current: nat)
      requires Linked() && i + 1 < |blocks| && current == blocks[i].addr && blocks[i].free && blocks[i + 1].free
      modifies this`blocks, this`headers
      ensures Linked() && blocks == Joined(old(blocks), i)
      ensures blocks[..i] + Coalesce(blocks[i..]) == old(blocks[..i] + Coalesce(blocks[i..]))
    {
      assert Stored(headers, blocks, i) && Stored(headers, blocks, i + 1);
      JoinedTiles(blocks, regionStart, regionEnd, i);
      JoinedLayout(headers, blocks, regionStart, regionEnd, i);
      JoinedCoalesce(blocks, i);
      var h := headers[current];
      var next := headers[h.next];
      headers := headers[current := Header(h.size + HEADER + next.size, h.free, next.next)];
      blocks := Joined(blocks, i);
      assert blocks[..i] == old(blocks[..i]);
    }

    // The caller has made the memory behind the region available.
    method Extend(additionalSize: nat)
      requires Valid()
      modifies this
      ensures Valid() && regionStart == old(regionStart)
      ensures if additionalSize <= HEADER then blocks == old(blocks) && regionEnd == old(regionEnd)
        else blocks == Extended(old(blocks), additionalSize) && regionEnd == old(regionEnd) + additionalSize
    {
      if additionalSize <= HEADER { return; }
      var last := head;
      ghost var i := 0;
      AddrIsNull(0);
      AddrIsNull(1);
      assert Stored(headers, blocks, 0);
      while headers[last].next != 0
        invariant Valid() && blocks == old(blocks) && headers == old(headers) && regionEnd == old(regionEnd)
          && regionStart == old(regionStart)
        invariant 0 <= i < |blocks| && last == blocks[i].addr && Stored(headers, blocks, i)
        decreases |blocks| - i
      {
        AddrIsNull(i + 1);
        last := headers[last].next;
        i := i + 1;
        assert Stored(headers, blocks, i);
      }
      AddrIsNull(i + 1);
      ExtendedSound(blocks, regionStart, regionEnd, additionalSize);
      ExtendedLayout(headers, blocks, regionStart, regionEnd, additionalSize);
      var h := headers[last];
      if h.free {
        headers := headers[last := h.(size := h.size + additionalSize)];
      } else {
        var newBlock := last + HEADER + h.size;
        headers := headers[newBlock := Header(additionalSize - HEADER, true, 0)];
        headers := headers[last := h.(next := newBlock)];
      }
      blocks := Extended(blocks, additionalSize);
      regionEnd := regionEnd + additionalSize;
    }
  }
}
