// The user-space heap: an allocator created on first use over memory from sbrk, grown and
// retried when it is full; and the kernel's sbrk, which moves a page-aligned break.
module UserHeap {
  import opened Bytes
  import opened Pages
  import opened HeapBlocks
  import opened HeapAllocator

  const INITIAL_HEAP_SIZE: nat := 4096
  const USER_STACK_BOTTOM: nat := 0xBFFF_F000

  datatype Brk = Brk(heapBreak: nat, result: nat)

  // sbrk: frames tells whether a frame was found for every page; which frames that takes, and what
  // is mapped then, is said in Break. (A page table that cannot be had does not make the call fail.)
  function Sbrk(oldBreak: nat, increment: nat, frames: bool): (r: Brk)
    requires oldBreak < U32 && increment < U32
    ensures r.heapBreak < U32 && (r.heapBreak == oldBreak || r.result == oldBreak)
  {
    var newBreak := PageUp((oldBreak + increment) % U32);
    if oldBreak == 0 then Brk(oldBreak, 0)
    else if increment == 0 then Brk(oldBreak, oldBreak)
    else if oldBreak + increment >= U32 then Brk(oldBreak, 0)
    else if newBreak < oldBreak then Brk(oldBreak, 0)
    else if newBreak > USER_STACK_BOTTOM then Brk(oldBreak, 0)
    else if !frames then Brk(oldBreak, 0)
    else Brk(newBreak, oldBreak)
  }

  // From a page-aligned break, a successful call adds the increment rounded up to pages, below
  // the stack; a call that fails leaves the break alone.
  lemma SbrkMoves(oldBreak: nat, increment: nat, frames: bool)
    requires 0 < oldBreak <= USER_STACK_BOTTOM && oldBreak % PAGE == 0 && 0 < increment < U32
    ensures var r := Sbrk(oldBreak, increment, frames);
      if r.result == 0 then r.heapBreak == oldBreak
      else r.result == oldBreak && r.heapBreak % PAGE == 0 && r.heapBreak <= USER_STACK_BOTTOM
           && oldBreak + increment <= r.heapBreak < oldBreak + increment + PAGE
    ensures frames && oldBreak + increment <= USER_STACK_BOTTOM <==> Sbrk(oldBreak, increment, frames).result != 0
    ensures increment % PAGE == 0 && Sbrk(oldBreak, increment, frames).result != 0
      ==> Sbrk(oldBreak, increment, frames).heapBreak == oldBreak + increment
  {
    if oldBreak + increment < U32 { PageUpExact(oldBreak + increment); }
  }

  // A used block at ptr that is as large as the request.
  ghost predicate Provides(bs: seq<Block>, ptr: nat, size: nat) {
    exists i :: 0 <= i < |bs| && !bs[i].free && bs[i].Payload() == ptr && size <= bs[i].size
  }

  // The last block of an extended list is free and at least as large as the extension.
  lemma ExtendedFits(bs: seq<Block>, n: nat, size: nat)
    requires bs != [] && n > HEADER && size <= n - HEADER
    ensures FirstFit(Extended(bs, n), size, 0) < |Extended(bs, n)|
  {
    var r := Extended(bs, n);
    assert r[|r| - 1].free && r[|r| - 1].size >= size;
  }

  // heap::alloc's 32-bit sum, rounded to pages.
  function Growth(size: nat): (r: nat)
    requires size < U32
    ensures r < U32 && r % PAGE == 0
  {
    PageUp((size + HEADER + PAGE) % U32)
  }

  // Sizes for which that sum wraps but the aligned size does not.
  predicate Overflows(size: nat) { U32 - 2 * PAGE - HEADER < size <= U32 - 4 }

  lemma GrowthSuffices(size: nat)
    requires 0 < size < U32
    ensures !Overflows(size) ==> AlignUp(size) + HEADER <= Growth(size) && HEADER < Growth(size)
    ensures Overflows(size) ==> AlignUp(size) >= U32 - 2 * PAGE - HEADER > USER_STACK_BOTTOM
  {
    AlignUpExact(size);
    if size + HEADER + PAGE < U32 {
      PageUpExact(size + HEADER + PAGE);
    } else {
      PageUpExact(size + HEADER + PAGE - U32);
    }
  }

  // ---- heap::alloc on values ----

  // The break and the blocks of the allocator; no blocks before the first request.
  datatype State = State(heapBreak: nat, blocks: seq<Block>)

  datatype Answer = Answer(state: State, ptr: nat)

  // The region managed ends at the break, which is page-aligned.
  ghost predicate Good(s: State) {
    && 0 < s.heapBreak <= USER_STACK_BOTTOM && s.heapBreak % PAGE == 0
    && (s.blocks != [] ==> 0 < s.blocks[0].addr && Sound(s.blocks, s.blocks[0].addr, s.heapBreak))
  }

  // With an allocator, made on the first request if sbrk gives the memory.
  function Started(s: State, frames: bool): (t: State)
    requires s.heapBreak < U32
    ensures t.heapBreak < U32
  {
    var r := Sbrk(s.heapBreak, INITIAL_HEAP_SIZE, frames);
    if s.blocks != [] || r.result == 0 then s
    else State(r.heapBreak, [Block(r.result, INITIAL_HEAP_SIZE - HEADER, true)])
  }

  predicate Fits(bs: seq<Block>, size: nat)
    requires size < U32
  {
    FirstFit(bs, AlignUp(size), 0) < |bs|
  }

  // The first block that fits, handed out.
  function Taking(s: State, size: nat): Answer
    requires size < U32
  {
    if size == 0 || !Fits(s.blocks, size) then Answer(s, 0)
    else
      var i := FirstFit(s.blocks, AlignUp(size), 0);
      Answer(State(s.heapBreak, Taken(s.blocks, i, AlignUp(size))), s.blocks[i].Payload())
  }

  function Grown(s: State, size: nat, frames: bool): State
    requires s.heapBreak < U32 && size < U32 && s.blocks != []
  {
    var r := Sbrk(s.heapBreak, Growth(size), frames);
    if r.result == 0 || Growth(size) <= HEADER then State(r.heapBreak, s.blocks)
    else State(r.heapBreak, Extended(s.blocks, Growth(size)))
  }

  function Allocation(s: State, size: nat, initFrames: bool, growFrames: bool): Answer
    requires s.heapBreak < U32 && size < U32
  {
    var t := Started(s, initFrames);
    if t.blocks == [] then Answer(t, 0)
    else
      var a := Taking(t, size);
      if a.ptr != 0 || Sbrk(t.heapBreak, Growth(size), growFrames).result == 0 then a
      else Taking(Grown(t, size, growFrames), size)
  }

  lemma StartedGood(s: State, frames: bool)
    requires Good(s)
    ensures Good(Started(s, frames)) && Used(Started(s, frames).blocks) == Used(s.blocks)
    ensures Started(s, frames).blocks == []
      <==> s.blocks == [] && Sbrk(s.heapBreak, INITIAL_HEAP_SIZE, frames).result == 0
  {
    SbrkMoves(s.heapBreak, INITIAL_HEAP_SIZE, frames);
  }

  // The block handed out is new among the used ones; it is as large as the request exactly when
  // rounding the request up to a multiple of four does not wrap.
  lemma TakingServes(s: State, size: nat)
    requires Good(s) && s.blocks != [] && size < U32
    ensures Good(Taking(s, size).state) && (Taking(s, size).ptr == 0 <==> size == 0 || !Fits(s.blocks, size))
    ensures Taking(s, size).ptr == 0 ==> Taking(s, size).state == s
    ensures Taking(s, size).ptr != 0 ==> NewlyUsed(s.blocks, Taking(s, size).state.blocks, Taking(s, size).ptr, size)
  {
    if size != 0 && Fits(s.blocks, size) {
      var start, n := s.blocks[0].addr, AlignUp(size);
      var i := FirstFit(s.blocks, n, 0);
      TilesInside(s.blocks, start, s.heapBreak, i);
      TakenSound(s.blocks, start, s.heapBreak, i, n);
      GivenServes(s.blocks, start, s.heapBreak, i, size);
    }
  }

  // One block more is used: at ptr, and large enough unless the size wraps.
  ghost predicate NewlyUsed(bs: seq<Block>, rs: seq<Block>, ptr: nat, size: nat) {
    (Provides(rs, ptr, size) <==> size <= U32 - 4) && exists b: Block :: IsNew(bs, rs, ptr, b)
  }

  ghost predicate IsNew(bs: seq<Block>, rs: seq<Block>, ptr: nat, b: Block) {
    Used(rs) == Used(bs) + {b} && b !in Used(bs) && b.Payload() == ptr
  }

  // Blocks have their own addresses.
  lemma GivenIsNew(bs: seq<Block>, start: nat, end: nat, i: nat, n: nat)
    requires Sound(bs, start, end) && i < |bs| && bs[i].free && n <= bs[i].size
    ensures IsNew(bs, Taken(bs, i, n), bs[i].Payload(), Given(bs[i], n))
  {
    TakenUsed(bs, i, n);
    forall j | 0 <= j < |bs| ensures bs[j] != Given(bs[i], n) {
      if j != i { AddressesDiffer(bs, start, end, i); }
    }
  }

  lemma GivenServes(bs: seq<Block>, start: nat, end: nat, i: nat, size: nat)
    requires Sound(bs, start, end) && end <= USER_STACK_BOTTOM
    requires size < U32 && i < |bs| && bs[i].free && AlignUp(size) <= bs[i].size
    ensures NewlyUsed(bs, Taken(bs, i, AlignUp(size)), bs[i].Payload(), size)
  {
    var n := AlignUp(size);
    var r, b := Taken(bs, i, n), Given(bs[i], n);
    GivenIsNew(bs, start, end, i, n);
    TakenAt(bs, i, n);
    TakenSound(bs, start, end, i, n);
    AlignUpExact(size);
    TilesInside(r, start, end, i);
    assert r[i] == b;
    if j :| 0 <= j < |r| && !r[j].free && r[j].Payload() == bs[i].Payload() && size <= r[j].size {
      if j != i { AddressesDiffer(r, start, end, i); }
    }
  }

  lemma SameUsed(bs: seq<Block>, cs: seq<Block>, a: Answer, size: nat)
    requires Used(bs) == Used(cs)
    ensures NewlyUsed(bs, a.state.blocks, a.ptr, size) == NewlyUsed(cs, a.state.blocks, a.ptr, size)
  {
    forall b: Block ensures IsNew(bs, a.state.blocks, a.ptr, b) == IsNew(cs, a.state.blocks, a.ptr, b) {}
  }

  lemma GrownGood(s: State, size: nat, frames: bool)
    requires Good(s) && s.blocks != [] && size < U32
    ensures Good(Grown(s, size, frames)) && Used(Grown(s, size, frames).blocks) == Used(s.blocks)
    ensures Grown(s, size, frames).blocks != []
    ensures 0 < size && Sbrk(s.heapBreak, Growth(size), frames).result != 0 && !Overflows(size)
      ==> Fits(Grown(s, size, frames).blocks, size)
  {
    var n := Growth(size);
    if size > 0 { GrowthSuffices(size); }
    if n > 0 {
      SbrkMoves(s.heapBreak, n, frames);
      if n > HEADER {
        ExtendedSound(s.blocks, s.blocks[0].addr, s.heapBreak, n);
        if 0 < size && !Overflows(size) { ExtendedFits(s.blocks, n, AlignUp(size)); }
      }
    }
  }

  // Too large for the whole region.
  lemma OverflowNeverFits(s: State, size: nat)
    requires Good(s) && s.blocks != [] && size < U32 && Overflows(size)
    ensures !Fits(s.blocks, size)
  {
    GrowthSuffices(size);
    var i := FirstFit(s.blocks, AlignUp(size), 0);
    if i < |s.blocks| { TilesInside(s.blocks, s.blocks[0].addr, s.heapBreak, i); }
  }

  // Some call to sbrk that the request needs does not succeed.
  predicate Starved(s: State, size: nat, initFrames: bool, growFrames: bool)
    requires s.heapBreak < U32 && size < U32
  {
    var t := Started(s, initFrames);
    || (s.blocks == [] && Sbrk(s.heapBreak, INITIAL_HEAP_SIZE, initFrames).result == 0)
    || (!Fits(t.blocks, size) && Sbrk(t.heapBreak, Growth(size), growFrames).result == 0)
  }

  // A request is refused exactly when it is for nothing, in the range where the sum of size,
  // header and slack wraps, or a needed sbrk fails; then no used block changes. Otherwise one
  // block more is used and none of the others touched.
  lemma AllocationExact(s: State, size: nat, initFrames: bool, growFrames: bool)
    requires Good(s) && size < U32
    ensures var a := Allocation(s, size, initFrames, growFrames);
      && Good(a.state)
      && (a.ptr == 0 <==> size == 0 || Overflows(size) || Starved(s, size, initFrames, growFrames))
      && (a.ptr == 0 ==> Used(a.state.blocks) == Used(s.blocks))
      && (a.ptr != 0 ==> NewlyUsed(s.blocks, a.state.blocks, a.ptr, size))
  {
    var t := Started(s, initFrames);
    StartedGood(s, initFrames);
    if t.blocks != [] {
      var g := Grown(t, size, growFrames);
      TakingServes(t, size);
      GrownGood(t, size, growFrames);
      TakingServes(g, size);
      SameUsed(t.blocks, s.blocks, Taking(t, size), size);
      SameUsed(g.blocks, s.blocks, Taking(g, size), size);
      if Overflows(size) {
        OverflowNeverFits(t, size);
        OverflowNeverFits(Grown(t, size, growFrames), size);
      }
    }
  }

  // The three largest sizes round up to 0: the block served holds fewer bytes than asked for.
  lemma LargestIsServedNothing(s: State)
    requires Good(s) && s.blocks != [] && Fits(s.blocks, U32 - 1)
    ensures var a := Taking(s, U32 - 1); a.ptr != 0 && !Provides(a.state.blocks, a.ptr, U32 - 1)
  {
    TakingServes(s, U32 - 1);
  }

  class Heap {
    var allocator: Allocator?
    var heapBreak: nat // the kernel's record for this process

    ghost predicate Valid()
      reads this, allocator
    {
      && Good(AsState())
      && (allocator != null ==> allocator.Valid() && allocator.regionEnd == heapBreak)
    }

    ghost function AsState(): State
      reads this, allocator
    {
      State(heapBreak, if allocator == null then [] else allocator.blocks)
    }

    constructor (start: nat)
      requires 0 < start <= USER_STACK_BOTTOM && start % PAGE == 0
      ensures Valid() && AsState() == State(start, [])
    {
      allocator, heapBreak := null, start;
    }

    method CallSbrk(increment: nat, frames: bool) returns (result: nat)
      requires heapBreak < U32 && increment < U32
      modifies this`heapBreak
      ensures heapBreak == Sbrk(old(heapBreak), increment, frames).heapBreak
      ensures result == Sbrk(old(heapBreak), increment, frames).result
    {
      var r := Sbrk(heapBreak, increment, frames);
      heapBreak := r.heapBreak;
      result := r.result;
    }

    method Start(frames: bool)
      requires Valid()
      modifies this
      ensures Valid() && AsState() == Started(old(AsState()), frames)
      ensures old(allocator) != null ==> allocator == old(allocator)
      ensures old(allocator) == null && allocator != null ==> fresh(allocator)
    {
      if allocator == null {
        StartedGood(AsState(), frames);
        SbrkMoves(heapBreak, INITIAL_HEAP_SIZE, frames);
        var base := CallSbrk(INITIAL_HEAP_SIZE, frames);
        if base != 0 { allocator := new Allocator(base, INITIAL_HEAP_SIZE); }
      }
    }

    method Take(size: nat) returns (ptr: nat)
      requires Valid() && allocator != null && size < U32
      modifies allocator
      ensures Valid() && Answer(AsState(), ptr) == Taking(old(AsState()), size)
    {
      TakingServes(AsState(), size);
      ptr := allocator.Allocate(size);
    }

    method Grow(size: nat, frames: bool) returns (newMem: nat)
      requires Valid() && allocator != null && size < U32
      modifies this`heapBreak, allocator
      ensures Valid() && AsState() == Grown(old(AsState()), size, frames)
      ensures newMem == Sbrk(old(heapBreak), Growth(size), frames).result
      ensures newMem == 0 ==> AsState() == old(AsState())
    {
      var needed := Growth(size);
      GrownGood(AsState(), size, frames);
      if needed > 0 { SbrkMoves(heapBreak, needed, frames); }
      newMem := CallSbrk(needed, frames);
      if newMem != 0 { allocator.Extend(needed); }
    }

    method Alloc(size: nat, initFrames: bool, growFrames: bool) returns (ptr: nat)
      requires Valid() && size < U32
      modifies this, allocator
      ensures Valid() && (allocator != null && allocator != old(allocator) ==> fresh(allocator))
      ensures Answer(AsState(), ptr) == Allocation(old(AsState()), size, initFrames, growFrames)
      ensures ptr == 0 <==> size == 0 || Overflows(size) || Starved(old(AsState()), size, initFrames, growFrames)
    {
      AllocationExact(AsState(), size, initFrames, growFrames);
      Start(initFrames);
      if allocator == null { return 0; }
      ptr := Take(size);
      if ptr != 0 { return; }
      var newMem := Grow(size, growFrames);
      if newMem == 0 { return 0; }
      ptr := Take(size);
    }

    method Free(ptr: nat)
      requires Valid()
      requires allocator != null && allocator.regionStart + HEADER <= ptr < allocator.regionEnd
        ==> Find(allocator.blocks, ptr, 0) < |allocator.blocks|
      modifies allocator
      ensures Valid()
      ensures allocator != null ==> var bs, i := old(allocator.blocks), Find(old(allocator.blocks), ptr, 0);
        allocator.blocks == if old(allocator.regionStart + HEADER <= ptr < allocator.regionEnd) && !bs[i].free
          then Released(bs, i) else bs
    {
      if allocator != null { allocator.Free(ptr); }
    }
  }
}
