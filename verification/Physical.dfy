// The physical frame allocator: one bit per 4 KiB frame, standing for the set of used frames.
module Physical {
  import opened Bytes
  import opened Finite

  const FRAME_SIZE: nat := 4096
  const BITMAP_SIZE: nat := 131072
  const FRAMES: nat := 8 * BITMAP_SIZE

  // 1 << k
  function Mask(k: nat): bv8
    requires k < 8
  {
    if k == 0 then 1 else if k == 1 then 2 else if k == 2 then 4 else if k == 3 then 8
    else if k == 4 then 16 else if k == 5 then 32 else if k == 6 then 64 else 128
  }

  predicate BitSet(b: bv8, k: nat)
    requires k < 8
  {
    b & Mask(k) != 0
  }

  lemma BitAfterSet(b: bv8, k: nat, j: nat)
    requires k < 8 && j < 8
    ensures BitSet(b | Mask(k), j) <==> j == k || BitSet(b, j)
  {
  }

  lemma BitAfterClear(b: bv8, k: nat, j: nat)
    requires k < 8 && j < 8
    ensures BitSet(b & !Mask(k), j) <==> j != k && BitSet(b, j)
  {
  }

  lemma AllBitsSet(b: bv8)
    ensures b == 0xFF <==> forall k :: 0 <= k < 8 ==> BitSet(b, k)
  {
    var low := BitSet(b, 0) && BitSet(b, 1) && BitSet(b, 2) && BitSet(b, 3);
    var high := BitSet(b, 4) && BitSet(b, 5) && BitSet(b, 6) && BitSet(b, 7);
    assert low && high ==> b == 0xFF;
  }

  predicate FrameUsed(bits: seq<bv8>, f: nat)
    requires |bits| == BITMAP_SIZE && f < FRAMES
  {
    BitSet(bits[f / 8], f % 8)
  }

  lemma FrameIndex(i: nat, k: nat, f: nat)
    requires k < 8
    ensures f == 8 * i + k <==> f / 8 == i && f % 8 == k
  {
  }

  lemma FrameAfterSet(bits: seq<bv8>, i: nat, k: nat, f: nat)
    requires |bits| == BITMAP_SIZE && i < BITMAP_SIZE && k < 8 && f < FRAMES
    ensures FrameUsed(bits[i := bits[i] | Mask(k)], f) <==> f == 8 * i + k || FrameUsed(bits, f)
  {
    FrameIndex(i, k, f);
    if f / 8 == i { BitAfterSet(bits[i], k, f % 8); }
  }

  lemma FrameAfterClear(bits: seq<bv8>, i: nat, k: nat, f: nat)
    requires |bits| == BITMAP_SIZE && i < BITMAP_SIZE && k < 8 && f < FRAMES
    ensures FrameUsed(bits[i := bits[i] & !Mask(k)], f) <==> f != 8 * i + k && FrameUsed(bits, f)
  {
    FrameIndex(i, k, f);
    if f / 8 == i { BitAfterClear(bits[i], k, f % 8); }
  }

  class FrameBitmap {
    const bitmap: array<bv8>

    ghost predicate Valid() { bitmap.Length == BITMAP_SIZE }

    // The frames marked used.
    ghost function Used(): set<nat>
      requires Valid()
      reads bitmap
    {
      set f: nat | f < FRAMES && FrameUsed(bitmap[..], f)
    }

    // All frames start out used; free regions are announced later.
    constructor ()
      ensures Valid() && Used() == Below(FRAMES) && fresh(bitmap)
    {
      bitmap := new bv8[BITMAP_SIZE](_ => 0xFF);
      new;
      forall f: nat | f < FRAMES ensures FrameUsed(bitmap[..], f) { AllBitsSet(bitmap[f / 8]); }
    }

    method SetBit(i: nat, k: nat)
      requires Valid() && i < BITMAP_SIZE && k < 8
      modifies bitmap
      ensures Used() == old(Used()) + {8 * i + k}
    {
      ghost var was := bitmap[..];
      bitmap[i] := bitmap[i] | Mask(k);
      assert bitmap[..] == was[i := was[i] | Mask(k)];
      forall f: nat | f < FRAMES ensures FrameUsed(bitmap[..], f) <==> f == 8 * i + k || FrameUsed(was, f) {
        FrameAfterSet(was, i, k, f);
      }
    }

    method ClearBit(i: nat, k: nat)
      requires Valid() && i < BITMAP_SIZE && k < 8
      modifies bitmap
      ensures Used() == old(Used()) - {8 * i + k}
    {
      ghost var was := bitmap[..];
      bitmap[i] := bitmap[i] & !Mask(k);
      assert bitmap[..] == was[i := was[i] & !Mask(k)];
      forall f: nat | f < FRAMES ensures FrameUsed(bitmap[..], f) <==> f != 8 * i + k && FrameUsed(was, f) {
        FrameAfterClear(was, i, k, f);
      }
    }

    // The lowest free frame is taken; 0 when there is none. Frame 0 is kept used, so 0 is no
    // frame's address.
    method AllocFrame() returns (address: nat)
      requires Valid() && 0 in Used()
      modifies bitmap
      ensures address == 0 <==> old(Used()) == Below(FRAMES)
      ensures address == 0 ==> Used() == old(Used())
      ensures address != 0 ==> var f := address / FRAME_SIZE;
        && address == f * FRAME_SIZE && f < FRAMES && f !in old(Used())
        && (forall g: nat :: g < f ==> g in old(Used()))
        && Used() == old(Used()) + {f}
    {
      var i := 0;
      while i < BITMAP_SIZE
        invariant 0 <= i <= BITMAP_SIZE && bitmap[..] == old(bitmap[..])
        invariant forall g: nat :: g < 8 * i ==> g in Used()
      {
        AllBitsSet(bitmap[i]);
        if bitmap[i] != 0xFF {
          var bit := FreeBit(i);
          SetBit(i, bit);
          assert (8 * i + bit) * FRAME_SIZE / FRAME_SIZE == 8 * i + bit;
          return (i * 8 + bit) * FRAME_SIZE;
        }
        forall g: nat | g < 8 * (i + 1) ensures g in Used() {
          if g >= 8 * i { assert BitSet(bitmap[i], g - 8 * i) && g / 8 == i && g % 8 == g - 8 * i; }
        }
        i := i + 1;
      }
      assert Used() == Below(FRAMES);
      return 0;
    }

    // The lowest clear bit of byte i.
    method FreeBit(i: nat) returns (bit: nat)
      requires Valid() && i < BITMAP_SIZE && exists k :: 0 <= k < 8 && !BitSet(bitmap[i], k)
      ensures bit < 8 && !BitSet(bitmap[i], bit) && 8 * i + bit !in Used()
      ensures forall g: nat :: 8 * i <= g < 8 * i + bit ==> g in Used()
    {
      bit := 0;
      while BitSet(bitmap[i], bit)
        invariant bit < 8 && forall k :: 0 <= k < bit ==> BitSet(bitmap[i], k)
        invariant exists k :: bit <= k < 8 && !BitSet(bitmap[i], k)
        decreases 8 - bit
      {
        bit := bit + 1;
      }
      assert (8 * i + bit) / 8 == i && (8 * i + bit) % 8 == bit;
      forall g: nat | 8 * i <= g < 8 * i + bit ensures g in Used() {
        assert g / 8 == i && g % 8 == g - 8 * i && BitSet(bitmap[i], g - 8 * i);
      }
    }

    method FreeFrame(address: nat)
      requires Valid()
      modifies bitmap
      ensures Used() == old(Used()) - {address / FRAME_SIZE}
    {
      var frame := address / FRAME_SIZE;
      if frame / 8 < BITMAP_SIZE {
        ClearBit(frame / 8, frame % 8);
      }
    }

    method IsFrameUsed(address: nat) returns (used: bool)
      requires Valid()
      ensures used <==> address / FRAME_SIZE >= FRAMES || address / FRAME_SIZE in Used()
    {
      var frame := address / FRAME_SIZE;
      if frame / 8 >= BITMAP_SIZE { return true; }
      used := BitSet(bitmap[frame / 8], frame % 8);
    }

    // One frame of a run of frames that starts at lo.
    method MarkNextUsed(frame: nat, ghost was: set<nat>, ghost lo: nat)
      requires Valid() && lo <= frame < FRAMES && Used() == was + Between(lo, frame)
      modifies bitmap
      ensures Used() == was + Between(lo, frame + 1)
    {
      OneMore(was, lo, frame);
      SetBit(frame / 8, frame % 8);
    }

    method MarkNextFree(frame: nat, ghost was: set<nat>, ghost lo: nat)
      requires Valid() && lo <= frame < FRAMES && Used() == was - Between(lo, frame)
      modifies bitmap
      ensures Used() == was - Between(lo, frame + 1)
    {
      OneMore(was, lo, frame);
      ClearBit(frame / 8, frame % 8);
    }

    // 32-bit sums: a region reaching into the last page below 4 GiB makes the end wrap to the
    // first frame, and then nothing is marked.
    method MarkRegionUsed(base: nat, length: nat)
      requires Valid() && base < U32 && length < U32
      modifies bitmap
      ensures Used() == old(Used()) + Between(base / FRAME_SIZE, RegionEnd(base, length))
    {
      var startFrame, endFrame := base / FRAME_SIZE, RegionEnd(base, length);
      ghost var was := Used();
      var frame := startFrame;
      while frame < endFrame
        invariant startFrame <= frame && (frame <= endFrame || frame == startFrame)
        invariant Used() == was + Between(startFrame, frame)
      {
        MarkNextUsed(frame, was, startFrame);
        frame := frame + 1;
      }
      NoneLeft(startFrame, frame, endFrame);
    }

    method MarkRegionFree(base: nat, length: nat)
      requires Valid() && base < U32 && length < U32
      modifies bitmap
      ensures Used() == old(Used()) - Between(RegionStart(base), (base + length) % U32 / FRAME_SIZE)
    {
      var startFrame, endFrame := RegionStart(base), (base + length) % U32 / FRAME_SIZE;
      ghost var was := Used();
      var frame := startFrame;
      while frame < endFrame
        invariant startFrame <= frame && (frame <= endFrame || frame == startFrame)
        invariant Used() == was - Between(startFrame, frame)
      {
        MarkNextFree(frame, was, startFrame);
        frame := frame + 1;
      }
      NoneLeft(startFrame, frame, endFrame);
    }
  }

  function Between(lo: nat, hi: nat): set<nat> {
    Below(hi) - Below(lo)
  }

  lemma OneMore(used: set<nat>, lo: nat, f: nat)
    requires lo <= f
    ensures used + Between(lo, f + 1) == used + Between(lo, f) + {8 * (f / 8) + f % 8}
    ensures used - Between(lo, f + 1) == used - Between(lo, f) - {8 * (f / 8) + f % 8}
  {
    assert 8 * (f / 8) + f % 8 == f;
    assert Between(lo, f + 1) == Between(lo, f) + {f};
  }

  lemma NoneLeft(lo: nat, f: nat, hi: nat)
    requires hi <= f && (f == hi || f == lo)
    ensures Between(lo, f) == Between(lo, hi)
  {
  }

  function RegionStart(base: nat): nat {
    (base + FRAME_SIZE - 1) % U32 / FRAME_SIZE
  }

  function RegionEnd(base: nat, length: nat): (r: nat)
    ensures r <= FRAMES
  {
    (base + length + FRAME_SIZE - 1) % U32 / FRAME_SIZE
  }

  // Every frame a non-empty region touches is marked used exactly when the sum does not wrap.
  lemma RegionIsCovered(base: nat, length: nat)
    requires base < U32 && 0 < length && base + length <= U32
    ensures (forall a :: base <= a < base + length ==>
      a / FRAME_SIZE in Between(base / FRAME_SIZE, RegionEnd(base, length)))
      <==> base + length + FRAME_SIZE - 1 < U32
  {
    var end := base + length + FRAME_SIZE - 1;
    if end < U32 {
      forall a | base <= a < base + length ensures base / FRAME_SIZE <= a / FRAME_SIZE < RegionEnd(base, length) {}
    } else {
      assert end % U32 == end - U32;
      var last := base + length - 1;
      assert last / FRAME_SIZE !in Between(base / FRAME_SIZE, RegionEnd(base, length));
    }
  }

}
