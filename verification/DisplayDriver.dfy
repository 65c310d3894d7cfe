// The display driver: a ring-buffered back buffer, unrolled into the framebuffer on flush.
module DisplayDriver {
  import opened Bytes
  import opened Gfx

  // Row y of the framebuffer after both parts of the ring have been copied.
  lemma UnrolledPixel(d: seq<Color>, s: Shape, offset: nat, x: nat, y: nat)
    requires s.Holds(|d|) && offset < s.height && x < s.width && y < s.height
    ensures offset * s.stride <= |d| && y * s.stride + x < |d|
    ensures (d[offset * s.stride..] + d[..offset * s.stride])[y * s.stride + x] == Pixel(d, s, offset, x, y)
  {
    InMemory(s, |d|, offset, 0);
    InMemoryStrictly(s, |d|, y, x);
    RingExact(s.height, offset, y);
    var cut := offset * s.stride;
    if y + offset < s.height {
      Distribute(y, offset, s.stride);
      InMemoryStrictly(s, |d|, y + offset, x);
    } else {
      var r := y + offset - s.height;
      Distribute(r, s.height, s.stride);
      Distribute(y, offset, s.stride);
      assert (y + offset) * s.stride == r * s.stride + |d|;
    }
  }

  lemma Distribute(a: nat, b: nat, m: nat)
    ensures (a + b) * m == a * m + b * m
  {
  }

  class Display {
    const framebuffer: array<Color>
    const back: PixelBuffer
    var dirty: bool

    ghost predicate Valid()
      reads this, back
    {
      back.Valid() && framebuffer.Length == back.data.Length && framebuffer != back.data
    }

    // Every pixel of the framebuffer is the back buffer's.
    ghost predicate Showing()
      requires Valid()
      reads this, back, back.data, framebuffer
    {
      forall x, y | 0 <= x < back.shape.width && 0 <= y < back.shape.height :: Shown(x, y) == back.At(x, y)
    }

    // What the monitor shows at (x, y).
    ghost function Shown(x: nat, y: nat): Color
      requires Valid() && x < back.shape.width && y < back.shape.height
      reads this, back, framebuffer
    {
      InMemoryStrictly(back.shape, framebuffer.Length, y, x);
      framebuffer[y * back.shape.stride + x]
    }

    constructor (memory: array<Color>, buffer: PixelBuffer)
      requires buffer.Valid() && memory.Length == buffer.data.Length && memory != buffer.data
      ensures Valid() && framebuffer == memory && back == buffer && !dirty
    {
      framebuffer, back, dirty := memory, buffer, false;
    }

    method FillRect(x: nat, y: nat, w: nat, h: nat, color: Color)
      requires Valid() && (x < back.shape.width && y < back.shape.height ==> x + w < U32 && y + h < U32)
      modifies this`dirty, back.data
      ensures Valid() && dirty
      ensures forall px, py | 0 <= px < back.shape.width && 0 <= py < back.shape.height ::
        back.At(px, py) == if x <= px < x + w && y <= py < y + h then color else old(back.At(px, py))
    {
      dirty := true;
      back.FillRect(x, y, w, h, color);
    }

    method DrawChar(x: nat, y: nat, ch: byte, fg: Color, bg: Color)
      requires Valid()
      modifies this`dirty, back.data
      ensures Valid() && dirty
      ensures forall px, py | 0 <= px < back.shape.width && 0 <= py < back.shape.height ::
        back.At(px, py) == if x <= px < x + 8 && y <= py < y + 16 then Inked(back.font, ch, px - x, py - y, fg, bg)
          else old(back.At(px, py))
    {
      dirty := true;
      back.DrawChar(x, y, ch, fg, bg);
    }

    method Scroll(pixels: nat, color: Color)
      requires Valid()
      modifies this`dirty, back`scrollOffset, back.data
      ensures Valid() && dirty
      ensures forall x, y | 0 <= x < back.shape.width && 0 <= y < back.shape.height ::
        back.At(x, y) == if y + pixels < back.shape.height then old(back.At(x, y + pixels)) else color
    {
      dirty := true;
      back.Scroll(pixels, color);
    }

    // n words of the back buffer from source to the framebuffer from target on.
    method CopyOut(target: nat, source: nat, n: nat)
      requires target + n <= framebuffer.Length && source + n <= back.data.Length && framebuffer != back.data
      modifies framebuffer
      ensures framebuffer[..] == old(framebuffer[..])[..target] + back.data[source..source + n]
        + old(framebuffer[..])[target + n..]
    {
      ghost var was := framebuffer[..];
      var i := 0;
      while i < n
        invariant 0 <= i <= n
        invariant framebuffer[..] == was[..target] + back.data[source..source + i] + was[target + i..]
      {
        framebuffer[target + i] := back.data[source + i];
        i := i + 1;
      }
    }

    // When something was drawn, the framebuffer comes to show the back buffer from its top row;
    // otherwise it is left alone.
    method Flush()
      requires Valid()
      modifies this`dirty, framebuffer
      ensures Valid() && !dirty
      ensures if old(dirty) then Showing() else framebuffer[..] == old(framebuffer[..])
    {
      if !dirty { return; }
      dirty := false;
      if back.shape.height == 0 { return; }
      var s, offset, n := back.shape, back.scrollOffset, back.data.Length;
      InMemory(s, n, offset, 0);
      var cut := offset * s.stride;
      var firstRows := (s.height - offset) * s.stride;
      Distribute(s.height - offset, offset, s.stride);
      ghost var was := framebuffer[..];
      CopyOut(0, cut, firstRows);
      if offset > 0 {
        CopyOut(firstRows, 0, cut);
      }
      assert framebuffer[..] == back.data[..][cut..] + back.data[..][..cut];
      forall x, y | 0 <= x < s.width && 0 <= y < s.height ensures Shown(x, y) == back.At(x, y) {
        UnrolledPixel(back.data[..], s, offset, x, y);
      }
    }
  }
}
