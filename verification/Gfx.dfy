// Pixel buffers that scroll by turning a ring of rows, and what they look like read as a plain
// screen.
module Gfx {
  import opened Bytes

  type Color = int

  const FONT_WIDTH: nat := 8
  const FONT_HEIGHT: nat := 16

  // 256 glyphs of 16 rows; in each row the most significant of 8 bits is the leftmost pixel.
  type Font = f: seq<seq<seq<bool>>> | |f| == 256 && forall c :: 0 <= c < 256 ==> IsGlyph(f[c])
    witness seq(256, _ => seq(16, _ => seq(8, _ => false)))

  predicate IsGlyph(g: seq<seq<bool>>) { |g| == 16 && forall r :: 0 <= r < 16 ==> |g[r]| == 8 }

  // Rows are stride pixels apart, of which width are shown.
  datatype Shape = Shape(width: nat, height: nat, stride: nat) {
    ghost predicate Holds(n: nat) { width <= stride && n == height * stride }
  }

  // ---- The ring of rows ----

  // Where row y of the screen is kept.
  function Ring(height: nat, offset: nat, y: nat): (r: nat)
    requires y < height && offset < height
    ensures r < height
  {
    (y + offset) % height
  }

  lemma RingExact(height: nat, offset: nat, y: nat)
    requires y < height && offset < height
    ensures Ring(height, offset, y) == if y + offset < height then y + offset else y + offset - height
  {
    if y + offset >= height { assert (y + offset) % height == (y + offset - height) % height; }
  }

  lemma RingDistinct(height: nat, offset: nat, y: nat, z: nat)
    requires y < height && z < height && offset < height
    ensures Ring(height, offset, y) == Ring(height, offset, z) <==> y == z
  {
    RingExact(height, offset, y);
    RingExact(height, offset, z);
  }

  // Turning the ring by n rows.
  lemma RingTurned(height: nat, offset: nat, n: nat, y: nat)
    requires y < height && offset < height && n < height
    ensures (offset + n) % height < height
    ensures Ring(height, (offset + n) % height, y) ==
            Ring(height, offset, if y + n < height then y + n else y + n - height)
  {
    var turned := (offset + n) % height;
    assert turned == Ring(height, offset, n);
    RingExact(height, offset, n);
    RingExact(height, turned, y);
    RingExact(height, offset, if y + n < height then y + n else y + n - height);
  }

  // ---- Pixels in memory ----

  lemma RowsApart(stride: nat, r: nat, s: nat)
    requires r < s
    ensures r * stride + stride <= s * stride
  {
    assert s * stride == r * stride + (s - r) * stride;
    assert (s - r) * stride >= stride by { MulAtLeast(s - r, stride); }
  }

  lemma MulAtLeast(n: nat, m: nat)
    requires n >= 1
    ensures n * m >= m
  {
  }

  lemma InMemory(s: Shape, n: nat, r: nat, x: nat)
    requires s.Holds(n) && r < s.height && x <= s.stride
    ensures r * s.stride + x <= n
  {
    RowsApart(s.stride, r, s.height);
  }

  lemma InMemoryStrictly(s: Shape, n: nat, r: nat, x: nat)
    requires s.Holds(n) && r < s.height && x < s.stride
    ensures r * s.stride + x < n
  {
    RowsApart(s.stride, r, s.height);
  }

  // Pixel (x, y) of the screen.
  ghost function Pixel(d: seq<Color>, s: Shape, offset: nat, x: nat, y: nat): Color
    requires s.Holds(|d|) && offset < s.height && x < s.width && y < s.height
  {
    InMemoryStrictly(s, |d|, Ring(s.height, offset, y), x);
    d[Ring(s.height, offset, y) * s.stride + x]
  }

  // The memory after w words from i have been set.
  function Run(d: seq<Color>, i: nat, w: nat, color: Color): (r: seq<Color>)
    requires i + w <= |d|
    ensures |r| == |d|
    ensures forall j :: 0 <= j < |d| ==> r[j] == if i <= j < i + w then color else d[j]
  {
    d[..i] + seq(w, _ => color) + d[i + w..]
  }

  // Setting part of one row changes that part of one line of the screen.
  lemma RunPixel(d: seq<Color>, s: Shape, offset: nat, x0: nat, y0: nat, w: nat, color: Color, x: nat, y: nat)
    requires s.Holds(|d|) && offset < s.height && y0 < s.height && x0 + w <= s.width && x < s.width && y < s.height
    ensures Ring(s.height, offset, y0) * s.stride + x0 + w <= |d|
    ensures Pixel(Run(d, Ring(s.height, offset, y0) * s.stride + x0, w, color), s, offset, x, y) ==
            if y == y0 && x0 <= x < x0 + w then color else Pixel(d, s, offset, x, y)
  {
    var r, r0 := Ring(s.height, offset, y), Ring(s.height, offset, y0);
    InMemory(s, |d|, r0, x0 + w);
    InMemoryStrictly(s, |d|, r, x);
    RingDistinct(s.height, offset, y, y0);
    if r < r0 { RowsApart(s.stride, r, r0); } else if r0 < r { RowsApart(s.stride, r0, r); }
  }

  // An extent w from x on, cut at the edge if the 32-bit sum is past it.
  function Clipped(x: nat, w: nat, width: nat): nat
    requires x < width
  {
    if (x + w) % U32 > width then width - x else w
  }

  // The cut extent stays inside exactly when the sum does not wrap; then it is what the extent
  // and the screen have in common.
  lemma ClipExact(x: nat, w: nat, width: nat)
    requires x < width < U32 && w < U32
    ensures x + Clipped(x, w, width) <= width <==> x + w < U32
    ensures x + w < U32 ==> Clipped(x, w, width) == if x + w > width then width - x else w
  {
    if x + w >= U32 { assert (x + w) % U32 == x + w - U32; }
  }

  // One pixel from the left edge of an 800 pixel screen, a width of 2^32 - 1 is not cut at all.
  lemma ClipEscapes()
    ensures Clipped(1, U32 - 1, 800) == U32 - 1 && 1 + Clipped(1, U32 - 1, 800) > 800
  {
    ClipExact(1, U32 - 1, 800);
  }

  class PixelBuffer {
    const data: array<Color>
    const shape: Shape
    const font: Font
    var scrollOffset: nat

    ghost predicate Valid()
      reads this
    {
      && shape.Holds(data.Length) && 4 * data.Length < U32 && shape.width < U32 && shape.height < U32
      && (scrollOffset < shape.height || (scrollOffset == 0 && shape.height == 0))
    }

    // The screen, read from memory through the ring.
    ghost function At(x: nat, y: nat): Color
      requires Valid() && x < shape.width && y < shape.height
      reads this, data
    {
      Pixel(data[..], shape, scrollOffset, x, y)
    }

    constructor (memory: array<Color>, width: nat, height: nat, stride: nat, glyphs: Font)
      requires Shape(width, height, stride).Holds(memory.Length) && 4 * memory.Length < U32 && width < U32
        && height < U32
      ensures Valid() && data == memory && shape == Shape(width, height, stride) && font == glyphs && scrollOffset == 0
    {
      data, shape, font, scrollOffset := memory, Shape(width, height, stride), glyphs, 0;
    }

    // w words from i.
    method SetRun(i: nat, w: nat, color: Color)
      requires i + w <= data.Length
      modifies data
      ensures data[..] == Run(old(data[..]), i, w, color)
    {
      ghost var was := data[..];
      var col := 0;
      while col < w
        invariant 0 <= col <= w && data[..] == Run(was, i, col, color)
      {
        data[i + col] := color;
        col := col + 1;
      }
    }

    // Part of line y of the screen.
    method SetLine(x0: nat, y0: nat, w: nat, color: Color)
      requires Valid() && y0 < shape.height && x0 + w <= shape.width
      modifies data
      ensures forall x, y | 0 <= x < shape.width && 0 <= y < shape.height ::
        At(x, y) == if y == y0 && x0 <= x < x0 + w then color else old(At(x, y))
    {
      ghost var was := data[..];
      var row := (y0 + scrollOffset) % shape.height;
      InMemory(shape, data.Length, row, x0 + w);
      SetRun(row * shape.stride + x0, w, color);
      forall x, y | 0 <= x < shape.width && 0 <= y < shape.height
        ensures At(x, y) == if y == y0 && x0 <= x < x0 + w then color else old(At(x, y))
      {
        RunPixel(was, shape, scrollOffset, x0, y0, w, color, x, y);
      }
    }

    // Clipped to the screen, for the extents that the clipping gets right (ClipExact).
    method FillRect(x: nat, y: nat, w0: nat, h0: nat, color: Color)
      requires Valid() && (x < shape.width && y < shape.height ==> x + w0 < U32 && y + h0 < U32)
      modifies data
      ensures forall px, py | 0 <= px < shape.width && 0 <= py < shape.height ::
        At(px, py) == if x <= px < x + w0 && y <= py < y + h0 then color else old(At(px, py))
    {
      if x >= shape.width || y >= shape.height { return; }
      var w, h := Clipped(x, w0, shape.width), Clipped(y, h0, shape.height);
      ClipExact(x, w0, shape.width);
      ClipExact(y, h0, shape.height);
      var row := 0;
      while row < h
        invariant 0 <= row <= h
        invariant forall px, py | 0 <= px < shape.width && 0 <= py < shape.height ::
          At(px, py) == if x <= px < x + w && y <= py < y + row then color else old(At(px, py))
      {
        SetLine(x, y + row, w, color);
        row := row + 1;
      }
    }

    // One row of a glyph, clipped on the right.
    method DrawGlyphRow(x: nat, y: nat, bits: seq<bool>, fg: Color, bg: Color)
      requires Valid() && y < shape.height && |bits| == 8
      modifies data
      ensures forall px, py | 0 <= px < shape.width && 0 <= py < shape.height ::
        At(px, py) == if py == y && x <= px < x + 8 then (if bits[px - x] then fg else bg) else old(At(px, py))
    {
      var col := 0;
      while col < FONT_WIDTH && x + col < shape.width
        invariant 0 <= col <= FONT_WIDTH
        invariant forall px, py | 0 <= px < shape.width && 0 <= py < shape.height ::
          At(px, py) == if py == y && x <= px < x + col then (if bits[px - x] then fg else bg) else old(At(px, py))
      {
        SetLine(x + col, y, 1, if bits[col] then fg else bg);
        col := col + 1;
      }
    }

    method DrawChar(x: nat, y: nat, ch: byte, fg: Color, bg: Color)
      requires Valid()
      modifies data
      ensures forall px, py | 0 <= px < shape.width && 0 <= py < shape.height ::
        At(px, py) == if x <= px < x + 8 && y <= py < y + 16 then Inked(font, ch, px - x, py - y, fg, bg)
          else old(At(px, py))
    {
      var row := 0;
      while row < FONT_HEIGHT && y + row < shape.height
        invariant 0 <= row <= FONT_HEIGHT
        invariant forall px, py | 0 <= px < shape.width && 0 <= py < shape.height ::
          At(px, py) == if x <= px < x + 8 && y <= py < y + row then Inked(font, ch, px - x, py - y, fg, bg)
            else old(At(px, py))
      {
        DrawGlyphRow(x, y + row, font[ch][row], fg, bg);
        row := row + 1;
      }
    }

    // The screen moves up by a number of pixels; what comes in below has one colour.
    method Scroll(pixels: nat, color: Color)
      requires Valid()
      modifies this`scrollOffset, data
      ensures Valid()
      ensures forall x, y | 0 <= x < shape.width && 0 <= y < shape.height ::
        At(x, y) == if y + pixels < shape.height then old(At(x, y + pixels)) else color
    {
      if pixels == 0 || shape.height == 0 { return; }
      if pixels >= shape.height {
        scrollOffset := 0;
        ClearTop(shape.height, color);
      } else {
        ClearTop(pixels, color);
        Turn(pixels);
      }
    }

    // The first n lines of the screen.
    method ClearTop(n: nat, color: Color)
      requires Valid() && n <= shape.height
      modifies data
      ensures forall x, y | 0 <= x < shape.width && 0 <= y < shape.height ::
        At(x, y) == if y < n then color else old(At(x, y))
    {
      var row := 0;
      while row < n
        invariant 0 <= row <= n
        invariant forall x, y | 0 <= x < shape.width && 0 <= y < shape.height ::
          At(x, y) == if y < row then color else old(At(x, y))
      {
        SetLine(0, row, shape.width, color);
        row := row + 1;
      }
    }

    method Turn(n: nat)
      requires Valid() && n < shape.height
      modifies this`scrollOffset
      ensures Valid()
      ensures forall x, y | 0 <= x < shape.width && 0 <= y < shape.height ::
        At(x, y) == old(At(x, if y + n < shape.height then y + n else y + n - shape.height))
    {
      ghost var was := scrollOffset;
      scrollOffset := (scrollOffset + n) % shape.height;
      forall x, y | 0 <= x < shape.width && 0 <= y < shape.height
        ensures At(x, y) == Pixel(data[..], shape, was, x, if y + n < shape.height then y + n else y + n - shape.height)
      {
        RingTurned(shape.height, was, n, y);
      }
    }
  }

  function Inked(font: Font, ch: byte, x: nat, y: nat, fg: Color, bg: Color): Color
    requires x < 8 && y < 16
  {
    if font[ch][y][x] then fg else bg
  }
}
