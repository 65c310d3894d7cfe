// The graphics terminal: a character grid and a display that both lag behind by the lines
// still to be scrolled, and catch up before anything is drawn.
module TerminalService {
  import opened Bytes
  import opened Gfx
  import opened DisplayDriver
  import opened Mem
  import opened TextGrid

  // From this many waiting lines on, the number of pixels to scroll no longer fits in 32 bits.
  const LAG_LIMIT: nat := 0x1000_0000

  // Widest grid whose tab stops fit in 8 bits, and most rows for an 8-bit cursor.
  const MAX_COLS: nat := 248
  const MAX_ROWS: nat := 255

  lemma UpNone(z: Size, cells: seq<byte>)
    requires |cells| == z.Area() && z.rows > 0
    ensures Up(z, cells, 0) == cells
  {
    RowsInside(z, 0);
    assert cells[z.Row(0)..] + Blank(z.Row(0)) == cells;
  }

  // The back buffer is black, as the display service leaves it at start.
  ghost predicate BlackScreen(screen: Display)
    reads screen, screen.back, screen.back.data
  {
    screen.Valid() && forall px, py | 0 <= px < screen.back.shape.width && 0 <= py < screen.back.shape.height ::
      screen.back.At(px, py) == 0
  }

  // The cursor is past the last line, or past the end of it.
  predicate PastEnd(z: Size, x: nat, y: nat) { (if x == z.cols then y + 1 else y) == z.rows }

  function LineAfter(z: Size, x: nat, y: nat): int {
    var line := if x == z.cols then y + 1 else y;
    if line == z.rows then line - 1 else line
  }

  // What Settle makes of the cursor and of the lines waiting.
  ghost predicate Settled(z: Size, x: nat, y: nat, k: nat, x': nat, y': nat, k': nat) {
    && x' == (if x == z.cols then 0 else x) && y' == LineAfter(z, x, y)
    && k' == k + if PastEnd(z, x, y) then 1 else 0
  }

  // A grid and marks that lag k lines behind.
  function Caught(z: Size, cells: seq<byte>, marks: set<Spot>, k: nat, x: nat, y: nat): Text
    requires |cells| == z.Area()
  {
    Text(Up(z, cells, k), x, y, Raised(marks, k))
  }

  lemma CaughtHolds(z: Size, cells: seq<byte>, marks: set<Spot>, k: nat, x: nat, y: nat)
    requires |cells| == z.Area() && x < z.cols && y < z.rows && z.Inside(marks)
    ensures z.Holds(Caught(z, cells, marks, k, x, y))
  {
  }

  lemma CaughtUp(z: Size, cells: seq<byte>, marks: set<Spot>, x: nat, y: nat)
    requires |cells| == z.Area() && z.rows > 0
    ensures Caught(z, cells, marks, 0, x, y) == Text(cells, x, y, marks)
  {
    UpNone(z, cells);
    RaisedTwice(marks, 0, 0);
  }

  lemma NewlineText(z: Size, cells: seq<byte>, marks: set<Spot>, x: nat, y: nat, k: nat, x': nat, y': nat, k': nat)
    requires |cells| == z.Area() && x < z.cols && y < z.rows && z.Inside(marks) && Settled(z, 0, y + 1, k, x', y', k')
    ensures z.Holds(Caught(z, cells, marks, k, x, y))
    ensures var t := Caught(z, cells, marks, k, x, y);
      Caught(z, cells, marks, k', x', y') == Put(z, t, NEWLINE) && k' == Lag(z, t, k, NEWLINE)
  {
    UpTwice(z, cells, k, 1);
    RaisedTwice(marks, k, 1);
  }

  // After drawing nothing was waiting; the cursor moves on to column x of text t's line.
  lemma DrawnText(z: Size, t: Text, x: nat, x': nat, y': nat, k': nat)
    requires z.Holds(t) && x <= z.cols && Settled(z, x, t.y, 0, x', y', k')
    ensures Caught(z, t.cells, t.marks, k', x', y') == To(z, t, x)
    ensures k' == if x == z.cols && t.y + 1 == z.rows then 1 else 0
  {
    UpNone(z, t.cells);
    RaisedTwice(t.marks, 0, 0);
  }

  // The 8-bit tab stop is the right one in a grid this wide.
  lemma TabFits(z: Size, x: nat)
    requires x < z.cols <= MAX_COLS
    ensures var next := (x + 8) / 8 * 8 % 256; (if next >= z.cols then z.cols % 256 else next) == TabStop(z, x)
  {
  }

  lemma FaceInCell(l: Look, z: Size, cells: seq<byte>, x: nat, y: nat, ch: byte, px: nat, py: nat)
    requires |cells| == z.Area() && x < z.cols && y < z.rows
    requires z.At(x, y) < |cells| && ch == cells[z.At(x, y)]
    ensures px / 8 == x && py / 16 == y ==> Face(l, z, cells, px, py) == Inked(l.font, ch, px % 8, py % 16, l.fg, l.bg)
  {
  }

  lemma ShadedInCell(l: Look, z: Size, cells: seq<byte>, marks: set<Spot>, x: nat, y: nat, ch: byte, on: bool,
      px: nat, py: nat)
    requires |cells| == z.Area() && x < z.cols && y < z.rows
    requires z.At(x, y) < |cells| && ch == cells[z.At(x, y)]
    ensures Shaded(l, z, cells, if on then marks + {(x, y)} else marks - {(x, y)}, px, py) ==
            if px / 8 == x && py / 16 == y
            then Inked(l.font, ch, px % 8, py % 16, if on then l.bg else l.fg, if on then l.fg else l.bg)
            else Shaded(l, z, cells, marks, px, py)
  {
    FaceInCell(l, z, cells, x, y, ch, px, py);
    FaceInCell(Swapped(l), z, cells, x, y, ch, px, py);
  }

  lemma UpByMoving(z: Size, cells: seq<byte>, k: nat)
    requires |cells| == z.Area() && k < z.rows
    ensures var kept := z.Row(z.rows - k);
      && kept + z.Row(k) == |cells|
      && Filled(Moved(cells, 0, z.Row(k), kept), kept, SPACE, z.Row(k)) == Up(z, cells, k)
  {
    RowsInside(z, k);
  }

  predicate SameGrid(t: Text, u: Text) { t.cells == u.cells && t.marks == u.marks }

  lemma WipeNone(z: Size, t: Text)
    requires z.Holds(t)
    ensures Wiped(z, t, t.x) == t
  {
    assert Unmarked(t.marks, t.x, t.x, t.y) == t.marks;
  }

  lemma WipeNext(z: Size, t: Text, x: nat)
    requires z.Holds(t) && t.x <= x < z.cols
    ensures z.At(x, t.y) < |t.cells| && Wiped(z, t, x).cells[z.At(x, t.y) := SPACE] == Wiped(z, t, x + 1).cells
    ensures Wiped(z, t, x).marks - {(x, t.y)} == Wiped(z, t, x + 1).marks
  {
    CellInside(z, x, t.y);
  }

  // Neither the 8-bit cursor nor the 32-bit count of waiting lines wraps.
  lemma NoWrap(z: Size, y: nat, k: nat)
    requires 1 <= z.rows <= MAX_ROWS && k + 1 < LAG_LIMIT
    ensures y < z.rows ==> (y + 1) % 256 == y + 1
    ensures (k + (z.rows - z.rows + 1)) % U32 == k + 1 && (z.rows - 1) % 256 == z.rows - 1
  {
  }

  lemma PixelsFit(k: nat)
    requires k < LAG_LIMIT
    ensures k * FONT_HEIGHT % U32 == 16 * k
  {
  }

  class Terminal {
    const display: Display
    const size: Size
    const fg: Color
    const bg: Color
    const cells: array<byte>
    var x: nat
    var y: nat
    var pendingScroll: nat
    ghost var marks: set<Spot> // cells of the back buffer left in exchanged colours

    // Everything but the cursor is in order.
    ghost predicate Base()
      reads this, display, display.back
    {
      var s := display.back.shape;
      && display.Valid() && BlankSpace(display.back.font)
      && size == Size(s.width / FONT_WIDTH, s.height / FONT_HEIGHT)
      && 1 <= size.cols <= MAX_COLS && 1 <= size.rows <= MAX_ROWS
      && cells.Length == size.Area()
      && pendingScroll < LAG_LIMIT && size.Inside(marks)
    }

    ghost predicate Valid()
      reads this, display, display.back
    {
      Base() && x < size.cols && y < size.rows
    }

    ghost function Style(): Look
      reads this, display, display.back
    {
      Look(display.back.font, fg, bg)
    }

    // The eager terminal this one stands for.
    ghost function AsText(): (t: Text)
      requires Base()
      reads this, display, display.back, cells
    {
      Caught(size, cells[..], marks, pendingScroll, x, y)
    }

    // The back buffer is the picture of the grid as far as it has been scrolled.
    ghost predicate Drawn()
      requires Base()
      reads this, display, display.back, display.back.data, cells
    {
      forall px, py | 0 <= px < display.back.shape.width && 0 <= py < display.back.shape.height ::
        display.back.At(px, py) == Shaded(Style(), size, cells[..], marks, px, py)
    }

    constructor (screen: Display, grid: array<byte>)
      requires screen.Valid() && BlankSpace(screen.back.font)
      requires 1 <= screen.back.shape.width / FONT_WIDTH <= MAX_COLS
        && 1 <= screen.back.shape.height / FONT_HEIGHT <= MAX_ROWS
      requires grid.Length == (screen.back.shape.height / FONT_HEIGHT) * (screen.back.shape.width / FONT_WIDTH)
      modifies grid
      ensures Valid() && display == screen && cells == grid && AsText() == Text(Blank(cells.Length), 0, 0, {})
        && pendingScroll == 0
      ensures BlackScreen(screen) ==> Drawn()
    {
      display, cells := screen, grid;
      size := Size(screen.back.shape.width / FONT_WIDTH, screen.back.shape.height / FONT_HEIGHT);
      x, y, pendingScroll, marks := 0, 0, 0, {};
      RowIs(Size(screen.back.shape.width / FONT_WIDTH, screen.back.shape.height / FONT_HEIGHT),
        screen.back.shape.height / FONT_HEIGHT);
      fg, bg := 0x00AAAAAA, 0x00000000;
      new;
      Mem.Set(cells, 0, SPACE, cells.Length);
      assert cells[..] == Blank(cells.Length);
      CaughtUp(size, cells[..], {}, 0, 0);
      forall px: nat, py: nat ensures Shaded(Style(), size, cells[..], {}, px, py) == bg {
        BlankFace(Style(), size, px, py);
      }
    }

    // The display moves up by as many lines.
    method ScrollPicture()
      requires Base() && Drawn()
      modifies display`dirty, display.back`scrollOffset, display.back.data
      ensures Base() && display.dirty
      ensures forall px, py | 0 <= px < display.back.shape.width && 0 <= py < display.back.shape.height ::
        display.back.At(px, py) == Shaded(Style(), size, Up(size, cells[..], pendingScroll),
          Raised(marks, pendingScroll), px, py)
    {
      var pixels := pendingScroll * FONT_HEIGHT % U32;
      PixelsFit(pendingScroll);
      ghost var h := display.back.shape.height;
      display.Scroll(pixels, bg);
      forall px, py | 0 <= px < display.back.shape.width && 0 <= py < h
        ensures display.back.At(px, py)
          == Shaded(Style(), size, Up(size, cells[..], pendingScroll), Raised(marks, pendingScroll), px, py)
      {
        ShadedScrolls(Style(), size, cells[..], marks, pendingScroll, h, px, py);
      }
    }

    // The grid moves up, with blank lines coming in below.
    method ScrollCells()
      requires Base()
      modifies cells
      ensures cells[..] == Up(size, old(cells[..]), pendingScroll)
    {
      var k := pendingScroll;
      RowIs(size, size.rows);
      if k >= size.rows {
        Mem.Set(cells, 0, SPACE, size.rows * size.cols);
      } else {
        UpByMoving(size, cells[..], k);
        RowIs(size, k);
        RowIs(size, size.rows - k);
        var kept := (size.rows - k) * size.cols;
        Mem.Move(cells, 0, k * size.cols, kept);
        Mem.Set(cells, kept, SPACE, k * size.cols);
      }
    }

    // Catches up with the lines still to be scrolled: the eager terminal stays the same.
    method FlushScroll()
      requires Base() && Drawn()
      modifies this`pendingScroll, this`marks, cells, display`dirty, display.back`scrollOffset, display.back.data
      ensures Base() && Drawn() && pendingScroll == 0
      ensures Text(cells[..], x, y, marks) == old(AsText())
      ensures old(display.dirty) ==> display.dirty
    {
      if pendingScroll > 0 {
        ScrollPicture();
        ScrollCells();
        marks := Raised(marks, pendingScroll);
        pendingScroll := 0;
      } else {
        CaughtUp(size, cells[..], marks, x, y);
      }
    }

    // The character in a cell; a blank outside the grid.
    method CellAt(col: nat, row: nat) returns (ch: byte)
      requires Base()
      ensures if col < size.cols && row < size.rows then
                size.At(col, row) < cells.Length && ch == cells[size.At(col, row)]
              else ch == SPACE
    {
      if col >= size.cols || row >= size.rows { return SPACE; }
      CellInside(size, col, row);
      RowIs(size, row);
      ch := cells[row * size.cols + col];
    }

    // A glyph on the display, in given colours.
    method Ink(ch: byte, col: nat, row: nat, f: Color, b: Color)
      requires Base() && col < size.cols && row < size.rows
      modifies display`dirty, display.back.data
      ensures Base() && display.dirty
      ensures forall px, py | 0 <= px < display.back.shape.width && 0 <= py < display.back.shape.height ::
        display.back.At(px, py) == if px / 8 == col && py / 16 == row
          then Inked(display.back.font, ch, px % 8, py % 16, f, b)
          else old(display.back.At(px, py))
    {
      display.DrawChar(col * FONT_WIDTH, row * FONT_HEIGHT, ch, f, b);
      forall px: nat, py: nat ensures 8 * col <= px < 8 * col + 8 && 16 * row <= py < 16 * row + 16
        <==> px / 8 == col && py / 16 == row {
        CellPixels(px, py, col, row);
      }
    }

    // A cell of the grid whose pixels now show ch.
    method SetCell(col: nat, row: nat, ch: byte)
      requires Base() && col < size.cols && row < size.rows
      requires forall px, py | 0 <= px < display.back.shape.width && 0 <= py < display.back.shape.height ::
        display.back.At(px, py) == if px / 8 == col && py / 16 == row
          then Inked(display.back.font, ch, px % 8, py % 16, fg, bg)
          else Shaded(Style(), size, cells[..], marks, px, py)
      modifies this`marks, cells
      ensures Base() && Drawn() && marks == old(marks) - {(col, row)}
      ensures size.At(col, row) < cells.Length && cells[..] == old(cells[..])[size.At(col, row) := ch]
    {
      CellInside(size, col, row);
      ghost var was, before := cells[..], marks;
      RowIs(size, row);
      cells[row * size.cols + col] := ch;
      marks := marks - {(col, row)};
      assert cells[..] == was[size.At(col, row) := ch];
      forall px, py | 0 <= px < display.back.shape.width && 0 <= py < display.back.shape.height
        ensures display.back.At(px, py) == Shaded(Style(), size, cells[..], marks, px, py)
      {
        ShadedAfterWrite(Style(), size, was, before, col, row, ch, px, py);
      }
    }

    // A glyph in one cell of the grid and of the picture.
    method DrawGlyph(ch: byte, col: nat, row: nat)
      requires Base() && Drawn() && col < size.cols && row < size.rows
      modifies this`pendingScroll, this`marks, cells, display`dirty, display.back`scrollOffset, display.back.data
      ensures Base() && Drawn() && pendingScroll == 0 && size.At(col, row) < cells.Length
      ensures cells[..] == old(AsText()).cells[size.At(col, row) := ch] && marks == old(AsText()).marks - {(col, row)}
    {
      FlushScroll();
      Ink(ch, col, row, fg, bg);
      SetCell(col, row, ch);
    }

    method ClearCell(col: nat, row: nat)
      requires Base() && Drawn() && col < size.cols && row < size.rows
      modifies this`pendingScroll, this`marks, cells, display`dirty, display.back`scrollOffset, display.back.data
      ensures Base() && Drawn() && pendingScroll == 0 && size.At(col, row) < cells.Length
      ensures cells[..] == old(AsText()).cells[size.At(col, row) := SPACE]
        && marks == old(AsText()).marks - {(col, row)}
    {
      FlushScroll();
      Blot(col, row);
      SetCell(col, row, SPACE);
    }

    // A cell of the picture in the background colour: that of a blank.
    method Blot(col: nat, row: nat)
      requires Base() && col < size.cols && row < size.rows
      modifies display`dirty, display.back.data
      ensures Base()
      ensures forall px, py | 0 <= px < display.back.shape.width && 0 <= py < display.back.shape.height ::
        display.back.At(px, py) == if px / 8 == col && py / 16 == row
          then Inked(display.back.font, SPACE, px % 8, py % 16, fg, bg)
          else old(display.back.At(px, py))
    {
      display.FillRect(col * FONT_WIDTH, row * FONT_HEIGHT, FONT_WIDTH, FONT_HEIGHT, bg);
      forall px: nat, py: nat ensures 8 * col <= px < 8 * col + 8 && 16 * row <= py < 16 * row + 16
        <==> px / 8 == col && py / 16 == row {
        CellPixels(px, py, col, row);
      }
    }

    // The cell under the cursor, on the way from text t's cursor to a tab stop.
    method ClearNext(ghost t: Text)
      requires Valid() && Drawn() && size.Holds(t) && t.x <= x && y == t.y
        && SameGrid(AsText(), Wiped(size, t, x)) == true
      modifies this`pendingScroll, this`marks, cells, display`dirty, display.back`scrollOffset, display.back.data
      ensures Base() && Drawn() && pendingScroll == 0 && SameGrid(AsText(), Wiped(size, t, x + 1)) == true
    {
      WipeNext(size, t, x);
      ClearCell(x, y);
      CaughtUp(size, cells[..], marks, x, y);
    }

    // The cells from the cursor to the next tab stop.
    method ClearToTab(next: nat)
      requires Valid() && Drawn() && x < next <= size.cols
      modifies this`x, this`pendingScroll, this`marks, cells, display`dirty, display.back`scrollOffset,
        display.back.data
      ensures Base() && Drawn() && pendingScroll == 0 && x == next && size.Holds(old(AsText()))
      ensures Text(cells[..], old(x), y, marks) == Wiped(size, old(AsText()), next)
    {
      ghost var t := AsText();
      CaughtHolds(size, cells[..], marks, pendingScroll, x, y);
      WipeNone(size, t);
      ClearCells(next, t);
      CaughtUp(size, cells[..], marks, x, y);
    }

    method ClearCells(next: nat, ghost t: Text)
      requires Valid() && Drawn() && x == t.x && y == t.y && x < next <= size.cols && size.Holds(t)
      requires SameGrid(AsText(), Wiped(size, t, x)) == true
      modifies this`x, this`pendingScroll, this`marks, cells, display`dirty, display.back`scrollOffset,
        display.back.data
      ensures Base() && Drawn() && pendingScroll == 0 && x == next
      ensures SameGrid(AsText(), Wiped(size, t, next)) == true
    {
      while x < next
        invariant Base() && Drawn() == true && t.x <= x <= next && y == t.y
        invariant x > t.x ==> pendingScroll == 0
        invariant SameGrid(AsText(), Wiped(size, t, x)) == true
      {
        ClearNext(t);
        x := (x + 1) % 256;
      }
    }

    // The end of a line and the end of the screen.
    method Settle()
      requires Base() && x <= size.cols && y <= size.rows && (x == size.cols ==> y < size.rows)
      requires pendingScroll + 1 < LAG_LIMIT
      modifies this`x, this`y, this`pendingScroll
      ensures Valid()
      ensures Settled(size, old(x), old(y), old(pendingScroll), x, y, pendingScroll)
    {
      NoWrap(size, y, pendingScroll);
      if x >= size.cols {
        y := (y + 1) % 256;
        x := 0;
      }
      if y >= size.rows {
        pendingScroll := (pendingScroll + (y - size.rows + 1)) % U32;
        y := (size.rows - 1) % 256;
      }
    }

    method PutChar(ch: byte)
      requires Valid() && Drawn() && pendingScroll + 1 < LAG_LIMIT
      modifies this`x, this`y, this`pendingScroll, this`marks, cells, display`dirty, display.back`scrollOffset,
        display.back.data
      ensures Valid() && Drawn() && size.Holds(old(AsText()))
      ensures AsText() == Put(size, old(AsText()), ch)
      ensures pendingScroll == Lag(size, old(AsText()), old(pendingScroll), ch)
    {
      if ch == NEWLINE {
        PutNewline();
      } else if ch == BACKSPACE || ch == DELETE {
        Rub(ch);
      } else if ch == TAB {
        PutTab();
      } else {
        PutGlyph(ch);
      }
    }

    method PutNewline()
      requires Valid() && Drawn() && pendingScroll + 1 < LAG_LIMIT
      modifies this`x, this`y, this`pendingScroll
      ensures Valid() && Drawn() && size.Holds(old(AsText()))
      ensures AsText() == Put(size, old(AsText()), NEWLINE)
      ensures pendingScroll == Lag(size, old(AsText()), old(pendingScroll), NEWLINE)
    {
      ghost var x0, y0, k := x, y, pendingScroll;
      y := (y + 1) % 256;
      x := 0;
      Settle();
      NewlineText(size, cells[..], marks, x0, y0, k, x, y, pendingScroll);
    }

    method Rub(ch: byte)
      requires Valid() && Drawn() && (ch == BACKSPACE || ch == DELETE) && pendingScroll + 1 < LAG_LIMIT
      modifies this`x, this`y, this`pendingScroll, this`marks, cells, display`dirty, display.back`scrollOffset,
        display.back.data
      ensures Valid() && Drawn() && size.Holds(old(AsText()))
      ensures AsText() == Put(size, old(AsText()), ch)
      ensures pendingScroll == Lag(size, old(AsText()), old(pendingScroll), ch)
    {
      CaughtHolds(size, cells[..], marks, pendingScroll, x, y);
      if ch == BACKSPACE {
        if x > 0 {
          x := x - 1;
        } else if y > 0 {
          y := y - 1;
          x := (size.cols - 1) % 256;
        }
      }
      ClearCell(x, y);
      ghost var t := Text(cells[..], x, y, marks);
      Settle();
      DrawnText(size, t, t.x, x, y, pendingScroll);
    }

    method PutTab()
      requires Valid() && Drawn() && pendingScroll + 1 < LAG_LIMIT
      modifies this`x, this`y, this`pendingScroll, this`marks, cells, display`dirty, display.back`scrollOffset,
        display.back.data
      ensures Valid() && Drawn() && size.Holds(old(AsText()))
      ensures AsText() == Put(size, old(AsText()), TAB)
      ensures pendingScroll == Lag(size, old(AsText()), old(pendingScroll), TAB)
    {
      CaughtHolds(size, cells[..], marks, pendingScroll, x, y);
      var next := (x + 8) / 8 * 8 % 256;
      if next >= size.cols { next := size.cols % 256; }
      TabFits(size, x);
      ghost var t := Wiped(size, AsText(), next);
      ClearToTab(next);
      Settle();
      DrawnText(size, t, next, x, y, pendingScroll);
    }

    method PutGlyph(ch: byte)
      requires Valid() && Drawn() && ch !in {NEWLINE, BACKSPACE, DELETE, TAB} && pendingScroll + 1 < LAG_LIMIT
      modifies this`x, this`y, this`pendingScroll, this`marks, cells, display`dirty, display.back`scrollOffset,
        display.back.data
      ensures Valid() && Drawn() && size.Holds(old(AsText()))
      ensures AsText() == Put(size, old(AsText()), ch)
      ensures pendingScroll == Lag(size, old(AsText()), old(pendingScroll), ch)
    {
      CaughtHolds(size, cells[..], marks, pendingScroll, x, y);
      DrawGlyph(ch, x, y);
      ghost var t := Text(cells[..], x, y, marks);
      x := (x + 1) % 256;
      Settle();
      DrawnText(size, t, t.x + 1, x, y, pendingScroll);
    }

    // The whole grid in the background colour; the rest of the picture already is.
    method ClearPicture()
      requires Base() && Drawn()
      modifies display`dirty, display.back.data
      ensures Base()
      ensures forall px, py | 0 <= px < display.back.shape.width && 0 <= py < display.back.shape.height ::
        display.back.At(px, py) == bg
    {
      display.FillRect(0, 0, size.cols * FONT_WIDTH, size.rows * FONT_HEIGHT, bg);
      forall px: nat, py: nat ensures px < size.cols * FONT_WIDTH && py < size.rows * FONT_HEIGHT
        <==> px / 8 < size.cols && py / 16 < size.rows {
        InGrid(size, px, py);
      }
    }

    method Clear()
      requires Valid() && Drawn()
      modifies this`x, this`y, this`pendingScroll, this`marks, cells, display`dirty, display.back.data
      ensures Valid() && Drawn() && pendingScroll == 0 && size.Holds(old(AsText()))
      ensures AsText() == Cleared(size, old(AsText()))
    {
      CaughtHolds(size, cells[..], marks, pendingScroll, x, y);
      ClearPicture();
      pendingScroll := 0;
      marks := {};
      RowIs(size, size.rows);
      Mem.Set(cells, 0, SPACE, size.rows * size.cols);
      x := 0;
      y := 0;
      assert cells[..] == Blank(size.Area());
      forall px, py | 0 <= px < display.back.shape.width && 0 <= py < display.back.shape.height
        ensures display.back.At(px, py) == Shaded(Style(), size, cells[..], marks, px, py)
      {
        BlankFace(Style(), size, px, py);
      }
      CaughtUp(size, cells[..], marks, 0, 0);
    }

    // The cell under the cursor in exchanged colours.
    method DrawCursor()
      requires Valid() && Drawn()
      modifies this`pendingScroll, this`marks, cells, display`dirty, display.back`scrollOffset, display.back.data
      ensures Valid() && Drawn() && pendingScroll == 0 && display.dirty
      ensures AsText() == old(AsText()).(marks := old(AsText()).marks + {(x, y)})
    {
      FlushScroll();
      InkCursor(true);
      CaughtUp(size, cells[..], marks, x, y);
    }

    // The cell under the cursor marked or not.
    method InkCursor(on: bool)
      requires Valid() && Drawn()
      modifies this`marks, display`dirty, display.back.data
      ensures Valid() && Drawn() && display.dirty && marks == if on then old(marks) + {(x, y)}
        else old(marks) - {(x, y)}
    {
      var ch := CellAt(x, y);
      ghost var before := marks;
      marks := if on then marks + {(x, y)} else marks - {(x, y)};
      Ink(ch, x, y, if on then bg else fg, if on then fg else bg);
      forall px, py | 0 <= px < display.back.shape.width && 0 <= py < display.back.shape.height
        ensures display.back.At(px, py) == Shaded(Style(), size, cells[..], marks, px, py)
      {
        ShadedInCell(Style(), size, cells[..], before, x, y, ch, on, px, py);
      }
    }

    method EraseCursor()
      requires Valid() && Drawn()
      modifies this`pendingScroll, this`marks, cells, display`dirty, display.back`scrollOffset, display.back.data
      ensures Valid() && Drawn() && pendingScroll == 0
      ensures AsText() == old(AsText()).(marks := old(AsText()).marks - {(x, y)})
    {
      FlushScroll();
      InkCursor(false);
      CaughtUp(size, cells[..], marks, x, y);
    }

    // The monitor shows the picture of the eager terminal, cursor and all.
    ghost predicate OnScreen(t: Text)
      requires Valid() && size.Holds(t)
      reads this, display, display.back, display.framebuffer
    {
      forall px, py | 0 <= px < display.back.shape.width && 0 <= py < display.back.shape.height ::
        display.Shown(px, py) == Picture(Style(), size, t, px, py)
    }

    // The cursor drawn and the framebuffer updated.
    method ShowCursor()
      requires Valid() && Drawn()
      modifies this`pendingScroll, this`marks, cells, display`dirty, display.back`scrollOffset, display.back.data,
        display.framebuffer
      ensures Valid() && Drawn() && pendingScroll == 0 && size.Holds(old(AsText()))
      ensures AsText() == old(AsText()).(marks := old(AsText()).marks + {(x, y)})
      ensures OnScreen(old(AsText()))
    {
      CaughtHolds(size, cells[..], marks, pendingScroll, x, y);
      ghost var t := AsText();
      DrawCursor();
      CaughtUp(size, cells[..], marks, x, y);
      display.Flush();
    }

    // A flush request: cursor drawn, framebuffer updated, cursor removed from the back buffer.
    method Flush()
      requires Valid() && Drawn()
      modifies this`pendingScroll, this`marks, cells, display`dirty, display.back`scrollOffset, display.back.data,
        display.framebuffer
      ensures Valid() && Drawn() && pendingScroll == 0 && size.Holds(old(AsText()))
      ensures AsText() == Apply(size, old(AsText()), TextGrid.Flush) && OnScreen(old(AsText()))
    {
      ghost var t := AsText();
      ShowCursor();
      ghost var shown := AsText();
      label drawn:
      EraseCursor();
      forall px, py | 0 <= px < display.back.shape.width && 0 <= py < display.back.shape.height
        ensures display.Shown(px, py) == old@drawn(display.Shown(px, py)) {}
      Unshown(t, shown, AsText());
    }

    method ServeOne(op: Op)
      requires Valid() && Drawn() && pendingScroll + 1 < LAG_LIMIT && Allowed(size, op)
      modifies this`x, this`y, this`pendingScroll, this`marks, cells, display`dirty, display.back`scrollOffset,
        display.back.data, display.framebuffer
      ensures Valid() && Drawn() && size.Holds(old(AsText()))
      ensures AsText() == Apply(size, old(AsText()), op)
      ensures pendingScroll == LagAfter(size, old(AsText()), old(pendingScroll), op)
    {
      match op
      case Char(ch) => PutChar(ch);
      case Clear => Clear();
      case SetCursor(col, row) => SetCursor(col, row);
      case Flush => Flush();
    }

    method SetCursor(col: nat, row: nat)
      requires Valid() && Drawn() && col < size.cols && row < size.rows
      modifies this`x, this`y
      ensures Valid() && Drawn() && size.Holds(old(AsText()))
      ensures AsText() == old(AsText()).(x := col, y := row) && pendingScroll == old(pendingScroll)
    {
      x, y := col, row;
    }

    // Any sequence of requests leaves the text an eager terminal would have, and flushing shows it.
    method Serve(ops: seq<Op>)
      requires Valid() && Drawn() && size.Holds(AsText()) && LagBelow(size, AsText(), pendingScroll, ops, LAG_LIMIT - 1)
      requires AllAllowed(size, ops)
      modifies this`x, this`y, this`pendingScroll, this`marks, cells, display`dirty, display.back`scrollOffset,
        display.back.data, display.framebuffer
      ensures Valid() && Drawn() && size.Holds(old(AsText()))
      ensures AsText() == Apply(size, ApplyAll(size, old(AsText()), ops), TextGrid.Flush)
      ensures OnScreen(ApplyAll(size, old(AsText()), ops))
    {
      Serving(ops);
      Flush();
    }

    method Serving(ops: seq<Op>)
      requires Valid() && Drawn() && size.Holds(AsText()) && LagBelow(size, AsText(), pendingScroll, ops, LAG_LIMIT - 1)
      requires AllAllowed(size, ops)
      modifies this`x, this`y, this`pendingScroll, this`marks, cells, display`dirty, display.back`scrollOffset,
        display.back.data, display.framebuffer
      ensures Valid() && Drawn() && size.Holds(old(AsText())) && AsText() == ApplyAll(size, old(AsText()), ops)
    {
      ghost var t := AsText();
      var i := 0;
      assert ops[0..] == ops;
      while i < |ops|
        invariant 0 <= i <= |ops| && Valid() && Drawn() && size.Holds(AsText())
        invariant LagBelow(size, AsText(), pendingScroll, ops[i..], LAG_LIMIT - 1)
        invariant ApplyAll(size, t, ops) == ApplyAll(size, AsText(), ops[i..])
      {
        assert ops[i..][0] == ops[i] && ops[i..][1..] == ops[i + 1..];
        ServeOne(ops[i]);
        i := i + 1;
      }
    }

    // The start of the service: a greeting, then the cursor drawn and shown, and left drawn.
    method Greet(welcome: seq<Op>)
      requires Valid() && Drawn() && size.Holds(AsText()) && AsText().marks == {}
      requires LagBelow(size, AsText(), pendingScroll, welcome, LAG_LIMIT - 1) && AllAllowed(size, welcome)
      modifies this`x, this`y, this`pendingScroll, this`marks, cells, display`dirty, display.back`scrollOffset,
        display.back.data, display.framebuffer
      ensures Valid() && Drawn() && size.Holds(old(AsText()))
      ensures AsText() == Greeted(size, old(AsText()), welcome) && OnScreen(ApplyAll(size, old(AsText()), welcome))
    {
      MarksOnlyFade(size, AsText(), welcome);
      Serving(welcome);
      ShowCursor();
    }
  }

  // Marking the cursor and taking the mark off again.
  lemma Unshown(t: Text, shown: Text, r: Text)
    requires shown == t.(marks := t.marks + {t.Cursor()}) && r == shown.(marks := shown.marks - {t.Cursor()})
    ensures r == t.(marks := t.marks - {t.Cursor()})
  {
  }

  // The text after a greeting, its cursor left drawn.
  function Greeted(z: Size, t: Text, welcome: seq<Op>): Text
    requires z.Holds(t)
  {
    var r := ApplyAll(z, t, welcome);
    r.(marks := {r.Cursor()})
  }

  lemma BlankFace(l: Look, z: Size, px: nat, py: nat)
    requires BlankSpace(l.font)
    ensures Face(l, z, Blank(z.Area()), px, py) == l.bg
  {
    if px / 8 < z.cols && py / 16 < z.rows { CellInside(z, px / 8, py / 16); }
  }

  lemma InGrid(z: Size, px: nat, py: nat)
    ensures px / 8 < z.cols <==> px < z.cols * 8
    ensures py / 16 < z.rows <==> py < z.rows * 16
  {
  }

  // What a pixel shows once the picture has been moved up by so many pixels.
  function Shifted(l: Look, z: Size, cells: seq<byte>, marks: set<Spot>, pixels: nat, height: nat, px: nat,
      py: nat): Color
    requires |cells| == z.Area()
  {
    if py + pixels < height then Shaded(l, z, cells, marks, px, py + pixels) else l.bg
  }

  // Moving the picture up by that many pixels shows the grid moved up by k rows.
  ghost predicate ShowsUp(l: Look, z: Size, cells: seq<byte>, marks: set<Spot>, pixels: nat, k: nat, height: nat) {
    |cells| == z.Area() && forall px: nat, py: nat | py < height ::
      Shifted(l, z, cells, marks, pixels, height, px, py) == Shaded(l, z, Up(z, cells, k), Raised(marks, k), px, py)
  }

  ghost predicate BlankFrom(l: Look, z: Size, cells: seq<byte>, marks: set<Spot>, pixels: nat, height: nat)
    requires |cells| == z.Area()
  {
    forall px: nat, py: nat | pixels <= py < height :: Shaded(l, z, cells, marks, px, py) == l.bg
  }

  lemma AllScrolledOut(l: Look, z: Size, cells: seq<byte>, marks: set<Spot>, k: nat, px: nat, py: nat)
    requires |cells| == z.Area() && BlankSpace(l.font) && z.Inside(marks) && z.rows <= k
    ensures Shaded(l, z, Up(z, cells, k), Raised(marks, k), px, py) == l.bg
  {
    InRaised(marks, k, px / 8, py / 16);
    BlankFace(l, z, px, py);
  }

  // Whatever number of rows has been put off, the pixel count sent to the display, cut to 32
  // bits, gives the right picture exactly when it is below 2^28, or when the rows that stay
  // visible are blank already.
  lemma LagIff(l: Look, z: Size, cells: seq<byte>, marks: set<Spot>, k: nat, height: nat)
    requires |cells| == z.Area() && BlankSpace(l.font) && z.Inside(marks)
    requires z.rows == height / 16 && z.rows <= MAX_ROWS
    ensures ShowsUp(l, z, cells, marks, 16 * k % 0x1_0000_0000, k, height)
       <==> k < LAG_LIMIT || BlankFrom(l, z, cells, marks, 16 * k % 0x1_0000_0000, height)
  {
    var w := 16 * k % 0x1_0000_0000;
    if k < LAG_LIMIT {
      assert w == 16 * k;
      forall px: nat, py: nat | py < height
        ensures Shifted(l, z, cells, marks, w, height, px, py)
          == Shaded(l, z, Up(z, cells, k), Raised(marks, k), px, py)
      {
        ShadedScrolls(l, z, cells, marks, k, height, px, py);
      }
    } else {
      forall px: nat, py: nat ensures Shaded(l, z, Up(z, cells, k), Raised(marks, k), px, py) == l.bg {
        AllScrolledOut(l, z, cells, marks, k, px, py);
      }
      if ShowsUp(l, z, cells, marks, w, k, height) {
        forall px: nat, py: nat | w <= py < height ensures Shaded(l, z, cells, marks, px, py) == l.bg {
          assert Shifted(l, z, cells, marks, w, height, px, py - w) == l.bg;
        }
      }
    }
  }
}
