// An eager character terminal, its picture, and how both scroll.
module TextGrid {
  import opened Bytes
  import opened Gfx
  import opened Mem

  const NEWLINE: byte := 10
  const BACKSPACE: byte := 8
  const TAB: byte := 9
  const DELETE: byte := 127
  const SPACE: byte := 32

  // A column and a row of the grid.
  type Spot = (nat, nat)

  // A grid of characters, row by row, the cursor, and the cells shown in exchanged colours.
  datatype Text = Text(cells: seq<byte>, x: nat, y: nat, marks: set<Spot>) {
    function Cursor(): Spot { (x, y) }
  }

  datatype Size = Size(cols: nat, rows: nat) {
    // Cells before row y, in the grid, and at a column and row.
    function Row(y: nat): nat { if y == 0 then 0 else Row(y - 1) + cols }

    function Area(): nat { Row(rows) }

    function At(x: nat, y: nat): nat { Row(y) + x }

    ghost predicate Holds(t: Text) { |t.cells| == Area() && t.x < cols && t.y < rows && Inside(t.marks) }

    ghost predicate Inside(marks: set<Spot>) { forall m | m in marks :: m.0 < cols && m.1 < rows }
  }

  function Blank(n: nat): (r: seq<byte>)
    ensures |r| == n && forall i :: 0 <= i < n ==> r[i] == SPACE
  {
    seq(n, _ => SPACE)
  }

  lemma {:induction false} RowIs(z: Size, y: nat)
    ensures z.Row(y) == y * z.cols
  {
    if y > 0 {
      RowIs(z, y - 1);
      assert y * z.cols == (y - 1) * z.cols + z.cols;
    }
  }

  lemma {:induction false} RowSum(z: Size, a: nat, b: nat)
    ensures z.Row(a + b) == z.Row(a) + z.Row(b)
  {
    if b > 0 { RowSum(z, a, b - 1); }
  }

  lemma RowsApart(z: Size, r: nat, s: nat)
    requires r < s
    ensures z.Row(r) + z.cols <= z.Row(s)
  {
    RowSum(z, r + 1, s - (r + 1));
  }

  lemma CellInside(z: Size, x: nat, y: nat)
    requires x < z.cols && y < z.rows
    ensures z.At(x, y) < z.Area()
  {
    RowsApart(z, y, z.rows);
  }

  lemma RowsInside(z: Size, k: nat)
    requires k <= z.rows
    ensures z.Row(k) <= z.Area() && z.Row(z.rows - k) + z.Row(k) == z.Area()
  {
    RowSum(z, z.rows - k, k);
  }

  // ---- The eager terminal ----

  // Up by k lines, blanks coming in below.
  function Up(z: Size, cells: seq<byte>, k: nat): (r: seq<byte>)
    requires |cells| == z.Area()
    ensures |r| == |cells|
  {
    if k >= z.rows then Blank(|cells|)
    else
      RowsInside(z, k);
      cells[z.Row(k)..] + Blank(z.Row(k))
  }

  function Raised(marks: set<Spot>, k: nat): set<Spot> {
    set m | m in marks && m.1 >= k :: (m.0, m.1 - k)
  }

  lemma InRaised(marks: set<Spot>, k: nat, x: nat, y: nat)
    ensures (x, y) in Raised(marks, k) <==> (x, y + k) in marks
  {
    var m := (x, y + k);
    assert m in marks ==> (m.0, m.1 - k) in Raised(marks, k);
  }

  function Erased(z: Size, t: Text, x: nat, y: nat): (r: Text)
    requires z.Holds(t) && x < z.cols && y < z.rows
    ensures z.Holds(r)
  {
    CellInside(z, x, y);
    Text(t.cells[z.At(x, y) := SPACE], x, y, t.marks - {(x, y)})
  }

  // To the start of the next line, scrolling at the bottom.
  function Feed(z: Size, t: Text): (r: Text)
    requires z.Holds(t)
    ensures z.Holds(r)
  {
    if t.y + 1 < z.rows then t.(x := 0, y := t.y + 1)
    else Text(Up(z, t.cells, 1), 0, t.y, Raised(t.marks, 1))
  }

  function To(z: Size, t: Text, x: nat): (r: Text)
    requires z.Holds(t)
    ensures z.Holds(r)
  {
    if x < z.cols then t.(x := x) else Feed(z, t)
  }

  function TabStop(z: Size, x: nat): (r: nat)
    requires x < z.cols
    ensures x < r <= z.cols
  {
    if x / 8 * 8 + 8 < z.cols then x / 8 * 8 + 8 else z.cols
  }

  // The cursor's line blanked from the cursor up to a column.
  function Wiped(z: Size, t: Text, to: nat): (r: Text)
    requires z.Holds(t) && t.x <= to <= z.cols
    ensures z.Holds(r)
  {
    RowsApart(z, t.y, z.rows);
    Text(Filled(t.cells, z.At(t.x, t.y), SPACE, to - t.x), t.x, t.y, Unmarked(t.marks, t.x, to, t.y))
  }

  // Marks other than those in columns from .. to of row y.
  function Unmarked(marks: set<Spot>, from: nat, to: nat, y: nat): set<Spot> {
    set m | m in marks && !(m.1 == y && from <= m.0 < to)
  }

  function Put(z: Size, t: Text, ch: byte): (r: Text)
    requires z.Holds(t)
    ensures z.Holds(r)
  {
    if ch == NEWLINE then Feed(z, t)
    else if ch == BACKSPACE then
      if t.x > 0 then Erased(z, t, t.x - 1, t.y)
      else if t.y > 0 then Erased(z, t, z.cols - 1, t.y - 1)
      else Erased(z, t, 0, 0)
    else if ch == DELETE then Erased(z, t, t.x, t.y)
    else if ch == TAB then To(z, Wiped(z, t, TabStop(z, t.x)), TabStop(z, t.x))
    else
      CellInside(z, t.x, t.y);
      To(z, t.(cells := t.cells[z.At(t.x, t.y) := ch], marks := t.marks - {t.Cursor()}), t.x + 1)
  }

  function Cleared(z: Size, t: Text): (r: Text)
    requires z.Holds(t)
    ensures z.Holds(r)
  {
    Text(Blank(|t.cells|), 0, 0, {})
  }

  // Scrolling twice is scrolling once by the sum.
  lemma UpTwice(z: Size, cells: seq<byte>, j: nat, k: nat)
    requires |cells| == z.Area()
    ensures Up(z, Up(z, cells, j), k) == Up(z, cells, j + k)
  {
    if j < z.rows && k < z.rows {
      RowsInside(z, j);
      RowsInside(z, k);
      RowSum(z, j, k);
      if j + k < z.rows { RowsInside(z, j + k); } else { Beyond(z, j + k); }
    }
  }

  lemma RaisedTwice(marks: set<Spot>, j: nat, k: nat)
    ensures Raised(Raised(marks, j), k) == Raised(marks, j + k) && Raised(marks, 0) == marks
  {
    forall m: Spot ensures m in Raised(Raised(marks, j), k) <==> m in Raised(marks, j + k) {
      InRaised(Raised(marks, j), k, m.0, m.1);
      InRaised(marks, j, m.0, m.1 + k);
      InRaised(marks, j + k, m.0, m.1);
      assert m.1 + k + j == m.1 + (j + k);
    }
    forall m: Spot ensures m in Raised(marks, 0) <==> m in marks { InRaised(marks, 0, m.0, m.1); }
  }

  lemma Beyond(z: Size, k: nat)
    requires k >= z.rows
    ensures z.Row(k) >= z.Area()
  {
    if k > z.rows { RowsApart(z, z.rows, k); }
  }

  // ---- The picture ----

  datatype Look = Look(font: Font, fg: Color, bg: Color)

  ghost predicate BlankSpace(font: Font) {
    forall x, y | 0 <= x < 8 && 0 <= y < 16 :: !font[SPACE][y][x]
  }

  // Pixel (px, py) of the picture of a grid: its cell's glyph, or background outside the grid.
  function Face(k: Look, z: Size, cells: seq<byte>, px: nat, py: nat): Color
    requires |cells| == z.Area()
  {
    if px / 8 < z.cols && py / 16 < z.rows then
      CellInside(z, px / 8, py / 16);
      Inked(k.font, cells[z.At(px / 8, py / 16)], px % 8, py % 16, k.fg, k.bg)
    else k.bg
  }

  function Swapped(l: Look): Look { Look(l.font, l.bg, l.fg) }

  // The same with the marked cells in exchanged colours.
  function Shaded(l: Look, z: Size, cells: seq<byte>, marks: set<Spot>, px: nat, py: nat): Color
    requires |cells| == z.Area()
  {
    Face(if (px / 8, py / 16) in marks then Swapped(l) else l, z, cells, px, py)
  }

  // What is to be seen of a text: the cell under the cursor is marked as well.
  function Picture(l: Look, z: Size, t: Text, px: nat, py: nat): Color
    requires z.Holds(t)
  {
    Shaded(l, z, t.cells, t.marks + {t.Cursor()}, px, py)
  }

  // Moving the picture up by k character rows gives the picture of the grid moved up by k.
  lemma PictureScrolls(l: Look, z: Size, cells: seq<byte>, k: nat, height: nat, px: nat, py: nat)
    requires |cells| == z.Area() && BlankSpace(l.font) && z.rows == height / 16 && py < height
    ensures Face(l, z, Up(z, cells, k), px, py) == if py + 16 * k < height then Face(l, z, cells, px, py + 16 * k)
      else l.bg
  {
    var r, c := py / 16, px / 8;
    assert (py + 16 * k) / 16 == r + k && (py + 16 * k) % 16 == py % 16;
    if r < z.rows && c < z.cols {
      CellInside(z, c, r);
      var i := z.At(c, r);
      if k >= z.rows || r + k >= z.rows {
        if k < z.rows { LateRow(z, c, r, k); }
        assert Up(z, cells, k)[i] == SPACE;
      } else {
        RowsInside(z, k);
        CellInside(z, c, r + k);
        RowSum(z, r, k);
        assert Up(z, cells, k)[i] == cells[i + z.Row(k)];
      }
    }
  }

  lemma ShadedScrolls(l: Look, z: Size, cells: seq<byte>, marks: set<Spot>, k: nat, height: nat, px: nat, py: nat)
    requires |cells| == z.Area() && z.Inside(marks) && BlankSpace(l.font) && z.rows == height / 16 && py < height
    ensures Shaded(l, z, Up(z, cells, k), Raised(marks, k), px, py) ==
            if py + 16 * k < height then Shaded(l, z, cells, marks, px, py + 16 * k) else l.bg
  {
    var m := (px / 8, py / 16);
    assert (py + 16 * k) / 16 == py / 16 + k;
    InRaised(marks, k, px / 8, py / 16);
    if (px / 8, py / 16 + k) in marks { RowShown(py, k, height); }
    PictureScrolls(if m in Raised(marks, k) then Swapped(l) else l, z, cells, k, height, px, py);
  }

  lemma RowShown(py: nat, k: nat, height: nat)
    requires py / 16 + k < height / 16
    ensures py + 16 * k < height
  {
  }

  lemma LateRow(z: Size, c: nat, r: nat, k: nat)
    requires c < z.cols && r < z.rows && k < z.rows <= r + k
    ensures z.Row(k) <= z.Area() && z.At(c, r) >= z.Area() - z.Row(k)
  {
    RowsInside(z, k);
    Beyond(z, r + k);
    RowSum(z, r, k);
  }

  // Where a cell's pixels are.
  lemma CellPixels(px: nat, py: nat, x: nat, y: nat)
    ensures 8 * x <= px < 8 * x + 8 <==> px / 8 == x
    ensures 16 * y <= py < 16 * y + 16 <==> py / 16 == y
    ensures px / 8 == x ==> px - 8 * x == px % 8
    ensures py / 16 == y ==> py - 16 * y == py % 16
  {
  }

  lemma CellsDistinct(z: Size, x: nat, y: nat, v: nat, w: nat)
    requires x < z.cols && v < z.cols
    ensures z.At(x, y) == z.At(v, w) <==> x == v && y == w
  {
    if y < w { RowsApart(z, y, w); } else if w < y { RowsApart(z, w, y); }
  }

  // Writing a cell changes the picture in that cell's 8 by 16 pixels only.
  lemma FaceAfterWrite(l: Look, z: Size, cells: seq<byte>, x: nat, y: nat, ch: byte, px: nat, py: nat)
    requires |cells| == z.Area() && x < z.cols && y < z.rows
    ensures z.At(x, y) < |cells|
    ensures Face(l, z, cells[z.At(x, y) := ch], px, py) ==
            if px / 8 == x && py / 16 == y then Inked(l.font, ch, px % 8, py % 16, l.fg, l.bg)
              else Face(l, z, cells, px, py)
  {
    CellInside(z, x, y);
    if px / 8 < z.cols && py / 16 < z.rows {
      CellInside(z, px / 8, py / 16);
      CellsDistinct(z, x, y, px / 8, py / 16);
    }
  }

  lemma ShadedAfterWrite(l: Look, z: Size, cells: seq<byte>, marks: set<Spot>, x: nat, y: nat, ch: byte, px: nat,
      py: nat)
    requires |cells| == z.Area() && x < z.cols && y < z.rows
    ensures z.At(x, y) < |cells|
    ensures Shaded(l, z, cells[z.At(x, y) := ch], marks - {(x, y)}, px, py) ==
            if px / 8 == x && py / 16 == y then Inked(l.font, ch, px % 8, py % 16, l.fg, l.bg)
              else Shaded(l, z, cells, marks, px, py)
  {
    FaceAfterWrite(l, z, cells, x, y, ch, px, py);
    FaceAfterWrite(Swapped(l), z, cells, x, y, ch, px, py);
  }

  // ---- Lag ----

  // Lines still to be scrolled after a character, when lag were before it: everything but a
  // newline draws, and so catches up first.
  function Lag(z: Size, t: Text, lag: nat, ch: byte): nat
    requires z.Holds(t)
  {
    (if ch == NEWLINE then lag else 0) + if Scrolls(z, t, ch) then 1 else 0
  }

  // The character takes the cursor past the last line.
  predicate Scrolls(z: Size, t: Text, ch: byte)
    requires z.Holds(t)
  {
    && t.y + 1 == z.rows && ch != BACKSPACE && ch != DELETE
    && (ch == NEWLINE || (if ch == TAB then TabStop(z, t.x) else t.x + 1) == z.cols)
  }

  datatype Op = Char(ch: byte) | Clear | SetCursor(col: nat, row: nat) | Flush

  // A request puts the cursor nowhere but into the grid.
  predicate Allowed(z: Size, op: Op) { op.SetCursor? ==> op.col < z.cols && op.row < z.rows }

  predicate AllAllowed(z: Size, ops: seq<Op>) { forall i | 0 <= i < |ops| :: Allowed(z, ops[i]) }

  function Apply(z: Size, t: Text, op: Op): (r: Text)
    requires z.Holds(t)
    ensures z.Holds(r)
  {
    match op
    case Char(ch) => Put(z, t, ch)
    case Clear => Cleared(z, t)
    case SetCursor(col, row) => if Allowed(z, op) then t.(x := col, y := row) else t
    case Flush => t.(marks := t.marks - {t.Cursor()})
  }

  function LagAfter(z: Size, t: Text, lag: nat, op: Op): nat
    requires z.Holds(t)
  {
    match op
    case Char(ch) => Lag(z, t, lag, ch)
    case Clear => 0
    case SetCursor(_, _) => lag
    case Flush => 0
  }

  function ApplyAll(z: Size, t: Text, ops: seq<Op>): (r: Text)
    requires z.Holds(t)
    ensures z.Holds(r)
    decreases |ops|
  {
    if ops == [] then t else ApplyAll(z, Apply(z, t, ops[0]), ops[1..])
  }

  // The lag never reaches limit on the way.
  predicate LagBelow(z: Size, t: Text, lag: nat, ops: seq<Op>, limit: nat)
    requires z.Holds(t)
    decreases |ops|
  {
    lag < limit && (ops == [] || LagBelow(z, Apply(z, t, ops[0]), LagAfter(z, t, lag, ops[0]), ops[1..], limit))
  }

  // It never does in fewer than limit steps.
  lemma {:induction false} ShortRunsKeepUp(z: Size, t: Text, lag: nat, ops: seq<Op>, limit: nat)
    requires z.Holds(t) && lag + |ops| < limit
    ensures LagBelow(z, t, lag, ops, limit)
    decreases |ops|
  {
    if ops != [] { ShortRunsKeepUp(z, Apply(z, t, ops[0]), LagAfter(z, t, lag, ops[0]), ops[1..], limit); }
  }

  // Nothing adds marks: a text without any stays so.
  lemma {:induction false} MarksOnlyFade(z: Size, t: Text, ops: seq<Op>)
    requires z.Holds(t) && t.marks == {}
    ensures ApplyAll(z, t, ops).marks == {}
    decreases |ops|
  {
    if ops != [] {
      assert Raised({}, 1) == {} by { RaisedNone(1); }
      MarksOnlyFade(z, Apply(z, t, ops[0]), ops[1..]);
    }
  }

  lemma RaisedNone(k: nat)
    ensures Raised({}, k) == {}
  {
  }

  // The request redraws the cell under the cursor, or scrolls it away.
  predicate Redraws(z: Size, t: Text, op: Op) {
    match op
    case Char(ch) => if ch == NEWLINE then z.rows == 1 else ch == BACKSPACE ==> t.x == 0 && t.y == 0
    case Clear => true
    case SetCursor(_, _) => false
    case Flush => true
  }

  // A cursor left drawn, as the service leaves it after its greeting, is gone after the first
  // request exactly when that request redraws its cell.
  lemma StrayCursor(z: Size, t: Text, op: Op)
    requires z.Holds(t) && t.marks == {t.Cursor()}
    ensures Apply(z, t, op).marks == {} <==> Redraws(z, t, op)
  {
    assert (t.x, t.y) in t.marks;
    if op.Char? && op.ch == NEWLINE {
      if t.y + 1 == z.rows {
        RaisedOne(t.x, t.y);
      }
    } else if op.Char? && op.ch == TAB {
      assert TabStop(z, t.x) > t.x;
      assert Unmarked(t.marks, t.x, TabStop(z, t.x), t.y) == {};
      RaisedNone(1);
    } else {
      RaisedNone(1);
    }
  }

  lemma RaisedOne(x: nat, y: nat)
    ensures Raised({(x, y)}, 1) == {} <==> y == 0
  {
    if y > 0 { InRaised({(x, y)}, 1, x, y - 1); }
  }
}
