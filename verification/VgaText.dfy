/**
 The VGA text driver: a 25x80 buffer scrolled in place, proved to show the last
 25 rows of an unbounded page.  The page is then proved to be the plain layout of the text:
 split at newlines, each line wrapped at 80 columns.
 */
module VgaText {
  import opened Collections
  import opened Types

  const HEIGHT: nat := 25
  const WIDTH: nat := 80
  const NEWLINE: Byte := 10
  const BLANK: Byte := 0x20
  const UNPRINTABLE: Byte := 0xfe

  type Color = Byte

  datatype Cell = Cell(ch: Byte, color: Color)

  // ---------------------------------------------------------------- the unbounded page

  /** Written cells of a row, and what the rest of it shows. */
  datatype Row = Row(text: seq<Cell>, back: seq<Cell>)

  /** The rows written so far, and what the screen showed before the first of them. */
  datatype Page = Page(rows: seq<Row>, base: seq<seq<Cell>>)

  ghost predicate PageOk(p: Page) {
    p.rows != [] && forall r :: 0 <= r < |p.rows| ==> |p.rows[r].text| <= WIDTH
  }

  function Last(p: Page): Row
    requires p.rows != []
  {
    p.rows[|p.rows| - 1]
  }

  function Blanks(color: Color): seq<Cell> {
    seq(WIDTH, _ => Cell(BLANK, color))
  }

  /** What row r of the screen showed at first. */
  function BaseRow(p: Page, r: nat): seq<Cell> {
    if r < |p.base| then p.base[r] else []
  }

  function CellIn(row: seq<Cell>, c: nat): Cell {
    if c < |row| then row[c] else Cell(BLANK, 0)
  }

  /** Rows that fit the screen keep what it shows, scrolled-in rows are blank in the current colour. */
  function BreakLine(p: Page, color: Color): Page {
    p.(rows := p.rows + [Row([], if |p.rows| < HEIGHT then BaseRow(p, |p.rows|) else Blanks(color))])
  }

  function PutChar(p: Page, cell: Cell): Page
    requires p.rows != []
  {
    p.(rows := p.rows[|p.rows| - 1 := Row(Last(p).text + [cell], Last(p).back)])
  }

  function PutByte(p: Page, color: Color, b: Byte): Page
    requires p.rows != []
  {
    if b == NEWLINE then BreakLine(p, color)
    else PutChar(if |Last(p).text| >= WIDTH then BreakLine(p, color) else p, Cell(b, color))
  }

  function PutBytes(p: Page, color: Color, s: seq<Byte>): (q: Page)
    requires p.rows != []
    ensures q.rows != []
    decreases |s|
  {
    if s == [] then p else PutByte(PutBytes(p, color, s[..|s| - 1]), color, s[|s| - 1])
  }

  /** Nothing written yet on a screen that shows this. */
  function Fresh(base: seq<seq<Cell>>): Page {
    Page([Row([], if base == [] then [] else base[0])], base)
  }

  function Cleared(color: Color): Page {
    Fresh(seq(HEIGHT, _ => Blanks(color)))
  }

  function CellAt(row: Row, c: nat): Cell {
    if c < |row.text| then row.text[c] else CellIn(row.back, c)
  }

  /** First page row on screen. */
  function TopRow(p: Page): nat {
    if |p.rows| <= HEIGHT then 0 else |p.rows| - HEIGHT
  }

  function ScreenCell(p: Page, r: nat, c: nat): Cell {
    if TopRow(p) + r < |p.rows| then CellAt(p.rows[TopRow(p) + r], c) else CellIn(BaseRow(p, r), c)
  }

  // ---------------------------------------------------------------- the driver

  /** The rows of a buffer. */
  ghost function Shot(buffer: array2<Cell>): seq<seq<Cell>>
    reads buffer
  {
    seq(buffer.Length0, r requires 0 <= r < buffer.Length0 reads buffer =>
      seq(buffer.Length1, c requires 0 <= c < buffer.Length1 reads buffer => buffer[r, c]))
  }

  class VgaTextDriver {
    const chars: array2<Cell>
    var cursorRow: nat
    var cursorCol: nat
    var color: Color
    ghost var page: Page

    /** The buffer and cursor show the page. */
    ghost predicate Valid()
      reads this, chars
    {
      && chars.Length0 == HEIGHT && chars.Length1 == WIDTH
      && PageOk(page)
      && cursorRow + TopRow(page) == |page.rows| - 1
      && cursorCol == |Last(page).text|
      && forall r, c :: 0 <= r < HEIGHT && 0 <= c < WIDTH ==> chars[r, c] == ScreenCell(page, r, c)
    }

    /** The video memory is whatever it is until something is written or cleared. */
    constructor (buffer: array2<Cell>)
      requires buffer.Length0 == HEIGHT && buffer.Length1 == WIDTH
      ensures Valid() && chars == buffer && cursorRow == cursorCol == 0 && color == 15
      ensures page == Fresh(Shot(buffer))
    {
      chars := buffer;
      cursorRow, cursorCol, color := 0, 0, 15;
      page := Fresh(Shot(buffer));
    }

    method SetColor(foreground: Color, background: Color)
      requires Valid() && foreground < 16 && background < 16
      modifies this`color
      ensures Valid() && color == background * 16 + foreground
    {
      color := background * 16 + foreground;
    }

    method ClearRow(row: nat)
      requires chars.Length0 == HEIGHT && chars.Length1 == WIDTH && row < HEIGHT
      modifies chars
      ensures forall c :: 0 <= c < WIDTH ==> chars[row, c] == Cell(BLANK, color)
      ensures forall r, c :: 0 <= r < HEIGHT && 0 <= c < WIDTH && r != row ==> chars[r, c] == old(chars[r, c])
    {
      for col := 0 to WIDTH
        invariant forall c :: 0 <= c < col ==> chars[row, c] == Cell(BLANK, color)
        invariant forall r, c :: 0 <= r < HEIGHT && 0 <= c < WIDTH && r != row ==> chars[r, c] == old(chars[r, c])
      {
        chars[row, col] := Cell(BLANK, color);
      }
    }

    method ClearScreen()
      requires chars.Length0 == HEIGHT && chars.Length1 == WIDTH
      modifies this`cursorRow, this`cursorCol, this`page, chars
      ensures Valid() && page == Cleared(color)
    {
      for row := 0 to HEIGHT
        invariant forall r, c :: 0 <= r < row && 0 <= c < WIDTH ==> chars[r, c] == Cell(BLANK, color)
      {
        ClearRow(row);
      }
      cursorRow, cursorCol := 0, 0;
      page := Cleared(color);
    }

    method CopyRowUp(row: nat)
      requires chars.Length0 == HEIGHT && chars.Length1 == WIDTH && 1 <= row < HEIGHT
      modifies chars
      ensures forall c :: 0 <= c < WIDTH ==> chars[row - 1, c] == old(chars[row, c])
      ensures forall r, c :: 0 <= r < HEIGHT && 0 <= c < WIDTH && r != row - 1 ==> chars[r, c] == old(chars[r, c])
    {
      for col := 0 to WIDTH
        invariant forall c :: 0 <= c < col ==> chars[row - 1, c] == old(chars[row, c])
        invariant forall r, c :: 0 <= r < HEIGHT && 0 <= c < WIDTH && r != row - 1 ==> chars[r, c] == old(chars[r, c])
      {
        chars[row - 1, col] := chars[row, col];
      }
    }

    method Scroll()
      requires chars.Length0 == HEIGHT && chars.Length1 == WIDTH
      modifies chars
      ensures forall r, c {:trigger chars[r, c]} :: 0 <= r < HEIGHT - 1 && 0 <= c < WIDTH ==>
                chars[r, c] == old(chars[r + 1, c])
      ensures forall r, c :: r == HEIGHT - 1 && 0 <= c < WIDTH ==> chars[r, c] == Cell(BLANK, color)
    {
      for row := 1 to HEIGHT
        invariant forall r, c {:trigger chars[r, c]} :: 0 <= r < row - 1 && 0 <= c < WIDTH ==>
                    chars[r, c] == old(chars[r + 1, c])
        invariant forall r, c :: row - 1 <= r < HEIGHT && 0 <= c < WIDTH ==> chars[r, c] == old(chars[r, c])
      {
        CopyRowUp(row);
      }
      ClearRow(HEIGHT - 1);
    }

    method NewLine()
      requires Valid()
      modifies this`cursorRow, this`cursorCol, this`page, chars
      ensures Valid() && page == BreakLine(old(page), color)
    {
      if cursorRow >= HEIGHT - 1 {
        Scroll();
      } else {
        cursorRow := cursorRow + 1;
      }
      cursorCol := 0;
      page := BreakLine(page, color);
    }

    method WriteCell(cell: Cell)
      requires Valid() && cursorCol < WIDTH
      modifies this`cursorCol, this`page, chars
      ensures Valid() && page == PutChar(old(page), cell)
    {
      chars[cursorRow, cursorCol] := cell;
      cursorCol := cursorCol + 1;
      page := PutChar(page, cell);
    }

    method WriteByte(b: Byte)
      requires Valid()
      modifies this`cursorRow, this`cursorCol, this`page, chars
      ensures Valid() && page == PutByte(old(page), color, b)
    {
      if b == NEWLINE {
        NewLine();
      } else {
        if cursorCol >= WIDTH {
          NewLine();
        }
        WriteCell(Cell(b, color));
      }
    }

    method WriteString(s: seq<Byte>)
      requires Valid()
      modifies this`cursorRow, this`cursorCol, this`page, chars
      ensures Valid() && page == PutBytes(old(page), color, Sanitized(s))
    {
      for i := 0 to |s|
        invariant Valid() && page == PutBytes(old(page), color, Sanitized(s[..i]))
      {
        var b := s[i];
        ghost var before := Sanitized(s[..i]);
        assert Sanitized(s[..i + 1]) == before + [Shown(b)];
        assert (before + [Shown(b)])[..|before|] == before;
        if 0x20 <= b <= 0x7e || b == NEWLINE {
          WriteByte(b);
        } else {
          WriteByte(UNPRINTABLE);
        }
      }
      assert s[..|s|] == s;
    }
  }

  /** Printable ASCII and newline pass, anything else becomes a block. */
  function Shown(b: Byte): Byte {
    if 0x20 <= b <= 0x7e || b == NEWLINE then b else UNPRINTABLE
  }

  function Sanitized(s: seq<Byte>): seq<Byte> {
    seq(|s|, i requires 0 <= i < |s| => Shown(s[i]))
  }

  /** Text of printable ASCII and newlines is shown as it is, and nothing else but the block itself is. */
  lemma PrintableIsShown(s: seq<Byte>)
    ensures Sanitized(s) == s <==> forall i :: 0 <= i < |s| ==> 32 <= s[i] <= 126 || s[i] == 10 || s[i] == 0xfe
    ensures forall i :: 0 <= i < |s| && (s[i] < 10 || 10 < s[i] < 32 || 126 < s[i]) ==> Sanitized(s)[i] == 0xfe
    ensures Sanitized(Sanitized(s)) == Sanitized(s)
  {
    if Sanitized(s) == s {
      forall i | 0 <= i < |s|
        ensures 32 <= s[i] <= 126 || s[i] == 10 || s[i] == 0xfe
      {
        assert Sanitized(s)[i] == Shown(s[i]);
      }
    }
  }

  // ---------------------------------------------------------------- the plain layout

  /** The lines of a text: split at every newline. */
  function Lines(s: seq<Byte>): (r: seq<seq<Byte>>)
    ensures r != []
  {
    if s == [] then [[]]
    else
      var before, b := Lines(s[..|s| - 1]), s[|s| - 1];
      if b == NEWLINE then before + [[]]
      else before[|before| - 1 := before[|before| - 1] + [b]]
  }

  /** A line cut into rows of WIDTH, the last one possibly shorter. */
  function Wrap(line: seq<Byte>): (r: seq<seq<Byte>>)
    ensures r != []
  {
    if |line| <= WIDTH then [line] else [line[..WIDTH]] + Wrap(line[WIDTH..])
  }

  function WrapAll(lines: seq<seq<Byte>>): seq<seq<Byte>> {
    if lines == [] then [] else WrapAll(lines[..|lines| - 1]) + Wrap(lines[|lines| - 1])
  }

  function Layout(s: seq<Byte>): seq<seq<Byte>> {
    WrapAll(Lines(s))
  }

  function Join(lines: seq<seq<Byte>>): seq<Byte>
    requires lines != []
  {
    if |lines| == 1 then lines[0] else Join(lines[..|lines| - 1]) + [NEWLINE] + lines[|lines| - 1]
  }

  function Flatten(rows: seq<seq<Byte>>): seq<Byte> {
    if rows == [] then [] else rows[0] + Flatten(rows[1..])
  }

  /** Joining the lines gives the text back, and no line holds a newline: the split is the right one. */
  lemma {:induction false} LinesSplitText(s: seq<Byte>)
    ensures Join(Lines(s)) == s
    ensures forall l :: l in Lines(s) ==> NEWLINE !in l
  {
    if s == [] {
    } else {
      var init, b := s[..|s| - 1], s[|s| - 1];
      LinesSplitText(init);
      var before := Lines(init);
      var n := |before| - 1;
      assert s == init + [b];
      if b == NEWLINE {
        assert (before + [[]])[..n + 1] == before;
      } else {
        assert Lines(s)[..n] == before[..n];
        assert before[n] in before;
        if n > 0 { ConcatAssoc(Join(before[..n]) + [NEWLINE], before[n], [b]); }
        forall l | l in Lines(s)
          ensures NEWLINE !in l
        {
          var k :| 0 <= k < |before| && Lines(s)[k] == l;
          assert before[k] in before;
        }
      }
    }
  }

  /** Rows concatenate to the line; all are full but the last, which is empty only for an empty line. */
  lemma {:induction false} WrapCutsLine(line: seq<Byte>)
    ensures var r := Wrap(line);
            && Flatten(r) == line
            && (forall i :: 0 <= i < |r| - 1 ==> |r[i]| == WIDTH)
            && |r[|r| - 1]| <= WIDTH
            && (r[|r| - 1] == [] ==> line == [])
  {
    var r := Wrap(line);
    if |line| <= WIDTH {
      assert r[1..] == [];
    } else {
      WrapCutsLine(line[WIDTH..]);
      assert r[1..] == Wrap(line[WIDTH..]);
    }
  }

  /** One byte more: on the last row, or on a new one after a newline or a full row. */
  function Extended(rows: seq<seq<Byte>>, b: Byte): seq<seq<Byte>>
    requires rows != []
  {
    var n := |rows| - 1;
    if b == NEWLINE then rows + [[]]
    else if |rows[n]| >= WIDTH then rows + [[b]]
    else rows[n := rows[n] + [b]]
  }

  /** Only the last row matters. */
  lemma ExtendedConcat(before: seq<seq<Byte>>, rows: seq<seq<Byte>>, b: Byte)
    requires rows != []
    ensures Extended(before + rows, b) == before + Extended(rows, b)
  {
    var n := |rows| - 1;
    assert (before + rows)[|before| + n] == rows[n];
  }

  /** Wrapping is lazy: a character opens a new row exactly when the last row is full. */
  lemma {:induction false} WrapAppend(line: seq<Byte>, b: Byte)
    requires b != NEWLINE
    ensures Wrap(line + [b]) == Extended(Wrap(line), b)
  {
    var line' := line + [b];
    if |line| < WIDTH {
    } else if |line| == WIDTH {
      assert line'[..WIDTH] == line && line'[WIDTH..] == [b];
      assert Wrap([b]) == [[b]];
    } else {
      WrapAppend(line[WIDTH..], b);
      assert line'[..WIDTH] == line[..WIDTH] && line'[WIDTH..] == line[WIDTH..] + [b];
      ExtendedConcat([line[..WIDTH]], Wrap(line[WIDTH..]), b);
    }
  }

  /** The layout of a text extended by one byte. */
  lemma LayoutAppend(s: seq<Byte>, b: Byte)
    ensures var r := Layout(s);
            && r != []
            && Layout(s + [b]) == Extended(r, b)
  {
    var lines, s' := Lines(s), s + [b];
    assert s'[..|s|] == s;
    var m := |lines| - 1;
    var before, line := WrapAll(lines[..m]), lines[m];
    assert Layout(s) == before + Wrap(line);
    if b == NEWLINE {
      assert (lines + [[]])[..m + 1] == lines;
      assert Wrap([]) == [[]];
    } else {
      assert Lines(s')[..m] == lines[..m];
      assert Layout(s') == before + Wrap(line + [b]);
      WrapAppend(line, b);
      ExtendedConcat(before, Wrap(line), b);
    }
  }

  function Painted(bytes: seq<Byte>, color: Color): seq<Cell> {
    seq(|bytes|, i requires 0 <= i < |bytes| => Cell(bytes[i], color))
  }

  /** The page holds exactly these rows, all in one colour. */
  ghost predicate Holds(p: Page, rows: seq<seq<Byte>>, color: Color) {
    && p.base == Cleared(color).base && |p.rows| == |rows|
    && forall r :: 0 <= r < |rows| ==> p.rows[r] == Row(Painted(rows[r], color), Blanks(color))
  }

  lemma PaintedNext(bytes: seq<Byte>, b: Byte, color: Color)
    ensures Painted(bytes + [b], color) == Painted(bytes, color) + [Cell(b, color)]
    ensures Painted([], color) == []
  {}

  lemma BrokenHolds(p: Page, rows: seq<seq<Byte>>, color: Color)
    requires Holds(p, rows, color)
    ensures Holds(BreakLine(p, color), rows + [[]], color)
  {
    PaintedNext([], 0, color);
  }

  lemma WrittenHolds(p: Page, rows: seq<seq<Byte>>, color: Color, b: Byte)
    requires rows != [] && Holds(p, rows, color)
    ensures var n := |rows| - 1; Holds(PutChar(p, Cell(b, color)), rows[n := rows[n] + [b]], color)
  {
    PaintedNext(rows[|rows| - 1], b, color);
  }

  lemma NewRow(rows: seq<seq<Byte>>, b: Byte)
    ensures var r := rows + [[]]; r[|rows| := r[|rows|] + [b]] == rows + [[b]]
  {
    assert [] + [b] == [b];
  }

  lemma HoldsNext(p: Page, rows: seq<seq<Byte>>, color: Color, b: Byte)
    requires rows != [] && Holds(p, rows, color)
    ensures Holds(PutByte(p, color, b), Extended(rows, b), color)
  {
    var n := |rows| - 1;
    if b != NEWLINE && |rows[n]| < WIDTH {
      WrittenHolds(p, rows, color, b);
    } else {
      BrokenHolds(p, rows, color);
      if b != NEWLINE {
        WrittenHolds(BreakLine(p, color), rows + [[]], color, b);
        NewRow(rows, b);
      }
    }
  }

  /** From a cleared screen, what is written in one colour is the wrapped layout of the text. */
  lemma {:induction false} PageIsLayout(s: seq<Byte>, color: Color)
    ensures Holds(PutBytes(Cleared(color), color, s), Layout(s), color)
  {
    if s == [] {
      assert Lines(s) == [[]] && Wrap([]) == [[]];
      assert WrapAll([[]]) == [] + [[]];
    } else {
      var init, b := s[..|s| - 1], s[|s| - 1];
      PageIsLayout(init, color);
      LayoutAppend(init, b);
      assert s == init + [b];
      HoldsNext(PutBytes(Cleared(color), color, init), Layout(init), color, b);
    }
  }

  /** What the screen shows for a text written in one colour after a clear. */
  function Expected(rows: seq<seq<Byte>>, color: Color, r: nat, c: nat): Cell {
    var top := if |rows| <= HEIGHT then 0 else |rows| - HEIGHT;
    if top + r < |rows| && c < |rows[top + r]| then Cell(rows[top + r][c], color) else Cell(BLANK, color)
  }

  /** The buffer is the last 25 rows of the layout, blank-padded, and the cursor stands at its end. */
  lemma ScreenIsTail(s: seq<Byte>, color: Color, r: nat, c: nat)
    requires r < HEIGHT && c < WIDTH
    ensures var p := PutBytes(Cleared(color), color, s);
            && ScreenCell(p, r, c) == Expected(Layout(s), color, r, c)
            && |p.rows| == |Layout(s)| > 0
            && |Last(p).text| == |Layout(s)[|Layout(s)| - 1]|
  {
    PageIsLayout(s, color);
  }

  /** Clear, then write: the whole behaviour of the driver on one text. */
  method ShowText(driver: VgaTextDriver, s: seq<Byte>)
    requires driver.chars.Length0 == HEIGHT && driver.chars.Length1 == WIDTH
    modifies driver, driver.chars
    ensures var rows := Layout(Sanitized(s));
            && rows != []
            && (forall r, c :: 0 <= r < HEIGHT && 0 <= c < WIDTH ==>
                  driver.chars[r, c] == Expected(rows, driver.color, r, c))
            && driver.cursorRow == (if |rows| < HEIGHT then |rows| - 1 else HEIGHT - 1)
            && driver.cursorCol == |rows[|rows| - 1]|
            && driver.color == old(driver.color)
  {
    driver.ClearScreen();
    driver.WriteString(s);
    forall r, c | 0 <= r < HEIGHT && 0 <= c < WIDTH
      ensures driver.chars[r, c] == Expected(Layout(Sanitized(s)), driver.color, r, c)
    {
      ScreenIsTail(Sanitized(s), driver.color, r, c);
    }
    ScreenIsTail(Sanitized(s), driver.color, 0, 0);
  }
}
