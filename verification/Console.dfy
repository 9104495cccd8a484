/** The text console of kernel/printk.c: an unbounded roll of 80-cell lines, of which the screen
    shows 25 lines, and the screen machine that is proved to show it. */
module Console {
  import opened Bits
  import opened CStrings
  import opened MemoryBlocks

  const COLUMNS := 80
  const ROWS := 25
  const LINE_SIZE := 160
  const SCREEN_SIZE := 4000
  const COLOR: Byte := 0xA
  const NEWLINE: Byte := 10
  const BACKSPACE: Byte := 8

  datatype Cell = Cell(ch: Byte, color: Byte)

  const BLANK := Cell(0, 0)

  /** All cells ever shown, in reading order; the cursor; and the first line of the window. The cursor may
      stand right behind the window: the scroll is put off until the next character. */
  datatype Roll = Roll(cells: seq<Cell>, pos: nat, top: nat)

  predicate RollOk(r: Roll) {
    |r.cells| == COLUMNS * (r.top + ROWS) && COLUMNS * r.top <= r.pos <= |r.cells|
  }

  /** Make room for the next character. */
  function Scrolled(r: Roll): (t: Roll)
    requires RollOk(r)
    ensures RollOk(t) && t.pos == r.pos < |t.cells|
  {
    if r.pos < |r.cells| then r else Roll(r.cells + seq(COLUMNS, _ => BLANK), r.pos, r.top + 1)
  }

  function NextLine(pos: nat): nat { (pos / COLUMNS + 1) * COLUMNS }

  /** One character. */
  function Put(r: Roll, ch: Byte): (t: Roll)
    requires RollOk(r)
    ensures RollOk(t)
  {
    var s := Scrolled(r);
    if ch == NEWLINE then s.(pos := NextLine(s.pos))
    else if ch == BACKSPACE then
      if s.pos == COLUMNS * s.top then s else s.(pos := s.pos - 1, cells := s.cells[s.pos - 1 := BLANK])
    else s.(pos := s.pos + 1, cells := s.cells[s.pos := Cell(ch, COLOR)])
  }

  function PutAll(r: Roll, text: seq<Byte>): (t: Roll)
    requires RollOk(r)
    ensures RollOk(t)
  {
    if text == [] then r else Put(PutAll(r, text[..|text| - 1]), text[|text| - 1])
  }

  // ----- What is seen -----

  predicate Printable(ch: Byte) { ch != NEWLINE && ch != BACKSPACE }

  /** Text without control characters appears where the cursor was, across line ends and scrolls. */
  lemma {:induction false} TextAppears(r: Roll, text: seq<Byte>)
    requires RollOk(r) && forall i :: 0 <= i < |text| ==> Printable(text[i])
    ensures var t := PutAll(r, text);
      && t.pos == r.pos + |text| <= |t.cells|
      && (forall i :: 0 <= i < |text| ==> t.cells[r.pos + i] == Cell(text[i], COLOR))
      && (forall i :: 0 <= i < r.pos ==> t.cells[i] == r.cells[i])
  {
    if text != [] { TextAppears(r, text[..|text| - 1]); }
  }

  /** A backspace takes back a character just printed: the cursor is where it was, the cell is blank,
      and nothing else differs. */
  lemma BackspaceUndoes(r: Roll, ch: Byte)
    requires RollOk(r) && Printable(ch)
    ensures var s, t := Scrolled(r), Put(Put(r, ch), BACKSPACE);
      && t.pos == r.pos
      && forall i :: 0 <= i < |t.cells| ==> t.cells[i] == if i == r.pos || i >= |s.cells| then BLANK else s.cells[i]
  {
  }

  /** Backspace does nothing exactly at the top left of the window. */
  lemma BackspaceAtTop(r: Roll)
    requires RollOk(r)
    ensures Put(r, BACKSPACE) == r <==> r.pos == COLUMNS * r.top
  {
  }

  /** A newline takes the cursor to the start of the next line, also when a scroll was put off, which it then makes
      up for; nothing that is on the roll changes. */
  lemma NewlineMoves(r: Roll)
    requires RollOk(r)
    ensures var t := Put(r, '\n' as int);
      && t.pos % 80 == 0 && r.pos < t.pos <= r.pos + 80
      && (if r.pos < 80 * (r.top + 25) then t.cells == r.cells && t.top == r.top
          else t.cells == r.cells + seq(80, _ => Cell(0, 0)) && t.top == r.top + 1)
  {
    var q, f := r.pos / COLUMNS, r.pos % COLUMNS;
    assert r.pos == q * COLUMNS + f && NextLine(r.pos) == (q + 1) * COLUMNS;
    QuotientUnique((q + 1) * COLUMNS, COLUMNS, q + 1, 0);
  }

  /** Lines that have left the window never change. */
  lemma {:induction false} PastIsFixed(r: Roll, text: seq<Byte>)
    requires RollOk(r)
    ensures var t := PutAll(r, text);
      t.top >= r.top && |t.cells| >= |r.cells| && forall i :: 0 <= i < COLUMNS * r.top ==> t.cells[i] == r.cells[i]
  {
    if text != [] { PastIsFixed(r, text[..|text| - 1]); }
  }

  // ----- The screen -----

  /** The screen memory shows the window of the roll, and the cursor stands in it. */
  predicate Shows(buffer: seq<Byte>, column: int, row: int, r: Roll) {
    && RollOk(r) && |buffer| == SCREEN_SIZE
    && 0 <= column < COLUMNS && 0 <= row <= ROWS && r.pos == COLUMNS * (r.top + row) + column
    && forall k: nat :: k < COLUMNS * ROWS ==> CellShown(buffer, r, k)
  }

  predicate CellShown(buffer: seq<Byte>, r: Roll, k: nat)
    requires |buffer| == SCREEN_SIZE && |r.cells| == COLUMNS * (r.top + ROWS)
  {
    k < COLUMNS * ROWS ==> Cell(buffer[2 * k], buffer[2 * k + 1]) == r.cells[COLUMNS * r.top + k]
  }

  /** memcpy of 24 lines to the top, overlapping, and memset of the last line. */
  function ScrolledScreen(b: seq<Byte>): (c: seq<Byte>)
    requires |b| == SCREEN_SIZE
    ensures |c| == SCREEN_SIZE
  {
    b[LINE_SIZE..] + seq(LINE_SIZE, _ => 0)
  }

  lemma ScrollShows(b: seq<Byte>, column: int, r: Roll)
    requires Shows(b, column, ROWS, r)
    ensures column == 0 && Shows(ScrolledScreen(b), column, ROWS - 1, Scrolled(r))
  {
    var c, t := ScrolledScreen(b), Scrolled(r);
    forall k: nat | k < COLUMNS * ROWS ensures CellShown(c, t, k) {
      if k < COLUMNS * (ROWS - 1) { assert CellShown(b, r, k + COLUMNS); }
    }
  }

  /** Writing a cell of the screen writes the same cell of the window. */
  lemma WriteShows(b: seq<Byte>, r: Roll, k: nat, cell: Cell, c: seq<Byte>, t: Roll)
    requires RollOk(r) && |b| == SCREEN_SIZE && k < COLUMNS * ROWS
      && forall j: nat :: j < COLUMNS * ROWS ==> CellShown(b, r, j)
    requires c == b[2 * k := cell.ch][2 * k + 1 := cell.color] && t.cells == r.cells[COLUMNS * r.top + k := cell]
      && t.top == r.top
    ensures forall j: nat :: j < COLUMNS * ROWS ==> CellShown(c, t, j)
  {
    forall j: nat | j < COLUMNS * ROWS ensures CellShown(c, t, j) { assert CellShown(b, r, j); }
  }

  lemma NewlineShows(b: seq<Byte>, column: int, row: int, r: Roll)
    requires Shows(b, column, row, r) && row < ROWS
    ensures Shows(b, 0, row + 1, Put(r, NEWLINE))
  {
    var t := Put(r, NEWLINE);
    QuotientUnique(r.pos, COLUMNS, r.top + row, column);
    forall k: nat | k < COLUMNS * ROWS ensures CellShown(b, t, k) { assert CellShown(b, r, k); }
  }

  /** Text without control characters that fits on the screen is there, character and color byte in turn, from the
      cursor on: each line has 160 bytes. */
  lemma TextOnScreen(b: seq<Byte>, column: nat, row: nat, r: Roll, c: seq<Byte>, column': int, row': int,
      text: seq<Byte>, i: nat)
    requires Shows(b, column, row, r) && Shows(c, column', row', PutAll(r, text))
    requires (forall j :: 0 <= j < |text| ==> Printable(text[j])) && i < |text|
    requires 80 * row + column + |text| <= 2000
    ensures var at := 160 * row + 2 * (column + i); at + 1 < |c| && c[at] == text[i] && c[at + 1] == 0x0A
  {
    TextAppears(r, text);
    TopStays(r, text);
    assert CellShown(c, PutAll(r, text), 80 * row + column + i);
  }

  /** Without a scroll the window stays. */
  lemma {:induction false} TopStays(r: Roll, text: seq<Byte>)
    requires RollOk(r) && r.pos + |text| <= COLUMNS * (r.top + ROWS)
      && forall j :: 0 <= j < |text| ==> Printable(text[j])
    ensures PutAll(r, text).top == r.top && PutAll(r, text).pos == r.pos + |text|
  {
    if text != [] { TopStays(r, text[..|text| - 1]); }
  }

  class Screen {
    const buffer: array<Byte>
    var column: int
    var row: int
    ghost var roll: Roll

    ghost predicate Valid()
      reads this, buffer
    {
      Shows(buffer[..], column, row, roll)
    }

    /** A screen with whatever the display memory holds, and the cursor at the top left. */
    constructor (memory: array<Byte>)
      requires memory.Length == SCREEN_SIZE
      ensures Valid() && buffer == memory && roll.pos == 0 && roll.top == 0
    {
      buffer := memory;
      column := 0;
      row := 0;
      ghost var shown := memory[..];
      roll := Roll(seq(COLUMNS * ROWS, k requires 0 <= k < COLUMNS * ROWS => Cell(shown[2 * k], shown[2 * k + 1])), 0,
        0);
      new;
      forall k: nat | k < COLUMNS * ROWS ensures CellShown(buffer[..], roll, k) { }
    }

    method Scroll()
      requires buffer.Length == SCREEN_SIZE
      modifies buffer
      ensures buffer[..] == ScrolledScreen(old(buffer[..]))
    {
      ForwardIsRight(buffer[..], 0, LINE_SIZE, LINE_SIZE * 24);
      MemCpy(buffer, 0, LINE_SIZE, LINE_SIZE * 24);
      MemSet(buffer, LINE_SIZE * 24, 0, LINE_SIZE);
    }

    method WriteCell(column: int, row: int, ch: Byte, color: Byte)
      requires buffer.Length == SCREEN_SIZE && 0 <= column < COLUMNS && 0 <= row < ROWS
      modifies buffer
      ensures var k := COLUMNS * row + column; buffer[..] == old(buffer[..])[2 * k := ch][2 * k + 1 := color]
    {
      buffer[column * 2 + row * LINE_SIZE] := ch;
      buffer[column * 2 + row * LINE_SIZE + 1] := color;
    }

    /** One character of the text. */
    method PutOne(column0: int, row0: int, ch: Byte, ghost r: Roll) returns (column: int, row: int)
      requires Shows(buffer[..], column0, row0, r)
      modifies buffer
      ensures Shows(buffer[..], column, row, Put(r, ch))
    {
      column, row := column0, row0;
      if row >= ROWS {
        ScrollShows(buffer[..], column, r);
        Scroll();
        row := row - 1;
      }
      column, row := PutInside(column, row, ch, Scrolled(r));
    }

    /** The same once the cursor is in the window. */
    method PutInside(column0: int, row0: int, ch: Byte, ghost r: Roll) returns (column: int, row: int)
      requires Shows(buffer[..], column0, row0, r) && row0 < ROWS
      modifies buffer
      ensures Shows(buffer[..], column, row, Put(r, ch))
    {
      column, row := column0, row0;
      ghost var b := buffer[..];
      if ch == NEWLINE {
        NewlineShows(buffer[..], column, row, r);
        column := 0;
        row := row + 1;
      } else if ch == BACKSPACE {
        if column == 0 && row == 0 {
          return;
        }
        if column == 0 {
          row := row - 1;
          column := COLUMNS;
        }
        column := column - 1;
        WriteCell(column, row, 0, 0);
        WriteShows(b, r, COLUMNS * row + column, BLANK, buffer[..], Put(r, ch));
      } else {
        WriteCell(column, row, ch, COLOR);
        WriteShows(b, r, COLUMNS * row + column, Cell(ch, COLOR), buffer[..], Put(r, ch));
        column := column + 1;
        if column >= COLUMNS {
          column := 0;
          row := row + 1;
        }
      }
    }

    /** The screen shows the roll with the text put on it. */
    method WriteVGA(text: seq<Byte>)
      requires Valid()
      modifies this, buffer
      ensures Valid() && roll == PutAll(old(roll), text)
    {
      var column, row := this.column, this.row;
      ghost var r := roll;
      for i := 0 to |text|
        invariant Shows(buffer[..], column, row, r) && r == PutAll(old(roll), text[..i])
      {
        column, row := PutOne(column, row, text[i], r);
        assert text[..i + 1][..i] == text[..i];
        r := Put(r, text[i]);
      }
      assert text[..|text|] == text;
      this.column := column;
      this.row := row;
      roll := r;
    }
  }
}
