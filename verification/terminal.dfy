/** A terminal of rows and columns, and the flat cell buffer of os-l3/kernel/src/dev/dev_tty.c read as
    one. */
module Terminal {
  import opened Bits
  import opened Tiling

  /** `struct character`. */
  datatype Cell = Cell(metadata: nat, ch: nat)

  const BLANK := Cell(0, 0)
  const CR: nat := 13
  const BS: nat := 8
  const LF: nat := 10

  datatype Screen = Screen(rows: seq<seq<Cell>>, row: nat, col: nat)

  ghost predicate WellFormed(s: Screen, lines: nat, columns: nat) {
    && |s.rows| == lines && s.row < lines && s.col < columns
    && (forall r | 0 <= r < lines :: |s.rows[r]| == columns)
  }

  function BlankRow(columns: nat): seq<Cell> {
    seq(columns, i => BLANK)
  }

  /** The rows move up by one, a blank one comes in at the bottom. */
  function Scrolled(rows: seq<seq<Cell>>, columns: nat): seq<seq<Cell>>
    requires rows != []
  {
    rows[1..] + [BlankRow(columns)]
  }

  /** The beginning of the next row, scrolling at the bottom. */
  function NextRow(s: Screen, lines: nat, columns: nat): Screen
    requires |s.rows| == lines > 0
  {
    if s.row + 1 < lines then Screen(s.rows, s.row + 1, 0) else Screen(Scrolled(s.rows, columns), s.row, 0)
  }

  function SetChar(rows: seq<seq<Cell>>, r: nat, c: nat, ch: nat): seq<seq<Cell>>
    requires r < |rows| && c < |rows[r]|
  {
    rows[r := rows[r][c := rows[r][c].(ch := ch)]]
  }

  /** What a character does to a terminal: carriage return, line feed (which returns too), backspace
      (which erases and runs back over the start of a row), or a character that is shown. */
  function Typed(s: Screen, lines: nat, columns: nat, ch: nat): (after: Screen)
    requires WellFormed(s, lines, columns)
    ensures WellFormed(after, lines, columns)
  {
    if ch == CR then s.(col := 0)
    else if ch == LF then NextRow(s, lines, columns)
    else if ch == BS then
      if s.col > 0 then Screen(SetChar(s.rows, s.row, s.col - 1, 0), s.row, s.col - 1)
      else if s.row > 0 then Screen(SetChar(s.rows, s.row - 1, columns - 1, 0), s.row - 1, columns - 1)
      else s
    else
      var written := Screen(SetChar(s.rows, s.row, s.col, ch), s.row, s.col);
      if s.col + 1 < columns then written.(col := s.col + 1) else NextRow(written, lines, columns)
  }

  function TypedAll(s: Screen, lines: nat, columns: nat, text: seq<nat>): (after: Screen)
    requires WellFormed(s, lines, columns)
    ensures WellFormed(after, lines, columns)
  {
    if text == [] then s else Typed(TypedAll(s, lines, columns, text[..|text| - 1]), lines, columns, text[|text| - 1])
  }

  /** The characters of a text take effect one after the other. */
  lemma {:induction false} TypedInOrder(s: Screen, lines: nat, columns: nat, text: seq<nat>, more: seq<nat>)
    requires WellFormed(s, lines, columns)
    ensures TypedAll(s, lines, columns, []) == s
    ensures forall ch: nat :: TypedAll(s, lines, columns, [ch]) == Typed(s, lines, columns, ch)
    ensures TypedAll(s, lines, columns, text + more)
            == TypedAll(TypedAll(s, lines, columns, text), lines, columns, more)
  {
    hide Typed;
    assert text + [] == text;
    if more != [] {
      var all := text + more;
      assert all[..|all| - 1] == text + more[..|more| - 1];
      TypedInOrder(s, lines, columns, text, more[..|more| - 1]);
    }
  }

  // ----- The flat buffer -----------------------------------------------------------------------

  /** Row r of a flat buffer. */
  function Row(buf: seq<Cell>, columns: nat, r: nat): seq<Cell>
    requires r * columns + columns <= |buf|
  {
    buf[r * columns..r * columns + columns]
  }

  lemma RowFits(r: nat, lines: nat, columns: nat)
    requires r < lines
    ensures r * columns + columns <= lines * columns
  {
    MulMono(r + 1, lines, columns);
    SumOfFactors(r, 1, columns);
  }

  function Rows(buf: seq<Cell>, lines: nat, columns: nat): (rows: seq<seq<Cell>>)
    requires |buf| == lines * columns
    ensures |rows| == lines
  {
    seq(lines, r requires 0 <= r < lines =>
      RowFits(r, lines, columns);
      Row(buf, columns, r))
  }

  /** The terminal that a buffer and a cursor stand for. */
  function Read(buf: seq<Cell>, lines: nat, columns: nat, cursor: nat): Screen
    requires |buf| == lines * columns && columns > 0
  {
    Screen(Rows(buf, lines, columns), cursor / columns, cursor % columns)
  }

  lemma Position(lines: nat, columns: nat, cursor: nat)
    requires cursor < lines * columns
    ensures columns > 0 && cursor == cursor / columns * columns + cursor % columns
    ensures cursor / columns < lines && cursor % columns < columns
  {
    var r := cursor / columns;
    assert cursor == r * columns + cursor % columns;
    if r >= lines {
      MulMono(lines, r, columns);
    }
  }

  lemma ReadWellFormed(buf: seq<Cell>, lines: nat, columns: nat, cursor: nat)
    requires |buf| == lines * columns && cursor < lines * columns
    ensures columns > 0 && WellFormed(Read(buf, lines, columns, cursor), lines, columns)
  {
    Position(lines, columns, cursor);
    forall r: nat | r < lines
      ensures |Rows(buf, lines, columns)[r]| == columns
    {
      RowFits(r, lines, columns);
    }
  }

  /** The cells of the terminal lie in the buffer row by row. */
  lemma ReadRows(buf: seq<Cell>, lines: nat, columns: nat, cursor: nat)
    requires |buf| == lines * columns && columns > 0
    ensures var s := Read(buf, lines, columns, cursor);
            && s.row == cursor / columns && s.col == cursor % columns && |s.rows| == lines
            && forall r: nat | r < lines ::
                 r * columns + columns <= |buf| && s.rows[r] == buf[r * columns..r * columns + columns]
  {
    forall r: nat | r < lines {
      RowFits(r, lines, columns);
    }
  }

  lemma RowStart(r: nat, columns: nat, c: nat)
    requires columns > 0 && c < columns
    ensures (r * columns + c) / columns == r && (r * columns + c) % columns == c
  {
    DivUnique(r * columns + c, columns, r, c);
  }

  /** Another row than that of a cell does not hold the cell. */
  lemma OtherRow(r: nat, q: nat, columns: nat, c: nat)
    requires q != r && c < columns
    ensures q * columns + c < r * columns || r * columns + columns <= q * columns + c
  {
    if q < r {
      RowFits(q, r, columns);
    } else {
      RowFits(r, q, columns);
    }
  }

  /** One cell of the buffer is one cell of one row. */
  lemma RowsUpdated(buf: seq<Cell>, lines: nat, columns: nat, i: nat, cell: Cell)
    requires |buf| == lines * columns && i < |buf|
    ensures columns > 0 && i / columns < lines && |Rows(buf, lines, columns)[i / columns]| == columns
    ensures Rows(buf[i := cell], lines, columns)
            == Rows(buf, lines, columns)[i / columns := Rows(buf, lines, columns)[i / columns][i % columns := cell]]
    ensures Rows(buf, lines, columns)[i / columns][i % columns] == buf[i]
  {
    Position(lines, columns, i);
    ReadWellFormed(buf, lines, columns, i);
    var q, c := i / columns, i % columns;
    var before, after := Rows(buf, lines, columns), Rows(buf[i := cell], lines, columns);
    RowFits(q, lines, columns);
    forall r: nat | r < lines
      ensures after[r] == if r == q then before[r][c := cell] else before[r]
    {
      RowFits(r, lines, columns);
      if r != q {
        OtherRow(r, q, columns, c);
      }
    }
  }

  /** Moving the buffer up by one row's length is scrolling. */
  lemma RowsScrolled(buf: seq<Cell>, lines: nat, columns: nat)
    requires |buf| == lines * columns && lines > 0
    ensures columns <= |buf|
    ensures |buf[columns..] + BlankRow(columns)| == |buf|
    ensures Rows(buf[columns..] + BlankRow(columns), lines, columns) == Scrolled(Rows(buf, lines, columns), columns)
  {
    RowFits(0, lines, columns);
    var buf' := buf[columns..] + BlankRow(columns);
    var before, after := Rows(buf, lines, columns), Rows(buf', lines, columns);
    forall r: nat | r < lines
      ensures after[r] == Scrolled(before, columns)[r]
    {
      RowFits(r, lines, columns);
      SumOfFactors(r, 1, columns);
      if r + 1 < lines {
        RowFits(r + 1, lines, columns);
        assert Row(buf', columns, r) == Row(buf, columns, r + 1);
      } else {
        SumOfFactors(lines - 1, 1, columns);
        assert Row(buf', columns, r) == BlankRow(columns);
      }
    }
  }

  // ----- What each character does to the flat buffer -------------------------------------------

  /** The start of the cursor's row, and of the row after it. */
  lemma LineStart(lines: nat, columns: nat, cursor: nat)
    requires cursor < lines * columns
    ensures columns > 0 && cursor % columns <= cursor
    ensures var start, r := cursor - cursor % columns, cursor / columns;
            && start == r * columns && start / columns == r && start % columns == 0
            && start + columns <= lines * columns && r < lines
            && (start + columns == lines * columns <==> r + 1 == lines)
            && (start + columns) / columns == r + 1 && (start + columns) % columns == 0
  {
    Position(lines, columns, cursor);
    var r := cursor / columns;
    RowStart(r, columns, 0);
    RowFits(r, lines, columns);
    SumOfFactors(r, 1, columns);
    RowStart(r + 1, columns, 0);
    if r + 1 < lines {
      RowFits(r + 1, lines, columns);
    }
  }

  lemma ReadCr(buf: seq<Cell>, lines: nat, columns: nat, cursor: nat)
    requires |buf| == lines * columns && cursor < lines * columns
    ensures columns > 0 && cursor % columns <= cursor && WellFormed(Read(buf, lines, columns, cursor), lines, columns)
    ensures Read(buf, lines, columns, cursor - cursor % columns)
            == Typed(Read(buf, lines, columns, cursor), lines, columns, CR)
  {
    ReadWellFormed(buf, lines, columns, cursor);
    LineStart(lines, columns, cursor);
  }

  lemma ReadLf(buf: seq<Cell>, lines: nat, columns: nat, cursor: nat)
    requires |buf| == lines * columns && cursor < lines * columns
    ensures columns > 0 && cursor % columns <= cursor && WellFormed(Read(buf, lines, columns, cursor), lines, columns)
    ensures var start, after := cursor - cursor % columns, Typed(Read(buf, lines, columns, cursor), lines, columns, LF);
            && columns <= |buf| && |buf[columns..] + BlankRow(columns)| == |buf|
            && start + columns <= |buf|
            && (start + columns < |buf| ==> Read(buf, lines, columns, start + columns) == after)
            && (start + columns == |buf| ==> Read(buf[columns..] + BlankRow(columns), lines, columns, start) == after)
  {
    ReadWellFormed(buf, lines, columns, cursor);
    LineStart(lines, columns, cursor);
    RowsScrolled(buf, lines, columns);
  }

  /** The position before a cell. */
  lemma Before(lines: nat, columns: nat, cursor: nat)
    requires 0 < cursor < lines * columns
    ensures columns > 0
    ensures cursor % columns > 0 ==>
              (cursor - 1) / columns == cursor / columns && (cursor - 1) % columns == cursor % columns - 1
    ensures cursor % columns == 0 ==>
              cursor / columns > 0 && (cursor - 1) / columns == cursor / columns - 1
                  && (cursor - 1) % columns == columns - 1
  {
    Position(lines, columns, cursor);
    var r, c := cursor / columns, cursor % columns;
    if c > 0 {
      RowStart(r, columns, c - 1);
    } else {
      assert r > 0 || cursor == 0;
      SumOfFactors(r - 1, 1, columns);
      RowStart(r - 1, columns, columns - 1);
    }
  }

  lemma ReadBs(buf: seq<Cell>, lines: nat, columns: nat, cursor: nat)
    requires |buf| == lines * columns && 0 < cursor < lines * columns
    ensures columns > 0 && WellFormed(Read(buf, lines, columns, cursor), lines, columns)
    ensures Read(buf[cursor - 1 := buf[cursor - 1].(ch := 0)], lines, columns, cursor - 1)
            == Typed(Read(buf, lines, columns, cursor), lines, columns, BS)
  {
    ReadWellFormed(buf, lines, columns, cursor);
    Before(lines, columns, cursor);
    RowsUpdated(buf, lines, columns, cursor - 1, buf[cursor - 1].(ch := 0));
  }

  lemma ReadBsHome(buf: seq<Cell>, lines: nat, columns: nat)
    requires |buf| == lines * columns && 0 < lines * columns
    ensures columns > 0 && WellFormed(Read(buf, lines, columns, 0), lines, columns)
    ensures Read(buf, lines, columns, 0) == Typed(Read(buf, lines, columns, 0), lines, columns, BS)
  {
    ReadWellFormed(buf, lines, columns, 0);
    RowStart(0, columns, 0);
  }

  /** The position after a cell. */
  lemma After(lines: nat, columns: nat, cursor: nat)
    requires cursor < lines * columns
    ensures columns > 0 && columns <= lines * columns
    ensures cursor % columns + 1 < columns ==>
              && cursor + 1 < lines * columns
              && (cursor + 1) / columns == cursor / columns && (cursor + 1) % columns == cursor % columns + 1
    ensures cursor % columns + 1 == columns ==> cursor + 1 == cursor - cursor % columns + columns
  {
    Position(lines, columns, cursor);
    var r, c := cursor / columns, cursor % columns;
    RowFits(r, lines, columns);
    RowFits(0, lines, columns);
    if c + 1 < columns {
      RowStart(r, columns, c + 1);
    }
  }

  /** Any character that is shown. */
  lemma ReadPut(buf: seq<Cell>, lines: nat, columns: nat, cursor: nat, ch: nat)
    requires |buf| == lines * columns && cursor < lines * columns && ch !in {CR, LF, BS}
    ensures columns > 0 && WellFormed(Read(buf, lines, columns, cursor), lines, columns)
    ensures var buf', after := buf[cursor := buf[cursor].(ch := ch)],
            Typed(Read(buf, lines, columns, cursor), lines, columns, ch);
            && columns <= |buf| && |buf'[columns..] + BlankRow(columns)| == |buf|
            && (cursor + 1 < |buf| ==> Read(buf', lines, columns, cursor + 1) == after)
            && (cursor + 1 == |buf| ==>
                  && cursor + 1 >= columns
                  && Read(buf'[columns..] + BlankRow(columns), lines, columns, cursor + 1 - columns) == after)
  {
    hide Rows, BlankRow, Scrolled;
    ReadWellFormed(buf, lines, columns, cursor);
    RowsUpdated(buf, lines, columns, cursor, buf[cursor].(ch := ch));
    After(lines, columns, cursor);
    LineStart(lines, columns, cursor);
    RowsScrolled(buf[cursor := buf[cursor].(ch := ch)], lines, columns);
  }
}
