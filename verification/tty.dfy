/** The terminal device of os-l3/kernel/src/dev/dev_tty.c: a flat cell buffer with a cursor, dirty marks,
    and a redraw of the marked cells only. */
module Tty {
  import opened Terminal
  import opened Tiling

  const CURSOR: nat := 0xdb

  /** `struct sprite`: a texture at a pixel position. */
  datatype Sprite = Sprite(x: nat, y: nat, texture: nat)

  /** The textures on the screen, by pixel position. */
  type Picture = map<(nat, nat), nat>

  /** The glyph shown for a cell: the cursor's block, or the character. */
  function Glyph(buf: seq<Cell>, cursor: nat, showCursor: bool, i: nat): nat
    requires i < |buf|
  {
    if i == cursor && showCursor then CURSOR else buf[i].ch
  }

  /** The pixel position of a cell of 8 by 16. */
  function TileX(columns: nat, i: nat): nat
    requires columns > 0
  {
    i % columns * 8
  }

  function TileY(columns: nat, i: nat): nat
    requires columns > 0
  {
    i / columns * 16
  }

  /** The two sprites of a cell, one above the other. */
  function CellSprites(columns: nat, i: nat, glyph: nat): seq<Sprite>
    requires columns > 0
  {
    [Sprite(TileX(columns, i), TileY(columns, i), glyph * 2 + 1),
        Sprite(TileX(columns, i), TileY(columns, i) + 8, glyph * 2 + 2)]
  }

  /** The sprites of the marked cells among the first n. */
  function Sprites(buf: seq<Cell>, columns: nat, cursor: nat, showCursor: bool, dirty: seq<bool>, n: nat): seq<Sprite>
    requires columns > 0 && n <= |buf| == |dirty|
  {
    if n == 0 then []
    else
      Sprites(buf, columns, cursor, showCursor, dirty, n - 1)
      + if dirty[n - 1] then CellSprites(columns, n - 1, Glyph(buf, cursor, showCursor, n - 1)) else []
  }

  /** What the frame buffer device draws. */
  function Draw(picture: Picture, sprites: seq<Sprite>): Picture {
    if sprites == [] then picture
    else
      var last := sprites[|sprites| - 1];
      Draw(picture, sprites[..|sprites| - 1])[(last.x, last.y) := last.texture]
  }

  /** The picture shows a cell. */
  predicate Shows(picture: Picture, columns: nat, i: nat, glyph: nat)
    requires columns > 0
  {
    var x, y := TileX(columns, i), TileY(columns, i);
    && (x, y) in picture && picture[(x, y)] == glyph * 2 + 1
    && (x, y + 8) in picture && picture[(x, y + 8)] == glyph * 2 + 2
  }

  lemma DrawnCell(picture: Picture, sprites: seq<Sprite>, columns: nat, i: nat, glyph: nat)
    requires columns > 0
    ensures var x, y := TileX(columns, i), TileY(columns, i);
            Draw(picture, sprites + CellSprites(columns, i, glyph))
            == Draw(picture, sprites)[(x, y) := glyph * 2 + 1][(x, y + 8) := glyph * 2 + 2]
  {
    var all := sprites + CellSprites(columns, i, glyph);
    assert all[..|all| - 1] == sprites + [all[|sprites|]];
    assert all[..|all| - 1][..|sprites|] == sprites;
  }

  /** Different cells lie in different places. */
  lemma CellsApart(columns: nat, i: nat, j: nat)
    requires columns > 0 && i != j
    ensures TileX(columns, i) != TileX(columns, j) || TileY(columns, i) != TileY(columns, j)
    ensures TileX(columns, i) != TileX(columns, j) || TileY(columns, i) != TileY(columns, j) + 8
    ensures TileX(columns, i) != TileX(columns, j) || TileY(columns, i) + 8 != TileY(columns, j)
  {
    assert i == i / columns * columns + i % columns;
    assert j == j / columns * columns + j % columns;
  }

  /** Drawing the first n cells leaves the others' places alone. */
  lemma {:induction false} OthersKept(picture: Picture, buf: seq<Cell>, columns: nat, cursor: nat, showCursor: bool,
                                      dirty: seq<bool>, n: nat, j: nat, glyph: nat)
    requires columns > 0 && n <= |buf| == |dirty| && n <= j
    ensures Shows(Draw(picture, Sprites(buf, columns, cursor, showCursor, dirty, n)), columns, j, glyph) <==>
              Shows(picture, columns, j, glyph)
  {
    hide TileX, TileY, Glyph;
    if n > 0 {
      OthersKept(picture, buf, columns, cursor, showCursor, dirty, n - 1, j, glyph);
      var before := Sprites(buf, columns, cursor, showCursor, dirty, n - 1);
      if dirty[n - 1] {
        DrawnCell(picture, before, columns, n - 1, Glyph(buf, cursor, showCursor, n - 1));
        CellsApart(columns, n - 1, j);
      } else {
        assert before + [] == before;
      }
    }
  }

  function AllMarked(n: nat): seq<bool> {
    seq(n, i => true)
  }

  /** When every cell that is not marked is shown already, drawing the marked ones gives the same picture
      as drawing all of them. */
  lemma {:induction false} DirtyIsEnough(picture: Picture, buf: seq<Cell>, columns: nat, cursor: nat,
                                         showCursor: bool, dirty: seq<bool>, n: nat)
    requires columns > 0 && n <= |buf| == |dirty|
    requires forall i: nat | i < n && !dirty[i] :: Shows(picture, columns, i, Glyph(buf, cursor, showCursor, i))
    ensures Draw(picture, Sprites(buf, columns, cursor, showCursor, dirty, n))
            == Draw(picture, Sprites(buf, columns, cursor, showCursor, AllMarked(|buf|), n))
  {
    hide TileX, TileY, Glyph, Draw;
    if n > 0 {
      DirtyIsEnough(picture, buf, columns, cursor, showCursor, dirty, n - 1);
      var glyph := Glyph(buf, cursor, showCursor, n - 1);
      var some := Sprites(buf, columns, cursor, showCursor, dirty, n - 1);
      var all := Sprites(buf, columns, cursor, showCursor, AllMarked(|buf|), n - 1);
      DrawnCell(picture, all, columns, n - 1, glyph);
      if dirty[n - 1] {
        DrawnCell(picture, some, columns, n - 1, glyph);
      } else {
        OthersKept(picture, buf, columns, cursor, showCursor, dirty, n - 1, n - 1, glyph);
        assert some + [] == some;
      }
    }
  }

  /** Drawing everything shows everything. */
  lemma {:induction false} AllShown(picture: Picture, buf: seq<Cell>, columns: nat, cursor: nat, showCursor: bool,
                                    n: nat, i: nat)
    requires columns > 0 && i < n <= |buf|
    ensures Shows(Draw(picture, Sprites(buf, columns, cursor, showCursor, AllMarked(|buf|), n)), columns, i,
              Glyph(buf, cursor, showCursor, i))
  {
    hide TileX, TileY, Glyph, Draw;
    var before := Sprites(buf, columns, cursor, showCursor, AllMarked(|buf|), n - 1);
    DrawnCell(picture, before, columns, n - 1, Glyph(buf, cursor, showCursor, n - 1));
    if i < n - 1 {
      AllShown(picture, buf, columns, cursor, showCursor, n - 1, i);
      CellsApart(columns, i, n - 1);
    }
  }

  /** Every cell that is not marked is shown as it is. */
  ghost predicate UpToDate(picture: Picture, buf: seq<Cell>, columns: nat, cursor: nat, showCursor: bool,
                           dirty: seq<bool>) {
    columns > 0 && |dirty| == |buf|
    && forall i: nat | i < |buf| && !dirty[i] :: Shows(picture, columns, i, Glyph(buf, cursor, showCursor, i))
  }

  /** A change keeps the picture up to date when it marks every cell it writes and both places of the
      cursor. */
  lemma UpToDateKept(picture: Picture, buf: seq<Cell>, buf': seq<Cell>, columns: nat, cursor: nat, cursor': nat,
                     showCursor: bool,
                     dirty: seq<bool>, dirty': seq<bool>)
    requires UpToDate(picture, buf, columns, cursor, showCursor, dirty) && |buf'| == |buf| == |dirty'|
    requires forall i: nat | i < |buf| && !dirty'[i] :: !dirty[i] && buf'[i] == buf[i] && i != cursor && i != cursor'
    ensures UpToDate(picture, buf', columns, cursor', showCursor, dirty')
  {}

  /** The marks after `tty_mark_line` of the line from `start` on. */
  ghost predicate LineMarked(dirty: seq<bool>, dirty': seq<bool>, start: nat, columns: nat) {
    |dirty'| == |dirty| && forall i: nat | i < |dirty| :: dirty'[i] == (dirty[i] || start <= i < start + columns)
  }

  class Tty {
    const lines: nat
    const columns: nat
    const showCursor: bool
    const buf: array<Cell>
    const dirty: array<bool>
    /** `cursor - buf`. */
    var cursor: nat
    /** What the frame buffer shows. */
    var picture: Picture

    predicate Sized()
    {
      buf.Length == dirty.Length == lines * columns && columns > 0 && lines * columns >= 2
    }

    ghost predicate Valid()
      reads this`cursor
    {
      Sized() && cursor < buf.Length
    }

    /** `tty_init`: a blank screen, the cursor at its start. */
    constructor (lines: nat, columns: nat, showCursor: bool, picture: Picture)
      requires columns > 0 && lines * columns >= 2
      ensures Valid() && this.lines == lines && this.columns == columns && this.picture == picture && cursor == 0
      ensures buf[..] == seq(lines * columns, i => Cell(0, 0)) && forall i | 0 <= i < dirty.Length :: !dirty[i]
      ensures this.showCursor == showCursor && dirty.Length == lines * columns
    {
      this.lines, this.columns, this.showCursor, this.picture := lines, columns, showCursor, picture;
      buf := new Cell[lines * columns](i => BLANK);
      dirty := new bool[lines * columns](i => false);
      cursor := 0;
    }

    /** The terminal that the buffer stands for. */
    ghost function Screen(): Screen
      requires Valid()
      reads this`cursor, buf
    {
      Read(buf[..], lines, columns, cursor)
    }

    ghost predicate Fresh()
      reads this, buf, dirty
    {
      UpToDate(picture, buf[..], columns, cursor, showCursor, dirty[..])
    }

    /** Every cell that is not marked is on the screen: the textures 2 g + 1 and 2 g + 2, one above the other, where g
        is the block 0xdb for the cell of a cursor that is shown and the character for any other. */
    lemma FreshMeans()
      requires Valid()
      ensures Fresh() <==>
                forall i: nat | i < buf.Length && !dirty[i] ::
                  var x, y := i % columns * 8, i / columns * 16;
                  var g := if showCursor && i == cursor then 0xdb else buf[i].ch;
                  && (x, y) in picture && picture[(x, y)] == 2 * g + 1
                  && (x, y + 8) in picture && picture[(x, y + 8)] == 2 * g + 2
    {
      forall i: nat | i < buf.Length
        ensures Shows(picture, columns, i, Glyph(buf[..], cursor, showCursor, i)) <==>
                  var x, y := i % columns * 8, i / columns * 16;
                  var g := if showCursor && i == cursor then 0xdb else buf[i].ch;
                  && (x, y) in picture && picture[(x, y)] == 2 * g + 1
                  && (x, y + 8) in picture && picture[(x, y + 8)] == 2 * g + 2
      {}
      if Fresh() {
        assert forall i: nat | i < buf.Length && !dirty[i] ::
            Shows(picture, columns, i, Glyph(buf[..], cursor, showCursor, i));
      }
    }

    /** With no cell marked, every cell is on the screen. */
    lemma AllOnScreen()
      requires Valid() && Fresh() && forall i | 0 <= i < dirty.Length :: !dirty[i]
      ensures forall i: nat | i < buf.Length ::
                var x, y := i % columns * 8, i / columns * 16;
                var g := if showCursor && i == cursor then 0xdb else buf[i].ch;
                && (x, y) in picture && picture[(x, y)] == 2 * g + 1
                && (x, y + 8) in picture && picture[(x, y + 8)] == 2 * g + 2
    {
      forall i: nat | i < buf.Length
        ensures var x, y := i % columns * 8, i / columns * 16;
                var g := if showCursor && i == cursor then 0xdb else buf[i].ch;
                && (x, y) in picture && picture[(x, y)] == 2 * g + 1
                && (x, y + 8) in picture && picture[(x, y + 8)] == 2 * g + 2
      {
        assert !dirty[i];
        assert Shows(picture, columns, i, Glyph(buf[..], cursor, showCursor, i));
      }
    }

    /** The cells of the screen lie in the buffer row by row. */
    lemma ScreenMeans()
      requires Valid()
      ensures Screen().row == cursor / columns && Screen().col == cursor % columns && |Screen().rows| == lines
      ensures forall r: nat | r < lines ::
                r * columns + columns <= buf.Length && Screen().rows[r] == buf[r * columns..r * columns + columns]
    {
      hide Read;
      ReadRows(buf[..], lines, columns, cursor);
    }

    /** `tty_upd_scrollup`, after which the source marks every cell. */
    method UpdScrollup()
      requires Sized() && columns <= cursor == buf.Length
      modifies this`cursor, buf, dirty
      ensures cursor == old(cursor) - columns && buf[..] == old(buf[..])[columns..] + BlankRow(columns)
    {
      var moved := buf.Length - columns;
      forall i | 0 <= i < moved {
        buf[i] := buf[i + columns];
      }
      forall i | 0 <= i < moved {
        dirty[i] := dirty[i + columns];
      }
      cursor := cursor - columns;
      ghost var shifted := buf[..];
      for i := 0 to columns
        invariant cursor == moved
        invariant forall k: nat | k < moved :: buf[k] == shifted[k]
        invariant forall k | moved <= k < moved + i :: buf[k] == BLANK
      {
        buf[cursor + i] := BLANK;
      }
      assert shifted[..moved] == old(buf[..])[columns..];
    }

    /** `tty_mark`. */
    method Mark(i: nat)
      requires i < dirty.Length
      modifies dirty
      ensures dirty[..] == old(dirty[..])[i := true]
    {
      dirty[i] := true;
    }

    /** `tty_mark_line`. */
    method MarkLine(at: nat)
      requires columns > 0 && at % columns <= at && at - at % columns + columns <= dirty.Length
      modifies dirty
      ensures LineMarked(old(dirty[..]), dirty[..], at - at % columns, columns)
    {
      var x := at % columns;
      for i := 0 to columns
        invariant LineMarked(old(dirty[..]), dirty[..], at - x, i)
      {
        Mark(at - x + i);
      }
    }

    /** `tty_mark_all`. */
    method MarkAll()
      modifies dirty
      ensures forall i | 0 <= i < dirty.Length :: dirty[i]
    {
      for i := 0 to dirty.Length
        invariant forall k | 0 <= k < i :: dirty[k]
      {
        Mark(i);
      }
    }

    /** The end of a character that moved the cursor to the end of the buffer. */
    method ScrollAndMark()
      requires Sized() && cursor == buf.Length && columns <= cursor
      modifies this`cursor, buf, dirty
      ensures cursor == old(cursor) - columns && buf[..] == old(buf[..])[columns..] + BlankRow(columns)
      ensures forall i | 0 <= i < dirty.Length :: dirty[i]
    {
      UpdScrollup();
      MarkAll();
    }

    method PutCr()
      requires Valid()
      modifies this`cursor, dirty
      ensures Valid() && WellFormed(old(Screen()), lines, columns)
      ensures Screen() == Typed(old(Screen()), lines, columns, CR)
      ensures cursor == old(cursor) / columns * columns
      ensures old(Fresh()) ==> Fresh()
    {
      ReadCr(buf[..], lines, columns, cursor);
      LineStart(lines, columns, cursor);
      var x := cursor % columns;
      cursor := cursor - x;
      MarkLine(cursor);
      if old(Fresh()) {
        UpToDateKept(picture, buf[..], buf[..], columns, old(cursor), cursor, showCursor, old(dirty[..]), dirty[..]);
      }
    }

    method PutBs()
      requires Valid()
      modifies this`cursor, buf, dirty
      ensures Valid() && WellFormed(old(Screen()), lines, columns)
      ensures Screen() == Typed(old(Screen()), lines, columns, BS)
      ensures cursor == if old(cursor) == 0 then 0 else old(cursor) - 1
      ensures buf[..] ==
              if old(cursor) == 0 then old(buf[..]) else old(buf[..])[cursor := Cell(old(buf[..])[cursor].metadata, 0)]
      ensures old(Fresh()) ==> Fresh()
    {
      if cursor > 0 {
        ReadBs(buf[..], lines, columns, cursor);
        cursor := cursor - 1;
        buf[cursor] := buf[cursor].(ch := 0);
        assert buf[..] == old(buf[..])[cursor := old(buf[..])[cursor].(ch := 0)];
      } else {
        ReadBsHome(buf[..], lines, columns);
      }
      Mark(cursor);
      Mark(cursor + 1);
      if old(Fresh()) {
        UpToDateKept(picture, old(buf[..]), buf[..], columns, old(cursor), cursor, showCursor, old(dirty[..]),
            dirty[..]);
      }
    }

    method PutLf()
      requires Valid()
      modifies this`cursor, buf, dirty
      ensures Valid() && WellFormed(old(Screen()), lines, columns)
      ensures Screen() == Typed(old(Screen()), lines, columns, LF)
      ensures var next := old(cursor) / columns * columns + columns;
              if next < buf.Length then cursor == next && buf[..] == old(buf[..])
              else cursor == next - columns && buf[..] == old(buf[..])[columns..] + seq(columns, i => Cell(0, 0))
      ensures old(Fresh()) ==> Fresh()
    {
      ReadLf(buf[..], lines, columns, cursor);
      LineStart(lines, columns, cursor);
      var x := cursor % columns;
      cursor := cursor - x;
      ghost var start := cursor;
      cursor := cursor + columns;
      if cursor == buf.Length {
        ScrollAndMark();
      } else {
        NextLine(lines, columns, start);
        MarkLine(cursor - columns);
        MarkLine(cursor);
      }
      if old(Fresh()) {
        UpToDateKept(picture, old(buf[..]), buf[..], columns, old(cursor), cursor, showCursor, old(dirty[..]),
            dirty[..]);
      }
    }

    method PutChar(ch: nat)
      requires Valid() && ch !in {CR, LF, BS}
      modifies this`cursor, buf, dirty
      ensures Valid() && WellFormed(old(Screen()), lines, columns)
      ensures Screen() == Typed(old(Screen()), lines, columns, ch)
      ensures var next, cells := old(cursor) + 1, old(buf[..])[old(cursor) := Cell(old(buf[cursor]).metadata, ch)];
              if next < buf.Length then cursor == next && buf[..] == cells
              else
                && columns <= buf.Length && cursor == next - columns
                && buf[..] == cells[columns..] + seq(columns, i => Cell(0, 0))
      ensures old(Fresh()) ==> Fresh()
    {
      ReadPut(buf[..], lines, columns, cursor, ch);
      buf[cursor] := buf[cursor].(ch := ch);
      assert buf[..] == old(buf[..])[cursor := old(buf[..])[cursor].(ch := ch)];
      cursor := cursor + 1;
      if cursor == buf.Length {
        ScrollAndMark();
      } else {
        Mark(cursor - 1);
        Mark(cursor);
      }
      if old(Fresh()) {
        UpToDateKept(picture, old(buf[..]), buf[..], columns, old(cursor), cursor, showCursor, old(dirty[..]),
            dirty[..]);
      }
    }

    /** `tty_putc`: carriage return, line feed, backspace or a character that is shown. The flat buffer does what
        the terminal does, and stays marked where the picture is behind. */
    method Putc(ch: nat)
      requires Valid()
      modifies this`cursor, buf, dirty
      ensures Valid() && WellFormed(old(Screen()), lines, columns)
      ensures Screen() == Typed(old(Screen()), lines, columns, ch)
      ensures ch == 13 ==> cursor == old(cursor) / columns * columns && buf[..] == old(buf[..])
      ensures ch == 8 && old(cursor) == 0 ==> cursor == 0 && buf[..] == old(buf[..])
      ensures ch == 8 && old(cursor) > 0 ==>
                && cursor == old(cursor) - 1
                && buf[..] == old(buf[..])[cursor := Cell(old(buf[..])[cursor].metadata, 0)]
      ensures ch != 13 && ch != 8 ==>
                var next := if ch == 10 then old(cursor) / columns * columns + columns else old(cursor) + 1;
                var cells :=
                  if ch == 10 then old(buf[..])
                  else old(buf[..])[old(cursor) := Cell(old(buf[cursor]).metadata, ch)];
                if next < buf.Length then cursor == next && buf[..] == cells
                else
                  && columns <= buf.Length && cursor == next - columns
                  && buf[..] == cells[columns..] + seq(columns, i => Cell(0, 0))
      ensures old(Fresh()) ==> Fresh()
    {
      if ch == CR {
        PutCr();
      } else if ch == BS {
        PutBs();
      } else if ch == LF {
        PutLf();
      } else {
        PutChar(ch);
      }
    }

    /** The loops of `tty_render` over the cells: two sprites for every marked one. */
    method Collect() returns (sp: seq<Sprite>)
      requires Valid()
      ensures sp == Sprites(buf[..], columns, cursor, showCursor, dirty[..], buf.Length)
    {
      hide CellSprites, TileX, TileY;
      var i := 0;
      sp := [];
      for y := 0 to lines
        invariant i == y * columns <= buf.Length
        invariant sp == Sprites(buf[..], columns, cursor, showCursor, dirty[..], i)
      {
        RowFits(y, lines, columns);
        SumOfFactors(y, 1, columns);
        for x := 0 to columns
          invariant i == y * columns + x <= y * columns + columns
          invariant sp == Sprites(buf[..], columns, cursor, showCursor, dirty[..], i)
        {
          RowStart(y, columns, x);
          if dirty[i] {
            var draw := if i == cursor && showCursor then CURSOR else buf[i].ch;
            CellDrawn(columns, x, y, i, draw);
            sp := sp + [Sprite(x * 8, y * 16, draw * 2 + 1), Sprite(x * 8, y * 16 + 8, draw * 2 + 2)];
          }
          i := i + 1;
        }
      }
    }

    /** The `memset` that clears the marks. */
    method ClearMarks()
      modifies dirty
      ensures forall i | 0 <= i < dirty.Length :: !dirty[i]
    {
      for i := 0 to dirty.Length
        invariant forall j | 0 <= j < i :: !dirty[j]
      {
        dirty[i] := false;
      }
    }

    /** `tty_render`: the sprites of the marked cells go to the frame buffer, and the marks are cleared. With the
        picture up to date, that is as good as drawing every cell, and every cell is on the screen. */
    method Render()
      requires Valid()
      modifies this`picture, dirty
      ensures forall i | 0 <= i < dirty.Length :: !dirty[i]
      ensures picture == Draw(old(picture), Sprites(buf[..], columns, cursor, showCursor, old(dirty[..]), buf.Length))
      ensures old(Fresh()) ==>
                && picture == Draw(old(picture),
                                   Sprites(buf[..], columns, cursor, showCursor, AllMarked(buf.Length), buf.Length))
                && Fresh()
      ensures old(Fresh()) ==>
                forall i: nat | i < buf.Length && !dirty[i] ::
                  var x, y := i % columns * 8, i / columns * 16;
                  var g := if showCursor && i == cursor then 0xdb else buf[i].ch;
                  && (x, y) in picture && picture[(x, y)] == 2 * g + 1
                  && (x, y + 8) in picture && picture[(x, y + 8)] == 2 * g + 2
    {
      hide Draw, Sprites, Shows, Glyph;
      ghost var behind := !Fresh();
      if !behind {
        Redrawn(picture, buf[..], columns, cursor, showCursor, dirty[..]);
      }
      var sp := Collect();
      picture := Draw(picture, sp);
      ClearMarks();
      if !behind {
        FreshMeans();
      }
    }

    /** `tty_write`: every character in turn, then one redraw, after which every cell is on the screen. */
    method Write(text: seq<nat>)
      requires Valid()
      modifies this`cursor, this`picture, buf, dirty
      ensures Valid() && WellFormed(old(Screen()), lines, columns)
      ensures Screen() == TypedAll(old(Screen()), lines, columns, text)
      ensures forall i | 0 <= i < dirty.Length :: !dirty[i]
      ensures old(Fresh()) ==>
                && Fresh()
                && picture == Draw(old(picture),
                                   Sprites(buf[..], columns, cursor, showCursor, AllMarked(buf.Length), buf.Length))
      ensures old(Fresh()) ==>
                forall i: nat | i < buf.Length && !dirty[i] ::
                  var x, y := i % columns * 8, i / columns * 16;
                  var g := if showCursor && i == cursor then 0xdb else buf[i].ch;
                  && (x, y) in picture && picture[(x, y)] == 2 * g + 1
                  && (x, y + 8) in picture && picture[(x, y + 8)] == 2 * g + 2
    {
      hide Typed, Draw, Sprites, UpToDate, Read;
      ReadWellFormed(buf[..], lines, columns, cursor);
      for i := 0 to |text|
        invariant Valid() && Screen() == TypedAll(old(Screen()), lines, columns, text[..i])
        invariant picture == old(picture) && (old(Fresh()) ==> Fresh())
      {
        assert text[..i + 1][..i] == text[..i];
        Putc(text[i]);
      }
      assert text[..|text|] == text;
      Render();
      if old(Fresh()) {
        FreshMeans();
      }
    }

    /** The full mark-and-render with which the terminal task begins: whatever was on the screen, every cell is there
        afterwards. */
    method Redraw()
      requires Valid()
      modifies this`picture, dirty
      ensures Fresh() && (forall i | 0 <= i < dirty.Length :: !dirty[i])
      ensures forall i: nat | i < buf.Length && !dirty[i] ::
                var x, y := i % columns * 8, i / columns * 16;
                var g := if showCursor && i == cursor then 0xdb else buf[i].ch;
                && (x, y) in picture && picture[(x, y)] == 2 * g + 1
                && (x, y + 8) in picture && picture[(x, y + 8)] == 2 * g + 2
    {
      hide Draw, Sprites, Shows, Glyph;
      MarkAll();
      Render();
      FreshMeans();
    }
  }

  lemma CellDrawn(columns: nat, x: nat, y: nat, i: nat, draw: nat)
    requires columns > 0 && i % columns == x && i / columns == y
    ensures CellSprites(columns, i, draw)
            == [Sprite(x * 8, y * 16, draw * 2 + 1), Sprite(x * 8, y * 16 + 8, draw * 2 + 2)]
  {}

  /** After the redraw of the marked cells every cell is shown. */
  lemma Redrawn(picture: Picture, buf: seq<Cell>, columns: nat, cursor: nat, showCursor: bool, dirty: seq<bool>)
    requires UpToDate(picture, buf, columns, cursor, showCursor, dirty)
    ensures Draw(picture, Sprites(buf, columns, cursor, showCursor, dirty, |buf|))
            == Draw(picture, Sprites(buf, columns, cursor, showCursor, AllMarked(|buf|), |buf|))
    ensures forall i: nat | i < |buf| ::
              Shows(Draw(picture, Sprites(buf, columns, cursor, showCursor, dirty, |buf|)), columns, i,
                  Glyph(buf, cursor, showCursor, i))
  {
    hide Draw, Sprites, Shows, Glyph;
    DirtyIsEnough(picture, buf, columns, cursor, showCursor, dirty, |buf|);
    forall i: nat | i < |buf|
      ensures Shows(Draw(picture, Sprites(buf, columns, cursor, showCursor, dirty, |buf|)), columns, i,
                Glyph(buf, cursor, showCursor, i))
    {
      AllShown(picture, buf, columns, cursor, showCursor, |buf|, i);
    }
  }

  /** The start of a line that is not the last one, and the line after it. */
  lemma NextLine(lines: nat, columns: nat, start: nat)
    requires columns > 0 && start % columns == 0 && start + columns < lines * columns
    ensures (start + columns) % columns == 0 && start + columns + columns <= lines * columns
  {
    LineStart(lines, columns, start);
    LineStart(lines, columns, start + columns);
  }
}
