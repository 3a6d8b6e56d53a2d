/** The 80x25 text console: a scrolling buffer that refines an unbounded page. */
module Vga {
  import opened Words
  import opened CStrings

  const BACKSPACE: Char := 8 as char

  /** A 16-bit entry of the text buffer: character in the low byte, colours in the high byte. */
  type Cell = x: int | 0 <= x < 65536

  const WIDTH: int := 80
  const HEIGHT: int := 25

  /** `uc | color << 8`; the two bytes share no bit. */
  function Entry(uc: Char, color: Byte): Cell {
    uc as int + 256 * color
  }

  function CharOf(x: Cell): Char {
    (x % 256) as char
  }

  lemma EntryParts(uc: Char, color: Byte)
    ensures CharOf(Entry(uc, color)) == uc && Entry(uc, color) / 256 == color
  {
  }

  /** `fg | bg << 4`. */
  function EntryColor(fg: int, bg: int): Byte
    requires 0 <= fg < 16 && 0 <= bg < 16
  {
    fg + 16 * bg
  }

  /**
    Everything written since the screen was cleared, one row below the other: the rows scrolled off,
    then the 25 visible ones. `pos` is the cursor in row-major order, `top` the number of rows that
    have scrolled off.
  */
  datatype Page = Page(cells: seq<Cell>, pos: nat, top: nat) {
    predicate Ok() {
      |cells| == WIDTH * (top + HEIGHT) && WIDTH * top <= pos < |cells|
    }
  }

  function Blanks(n: nat, color: Byte): seq<Cell> {
    seq(n, _ => Entry(' ', color))
  }

  function Cleared(color: Byte): (p: Page)
    ensures p.Ok()
  {
    Page(Blanks(WIDTH * HEIGHT, color), 0, 0)
  }

  /** A cursor that has left the last visible row opens a new one. */
  function Settle(cells: seq<Cell>, pos: nat, top: nat, color: Byte): (p: Page)
    requires |cells| == WIDTH * (top + HEIGHT) && WIDTH * top <= pos <= |cells|
    ensures p.Ok() && p.pos == pos
  {
    if pos == |cells| then Page(cells + Blanks(WIDTH, color), pos, top + 1) else Page(cells, pos, top)
  }

  function NextRow(pos: nat): nat {
    (pos / WIDTH + 1) * WIDTH
  }

  function Put(p: Page, c: Char, color: Byte): (p': Page)
    requires p.Ok()
    ensures p'.Ok()
  {
    if c == '\n' then
      Settle(p.cells, NextRow(p.pos), p.top, color)
    else if c == BACKSPACE then
      var pos := if p.pos > WIDTH * p.top then p.pos - 1 else p.pos;
      Page(p.cells[pos := Entry(' ', color)], pos, p.top)
    else
      Settle(p.cells[p.pos := Entry(c, color)], p.pos + 1, p.top, color)
  }

  /** A cleared screen: 2000 spaces in the given colours, and the cursor in the first of them. */
  lemma ClearedCells(color: Byte, k: nat)
    ensures |Cleared(color).cells| == 2000 && Cleared(color).pos == 0
    ensures k < 2000 ==> Cleared(color).cells[k] == 32 + 256 * color
  {
  }

  /** Where a character goes: the cursor, and how far the page has scrolled. */
  lemma PutMoves(p: Page, c: Char, color: Byte)
    requires p.Ok()
    ensures var p' := Put(p, c, color);
      && (c == '\n' ==> p.pos < p'.pos <= p.pos + 80 && p'.pos % 80 == 0)
      && (c == BACKSPACE ==> p'.pos == if p.pos > 80 * p.top then p.pos - 1 else p.pos)
      && (c != '\n' && c != BACKSPACE ==> p'.pos == p.pos + 1)
      && p'.top == (if p'.pos == 80 * (p.top + 25) then p.top + 1 else p.top)
  {
  }

  /** The cells it changes: a printed character has the given colours, and so have the blanks. */
  lemma PutCells(p: Page, c: Char, color: Byte, k: nat)
    requires p.Ok() && k < |Put(p, c, color).cells|
    ensures var p' := Put(p, c, color);
      p'.cells[k] ==
        if k >= |p.cells| || (c == BACKSPACE && k == p'.pos) then 32 + 256 * color
        else if c != '\n' && c != BACKSPACE && k == p.pos then c as int + 256 * color
        else p.cells[k]
  {
  }

  /** Foreground in the low half of the colour byte, background in the high half. */
  lemma ColorParts(fg: int, bg: int)
    requires 0 <= fg < 16 && 0 <= bg < 16
    ensures EntryColor(fg, bg) % 16 == fg && EntryColor(fg, bg) / 16 == bg
  {
  }

  function PutAll(p: Page, s: seq<Char>, color: Byte): (p': Page)
    requires p.Ok()
    ensures p'.Ok()
    decreases |s|
  {
    if s == [] then p else PutAll(Put(p, s[0], color), s[1..], color)
  }

  lemma {:induction false} PutAllConcat(p: Page, s: seq<Char>, t: seq<Char>, color: Byte)
    requires p.Ok()
    ensures PutAll(p, s + t, color) == PutAll(PutAll(p, s, color), t, color)
    decreases |s|
  {
    if s == [] {
      assert s + t == t;
    } else {
      var st, rest := s + t, s[1..];
      assert st[0] == s[0] && st[1..] == rest + t;
      PutAllConcat(Put(p, s[0], color), rest, t, color);
    }
  }

  class Console {
    const buffer: array<Cell>
    var row: nat
    var column: nat
    var currentColor: Byte

    ghost var page: Page

    /** The buffer is the visible window of the page, and the cursor is the page's. */
    ghost predicate Valid()
      reads this, buffer
    {
      && buffer.Length == WIDTH * HEIGHT && row < HEIGHT && column < WIDTH && page.Ok()
      && buffer[..] == page.cells[WIDTH * page.top..]
      && WIDTH * row + column == page.pos - WIDTH * page.top
    }

    constructor ()
      ensures Valid() && fresh(buffer) && page == Cleared(15) && currentColor == 15
    {
      buffer := new Cell[2000](_ => Entry(' ', 15));
      row, column, currentColor := 0, 0, EntryColor(15, 0);
      page := Cleared(15);
    }

    method SetColor(fg: int, bg: int)
      requires 0 <= fg < 16 && 0 <= bg < 16
      modifies `currentColor
      ensures currentColor == EntryColor(fg, bg)
    {
      currentColor := EntryColor(fg, bg);
    }

    method Clear()
      requires buffer.Length == WIDTH * HEIGHT
      modifies `row, `column, `page, buffer
      ensures Valid() && page == Cleared(currentColor)
    {
      var y := 0;
      while y < 25
        invariant 0 <= y <= 25 && forall k :: 0 <= k < 80 * y ==> buffer[k] == Entry(' ', currentColor)
      {
        var x := 0;
        while x < 80
          invariant 0 <= x <= 80 && forall k :: 0 <= k < 80 * y + x ==> buffer[k] == Entry(' ', currentColor)
        {
          buffer[y * 80 + x] := Entry(' ', currentColor);
          x := x + 1;
        }
        y := y + 1;
      }
      row := 0;
      column := 0;
      page := Cleared(currentColor);
    }

    /** Shifts every row up by one and blanks the last. */
    method Scroll()
      requires buffer.Length == WIDTH * HEIGHT
      modifies `row, buffer
      ensures buffer[..] == old(buffer[..])[WIDTH..] + Blanks(WIDTH, currentColor) && row == HEIGHT - 1
    {
      var y := 0;
      while y < 24
        invariant 0 <= y <= 24
        invariant forall k :: 0 <= k < 80 * y ==> buffer[k] == old(buffer[k + 80])
        invariant forall k :: 80 * y <= k < 2000 ==> buffer[k] == old(buffer[k])
      {
        var x := 0;
        while x < 80
          invariant 0 <= x <= 80
          invariant forall k :: 0 <= k < 80 * y + x ==> buffer[k] == old(buffer[k + 80])
          invariant forall k :: 80 * y + x <= k < 2000 ==> buffer[k] == old(buffer[k])
        {
          buffer[y * 80 + x] := buffer[(y + 1) * 80 + x];
          x := x + 1;
        }
        y := y + 1;
      }
      var x := 0;
      while x < 80
        invariant 0 <= x <= 80
        invariant forall k :: 0 <= k < 1920 ==> buffer[k] == old(buffer[k + 80])
        invariant forall k :: 1920 <= k < 1920 + x ==> buffer[k] == Entry(' ', currentColor)
      {
        buffer[24 * 80 + x] := Entry(' ', currentColor);
        x := x + 1;
      }
      row := 24;
    }

    /** `++row`, scrolling when that leaves the screen; column has just become 0. */
    method NewRow(ghost cells: seq<Cell>, ghost pos: nat)
      requires buffer.Length == WIDTH * HEIGHT && row < HEIGHT && column == 0 && page.Ok()
      requires |cells| == |page.cells| && buffer[..] == cells[WIDTH * page.top..]
      requires pos == WIDTH * (page.top + row + 1)
      modifies `row, `page, buffer
      ensures Valid() && page == Settle(cells, pos, old(page).top, currentColor)
    {
      row := row + 1;
      page := Settle(cells, pos, page.top, currentColor);
      if row == 25 {
        Scroll();
        assert page.cells[WIDTH * page.top..] == cells[WIDTH * old(page).top..][WIDTH..] + Blanks(WIDTH, currentColor);
      }
    }

    /** Moves the cursor back, over the end of the row above if need be, and blanks the cell there. */
    method Erase()
      requires Valid()
      modifies `row, `column, `page, buffer
      ensures Valid() && page == Put(old(page), BACKSPACE, currentColor)
    {
      if column > 0 {
        column := column - 1;
      } else if row > 0 {
        row := row - 1;
        column := 80 - 1;
      }
      buffer[row * 80 + column] := Entry(' ', currentColor);
      page := Put(page, BACKSPACE, currentColor);
    }

    /** Writes one character at the cursor and moves on. */
    method Print(c: Char)
      requires Valid() && c != '\n' && c != BACKSPACE
      modifies `row, `column, `page, buffer
      ensures Valid() && page == Put(old(page), c, currentColor)
    {
      buffer[row * 80 + column] := Entry(c, currentColor);
      ghost var cells := page.cells[page.pos := Entry(c, currentColor)];
      assert buffer[..] == cells[WIDTH * page.top..];
      column := column + 1;
      if column == 80 {
        column := 0;
        NewRow(cells, page.pos + 1);
      } else {
        page := Put(page, c, currentColor);
      }
    }

    method Putchar(c: Char)
      requires Valid()
      modifies `row, `column, `page, buffer
      ensures Valid() && page == Put(old(page), c, currentColor)
    {
      if c == '\n' {
        RowOf(page, row, column);
        column := 0;
        NewRow(page.cells, NextRow(page.pos));
        return;
      }
      if c == BACKSPACE {
        Erase();
        return;
      }
      Print(c);
    }

    /** Writes the text of a null-terminated string. */
    method Write(data: seq<Char>)
      requires Valid() && Terminated(data)
      modifies `row, `column, `page, buffer
      ensures Valid() && page == PutAll(old(page), Text(data), currentColor)
    {
      var i := 0;
      while data[i] != NUL
        invariant 0 <= i <= |Text(data)| && Valid() && page == PutAll(old(page), Text(data)[..i], currentColor)
        decreases |data| - i
      {
        Putchar(data[i]);
        assert Text(data)[..i + 1] == Text(data)[..i] + [data[i]];
        PutAllConcat(old(page), Text(data)[..i], [data[i]], currentColor);
        i := i + 1;
      }
      assert Text(data)[..i] == Text(data);
    }
  }

  lemma RowOf(p: Page, row: nat, column: nat)
    requires p.Ok() && column < WIDTH && WIDTH * row + column == p.pos - WIDTH * p.top
    ensures NextRow(p.pos) == WIDTH * (p.top + row + 1)
  {
    assert p.pos / WIDTH == p.top + row;
  }
}
