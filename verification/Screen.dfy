/** What the console shows: a window onto the text written so far. */
module Screen {
  import opened Words
  import opened CStrings
  import opened Vga

  function Spaces(n: nat): (t: seq<Char>)
    ensures |t| == n
  {
    seq(n, _ => ' ')
  }

  function Chars(cells: seq<Cell>): (t: seq<Char>)
    ensures |t| == |cells|
  {
    seq(|cells|, i requires 0 <= i < |cells| => CharOf(cells[i]))
  }

  /**
    The text written since the screen was cleared, laid out in rows of 80 up to the cursor, and the
    number of rows that have scrolled off.
  */
  datatype Sheet = Sheet(text: seq<Char>, top: nat) {
    predicate Ok() {
      WIDTH * top <= |text| < WIDTH * (top + HEIGHT)
    }
  }

  function Grown(text: seq<Char>, top: nat): Sheet {
    Sheet(text, if |text| == WIDTH * (top + HEIGHT) then top + 1 else top)
  }

  /** A line, and the blanks up to the next row that it does not reach. */
  function Padded(line: seq<Char>): (t: seq<Char>)
    ensures |line| < |t| <= |line| + WIDTH
  {
    line + Spaces(WIDTH - |line| % WIDTH)
  }

  /** A newline fills up the row; a backspace takes back the last character that has not scrolled off. */
  function Type(s: Sheet, c: Char): (s': Sheet)
    requires s.Ok()
    ensures s'.Ok()
  {
    if c == '\n' then
      Grown(Padded(s.text), s.top)
    else if c == BACKSPACE then
      Sheet(if |s.text| > WIDTH * s.top then s.text[..|s.text| - 1] else s.text, s.top)
    else
      Grown(s.text + [c], s.top)
  }

  function TypeAll(s: Sheet, t: seq<Char>): (s': Sheet)
    requires s.Ok()
    ensures s'.Ok()
    decreases |t|
  {
    if t == [] then s else TypeAll(Type(s, t[0]), t[1..])
  }

  lemma {:induction false} TypeAllConcat(s: Sheet, t: seq<Char>, u: seq<Char>)
    requires s.Ok()
    ensures TypeAll(s, t + u) == TypeAll(TypeAll(s, t), u)
    decreases |t|
  {
    if t == [] {
      assert t + u == u;
    } else {
      var tu, rest := t + u, t[1..];
      assert tu[0] == t[0] && tu[1..] == rest + u;
      TypeAllConcat(Type(s, t[0]), rest, u);
    }
  }

  // ---- The page and its text -----------------------------------------------------------------

  /** Every cell from the cursor on is blank. */
  ghost predicate Clean(p: Page) {
    forall i :: p.pos <= i < |p.cells| ==> CharOf(p.cells[i]) == ' '
  }

  function SheetOf(p: Page): (s: Sheet)
    requires p.Ok()
    ensures s.Ok()
  {
    Sheet(Chars(p.cells[..p.pos]), p.top)
  }

  lemma ClearedSheet(color: Byte)
    ensures Clean(Cleared(color)) && SheetOf(Cleared(color)) == Sheet([], 0)
  {
    EntryParts(' ', color);
  }

  /** One character on the page is one character of the text, whatever the colour. */
  lemma PutTypes(p: Page, c: Char, color: Byte)
    requires p.Ok() && Clean(p)
    ensures Clean(Put(p, c, color)) && SheetOf(Put(p, c, color)) == Type(SheetOf(p), c)
  {
    var p' := Put(p, c, color);
    EntryParts(c, color);
    EntryParts(' ', color);
    if c == '\n' {
      assert Chars(p'.cells[..p'.pos]) == Padded(Chars(p.cells[..p.pos]));
    } else if c == BACKSPACE {
      assert Chars(p'.cells[..p'.pos]) == Chars(p.cells[..p.pos])[..p'.pos];
    } else {
      assert Chars(p'.cells[..p'.pos]) == Chars(p.cells[..p.pos]) + [c];
    }
  }

  lemma {:induction false} PutAllTypes(p: Page, t: seq<Char>, color: Byte)
    requires p.Ok() && Clean(p)
    ensures Clean(PutAll(p, t, color)) && SheetOf(PutAll(p, t, color)) == TypeAll(SheetOf(p), t)
    decreases |t|
  {
    if t != [] {
      PutTypes(p, t[0], color);
      PutAllTypes(Put(p, t[0], color), t[1..], color);
    }
  }

  /** The last rows of the text that fit on the screen, filled up with blanks. */
  function Window(s: Sheet): (w: seq<Char>)
    requires s.Ok()
    ensures |w| == WIDTH * HEIGHT
  {
    s.text[WIDTH * s.top..] + Spaces(WIDTH * (s.top + HEIGHT) - |s.text|)
  }

  /** The buffer shows the window, with the cursor right after the text and blanks from there on. */
  lemma BufferShowsWindow(console: Console)
    requires console.Valid() && Clean(console.page)
    ensures Chars(console.buffer[..]) == Window(SheetOf(console.page))
    ensures WIDTH * console.row + console.column == |SheetOf(console.page).text| - WIDTH * console.page.top
    ensures forall k :: WIDTH * console.row + console.column <= k < WIDTH * HEIGHT ==> CharOf(console.buffer[k]) == ' '
  {
    var p, w := console.page, Window(SheetOf(console.page));
    var shown := Chars(console.buffer[..]);
    forall k | 0 <= k < WIDTH * HEIGHT ensures shown[k] == w[k] {
      assert console.buffer[..][k] == p.cells[WIDTH * p.top + k];
    }
  }

  // ---- Wrapped lines -------------------------------------------------------------------------

  /** Everything before the first newline. */
  function FirstLine(t: seq<Char>): (line: seq<Char>)
    ensures |line| <= |t| && line == t[..|line|] && '\n' !in line
    ensures |line| < |t| ==> t[|line|] == '\n'
  {
    if t == [] || t[0] == '\n' then [] else [t[0]] + FirstLine(t[1..])
  }

  /** The lines of a text one after the other, each ended line filled up to whole rows. */
  function Wrapped(t: seq<Char>): seq<Char>
    decreases |t|
  {
    var line := FirstLine(t);
    if |line| == |t| then line else Padded(line) + Wrapped(t[|line| + 1..])
  }

  /** No more rows have scrolled off than the text forces. */
  predicate Tight(s: Sheet) {
    s.top == 0 || WIDTH * (s.top + HEIGHT - 1) <= |s.text|
  }

  lemma {:induction false} LineTypes(s: Sheet, line: seq<Char>)
    requires s.Ok() && Tight(s) && '\n' !in line && BACKSPACE !in line
    ensures TypeAll(s, line).text == s.text + line && Tight(TypeAll(s, line))
    decreases |line|
  {
    if line != [] {
      var s', rest := Type(s, line[0]), line[1..];
      LineTypes(s', rest);
      assert s'.text + rest == s.text + line;
    } else {
      assert s.text + line == s.text;
    }
  }

  /** A line that starts on row `rows` and is ended by a newline. */
  lemma EndedLineTypes(s: Sheet, line: seq<Char>, rows: nat) returns (s': Sheet, rows': nat)
    requires s.Ok() && Tight(s) && |s.text| == WIDTH * rows && '\n' !in line && BACKSPACE !in line
    ensures s' == Type(TypeAll(s, line), '\n')
    ensures s'.text == s.text + Padded(line) && Tight(s') && |s'.text| == WIDTH * rows'
  {
    s' := Type(TypeAll(s, line), '\n');
    LineTypes(s, line);
    rows' := rows + |line| / 80 + 1;
    assert |s.text + line| == |line| + 80 * rows;
    assert |s.text + line| % 80 == |line| % 80;
    assert Padded(s.text + line) == s.text + Padded(line);
  }

  /** Typing a text that has a newline is typing its first line, the newline and the rest. */
  lemma LineThenRest(s: Sheet, t: seq<Char>, line: seq<Char>, rest: seq<Char>)
    requires s.Ok() && t == line + ['\n'] + rest
    ensures TypeAll(s, t) == TypeAll(Type(TypeAll(s, line), '\n'), rest)
  {
    var tail := ['\n'] + rest;
    assert t == line + tail && tail[0] == '\n' && tail[1..] == rest;
    TypeAllConcat(s, line, tail);
  }

  lemma OneLine(t: seq<Char>)
    requires '\n' !in t
    ensures Wrapped(t) == t
  {
  }

  lemma CutLine(t: seq<Char>) returns (line: seq<Char>, rest: seq<Char>)
    requires '\n' in t
    ensures t == line + ['\n'] + rest && '\n' !in line && Wrapped(t) == Padded(line) + Wrapped(rest)
  {
    line := FirstLine(t);
    assert |line| == |t| ==> line == t;
    rest := t[|line| + 1..];
  }

  lemma FirstLineTypes(s: Sheet, t: seq<Char>, rows: nat) returns (s': Sheet, rest: seq<Char>, rows': nat)
    requires s.Ok() && Tight(s) && |s.text| == WIDTH * rows && BACKSPACE !in t && '\n' in t
    ensures s'.Ok() && Tight(s') && |s'.text| == WIDTH * rows' && BACKSPACE !in rest && |rest| < |t|
    ensures TypeAll(s, t) == TypeAll(s', rest) && s.text + Wrapped(t) == s'.text + Wrapped(rest)
  {
    hide TypeAll, Type, Wrapped, Padded, Tight, FirstLine;
    var line;
    line, rest := CutLine(t);
    s', rows' := EndedLineTypes(s, line, rows);
    LineThenRest(s, t, line, rest);
  }

  /** Without backspaces, the text on the screen is the wrapped text, scrolled just as far as needed. */
  lemma {:induction false} TypedIsWrapped(s: Sheet, t: seq<Char>, rows: nat)
    requires s.Ok() && Tight(s) && |s.text| == WIDTH * rows && BACKSPACE !in t
    ensures TypeAll(s, t).text == s.text + Wrapped(t) && Tight(TypeAll(s, t))
    decreases |t|
  {
    if '\n' in t {
      var s', rest, rows' := FirstLineTypes(s, t, rows);
      TypedIsWrapped(s', rest, rows');
    } else {
      OneLine(t);
      LineTypes(s, t);
    }
  }

  /** From a cleared screen, the buffer shows the last rows of the wrapped text that fit. */
  lemma ScreenShowsWrapped(console: Console, color: Byte, t: seq<Char>)
    requires console.Valid() && console.page == PutAll(Cleared(color), t, color) && BACKSPACE !in t
    ensures var s := SheetOf(console.page);
      s.text == Wrapped(t) && Tight(s) && Chars(console.buffer[..]) == Window(s)
  {
    ClearedSheet(color);
    PutAllTypes(Cleared(color), t, color);
    TypedIsWrapped(Sheet([], 0), t, 0);
    assert [] + Wrapped(t) == Wrapped(t);
    BufferShowsWindow(console);
  }

  // ---- Backspaces ----------------------------------------------------------------------------

  function Backspaces(n: nat): (t: seq<Char>)
    ensures |t| == n
  {
    seq(n, _ => BACKSPACE)
  }

  lemma {:induction false} BackspacesErase(s: Sheet, n: nat)
    requires s.Ok()
    ensures TypeAll(s, Backspaces(n)).top == s.top
    ensures n <= |s.text| - WIDTH * s.top ==> TypeAll(s, Backspaces(n)).text == s.text[..|s.text| - n]
    ensures n >= |s.text| - WIDTH * s.top ==> TypeAll(s, Backspaces(n)).text == s.text[..WIDTH * s.top]
    decreases n
  {
    if n > 0 {
      assert Backspaces(n)[0] == BACKSPACE && Backspaces(n)[1..] == Backspaces(n - 1);
      BackspacesErase(Type(s, BACKSPACE), n - 1);
    }
  }

  /** Characters without a meaning of their own. */
  predicate Printable(t: seq<Char>) {
    '\n' !in t && BACKSPACE !in t
  }

  lemma {:induction false} PrintedAppends(s: Sheet, line: seq<Char>)
    requires s.Ok() && Printable(line)
    ensures TypeAll(s, line).text == s.text + line
    ensures TypeAll(s, line).top >= s.top && (TypeAll(s, line).top == s.top || Tight(TypeAll(s, line)))
    decreases |line|
  {
    if line != [] {
      var s', rest := Type(s, line[0]), line[1..];
      PrintedAppends(s', rest);
      assert s'.text + rest == s.text + line;
    }
  }

  /** Nothing but a backspace changes what stands before the cursor. */
  lemma {:induction false} CellsStay(p: Page, t: seq<Char>, color: Byte, k: nat)
    requires p.Ok() && BACKSPACE !in t && k < p.pos
    ensures p.pos <= PutAll(p, t, color).pos && PutAll(p, t, color).cells[k] == p.cells[k]
    decreases |t|
  {
    if t != [] {
      PutMoves(p, t[0], color);
      PutCells(p, t[0], color, k);
      CellsStay(Put(p, t[0], color), t[1..], color, k);
    }
  }

  /** A printed text stands in consecutive cells, in the given colours. */
  lemma {:induction false} PrintedCells(p: Page, t: seq<Char>, color: Byte, k: nat)
    requires p.Ok() && Printable(t)
    ensures PutAll(p, t, color).pos == p.pos + |t|
    ensures k < |t| ==> PutAll(p, t, color).cells[p.pos + k] == t[k] as int + 256 * color
    decreases |t|
  {
    if t != [] {
      var p', rest := Put(p, t[0], color), t[1..];
      PutMoves(p, t[0], color);
      if k == 0 {
        PutCells(p, t[0], color, p.pos);
        CellsStay(p', rest, color, p.pos);
        PrintedCells(p', rest, color, 0);
      } else {
        PrintedCells(p', rest, color, k - 1);
      }
    }
  }

  /**
    Erasing what was printed takes it back if and only if the row where the text ended is among the last
    25 that the printed text reaches.
  */
  lemma EraseUndoesPrint(s: Sheet, line: seq<Char>)
    requires s.Ok() && Printable(line)
    ensures TypeAll(s, line + Backspaces(|line|)).text == s.text <==>
      (|s.text| + |line|) / WIDTH - (HEIGHT - 1) <= |s.text| / WIDTH
  {
    PrintedAppends(s, line);
    var mid := TypeAll(s, line);
    TypeAllConcat(s, line, Backspaces(|line|));
    BackspacesErase(mid, |line|);
    assert mid.text[..|s.text|] == s.text;
    RowsReached(s, mid);
    if WIDTH * mid.top > |s.text| {
      assert |TypeAll(mid, Backspaces(|line|)).text| == WIDTH * mid.top;
    }
  }

  lemma RowsReached(s: Sheet, mid: Sheet)
    requires s.Ok() && mid.Ok() && |s.text| <= |mid.text| && (mid.top == s.top || Tight(mid)) && s.top <= mid.top
    ensures WIDTH * mid.top <= |s.text| <==> |mid.text| / WIDTH - (HEIGHT - 1) <= |s.text| / WIDTH
  {
    var a, b := |s.text| / 80, |mid.text| / 80;
    assert 80 * a <= |s.text| < 80 * a + 80 && 80 * b <= |mid.text| < 80 * b + 80;
  }

  /** A screenful, from a cleared screen, cannot be taken back. */
  lemma ScreenfulStays(line: seq<Char>)
    requires |line| == WIDTH * HEIGHT && Printable(line)
    ensures TypeAll(Sheet([], 0), line + Backspaces(|line|)).text != []
  {
    EraseUndoesPrint(Sheet([], 0), line);
  }
}
