/** What the user sees: the answer to every command, and in which colours. */
module Dialogs {
  import opened Words
  import opened HeapList
  import opened HeapExact
  import opened CStrings
  import opened Vga
  import opened Screen
  import opened Files
  import opened Commands
  import opened Sessions

  /** A line was entered: the screen shows it with this answer and a new prompt, behind which nothing is typed yet. */
  ghost predicate Answered(s: Session, line: seq<Char>, answer: seq<Char>, s': Session)
    requires s.Ok() && s'.Ok()
  {
    && s'.line == [] && s'.entered == s.entered + 1
    && Displays(s, line + ['\n'] + answer + Literal("frisca-os> "), s')
  }

  /** Neither files nor heap have changed. */
  predicate OnlyShown(s: Session, s': Session) {
    s'.state.files == s.state.files && s'.state.nodes == s.state.nodes
  }

  lemma Entered(s: Session, line: seq<Char>, command: Command, demo: Outputs)
    requires Agrees(s) && s.line == [] && Printable(line) && 0 < |line| <= MAX_LINE
    requires command == Parse(line) && !command.Clear?
    ensures var s' := Keys(s, line + ['\n'], demo);
      && Answered(s, line, Answer(s.state.files, s.state.nodes, command, demo(s.entered)), s')
      && s'.state.files == FilesAfter(s.state.files, s.state.nodes, command)
      && s'.state.nodes == NodesAfter(s.state.files, s.state.nodes, command)
  {
    CommandDisplays(s, line, command, demo);
    EnteredLine(s, line, demo);
  }

  lemma ListDisplays(s: Session, demo: Outputs)
    requires Agrees(s) && s.line == []
    ensures var s' := Keys(s, Literal("ls") + ['\n'], demo);
      Answered(s, Literal("ls"), Listing(s.state.files), s') && OnlyShown(s, s')
  {
    hide Parse, Agrees, Answered, Keys;
    ParsesAsWord(Literal("ls"));
    Entered(s, Literal("ls"), List, demo);
  }

  /** A name that no file has. */
  lemma CatMisses(s: Session, name: seq<Char>, demo: Outputs)
    requires Agrees(s) && s.line == [] && Printable(name) && name != [] && |CatLine(name)| <= MAX_LINE
    requires !Named(s.state.files, name)
    ensures var s' := Keys(s, CatLine(name) + ['\n'], demo);
      Answered(s, CatLine(name), Literal("File not found!\n"), s') && OnlyShown(s, s')
  {
    LinesPrintable(name, []);
    ParsesAsCat(CatLine(name), name);
    FindIsFirst(s.state.files, name);
    Entered(s, CatLine(name), Cat(name), demo);
  }

  /** `cat` without a name. */
  lemma CatExplains(s: Session, demo: Outputs)
    requires Agrees(s) && s.line == []
    ensures var s' := Keys(s, Literal("cat ") + ['\n'], demo);
      Answered(s, Literal("cat "), Literal("Usage: cat <filename>\n"), s') && OnlyShown(s, s')
  {
    hide Parse, Agrees, Answered, Keys;
    assert Printable(Literal("cat "));
    hide Printable;
    ParsesAsWord(Literal("cat "));
    Entered(s, Literal("cat "), CatUsage, demo);
  }

  /** `write` without a name, without a space after it or without a content. */
  lemma WriteExplains(s: Session, line: seq<Char>, demo: Outputs)
    requires Agrees(s) && s.line == [] && Printable(line) && |line| <= MAX_LINE
    requires StartsWith(line, Literal("write ")) && !Parse(line).Write?
    ensures var s' := Keys(s, line + ['\n'], demo);
      Answered(s, line, Literal("Usage: write <filename> <content>\n"), s') && OnlyShown(s, s')
  {
    assert |line| >= 6;
    hide Parse, Agrees, Answered, Keys, Printable, StartsWith, Literal;
    ParsesAsWord(line);
    Entered(s, line, WriteUsage, demo);
  }

  lemma RoomForText(nodes: seq<Node>, lo: int, hi: int, n: nat)
    requires n < MAX_LINE && Tidy(nodes, lo, hi) && lo > 0
    ensures HasRoom(nodes, n + 1) <==> HasRun(Live(nodes), lo, hi, 12 + (n + 4) / 4 * 4)
  {
    hide HeapList.Kmalloc, Tidy, HasRun, Live;
    RoomInRun(nodes, lo, hi, n + 1);
    RoundedSize(n + 1);
  }

  /** What `write` reports, and the files and the heap after it. */
  lemma WriteOutcome(files: seq<File>, nodes: seq<Node>, name: seq<Char>, content: seq<Char>, lo: int, hi: int, demo: Output)
    requires |content| < MAX_LINE && Tidy(nodes, lo, hi) && lo > 0
    ensures var c := Write(name, content);
      var reply, files', nodes' := Answer(files, nodes, c, demo), FilesAfter(files, nodes, c), NodesAfter(files, nodes, c);
      if |files| >= 16 then
        reply == Literal("Error creating file!\n") && files' == files && nodes' == nodes
      else if Named(files, name) then
        reply == Literal("Error: File already exists!\n") && files' == files && nodes' == nodes
      else if !HasRun(Live(nodes), lo, hi, 12 + (|content| + 4) / 4 * 4) then
        reply == Literal("Error creating file!\n") && files' == files && nodes' == nodes
      else
        && reply == Literal("File created successfully!\n")
        && files' == files + [File(if |name| <= 31 then name else name[..31], content)]
        && nodes' == HeapList.Kmalloc(nodes, |content| + 1).nodes
  {
    hide HeapList.Kmalloc, HasRoom, Literal, Tidy, HasRun, CreateCode, Created;
    RoomForText(nodes, lo, hi, |content|);
    CodeMeaning(files, name, HasRoom(nodes, |content| + 1));
    CreatedAppends(files, name, content, HasRoom(nodes, |content| + 1));
  }

  /** `write`: what it reports and stores, by the table, the name and the unallocated bytes. */
  lemma WriteReports(s: Session, name: seq<Char>, content: seq<Char>, lo: int, hi: int, demo: Outputs)
    requires Agrees(s) && s.line == [] && Printable(name) && Printable(content)
    requires name != [] && ' ' !in name && content != [] && |WriteLine(name, content)| <= MAX_LINE
    requires Tidy(s.state.nodes, lo, hi) && lo > 0
    ensures var s', files, line := Keys(s, WriteLine(name, content) + ['\n'], demo), s.state.files, WriteLine(name, content);
      if |files| >= 16 then
        Answered(s, line, Literal("Error creating file!\n"), s') && OnlyShown(s, s')
      else if Named(files, name) then
        Answered(s, line, Literal("Error: File already exists!\n"), s') && OnlyShown(s, s')
      else if !HasRun(Live(s.state.nodes), lo, hi, 12 + (|content| + 4) / 4 * 4) then
        Answered(s, line, Literal("Error creating file!\n"), s') && OnlyShown(s, s')
      else
        && Answered(s, line, Literal("File created successfully!\n"), s')
        && s'.state.files == files + [File(if |name| <= 31 then name else name[..31], content)]
        && s'.state.nodes == HeapList.Kmalloc(s.state.nodes, |content| + 1).nodes
  {
    hide Parse, HeapList.Kmalloc, Agrees, Printable, Tidy, HasRun, Answered, Answer, FilesAfter, NodesAfter, Keys;
    LinesPrintable(name, content);
    ParsesAsWrite(WriteLine(name, content), name, content);
    WriteOutcome(s.state.files, s.state.nodes, name, content, lo, hi, demo(s.entered));
    Entered(s, WriteLine(name, content), Write(name, content), demo);
  }

  lemma TestHeapAnswer(files: seq<File>, nodes: seq<Node>, lo: int, hi: int, demo: Output)
    requires Tidy(nodes, lo, hi) && lo > 0
    ensures Answer(files, nodes, TestHeap, demo) == Literal("Testing Heap Allocator (kmalloc)...\n") +
      (if HasRun(Live(nodes), lo, hi, 44)
       then Literal("Memory allocated successfully!\n") + Literal("Freeing heap memory...\n") + Literal("Done!\n")
       else Literal("Failed to allocate memory!\n"))
  {
    hide Literal, HeapList.Kmalloc, Tidy, HasRun;
    RoomInRun(nodes, lo, hi, 32);
    RoundedSize(32);
  }

  /** `testheap`: whether a header and 32 bytes can be allocated; the heap is as before either way. */
  lemma TestHeapReports(s: Session, lo: int, hi: int, demo: Outputs)
    requires Agrees(s) && s.line == [] && Tidy(s.state.nodes, lo, hi) && lo > 0
    ensures var s' := Keys(s, Literal("testheap") + ['\n'], demo);
      && OnlyShown(s, s')
      && Answered(s, Literal("testheap"), Literal("Testing Heap Allocator (kmalloc)...\n") +
           (if HasRun(Live(s.state.nodes), lo, hi, 44)
            then Literal("Memory allocated successfully!\n") + Literal("Freeing heap memory...\n") + Literal("Done!\n")
            else Literal("Failed to allocate memory!\n")), s')
  {
    hide Parse, Agrees, Tidy, HasRun, Answered, Answer, Keys;
    TestHeapAnswer(s.state.files, s.state.nodes, lo, hi, demo(s.entered));
    ParsesAsWord(Literal("testheap"));
    Entered(s, Literal("testheap"), TestHeap, demo);
  }

  /** A line that is no command. */
  lemma UnknownDisplays(s: Session, line: seq<Char>, demo: Outputs)
    requires Agrees(s) && s.line == [] && Printable(line) && 0 < |line| <= MAX_LINE && Parse(line) == Unknown(line)
    ensures var s' := Keys(s, line + ['\n'], demo);
      && OnlyShown(s, s')
      && Answered(s, line, Literal("Unknown command: ") + line + Literal("\nType 'help' for a list of commands.\n"), s')
  {
    Entered(s, line, Unknown(line), demo);
  }

  lemma PromptOnTop(color: Byte)
    ensures SheetOf(PutAll(Cleared(color), Prompt(), LIGHT_CYAN)) == Sheet(Literal("frisca-os> "), 0)
  {
    ClearedSheet(color);
    PromptPrintable();
    PutAllTypes(Cleared(color), Prompt(), LIGHT_CYAN);
    PrintedAppends(Sheet([], 0), Prompt());
  }

  /** `clear` leaves a prompt at the top of the screen and nothing else. */
  lemma ClearShowsPrompt(s: Session, demo: Outputs)
    requires Agrees(s) && s.line == []
    ensures var s' := Keys(s, Literal("clear") + ['\n'], demo);
      OnlyShown(s, s') && s'.line == [] && SheetOf(s'.state.page) == Sheet(Literal("frisca-os> "), 0)
  {
    hide Parse, PutAll, Literal, SheetOf, Cleared, Keys;
    assert Printable(Literal("clear")) && |Literal("clear")| == 5;
    ParsesAsWord(Literal("clear"));
    EnteredLine(s, Literal("clear"), demo);
    PromptOnTop(WHITE);
  }

  /** Enter on an empty line: a new row and a new prompt. */
  lemma EmptyLineShowsPrompt(s: Session, demo: Outputs)
    requires Agrees(s) && s.line == []
    ensures var s' := Key(s, '\n', demo);
      OnlyShown(s, s') && s'.line == [] && Displays(s, ['\n'] + Literal("frisca-os> "), s')
  {
    PutAllTypes(s.state.page, ['\n'], WHITE);
    PutAllTypes(PutAll(s.state.page, ['\n'], WHITE), Prompt(), LIGHT_CYAN);
    TypeAllConcat(SheetOf(s.state.page), ['\n'], Prompt());
  }

  /** The greeting and the first prompt. */
  lemma GreetingDisplays(p: Page)
    requires p.Ok() && Clean(p)
    ensures SheetOf(Greeted(p)) ==
      TypeAll(SheetOf(p), Literal("=== Welcome to Frisca OS Shell ===\n") + Literal("frisca-os> "))
  {
    PutAllTypes(p, Literal(WELCOME), LIGHT_GREEN);
    PutAllTypes(PutAll(p, Literal(WELCOME), LIGHT_GREEN), Prompt(), LIGHT_CYAN);
    TypeAllConcat(SheetOf(p), Literal(WELCOME), Prompt());
  }

  // ---- Colours -------------------------------------------------------------------------------

  /** The prompt before the cursor is light cyan (11) on black and the line behind it white (15). */
  ghost predicate Tinted(s: Session) {
    var p, n := s.state.page, |s.line|;
    && s.Ok() && n + 11 <= p.pos
    && (forall k :: p.pos - n - 11 <= k < p.pos - n ==> p.cells[k] / 256 == 11)
    && (forall k :: p.pos - n <= k < p.pos ==> p.cells[k] / 256 == 15)
  }

  /** A printed text has its colour throughout. */
  lemma PrintedColor(p: Page, t: seq<Char>, color: Byte)
    requires p.Ok() && Printable(t)
    ensures var p' := PutAll(p, t, color);
      p'.pos == p.pos + |t| && forall k :: p.pos <= k < p'.pos ==> p'.cells[k] / 256 == color
  {
    PrintedCells(p, t, color, 0);
    var p' := PutAll(p, t, color);
    forall k | p.pos <= k < p'.pos ensures p'.cells[k] / 256 == color {
      PrintedCells(p, t, color, k - p.pos);
    }
  }

  lemma PromptTinted(s: State, entered: nat)
    requires s.page.Ok()
    ensures Tinted(Session(s.(page := PutAll(s.page, Prompt(), LIGHT_CYAN)), [], entered))
  {
    PromptPrintable();
    PrintedColor(s.page, Prompt(), LIGHT_CYAN);
  }

  lemma KeyTinted(s: Session, c: Char, demo: Outputs)
    requires Agrees(s) && Tinted(s) && c != '\n'
    ensures Tinted(Key(s, c, demo))
  {
    var p, s' := s.state.page, Key(s, c, demo);
    if s' != s {
      PutMoves(p, c, WHITE);
      forall k: nat | k < s'.state.page.pos
        ensures s'.state.page.cells[k] / 256 == if k < p.pos then p.cells[k] / 256 else 15
      {
        PutCells(p, c, WHITE, k);
      }
    }
  }

  /** After any keystrokes the line stands in white behind a light cyan prompt. */
  lemma {:induction false} StaysTinted(s: Session, keys: seq<Char>, demo: Outputs)
    requires Agrees(s) && Tinted(s)
    ensures Tinted(Keys(s, keys, demo))
    decreases |keys|
  {
    if keys != [] {
      var s' := Key(s, keys[0], demo);
      if keys[0] == '\n' {
        var s1 := s.state.(page := PutAll(s.state.page, ['\n'], WHITE));
        PromptTinted(Responded(s1, s.line, demo(s.entered)), s.entered + 1);
      } else {
        KeyTinted(s, keys[0], demo);
      }
      ScreenAgreesWithLine(s, [keys[0]], demo);
      assert [keys[0]][1..] == [] && s' == Keys(s, [keys[0]], demo);
      StaysTinted(s', keys[1..], demo);
    }
  }

  /** So it is on the screen itself. */
  lemma CellsTinted(console: Console, s: Session, k: nat)
    requires Agrees(s) && Tinted(s) && console.Valid() && console.page == s.state.page
    ensures var cursor, n := 80 * console.row + console.column, |s.line|;
      && n + 11 <= cursor < 2000
      && (cursor - n - 11 <= k < cursor - n ==> console.buffer[k] / 256 == 11)
      && (cursor - n <= k < cursor ==> console.buffer[k] / 256 == 15)
  {
    var p := console.page;
    CellsSpellLine(console, s);
    if k < 2000 { assert console.buffer[..][k] == p.cells[WIDTH * p.top + k]; }
  }

  lemma WelcomeText() returns (t: seq<Char>)
    ensures Literal(WELCOME) == t + ['\n'] && Printable(t) && |t| == 34
  {
    t := Literal("=== Welcome to Frisca OS Shell ===");
    assert WELCOME == "=== Welcome to Frisca OS Shell ===" + ['\n'];
  }

  /** The greeting is light green (10), and the shell starts tinted. */
  lemma GreetingTinted(p: Page, files: seq<File>, nodes: seq<Node>, entered: nat, k: nat)
    requires p.Ok()
    ensures Tinted(Session(State(files, nodes, Greeted(p)), [], entered))
    ensures p.pos <= k < p.pos + 34 ==> k < |Greeted(p).cells| && Greeted(p).cells[k] / 256 == 10
  {
    hide Put, Tinted, Literal;
    var welcome := WelcomeText();
    var p1 := PutAll(p, welcome, LIGHT_GREEN);
    PutAllConcat(p, welcome, ['\n'], LIGHT_GREEN);
    PrintedColor(p, welcome, LIGHT_GREEN);
    PromptTinted(State(files, nodes, PutAll(p1, ['\n'], LIGHT_GREEN)), entered);
    if p.pos <= k < p.pos + 34 { StaysShown(p1, ['\n'], LIGHT_GREEN, k); }
  }

  /** The shell on a cleared screen: greeting and prompt, in their colours, and nothing typed yet. */
  ghost predicate JustStarted(s: Session) {
    && Agrees(s) && Tinted(s) && s.line == [] && s.state.files == []
    && SheetOf(s.state.page) ==
         TypeAll(Sheet([], 0), Literal("=== Welcome to Frisca OS Shell ===\n") + Literal("frisca-os> "))
  }

  lemma ShellStarts(nodes: seq<Node>, entered: nat)
    ensures JustStarted(Session(State([], nodes, Greeted(Cleared(15))), [], entered))
  {
    hide PutAll, Cleared, SheetOf, Tinted, Agrees;
    ClearedSheet(15);
    GreetedAgrees(Cleared(15), [], nodes, entered);
    GreetingDisplays(Cleared(15));
    GreetingTinted(Cleared(15), [], nodes, entered, 0);
  }

  /** What is no command is named in light red (12), on the row below the line. */
  lemma UnknownInRed(s: Session, line: seq<Char>, demo: Outputs, k: nat)
    requires Agrees(s) && s.line == [] && Printable(line) && 0 < |line| <= MAX_LINE && Parse(line) == Unknown(line)
    ensures var start := PutAll(s.state.page, line + ['\n'], 15).pos;
      var cells, text := Keys(s, line + ['\n'], demo).state.page.cells, Literal("Unknown command: ") + line;
      k < |text| ==> start + k < |cells| && cells[start + k] == text[k] as int + 256 * 12
  {
    hide PutAll, Parse, Literal, SheetOf, Keys, UnknownReply;
    var p := s.state.page;
    PutAllConcat(p, line, ['\n'], WHITE);
    EnteredLine(s, line, demo);
    ReplyInRed(PutAll(p, line + ['\n'], WHITE), line, k);
  }

  lemma ReplyInRed(p: Page, line: seq<Char>, k: nat)
    requires p.Ok() && Printable(line)
    ensures var text := Literal("Unknown command: ") + line;
      var cells := PutAll(PutAll(p, UnknownReply(line), LIGHT_RED), Prompt(), LIGHT_CYAN).cells;
      k < |text| ==> p.pos + k < |cells| && cells[p.pos + k] == text[k] as int + 256 * 12
  {
    hide PutAll, Literal;
    var text, rest := Literal("Unknown command: ") + line, Literal(UNKNOWN_AFTER);
    RedTexts();
    PutAllConcat(p, text, rest, LIGHT_RED);
    PrintedCells(p, text, LIGHT_RED, k);
    if k < |text| { StaysShown(PutAll(p, text, LIGHT_RED), rest, LIGHT_RED, p.pos + k); }
  }

  /** What stands before the cursor stays when a text and the prompt follow. */
  lemma StaysShown(p: Page, rest: seq<Char>, color: Byte, k: nat)
    requires p.Ok() && BACKSPACE !in rest && k < p.pos
    ensures var cells := PutAll(PutAll(p, rest, color), Prompt(), LIGHT_CYAN).cells;
      k < |cells| && cells[k] == p.cells[k]
  {
    hide PutAll;
    CellsStay(p, rest, color, k);
    PromptPrintable();
    CellsStay(PutAll(p, rest, color), Prompt(), LIGHT_CYAN, k);
  }

  lemma RedTexts()
    ensures Printable(Literal("Unknown command: ")) && BACKSPACE !in Literal(UNKNOWN_AFTER) && BACKSPACE !in Prompt()
  {
    PromptPrintable();
  }
}
