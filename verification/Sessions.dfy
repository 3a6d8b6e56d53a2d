/** What holds of the shell after any keystrokes. */
module Sessions {
  import opened Words
  import opened HeapList
  import opened CStrings
  import opened Vga
  import opened Screen
  import opened Files
  import opened Commands

  predicate EndsWith(t: seq<Char>, u: seq<Char>) {
    |u| <= |t| && t[|t| - |u|..] == u
  }

  /** The text ends with the prompt and the line, and the start of the prompt has not scrolled off. */
  predicate Ends(sheet: Sheet, line: seq<Char>) {
    EndsWith(sheet.text, Prompt() + line) && WIDTH * sheet.top <= |sheet.text| - |line| - |Prompt()|
  }

  /** That is what the screen shows, with nothing after it. */
  ghost predicate Agrees(s: Session) {
    s.Ok() && Clean(s.state.page) && Ends(SheetOf(s.state.page), s.line)
  }

  lemma PageStaysClean(p: Page, command: Command, answer: seq<Char>)
    requires p.Ok() && Clean(p)
    ensures Clean(PageAfter(p, command, answer))
  {
    if command.Clear? {
      ClearedSheet(WHITE);
    } else {
      PutAllTypes(p, answer, if command.Unknown? then LIGHT_RED else WHITE);
    }
  }

  lemma PromptPrintable()
    ensures Printable(Prompt())
  {
  }

  /** Right after the prompt, with an empty line. */
  lemma PromptAgrees(s: State, entered: nat)
    requires s.page.Ok() && Clean(s.page)
    ensures Agrees(Session(s.(page := PutAll(s.page, Prompt(), LIGHT_CYAN)), [], entered))
  {
    PromptPrintable();
    PutAllTypes(s.page, Prompt(), LIGHT_CYAN);
    PrintedAppends(SheetOf(s.page), Prompt());
    assert Prompt() + [] == Prompt();
  }

  lemma GreetedAgrees(p: Page, files: seq<File>, nodes: seq<Node>, entered: nat)
    requires p.Ok() && Clean(p)
    ensures Agrees(Session(State(files, nodes, Greeted(p)), [], entered))
  {
    PutAllTypes(p, Literal(WELCOME), LIGHT_GREEN);
    PromptAgrees(State(files, nodes, PutAll(p, Literal(WELCOME), LIGHT_GREEN)), entered);
  }

  lemma EnterAgrees(s: Session, demo: Outputs)
    requires Agrees(s)
    ensures Agrees(Key(s, '\n', demo))
  {
    var s1 := s.state.(page := PutAll(s.state.page, ['\n'], WHITE));
    PutAllTypes(s.state.page, ['\n'], WHITE);
    var command := Parse(s.line);
    PageStaysClean(s1.page, command, Answer(s1.files, s1.nodes, command, demo(s.entered)));
    PromptAgrees(Responded(s1, s.line, demo(s.entered)), s.entered + 1);
  }

  lemma TypingKeepsEnd(sheet: Sheet, line: seq<Char>, c: Char)
    requires sheet.Ok() && Ends(sheet, line) && |line| < MAX_LINE && c != '\n' && c != BACKSPACE
    ensures Ends(Type(sheet, c), line + [c])
  {
    var prompt := Prompt();
    assert prompt + (line + [c]) == (prompt + line) + [c];
  }

  lemma ErasingKeepsEnd(sheet: Sheet, line: seq<Char>)
    requires sheet.Ok() && Ends(sheet, line) && line != []
    ensures Ends(Type(sheet, BACKSPACE), line[..|line| - 1])
  {
    var u := Prompt() + line;
    assert Prompt() + line[..|line| - 1] == u[..|u| - 1];
  }

  lemma EditAgrees(s: Session, c: Char, demo: Outputs)
    requires Agrees(s) && c != '\n'
    ensures Agrees(Key(s, c, demo))
  {
    PutTypes(s.state.page, c, WHITE);
    if c == BACKSPACE {
      if s.line != [] { ErasingKeepsEnd(SheetOf(s.state.page), s.line); }
    } else if |s.line| < MAX_LINE {
      TypingKeepsEnd(SheetOf(s.state.page), s.line, c);
    }
  }

  /** After any keystrokes, the line typed since the last prompt stands on the screen behind that prompt. */
  lemma {:induction false} ScreenAgreesWithLine(s: Session, keys: seq<Char>, demo: Outputs)
    requires Agrees(s)
    ensures Agrees(Keys(s, keys, demo))
    decreases |keys|
  {
    if keys != [] {
      if keys[0] == '\n' { EnterAgrees(s, demo); } else { EditAgrees(s, keys[0], demo); }
      ScreenAgreesWithLine(Key(s, keys[0], demo), keys[1..], demo);
    }
  }

  /** The cells right before the cursor spell the prompt and the line, across rows, and blanks follow. */
  lemma CellsSpellLine(console: Console, s: Session)
    requires Agrees(s) && console.Valid() && console.page == s.state.page
    ensures var u, cursor := Prompt() + s.line, 80 * console.row + console.column;
      && |u| <= cursor
      && (forall k :: cursor - |u| <= k < cursor ==> CharOf(console.buffer[k]) == u[k - (cursor - |u|)])
      && (forall k :: cursor <= k < 2000 ==> CharOf(console.buffer[k]) == ' ')
  {
    var u, cursor := Prompt() + s.line, 80 * console.row + console.column;
    var sheet := SheetOf(console.page);
    BufferShowsWindow(console);
    forall k | cursor - |u| <= k < cursor ensures CharOf(console.buffer[k]) == u[k - (cursor - |u|)] {
      assert Chars(console.buffer[..])[k] == Window(sheet)[k] == sheet.text[WIDTH * sheet.top + k];
      assert sheet.text[|sheet.text| - |u|..][k - (cursor - |u|)] == sheet.text[WIDTH * sheet.top + k];
    }
  }

  // ---- Lines ---------------------------------------------------------------------------------

  /** What keystrokes other than Enter leave on a stack of at most 255 characters. */
  function EditedAll(line: seq<Char>, keys: seq<Char>): (line': seq<Char>)
    requires |line| <= 255
    ensures |line'| <= 255
    decreases |keys|
  {
    if keys == [] then line
    else if keys[0] == BACKSPACE then EditedAll(if line == [] then [] else line[..|line| - 1], keys[1..])
    else if |line| == 255 then EditedAll(line, keys[1..])
    else EditedAll(line + [keys[0]], keys[1..])
  }

  lemma {:induction false} LineIsEdit(s: Session, keys: seq<Char>, demo: Outputs)
    requires s.Ok() && '\n' !in keys
    ensures Keys(s, keys, demo).line == EditedAll(s.line, keys)
    ensures Keys(s, keys, demo).state.files == s.state.files && Keys(s, keys, demo).state.nodes == s.state.nodes
    decreases |keys|
  {
    if keys != [] {
      LineIsEdit(Key(s, keys[0], demo), keys[1..], demo);
    }
  }

  /** Plain text that fits is typed as it is. */
  lemma {:induction false} PlainText(s: Session, t: seq<Char>, demo: Outputs)
    requires s.Ok() && '\n' !in t && BACKSPACE !in t && |s.line| + |t| <= MAX_LINE
    ensures Keys(s, t, demo) == Session(s.state.(page := PutAll(s.state.page, t, WHITE)), s.line + t, s.entered)
    decreases |t|
  {
    hide Put, Execute;
    if t == [] {
      assert s.line + t == s.line;
    } else {
      var rest := t[1..];
      PlainText(Key(s, t[0], demo), rest, demo);
      assert s.line + [t[0]] + rest == s.line + t;
    }
  }

  /** Backspaces take back the last characters of the line, as many as there are. */
  lemma {:induction false} BackspacesDrop(s: Session, n: nat, demo: Outputs)
    requires s.Ok()
    ensures Keys(s, Backspaces(n), demo).line == if n <= |s.line| then s.line[..|s.line| - n] else []
    decreases n
  {
    hide Put, Execute;
    if n > 0 {
      assert Backspaces(n)[0] == BACKSPACE && Backspaces(n)[1..] == Backspaces(n - 1);
      BackspacesDrop(Key(s, BACKSPACE, demo), n - 1, demo);
    }
  }

  /** Typing a text that fits and erasing the end of it leaves the rest of it typed. */
  lemma TypedAndErased(s: Session, t: seq<Char>, n: nat, demo: Outputs)
    requires s.Ok() && Printable(t) && n <= |t| && |s.line| + |t| <= 255
    ensures Keys(s, t + Backspaces(n), demo).line == s.line + t[..|t| - n]
  {
    PlainText(s, t, demo);
    KeysConcat(s, t, Backspaces(n), demo);
    BackspacesDrop(Keys(s, t, demo), n, demo);
  }

  /** A backspace on an empty line, and a character on a line of 255, do nothing at all. */
  lemma IgnoredKeys(s: Session, c: Char, demo: Outputs)
    requires s.Ok()
    ensures s.line == [] ==> Key(s, BACKSPACE, demo) == s
    ensures |s.line| == 255 && c != '\n' && c != BACKSPACE ==> Key(s, c, demo) == s
  {
  }

  /** A whole command. */
  lemma EnteredLine(s: Session, t: seq<Char>, demo: Outputs)
    requires s.Ok() && s.line == [] && '\n' !in t && BACKSPACE !in t && |t| <= MAX_LINE
    ensures Keys(s, t + ['\n'], demo) ==
      Session(Execute(s.state.(page := PutAll(s.state.page, t, WHITE)), t, demo(s.entered)), [], s.entered + 1)
  {
    hide Execute, PutAll;
    PlainText(s, t, demo);
    KeysConcat(s, t, ['\n'], demo);
    assert [] + t == t;
    assert ['\n'][1..] == [];
  }

  // ---- Writing a file and reading it back ----------------------------------------------------

  function WriteLine(name: seq<Char>, content: seq<Char>): seq<Char> {
    Literal("write ") + name + [' '] + content
  }

  function CatLine(name: seq<Char>): seq<Char> {
    Literal("cat ") + name
  }

  lemma LinesPrintable(name: seq<Char>, content: seq<Char>)
    requires Printable(name) && Printable(content)
    ensures Printable(WriteLine(name, content)) && Printable(CatLine(name))
  {
  }

  /** From one session to the other, the screen's text has grown by this much. */
  ghost predicate Displays(before: Session, shown: seq<Char>, after: Session)
    requires before.Ok() && after.Ok()
  {
    SheetOf(after.state.page) == TypeAll(SheetOf(before.state.page), shown)
  }

  /** Every command but `clear` displays the line, its answer and the prompt, and leaves an empty line. */
  lemma CommandDisplays(s: Session, line: seq<Char>, command: Command, demo: Outputs)
    requires Agrees(s) && s.line == [] && Printable(line) && 0 < |line| <= MAX_LINE
    requires command == Parse(line) && !command.Clear?
    ensures var s' := Keys(s, line + ['\n'], demo);
      && s'.line == []
      && s'.state.files == FilesAfter(s.state.files, s.state.nodes, command)
      && s'.state.nodes == NodesAfter(s.state.files, s.state.nodes, command)
      && Displays(s, line + ['\n'] + Answer(s.state.files, s.state.nodes, command, demo(s.entered)) + Prompt(), s')
  {
    EnteredLine(s, line, demo);
    var answer := Answer(s.state.files, s.state.nodes, command, demo(s.entered));
    TextsTypes(s.state.page, line, ['\n'], answer, if command.Unknown? then LIGHT_RED else WHITE, Prompt());
  }

  /** Texts one after the other, whatever their colours, are one text. */
  lemma TextsTypes(p: Page, t: seq<Char>, u: seq<Char>, v: seq<Char>, color: Byte, w: seq<Char>)
    requires p.Ok() && Clean(p)
    ensures var p' := PutAll(PutAll(PutAll(PutAll(p, t, WHITE), u, WHITE), v, color), w, LIGHT_CYAN);
      SheetOf(p') == TypeAll(SheetOf(p), t + u + v + w)
  {
    var tu := t + u;
    PutAllConcat(p, t, u, WHITE);
    PutAllTypes(p, tu, WHITE);
    var p2 := PutAll(p, tu, WHITE);
    PutAllTypes(p2, v, color);
    PutAllTypes(PutAll(p2, v, color), w, LIGHT_CYAN);
    TypeAllConcat(SheetOf(p), tu, v);
    TypeAllConcat(SheetOf(p), tu + v, w);
  }

  lemma StoredBy(files: seq<File>, nodes: seq<Node>, name: seq<Char>, content: seq<Char>, demo: Output)
    requires |content| < MAX_LINE && WriteCode(files, nodes, name, content) == 0
    ensures FilesAfter(files, nodes, Write(name, content)) == files + [File(StoredName(name), content)]
    ensures Answer(files, nodes, Write(name, content), demo) == Literal(CreateReply(0))
  {
  }

  /** Typing `write`, a name and a content reports success and stores the file. */
  lemma WriteStores(s: Session, name: seq<Char>, content: seq<Char>, demo: Outputs)
    requires Agrees(s) && s.line == [] && Printable(name) && Printable(content)
    requires name != [] && ' ' !in name && content != [] && |WriteLine(name, content)| <= MAX_LINE
    requires WriteCode(s.state.files, s.state.nodes, name, content) == 0
    ensures var s' := Keys(s, WriteLine(name, content) + ['\n'], demo);
      && s'.line == []
      && s'.state.files == s.state.files + [File(StoredName(name), content)]
      && Displays(s, WriteLine(name, content) + ['\n'] + Literal(CreateReply(0)) + Prompt(), s')
  {
    LinesPrintable(name, content);
    ParsesAsWrite(WriteLine(name, content), name, content);
    StoredBy(s.state.files, s.state.nodes, name, content, demo(s.entered));
    CommandDisplays(s, WriteLine(name, content), Write(name, content), demo);
  }

  /** Typing `cat` and the name of a file displays exactly its content. */
  lemma CatDisplays(s: Session, name: seq<Char>, content: seq<Char>, demo: Outputs)
    requires Agrees(s) && s.line == [] && Printable(name) && name != [] && |CatLine(name)| <= MAX_LINE
    requires Find(s.state.files, name) == Some(content)
    ensures var s' := Keys(s, CatLine(name) + ['\n'], demo);
      && s'.line == [] && s'.state.files == s.state.files
      && Displays(s, CatLine(name) + ['\n'] + (content + ['\n']) + Prompt(), s')
  {
    LinesPrintable(name, []);
    ParsesAsCat(CatLine(name), name);
    CommandDisplays(s, CatLine(name), Cat(name), demo);
  }

  /** Nothing typed into the shell changes what an existing name holds. */
  lemma {:induction false} FilesStay(s: Session, keys: seq<Char>, name: seq<Char>, demo: Outputs)
    requires s.Ok() && Find(s.state.files, name).Some?
    ensures Find(Keys(s, keys, demo).state.files, name) == Find(s.state.files, name)
    decreases |keys|
  {
    if keys != [] {
      KeyKeepsFiles(s, keys[0], name, demo);
      FilesStay(Key(s, keys[0], demo), keys[1..], name, demo);
    }
  }

  lemma CommandKeepsFiles(files: seq<File>, nodes: seq<Node>, command: Command, name: seq<Char>)
    requires Short(command) && Find(files, name).Some?
    ensures Find(FilesAfter(files, nodes, command), name) == Find(files, name)
  {
    if command.Write? { FindAppended(files, File(StoredName(command.name), command.content), name); }
  }

  lemma KeyKeepsFiles(s: Session, c: Char, name: seq<Char>, demo: Outputs)
    requires s.Ok() && Find(s.state.files, name).Some?
    ensures Find(Key(s, c, demo).state.files, name) == Find(s.state.files, name)
  {
    CommandKeepsFiles(s.state.files, s.state.nodes, Parse(s.line), name);
  }

  /** What was written can be found ever after. */
  lemma WrittenStays(s: Session, name: seq<Char>, content: seq<Char>, between: seq<Char>, demo: Outputs)
    requires Agrees(s) && s.line == [] && Printable(name) && Printable(content)
    requires name != [] && ' ' !in name && content != [] && |WriteLine(name, content)| <= MAX_LINE
    requires WriteCode(s.state.files, s.state.nodes, name, content) == 0 && |name| < MAX_FILENAME
    ensures var s1 := Keys(s, WriteLine(name, content) + ['\n'] + between, demo);
      Agrees(s1) && Find(s1.state.files, name) == Some(content)
  {
    var written := WriteLine(name, content) + ['\n'];
    var s1 := Keys(s, written, demo);
    WriteStores(s, name, content, demo);
    CreatedIsFound(s.state.files, name, content, true);
    ScreenAgreesWithLine(s, written, demo);
    ScreenAgreesWithLine(s1, between, demo);
    FilesStay(s1, between, name, demo);
    KeysConcat(s, written, between, demo);
  }

  /**
    The round trip: what `write` stored under a name of at most 31 characters is what `cat` displays,
    whatever is typed in between.
  */
  lemma WriteThenCat(s: Session, name: seq<Char>, content: seq<Char>, between: seq<Char>, demo: Outputs)
    requires Agrees(s) && s.line == [] && Printable(name) && Printable(content)
    requires name != [] && ' ' !in name && content != [] && |WriteLine(name, content)| <= MAX_LINE
    requires WriteCode(s.state.files, s.state.nodes, name, content) == 0 && |name| < MAX_FILENAME
    requires Keys(s, WriteLine(name, content) + ['\n'] + between, demo).line == []
    ensures var s1 := Keys(s, WriteLine(name, content) + ['\n'] + between, demo);
      var s2 := Keys(s1, CatLine(name) + ['\n'], demo);
      Displays(s1, CatLine(name) + ['\n'] + (content + ['\n']) + Prompt(), s2)
  {
    WrittenStays(s, name, content, between, demo);
    CatDisplays(Keys(s, WriteLine(name, content) + ['\n'] + between, demo), name, content, demo);
  }
}
