/** The shell: a line editor and the commands, on the console and the file system. */
module Shell {
  import opened Words
  import opened HeapList
  import opened CStrings
  import opened Vga
  import opened Files
  import opened Vfs
  import opened Commands
  import opened Screen
  import opened Sessions

  // ---- Reading the line ----------------------------------------------------------------------

  /** The string from `from` on is the text `t`. */
  ghost predicate HoldsText(buf: seq<Char>, from: nat, t: seq<Char>) {
    from <= |buf| && Terminated(buf[from..]) && Text(buf[from..]) == t
  }

  lemma TailHolds(buf: seq<Char>, t: seq<Char>, k: nat)
    requires HoldsText(buf, 0, t) && k <= |t|
    ensures HoldsText(buf, k, t[k..])
  {
    assert buf[0..] == buf && buf[k..][..|t| - k] == t[k..] && buf[k..][|t| - k] == NUL;
    TextIs(buf[k..], |t| - k);
  }

  /** A terminator in place of a character makes two strings of one. */
  lemma CutAt(buf: seq<Char>, from: nat, t: seq<Char>, k: nat)
    requires HoldsText(buf, from, t) && k < |t|
    ensures var cut := buf[from + k := NUL];
      HoldsText(cut, from, t[..k]) && HoldsText(cut, from + k + 1, t[k + 1..])
  {
    var cut, rest := buf[from + k := NUL], buf[from + k + 1..];
    assert cut[from..][..k] == t[..k] && cut[from..][k] == NUL;
    TextIs(cut[from..], k);
    assert cut[from + k + 1..] == rest && rest[..|t| - k - 1] == t[k + 1..] && rest[|t| - k - 1] == NUL;
    TextIs(rest, |t| - k - 1);
  }

  /** The comparisons with the names of the demonstration commands. */
  method IsDemoName(buf: seq<Char>) returns (found: bool)
    requires Terminated(buf)
    ensures found == IsDemo(Text(buf))
  {
    for i := 0 to |DEMOS|
      invariant forall j :: 0 <= j < i ==> Text(buf) != Literal(DEMOS[j])
    {
      var same := Is(buf, DEMOS[i]);
      if same {
        return true;
      }
    }
    return false;
  }

  method Is(buf: seq<Char>, word: string) returns (same: bool)
    requires Terminated(buf)
    ensures same == (Text(buf) == Literal(word))
  {
    var order := Strcmp(buf, Ended(Literal(word)));
    same := order == 0;
  }

  method Begins(buf: seq<Char>, word: string) returns (same: bool)
    requires Terminated(buf)
    ensures same == StartsWith(Text(buf), Literal(word))
  {
    var order := Strncmp(buf, Ended(Literal(word)), |word|);
    same := order == 0;
    assert Take(Literal(word), |word|) == Literal(word);
  }

  /** Cuts the arguments at their first space, in place. */
  method CutArguments(buf: array<Char>, ghost args: seq<Char>) returns (space: Option<nat>)
    requires HoldsText(buf[..], 6, args)
    modifies buf
    ensures space.None? <==> |Before(args, ' ')| == |args|
    ensures space.Some? ==> var k := |Before(args, ' ')|;
      k < |args| && HoldsText(buf[..], 6, args[..k]) && HoldsText(buf[..], space.value + 1, args[k + 1..])
  {
    assert buf[..][6..] == buf[6..];
    var offset := Strchr(buf[6..], ' ');
    if offset.None? {
      return None;
    }
    BeforeIs(args, ' ', offset.value);
    CutAt(buf[..], 6, args, offset.value);
    space := Some(6 + offset.value);
    buf[space.value] := NUL;
  }

  /** `write`: the two strings, unless one of them is missing. */
  method ReadWrite(buf: array<Char>, ghost args: seq<Char>) returns (command: Command)
    requires HoldsText(buf[..], 6, args)
    modifies buf
    ensures command == Arguments(args)
  {
    var space := CutArguments(buf, args);
    if space.None? {
      return WriteUsage;
    }
    var filename, content := buf[..][6..], buf[..][space.value + 1..];
    var nameLen := Strlen(filename);
    var contentLen := Strlen(content);
    command := if nameLen > 0 && contentLen > 0 then Write(Text(filename), Text(content)) else WriteUsage;
  }

  method ReadCat(filename: seq<Char>) returns (command: Command)
    requires Terminated(filename)
    ensures command == if Text(filename) == [] then CatUsage else Cat(Text(filename))
  {
    var len := Strlen(filename);
    command := if len == 0 then CatUsage else Cat(Text(filename));
  }

  /** The comparisons of `execute_command`, in order. */
  method ReadCommand(buf: array<Char>, ghost line: seq<Char>) returns (command: Command)
    requires HoldsText(buf[..], 0, line)
    modifies buf
    ensures command == Parse(line)
  {
    ghost var held := buf[..];
    assert held[0..] == held;
    var demo := IsDemoName(buf[..]);
    if demo { return Demo(Text(buf[..])); }
    var testHeap := Is(buf[..], "testheap");
    if testHeap { return TestHeap; }
    var list := Is(buf[..], "ls");
    if list { return List; }
    command := ReadLonger(buf, line);
  }

  method ReadLonger(buf: array<Char>, ghost line: seq<Char>) returns (command: Command)
    requires HoldsText(buf[..], 0, line)
    requires !IsDemo(line) && line != Literal("testheap") && line != Literal("ls")
    modifies buf
    ensures command == Parse(line)
  {
    ghost var held := buf[..];
    assert held[0..] == held;
    var cat := Begins(buf[..], "cat ");
    if cat {
      TailHolds(held, line, 4);
      command := ReadCat(buf[..][4..]);
      return;
    }
    var write := Begins(buf[..], "write ");
    if write {
      TailHolds(held, line, 6);
      command := ReadWrite(buf, line[6..]);
      return;
    }
    var clear := Is(buf[..], "clear");
    command := if clear then Clear else Unknown(Text(buf[..]));
  }

  // ---- Running a command ---------------------------------------------------------------------

  method Print(console: Console, t: string)
    requires console.Valid()
    modifies console`row, console`column, console`page, console.buffer
    ensures console.Valid() && console.page == PutAll(old(console.page), Literal(t), console.currentColor)
  {
    console.Write(Ended(Literal(t)));
  }

  method PrintPrompt(console: Console)
    requires console.Valid()
    modifies console`row, console`column, console`page, console`currentColor, console.buffer
    ensures console.Valid() && console.currentColor == WHITE
    ensures console.page == PutAll(old(console.page), Prompt(), LIGHT_CYAN)
  {
    console.SetColor(11, 0);
    Print(console, "frisca-os> ");
    console.SetColor(15, 0);
  }

  method PrintUnknown(console: Console, line: seq<Char>)
    requires console.Valid() && NUL !in line
    modifies console`row, console`column, console`page, console`currentColor, console.buffer
    ensures console.Valid() && console.currentColor == WHITE
    ensures console.page == PutAll(old(console.page), UnknownReply(line), LIGHT_RED)
  {
    console.SetColor(12, 0);
    Print(console, UNKNOWN_BEFORE);
    console.Write(Ended(line));
    Print(console, UNKNOWN_AFTER);
    console.SetColor(15, 0);
    PutAllConcat(old(console.page), Literal(UNKNOWN_BEFORE), line, LIGHT_RED);
    PutAllConcat(old(console.page), Literal(UNKNOWN_BEFORE) + line, Literal(UNKNOWN_AFTER), LIGHT_RED);
  }

  /** The texts in a command, like the line they come from, hold no terminator. */
  predicate NoNul(command: Command) {
    match command
    case Demo(line) => NUL !in line
    case Cat(name) => NUL !in name
    case Write(name, content) => NUL !in name && NUL !in content
    case Unknown(line) => NUL !in line
    case _ => true
  }

  lemma ParsedPlain(line: seq<Char>)
    requires NUL !in line
    ensures NoNul(Parse(line))
  {
  }

  /** The commands that neither read nor change files. */
  method RunOnConsole(console: Console, command: Command, demo: Output,
      ghost files: seq<File>, ghost nodes: seq<Node>)
    requires console.Valid() && console.currentColor == WHITE && NoNul(command)
    requires !command.TestHeap? && !command.List? && !command.Cat? && !command.Write?
    modifies console`row, console`column, console`page, console`currentColor, console.buffer
    ensures console.Valid() && console.currentColor == WHITE
    ensures console.page == PageAfter(old(console.page), command, Answer(files, nodes, command, demo))
  {
    match command {
      case Demo(line) => Print(console, demo(line));
      case CatUsage => Print(console, CAT_USAGE);
      case WriteUsage => Print(console, WRITE_USAGE);
      case Clear => console.Clear();
      case Unknown(line) => PrintUnknown(console, line);
    }
  }

  method PrintFile(console: Console, vfs: Vfs, i: nat)
    requires console.Valid() && vfs.Valid() && i < vfs.fileCount
    modifies console`row, console`column, console`page, console.buffer
    ensures console.Valid() && vfs.Valid()
    ensures console.page == PutAll(old(console.page), vfs.files[i].content + ['\n'], console.currentColor)
  {
    vfs.WriteContent(console, i);
    console.Write(Ended(['\n']));
    PutAllConcat(old(console.page), vfs.files[i].content, ['\n'], console.currentColor);
  }

  /** `cat`: looks the file up and writes what its block holds. */
  method RunCat(console: Console, vfs: Vfs, name: seq<Char>)
    requires console.Valid() && vfs.Valid() && NUL !in name
    modifies console`row, console`column, console`page, console.buffer
    ensures console.Valid() && vfs.Valid()
    ensures console.page == PutAll(old(console.page), CatReply(Find(vfs.files, name)), console.currentColor)
  {
    var file := vfs.ReadFile(Ended(name));
    FindIsFirst(vfs.files, name);
    if file.Some? {
      PrintFile(console, vfs, file.value);
    } else {
      Print(console, NOT_FOUND);
    }
  }

  method ReportCreation(console: Console, res: int)
    requires console.Valid()
    modifies console`row, console`column, console`page, console.buffer
    ensures console.Valid()
    ensures console.page == PutAll(old(console.page), Literal(CreateReply(res)), console.currentColor)
  {
    if res == 0 {
      Print(console, "File created successfully!\n");
    } else if res == -2 {
      Print(console, "Error: File already exists!\n");
    } else {
      Print(console, "Error creating file!\n");
    }
  }

  method CreateFile(vfs: Vfs, name: seq<Char>, content: seq<Char>) returns (res: int)
    requires vfs.Valid() && NUL !in name && NUL !in content && |content| < MAX_LINE
    modifies vfs, vfs.fileTable, vfs.heap`nodes, vfs.heap.ram.words
    ensures vfs.Valid() && res == WriteCode(old(vfs.files), old(vfs.heap.nodes), name, content)
    ensures vfs.files == WrittenFiles(old(vfs.files), old(vfs.heap.nodes), name, content)
    ensures vfs.heap.nodes == WrittenNodes(old(vfs.files), old(vfs.heap.nodes), name, content)
    ensures Grew(old(vfs.Now()), vfs.Now(), vfs.heap.heapStart)
  {
    res := vfs.CreateFile(Ended(name), Ended(content));
  }

  /** `write`: creates the file and reports the result. */
  method RunWrite(console: Console, vfs: Vfs, name: seq<Char>, content: seq<Char>)
    requires console.Valid() && vfs.Valid() && NUL !in name && NUL !in content && |content| < MAX_LINE
    modifies console`row, console`column, console`page, console.buffer
    modifies vfs, vfs.fileTable, vfs.heap`nodes, vfs.heap.ram.words
    ensures console.Valid() && vfs.Valid()
    ensures vfs.files == WrittenFiles(old(vfs.files), old(vfs.heap.nodes), name, content)
    ensures vfs.heap.nodes == WrittenNodes(old(vfs.files), old(vfs.heap.nodes), name, content)
    ensures console.page == PutAll(old(console.page),
      Literal(CreateReply(WriteCode(old(vfs.files), old(vfs.heap.nodes), name, content))), console.currentColor)
    ensures Grew(old(vfs.Now()), vfs.Now(), vfs.heap.heapStart)
  {
    var res := CreateFile(vfs, name, content);
    ghost var after := vfs.Now();
    ReportCreation(console, res);
    assert vfs.Now() == after;
  }

  /** `testheap`: allocates 32 bytes and frees them again, which leaves the heap as it was. */
  method RunTestHeap(console: Console, vfs: Vfs)
    requires console.Valid() && vfs.Valid()
    modifies console`row, console`column, console`page, console.buffer, vfs.heap`nodes, vfs.heap.ram.words
    ensures console.Valid() && vfs.Valid() && vfs.heap.nodes == old(vfs.heap.nodes)
    ensures console.page ==
      PutAll(old(console.page), TestReply(HasRoom(old(vfs.heap.nodes), 32)), console.currentColor)
    ensures Grew(old(vfs.Now()), vfs.Now(), vfs.heap.heapStart)
  {
    Print(console, TEST_STARTS);
    var str := vfs.Borrow(32);
    if str != 0 {
      FreeTestBlock(console, vfs, str, old(vfs.Now()));
      PutAllConcat(old(console.page), Literal(TEST_STARTS), TestSuccess(), console.currentColor);
    } else {
      Print(console, TEST_FAILS);
      PutAllConcat(old(console.page), Literal(TEST_STARTS), Literal(TEST_FAILS), console.currentColor);
    }
  }

  function TestSuccess(): seq<Char> {
    Literal(TEST_ALLOCATED) + Literal(TEST_FREES) + Literal(TEST_DONE)
  }

  method FreeTestBlock(console: Console, vfs: Vfs, str: Word, ghost before: Snapshot)
    requires console.Valid() && vfs.Valid() && vfs.Borrowed(before, 32, str)
    modifies console`row, console`column, console`page, console.buffer, vfs.heap`nodes, vfs.heap.ram.words
    ensures console.Valid() && vfs.Valid() && vfs.heap.nodes == before.nodes
    ensures console.page == PutAll(old(console.page), TestSuccess(), console.currentColor)
    ensures Grew(before, vfs.Now(), vfs.heap.heapStart)
  {
    PrintTwo(console, TEST_ALLOCATED, TEST_FREES);
    vfs.GiveBack(str, before, 32);
    Print(console, TEST_DONE);
    PutAllConcat(old(console.page), Literal(TEST_ALLOCATED) + Literal(TEST_FREES), Literal(TEST_DONE), console.currentColor);
  }

  method PrintTwo(console: Console, t: string, u: string)
    requires console.Valid()
    modifies console`row, console`column, console`page, console.buffer
    ensures console.Valid() && console.page == PutAll(old(console.page), Literal(t) + Literal(u), console.currentColor)
  {
    Print(console, t);
    Print(console, u);
    PutAllConcat(old(console.page), Literal(t), Literal(u), console.currentColor);
  }

  method RunReading(console: Console, vfs: Vfs, command: Command, demo: Output)
    requires console.Valid() && vfs.Valid() && console.currentColor == WHITE && NoNul(command)
    requires !command.TestHeap? && !command.Write?
    modifies console`row, console`column, console`page, console`currentColor, console.buffer
    ensures console.Valid() && vfs.Valid() && console.currentColor == WHITE
    ensures console.page ==
      PageAfter(old(console.page), command, Answer(vfs.files, vfs.heap.nodes, command, demo))
  {
    if command.Cat? {
      RunCat(console, vfs, command.name);
    } else if command.List? {
      vfs.ListFiles(console);
    } else {
      RunOnConsole(console, command, demo, vfs.files, vfs.heap.nodes);
    }
  }

  /** The commands that change no files. */
  method RunOther(console: Console, vfs: Vfs, command: Command, demo: Output)
    requires console.Valid() && vfs.Valid() && console.currentColor == WHITE && NoNul(command) && !command.Write?
    modifies console`row, console`column, console`page, console`currentColor, console.buffer
    modifies vfs.heap`nodes, vfs.heap.ram.words
    ensures console.Valid() && vfs.Valid() && console.currentColor == WHITE && vfs.heap.nodes == old(vfs.heap.nodes)
    ensures console.page ==
      PageAfter(old(console.page), command, Answer(vfs.files, vfs.heap.nodes, command, demo))
    ensures Grew(old(vfs.Now()), vfs.Now(), vfs.heap.heapStart)
  {
    if command.TestHeap? {
      RunTestHeap(console, vfs);
    } else {
      RunReading(console, vfs, command, demo);
    }
  }

  /** Every command does what `Reply` says. */
  method Run(console: Console, vfs: Vfs, command: Command, demo: Output)
    requires console.Valid() && vfs.Valid() && console.currentColor == WHITE && NoNul(command) && Short(command)
    modifies console`row, console`column, console`page, console`currentColor, console.buffer
    modifies vfs, vfs.fileTable, vfs.heap`nodes, vfs.heap.ram.words
    ensures console.Valid() && vfs.Valid() && console.currentColor == WHITE
    ensures vfs.files == FilesAfter(old(vfs.files), old(vfs.heap.nodes), command)
    ensures vfs.heap.nodes == NodesAfter(old(vfs.files), old(vfs.heap.nodes), command)
    ensures console.page ==
      PageAfter(old(console.page), command, Answer(old(vfs.files), old(vfs.heap.nodes), command, demo))
    ensures Grew(old(vfs.Now()), vfs.Now(), vfs.heap.heapStart)
  {
    hide Grew, PutAll, Listing, TestReply, CatReply, UnknownReply, HeapList.Kmalloc, WriteCode, WrittenFiles, WrittenNodes;
    if command.Write? {
      RunWrite(console, vfs, command.name, command.content);
    } else {
      RunOther(console, vfs, command, demo);
    }
  }

  method Greet(console: Console)
    requires console.Valid()
    modifies console`row, console`column, console`page, console`currentColor, console.buffer
    ensures console.Valid() && console.currentColor == WHITE && console.page == Greeted(old(console.page))
  {
    console.SetColor(10, 0);
    Print(console, WELCOME);
    console.SetColor(15, 0);
    PrintPrompt(console);
  }

  class Shell {
    const console: Console
    const vfs: Vfs
    const demo: Outputs
    const commandBuffer: array<Char>
    var bufferIdx: nat

    /** The lines entered so far; only what the demonstration commands print may depend on it. */
    var entered: nat

    ghost predicate Valid()
      reads this, commandBuffer, console, console.buffer, vfs, vfs.fileTable, vfs.heap, vfs.heap.ram.words
    {
      && console.Valid() && vfs.Valid() && console.currentColor == WHITE
      && commandBuffer.Length == MAX_LINE + 1 && bufferIdx <= MAX_LINE && NUL !in commandBuffer[..bufferIdx]
    }

    /** The shell as a value: files, heap, screen and the line typed so far. */
    ghost function Now(): Session
      requires bufferIdx <= commandBuffer.Length
      reads this, commandBuffer, console, vfs, vfs.heap
    {
      Session(State(vfs.files, vfs.heap.nodes, console.page), commandBuffer[..bufferIdx], entered)
    }

    constructor (console: Console, vfs: Vfs, demo: Outputs)
      ensures this.console == console && this.vfs == vfs && this.demo == demo
      ensures fresh(commandBuffer) && commandBuffer.Length == MAX_LINE + 1 && bufferIdx == 0
    {
      this.console, this.vfs, this.demo := console, vfs, demo;
      commandBuffer := new Char[256](_ => NUL);
      bufferIdx, entered := 0, 0;
    }

    /** `shell_init`: the greeting and the first prompt. */
    method Init()
      requires console.Valid() && vfs.Valid() && commandBuffer.Length == MAX_LINE + 1
      modifies this, console`row, console`column, console`page, console`currentColor, console.buffer
      ensures Valid() && Now().line == [] && Now().state.files == vfs.files
      ensures console.page == Greeted(old(console.page))
      ensures Clean(old(console.page)) ==> Agrees(Now())
    {
      bufferIdx := 0;
      Greet(console);
      if Clean(old(console.page)) { GreetedAgrees(old(console.page), vfs.files, vfs.heap.nodes, entered); }
    }

    /** `execute_command`. */
    method ExecuteCommand()
      requires Valid()
      modifies this, commandBuffer, console`row, console`column, console`page, console`currentColor, console.buffer
      modifies vfs, vfs.fileTable, vfs.heap`nodes, vfs.heap.ram.words
      ensures Valid() && Now() == Key(old(Now()), '\n', demo)
      ensures Grew(old(vfs.Now()), vfs.Now(), vfs.heap.heapStart)
    {
      hide Responded, PutAll, Grew;
      NewLine();
      Respond();
      Ready();
    }

    method Respond()
      requires Valid()
      modifies this, commandBuffer, console`row, console`column, console`page, console`currentColor, console.buffer
      modifies vfs, vfs.fileTable, vfs.heap`nodes, vfs.heap.ram.words
      ensures Valid() && Now() == Session(Responded(old(Now()).state, old(Now()).line, demo(old(entered))), [], old(entered) + 1)
      ensures Grew(old(vfs.Now()), vfs.Now(), vfs.heap.heapStart)
    {
      if bufferIdx != 0 {
        RunLine();
      }
      entered := entered + 1;
    }

    /** Nothing but the screen has changed. */
    ghost predicate OnlyShown(before: Session, files: Snapshot, page: Page)
      requires bufferIdx <= commandBuffer.Length && vfs.heap.ram.Valid()
      reads this, commandBuffer, console, vfs, vfs.fileTable, vfs.heap, vfs.heap.ram.words
    {
      Now() == Session(before.state.(page := page), before.line, before.entered) && vfs.Now() == files
    }

    method NewLine()
      requires Valid()
      modifies console`row, console`column, console`page, console.buffer
      ensures Valid() && OnlyShown(old(Now()), old(vfs.Now()), PutAll(old(console.page), ['\n'], WHITE))
    {
      console.Write(Ended(['\n']));
    }

    method Ready()
      requires Valid()
      modifies console`row, console`column, console`page, console`currentColor, console.buffer
      ensures Valid() && OnlyShown(old(Now()), old(vfs.Now()), PutAll(old(console.page), Prompt(), LIGHT_CYAN))
    {
      PrintPrompt(console);
    }

    /** Reads the line, runs it and empties the buffer. */
    method RunLine()
      requires Valid() && bufferIdx > 0
      modifies this, commandBuffer, console`row, console`column, console`page, console`currentColor, console.buffer
      modifies vfs, vfs.fileTable, vfs.heap`nodes, vfs.heap.ram.words
      ensures Valid() && Now() == Session(Reply(old(Now()).state, Parse(old(Now()).line), demo(old(entered))), [], old(entered))
      ensures Grew(old(vfs.Now()), vfs.Now(), vfs.heap.heapStart)
    {
      hide Parse, Answer, Grew;
      var command := ReadLine();
      Run(console, vfs, command, demo(entered));
      bufferIdx := 0;
    }

    /** Ends the buffer and reads it. */
    method ReadLine() returns (command: Command)
      requires commandBuffer.Length == MAX_LINE + 1 && bufferIdx <= MAX_LINE && NUL !in commandBuffer[..bufferIdx]
      modifies commandBuffer
      ensures command == Parse(old(commandBuffer[..bufferIdx])) && NoNul(command) && Short(command)
    {
      ghost var line := commandBuffer[..bufferIdx];
      commandBuffer[bufferIdx] := NUL;
      assert commandBuffer[..][0..][..|line|] == line;
      TextIs(commandBuffer[..][0..], |line|);
      ParsedPlain(line);
      command := ReadCommand(commandBuffer, line);
    }

    /** `shell_input`: one character from the keyboard, which sends no terminators. */
    method Input(c: Char)
      requires Valid() && c != NUL
      modifies this, commandBuffer, console`row, console`column, console`page, console`currentColor, console.buffer
      modifies vfs, vfs.fileTable, vfs.heap`nodes, vfs.heap.ram.words
      ensures Valid() && Now() == Key(old(Now()), c, demo)
      ensures Grew(old(vfs.Now()), vfs.Now(), vfs.heap.heapStart)
    {
      if c == '\n' {
        ExecuteCommand();
      } else {
        Edit(c);
      }
    }

    /** Backspace drops the last character; any other is appended unless the buffer is full. */
    method Edit(c: Char)
      requires Valid() && c != NUL && c != '\n'
      modifies this, commandBuffer, console`row, console`column, console`page, console.buffer
      ensures Valid() && Now() == Key(old(Now()), c, demo)
    {
      if c == BACKSPACE {
        if bufferIdx > 0 {
          Drop();
        }
      } else if bufferIdx < MAX_LINE {
        Append(c);
      }
    }

    method Drop()
      requires Valid() && bufferIdx > 0
      modifies `bufferIdx, console`row, console`column, console`page, console.buffer
      ensures Valid() && Now() == Key(old(Now()), BACKSPACE, demo)
    {
      bufferIdx := bufferIdx - 1;
      assert commandBuffer[..bufferIdx] == old(commandBuffer[..bufferIdx])[..bufferIdx];
      console.Putchar(BACKSPACE);
    }

    method Append(c: Char)
      requires Valid() && bufferIdx < MAX_LINE && c != NUL && c != '\n' && c != BACKSPACE
      modifies `bufferIdx, commandBuffer, console`row, console`column, console`page, console.buffer
      ensures Valid() && Now() == Key(old(Now()), c, demo)
    {
      hide Execute, Put;
      commandBuffer[bufferIdx] := c;
      bufferIdx := bufferIdx + 1;
      assert commandBuffer[..bufferIdx] == old(commandBuffer[..bufferIdx]) + [c];
      console.Putchar(c);
    }

    /** Any number of characters: line, files, heap and screen evolve as `Keys` says, and so they agree. */
    method InputAll(keys: seq<Char>)
      requires Valid() && NUL !in keys
      modifies this, commandBuffer, console`row, console`column, console`page, console`currentColor, console.buffer
      modifies vfs, vfs.fileTable, vfs.heap`nodes, vfs.heap.ram.words
      ensures Valid() && Now() == Keys(old(Now()), keys, demo)
      ensures Agrees(old(Now())) ==> Agrees(Now())
    {
      for i := 0 to |keys|
        invariant Valid() && Now() == Keys(old(Now()), keys[..i], demo)
      {
        Input(keys[i]);
        KeysOneMore(old(Now()), keys, i, demo);
      }
      assert keys[..|keys|] == keys;
      if Agrees(old(Now())) { ScreenAgreesWithLine(old(Now()), keys, demo); }
    }
  }
}
