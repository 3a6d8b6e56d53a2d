/** What the shell means: how a line is read, what each command does, and what the user then sees. */
module Commands {
  import opened Words
  import opened HeapList
  import opened CStrings
  import opened Vga
  import opened Files

  const MAX_LINE: nat := 255

  const WHITE: Byte := 15
  const LIGHT_GREEN: Byte := 10
  const LIGHT_CYAN: Byte := 11
  const LIGHT_RED: Byte := 12

  function Prompt(): (t: seq<Char>)
    ensures t == Literal("frisca-os> ") && |t| == 11
  {
    Literal("frisca-os> ")
  }

  const WELCOME: string := "=== Welcome to Frisca OS Shell ===\n"

  // ---- Reading a line ------------------------------------------------------------------------

  datatype Command =
    | Demo(line: seq<Char>)
    | TestHeap
    | List
    | CatUsage
    | Cat(name: seq<Char>)
    | WriteUsage
    | Write(name: seq<Char>, content: seq<Char>)
    | Clear
    | Unknown(line: seq<Char>)

  /** The commands that only print, measure time or provoke a fault. */
  const DEMOS: seq<string> :=
    ["help", "version", "timer", "testdelay", "mem", "testmem", "crash", "divzero", "ps", "reboot"]

  ghost predicate IsDemo(line: seq<Char>) {
    exists i :: 0 <= i < |DEMOS| && line == Literal(DEMOS[i])
  }

  predicate StartsWith(t: seq<Char>, u: seq<Char>) {
    |u| <= |t| && t[..|u|] == u
  }

  function Before(t: seq<Char>, c: Char): (u: seq<Char>)
    ensures |u| <= |t| && u == t[..|u|] && c !in u
    ensures |u| < |t| ==> t[|u|] == c
  {
    if t == [] || t[0] == c then [] else [t[0]] + Before(t[1..], c)
  }

  /** The content fits into a line. */
  predicate Short(command: Command) {
    command.Write? ==> |command.content| < MAX_LINE
  }

  /** The arguments of `write`: a name up to the first space and whatever follows that space. */
  function Arguments(args: seq<Char>): (command: Command)
    ensures |args| <= MAX_LINE ==> Short(command)
  {
    var name := Before(args, ' ');
    if |name| < |args| && name != [] && |name| + 1 < |args| then Write(name, args[|name| + 1..]) else WriteUsage
  }

  ghost function Parse(line: seq<Char>): (command: Command)
    ensures |line| <= MAX_LINE ==> Short(command)
  {
    if IsDemo(line) then Demo(line)
    else if line == Literal("testheap") then TestHeap
    else if line == Literal("ls") then List
    else if StartsWith(line, Literal("cat ")) then (if |line| == 4 then CatUsage else Cat(line[4..]))
    else if StartsWith(line, Literal("write ")) then Arguments(line[6..])
    else if line == Literal("clear") then Clear
    else Unknown(line)
  }

  /** No command that is a single word contains a space. */
  lemma SingleWords(line: seq<Char>)
    requires IsDemo(line) || line == Literal("testheap") || line == Literal("ls")
    ensures ' ' !in line
  {
    if IsDemo(line) {
      var i :| 0 <= i < |DEMOS| && line == Literal(DEMOS[i]);
      assert ' ' !in DEMOS[i];
    }
  }

  lemma BeforeIs(t: seq<Char>, c: Char, n: nat)
    requires n < |t| && t[n] == c && c !in t[..n]
    ensures Before(t, c) == t[..n]
  {
  }

  lemma WriteLineParses(line: seq<Char>, name: seq<Char>, content: seq<Char>)
    requires line == Literal("write ") + name + [' '] + content && name != [] && ' ' !in name && content != []
    ensures Parse(line) == Write(name, content)
  {
    var word := Literal("write ");
    assert line[5] == word[5] == ' ' && line[0] == word[0] == 'w';
    if IsDemo(line) || line == Literal("testheap") || line == Literal("ls") { SingleWords(line); }
    assert StartsWith(line, word) && !StartsWith(line, Literal("cat "));
    var args := line[6..];
    assert args == name + [' '] + content;
    BeforeIs(args, ' ', |name|);
  }

  lemma ReadAsWrite(line: seq<Char>, name: seq<Char>, content: seq<Char>)
    requires Parse(line) == Write(name, content)
    ensures line == Literal("write ") + name + [' '] + content && name != [] && ' ' !in name && content != []
  {
    hide IsDemo, Literal, Before;
    var args := line[6..];
    assert line == line[..6] + args && args == name + [' '] + content;
  }

  /** A line is read as `write` exactly when it is the word, a name without spaces, a space and a content. */
  lemma ParsesAsWrite(line: seq<Char>, name: seq<Char>, content: seq<Char>)
    ensures Parse(line) == Write(name, content) <==>
      line == Literal("write ") + name + [' '] + content && name != [] && ' ' !in name && content != []
  {
    hide Parse, Literal;
    if line == Literal("write ") + name + [' '] + content && name != [] && ' ' !in name && content != [] {
      WriteLineParses(line, name, content);
    }
    if Parse(line) == Write(name, content) {
      ReadAsWrite(line, name, content);
    }
  }

  lemma ParsesAsCat(line: seq<Char>, name: seq<Char>)
    ensures Parse(line) == Cat(name) <==> line == Literal("cat ") + name && name != []
  {
    var word := Literal("cat ");
    if line == word + name && name != [] {
      assert line[3] == word[3] == ' ';
      if IsDemo(line) || line == Literal("testheap") || line == Literal("ls") { SingleWords(line); }
      assert line[4..] == name;
    }
    if Parse(line) == Cat(name) {
      assert line == word + line[4..];
    }
  }

  /** No single-word command is another one, and none of them starts with `cat ` or `write `. */
  lemma WordsDiffer(line: seq<Char>, i: nat)
    requires i < 10 && line == Literal(DEMOS[i])
    ensures line != Literal("testheap") && line != Literal("ls") && line != Literal("clear")
  {
    var ls, clear, test := Literal("ls"), Literal("clear"), Literal("testheap");
    assert line[0] == DEMOS[i][0] && line[1] == DEMOS[i][1];
    assert ls[0] == 'l' && clear[0] == 'c' && clear[1] == 'l' && test[4] == 'h';
    assert |DEMOS[i]| == 8 ==> false;
  }

  /** The commands that are a word of their own, and what is none of all. */
  lemma ParsesAsWord(line: seq<Char>)
    ensures Parse(line) == TestHeap <==> line == Literal("testheap")
    ensures Parse(line) == List <==> line == Literal("ls")
    ensures Parse(line) == Clear <==> line == Literal("clear")
    ensures Parse(line) == CatUsage <==> line == Literal("cat ")
    ensures Parse(line) == Demo(line) <==> IsDemo(line)
    ensures Parse(line) == WriteUsage <==> StartsWith(line, Literal("write ")) && !Parse(line).Write?
    ensures Parse(line) == Unknown(line) <==>
      && !IsDemo(line) && line != Literal("testheap") && line != Literal("ls") && line != Literal("clear")
      && !StartsWith(line, Literal("cat ")) && !StartsWith(line, Literal("write "))
  {
    hide Literal, StartsWith, IsDemo;
    WordsApart(line);
  }

  lemma WordsApart(line: seq<Char>)
    ensures IsDemo(line) ==> line != Literal("testheap") && line != Literal("ls") && line != Literal("clear")
    ensures StartsWith(line, Literal("cat ")) || StartsWith(line, Literal("write ")) ==>
      !IsDemo(line) && line != Literal("testheap") && line != Literal("ls") && line != Literal("clear")
    ensures StartsWith(line, Literal("cat ")) ==> !StartsWith(line, Literal("write "))
    ensures Literal("testheap") != Literal("ls") && Literal("testheap") != Literal("clear") && Literal("ls") != Literal("clear")
    ensures StartsWith(line, Literal("cat ")) && |line| == 4 <==> line == Literal("cat ")
  {
    var cat, write, clear := Literal("cat "), Literal("write "), Literal("clear");
    if IsDemo(line) {
      var i :| 0 <= i < |DEMOS| && line == Literal(DEMOS[i]);
      WordsDiffer(line, i);
    }
    if StartsWith(line, cat) { assert line[3] == cat[3] == ' ' && line[0] == cat[0]; }
    if StartsWith(line, write) { assert line[5] == write[5] == ' ' && line[0] == write[0]; }
    if IsDemo(line) || line == Literal("testheap") || line == Literal("ls") { SingleWords(line); }
    assert ' ' !in clear;
  }

  /** The ten of them that the model takes as given. */
  lemma DemoNames(line: seq<Char>)
    ensures IsDemo(line) <==>
      || line == Literal("help") || line == Literal("version") || line == Literal("timer") || line == Literal("testdelay")
      || line == Literal("mem") || line == Literal("testmem") || line == Literal("crash") || line == Literal("divzero")
      || line == Literal("ps") || line == Literal("reboot")
  {
    hide Literal;
    assert DEMOS[0] == "help" && DEMOS[1] == "version" && DEMOS[2] == "timer" && DEMOS[3] == "testdelay" && DEMOS[4] == "mem";
    assert DEMOS[5] == "testmem" && DEMOS[6] == "crash" && DEMOS[7] == "divzero" && DEMOS[8] == "ps" && DEMOS[9] == "reboot";
  }

  // ---- Executing it --------------------------------------------------------------------------

  /** What commands act on: the files, the heap they take their blocks from, and the screen. */
  datatype State = State(files: seq<File>, nodes: seq<Node>, page: Page)

  function HasRoom(nodes: seq<Node>, size: Word): bool {
    HeapList.Kmalloc(nodes, size).ptr != 0
  }

  function CreateReply(code: int): string {
    if code == 0 then "File created successfully!\n"
    else if code == -2 then "Error: File already exists!\n"
    else "Error creating file!\n"
  }

  /** The result of `vfs_create_file`: whether there is room is up to the heap. */
  function WriteCode(files: seq<File>, nodes: seq<Node>, name: seq<Char>, content: seq<Char>): int
    requires |content| < MAX_LINE
  {
    CreateCode(files, name, HasRoom(nodes, |content| + 1))
  }

  function WrittenFiles(files: seq<File>, nodes: seq<Node>, name: seq<Char>, content: seq<Char>): seq<File>
    requires |content| < MAX_LINE
  {
    Created(files, name, content, HasRoom(nodes, |content| + 1))
  }

  function WrittenNodes(files: seq<File>, nodes: seq<Node>, name: seq<Char>, content: seq<Char>): seq<Node>
    requires |content| < MAX_LINE
  {
    if WriteCode(files, nodes, name, content) == 0 then HeapList.Kmalloc(nodes, |content| + 1).nodes else nodes
  }

  const WRITE_USAGE: string := "Usage: write <filename> <content>\n"
  const CAT_USAGE: string := "Usage: cat <filename>\n"
  const NOT_FOUND: string := "File not found!\n"

  function CatReply(found: Option<seq<Char>>): seq<Char> {
    match found
    case None => Literal(NOT_FOUND)
    case Some(content) => content + ['\n']
  }

  const TEST_STARTS: string := "Testing Heap Allocator (kmalloc)...\n"
  const TEST_ALLOCATED: string := "Memory allocated successfully!\n"
  const TEST_FREES: string := "Freeing heap memory...\n"
  const TEST_DONE: string := "Done!\n"
  const TEST_FAILS: string := "Failed to allocate memory!\n"

  function TestReply(room: bool): seq<Char> {
    Literal(TEST_STARTS)
    + (if room then Literal(TEST_ALLOCATED) + Literal(TEST_FREES) + Literal(TEST_DONE) else Literal(TEST_FAILS))
  }

  const UNKNOWN_BEFORE: string := "Unknown command: "
  const UNKNOWN_AFTER: string := "\nType 'help' for a list of commands.\n"

  function UnknownReply(line: seq<Char>): seq<Char> {
    Literal(UNKNOWN_BEFORE) + line + Literal(UNKNOWN_AFTER)
  }

  /** What the demonstration commands print, and how that depends on the number of lines entered before. */
  type Output = seq<Char> -> string
  type Outputs = nat -> Output

  /** What a command prints; `demo` is what the demonstration commands print. */
  function Answer(files: seq<File>, nodes: seq<Node>, command: Command, demo: Output): seq<Char>
    requires Short(command)
  {
    match command
    case Demo(line) => Literal(demo(line))
    case TestHeap => TestReply(HasRoom(nodes, 32))
    case List => Listing(files)
    case CatUsage => Literal(CAT_USAGE)
    case Cat(name) => CatReply(Find(files, name))
    case WriteUsage => Literal(WRITE_USAGE)
    case Write(name, content) => Literal(CreateReply(WriteCode(files, nodes, name, content)))
    case Clear => []
    case Unknown(line) => UnknownReply(line)
  }

  /** What a command does to the files. */
  function FilesAfter(files: seq<File>, nodes: seq<Node>, command: Command): seq<File>
    requires Short(command)
  {
    if command.Write? then WrittenFiles(files, nodes, command.name, command.content) else files
  }

  /** What a command does to the heap. */
  function NodesAfter(files: seq<File>, nodes: seq<Node>, command: Command): seq<Node>
    requires Short(command)
  {
    if command.Write? then WrittenNodes(files, nodes, command.name, command.content) else nodes
  }

  /** What a command with this answer does to the screen. */
  function PageAfter(p: Page, command: Command, answer: seq<Char>): (p': Page)
    requires p.Ok()
    ensures p'.Ok()
  {
    if command.Clear? then Cleared(WHITE) else PutAll(p, answer, if command.Unknown? then LIGHT_RED else WHITE)
  }

  function Reply(s: State, command: Command, demo: Output): (s': State)
    requires s.page.Ok() && Short(command)
    ensures s'.page.Ok()
  {
    State(FilesAfter(s.files, s.nodes, command), NodesAfter(s.files, s.nodes, command),
      PageAfter(s.page, command, Answer(s.files, s.nodes, command, demo)))
  }

  /** The screen when the shell starts. */
  function Greeted(p: Page): (p': Page)
    requires p.Ok()
    ensures p'.Ok()
  {
    PutAll(PutAll(p, Literal(WELCOME), LIGHT_GREEN), Prompt(), LIGHT_CYAN)
  }

  /** An empty line is no command. */
  ghost function Responded(s: State, line: seq<Char>, demo: Output): (s': State)
    requires s.page.Ok() && |line| <= MAX_LINE
    ensures s'.page.Ok()
  {
    if line == [] then s else Reply(s, Parse(line), demo)
  }

  /** Enter: a new row, the response, and the prompt again. */
  ghost function Execute(s: State, line: seq<Char>, demo: Output): (s': State)
    requires s.page.Ok() && |line| <= MAX_LINE
    ensures s'.page.Ok()
  {
    var s1 := s.(page := PutAll(s.page, ['\n'], WHITE));
    var s2 := Responded(s1, line, demo);
    s2.(page := PutAll(s2.page, Prompt(), LIGHT_CYAN))
  }

  // ---- Keys ----------------------------------------------------------------------------------

  /** The shell between two keystrokes: what commands act on, the line typed so far, the lines entered. */
  datatype Session = Session(state: State, line: seq<Char>, entered: nat) {
    predicate Ok() {
      state.page.Ok() && |line| <= MAX_LINE
    }
  }

  /** The line after a key other than Enter. */
  function Edited(line: seq<Char>, c: Char): (line': seq<Char>)
    requires |line| <= MAX_LINE
    ensures |line'| <= MAX_LINE
  {
    if c == BACKSPACE then (if line == [] then line else line[..|line| - 1])
    else if |line| < MAX_LINE then line + [c]
    else line
  }

  /** Only keys that change the line are echoed. */
  ghost function Key(s: Session, c: Char, demo: Outputs): (s': Session)
    requires s.Ok()
    ensures s'.Ok()
  {
    if c == '\n' then Session(Execute(s.state, s.line, demo(s.entered)), [], s.entered + 1)
    else if Edited(s.line, c) == s.line then s
    else Session(s.state.(page := Put(s.state.page, c, WHITE)), Edited(s.line, c), s.entered)
  }

  ghost function Keys(s: Session, keys: seq<Char>, demo: Outputs): (s': Session)
    requires s.Ok()
    ensures s'.Ok()
    decreases |keys|
  {
    if keys == [] then s else Keys(Key(s, keys[0], demo), keys[1..], demo)
  }

  lemma {:induction false} KeysConcat(s: Session, a: seq<Char>, b: seq<Char>, demo: Outputs)
    requires s.Ok()
    ensures Keys(s, a + b, demo) == Keys(Keys(s, a, demo), b, demo)
    decreases |a|
  {
    if a == [] {
      assert a + b == b;
    } else {
      var ab, rest := a + b, a[1..];
      assert ab[0] == a[0] && ab[1..] == rest + b;
      KeysConcat(Key(s, a[0], demo), rest, b, demo);
    }
  }

  lemma KeysOneMore(s: Session, keys: seq<Char>, i: nat, demo: Outputs)
    requires s.Ok() && i < |keys|
    ensures Keys(s, keys[..i + 1], demo) == Key(Keys(s, keys[..i], demo), keys[i], demo)
  {
    assert keys[..i + 1] == keys[..i] + [keys[i]];
    KeysConcat(s, keys[..i], [keys[i]], demo);
  }
}
