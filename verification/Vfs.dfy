/** The RAM file system: a table of 16 files whose contents lie in heap blocks. */
module Vfs {
  import opened Words
  import opened HeapList
  import opened HeapRelease
  import opened KernelHeap
  import opened HeapOwners
  import opened HeapRuns
  import opened HeapExact
  import opened CStrings
  import opened Bytes
  import opened Vga
  import opened Numbers
  import opened Files

  const FS_FILE: Word := 1

  function Nuls(n: nat): (t: seq<Char>)
    ensures |t| == n
  {
    seq(n, _ => NUL)
  }

  /** `char name[32]`. */
  type NameArray = t: seq<Char> | |t| == MAX_FILENAME witness Nuls(MAX_FILENAME)

  datatype VfsNode = VfsNode(name: NameArray, flags: Word, length: Word, buffer: Word)

  /** An empty slot: an empty name, whatever follows its terminator, and nothing else. */
  ghost predicate Unused(v: VfsNode) {
    v.name[0] == NUL && v.flags == 0 && v.length == 0 && v.buffer == 0
  }

  /** What `kmalloc` hands out for a content of `len` characters and its terminator. */
  function BlockSize(len: nat): nat
    requires len < MAX_REQUEST
  {
    Round4(len + 1)
  }

  /** The node is the file: its block is live and holds the content and a terminator. */
  ghost predicate FileAt(m: Memory, ns: seq<Node>, v: VfsNode, f: File) {
    && Terminated(v.name) && Text(v.name) == f.name
    && v.flags == FS_FILE && v.length == |f.content| < MAX_REQUEST
    && Owns(ns, v.buffer, BlockSize(|f.content|))
    && ContentAt(m, v.buffer, f.content)
  }

  ghost predicate ContentAt(m: Memory, a: Word, content: seq<Char>) {
    && 0 < a && a % 4 == 0 && a + |content| + 1 <= WORD_RANGE && NUL !in content
    && TextAt(m, a, |content| + 1) == content + [NUL]
  }

  /** Every file in its slot, each with a block of its own. */
  ghost predicate FilesAt(m: Memory, ns: seq<Node>, table: seq<VfsNode>, files: seq<File>) {
    && |files| <= |table|
    && (forall i :: 0 <= i < |files| ==> FileAt(m, ns, table[i], files[i]))
    && forall i, j :: 0 <= i < j < |files| ==> table[i].buffer != table[j].buffer
  }

  lemma NameAt(m: Memory, ns: seq<Node>, table: seq<VfsNode>, files: seq<File>, i: nat)
    requires FilesAt(m, ns, table, files) && i < |files|
    ensures Terminated(table[i].name) && Text(table[i].name) == files[i].name
  {
  }

  lemma SizeInArena(m: Memory, ns: seq<Node>, lo: int, v: VfsNode, f: File)
    requires Tiles(ns, lo, lo + ARENA) && FileAt(m, ns, v, f)
    ensures v.length == |f.content| < ARENA
  {
    OwnsBounds(ns, lo, lo + ARENA, v.buffer, BlockSize(|f.content|));
  }

  lemma FileKept(m: Memory, m': Memory, ns: seq<Node>, ns': seq<Node>, v: VfsNode, f: File)
    requires FileAt(m, ns, v, f) && Owns(ns', v.buffer, BlockSize(|f.content|))
    requires SameOn(m, m', v.buffer, v.buffer + BlockSize(|f.content|))
    ensures FileAt(m', ns', v, f)
  {
    TextKept(m, m', v.buffer, |f.content| + 1);
  }

  /** Files survive an allocation, and whatever its owner writes into the new block. */
  lemma FilesKept(m: Memory, m': Memory, ns: seq<Node>, ns': seq<Node>, table: seq<VfsNode>, files: seq<File>)
    requires FilesAt(m, ns, table, files) && BlocksKept(m, m', ns, ns')
    ensures FilesAt(m', ns', table, files)
  {
    forall i | 0 <= i < |files| ensures FileAt(m', ns', table[i], files[i]) {
      FileKept(m, m', ns, ns', table[i], files[i]);
    }
  }

  /** Used slots stay, and a new file's block is new to a heap that had the nodes `before`. */
  ghost predicate SlotsKept(table: seq<VfsNode>, table': seq<VfsNode>, n: nat, n': nat, before: seq<Node>) {
    && n <= n' <= n + 1 && n' <= |table| == |table'|
    && (forall i :: 0 <= i < n ==> table'[i] == table[i])
    && (n' > n ==> !Owns(before, table'[n].buffer, 0))
  }

  /** Memory, heap and file table at one moment. */
  datatype Snapshot = Snapshot(image: Memory, nodes: seq<Node>, table: seq<VfsNode>, count: nat)

  /** From one moment to another, all that changed is new: no live block and no used slot did. */
  ghost predicate Grew(a: Snapshot, b: Snapshot, lo: int) {
    && BlocksKept(a.image, b.image, a.nodes, b.nodes) && SameOutside(a.image, b.image, lo, lo + ARENA)
    && SlotsKept(a.table, b.table, a.count, b.count, a.nodes)
  }

  /** Whether a block for `len` characters was to be had, and what has changed: nothing when not. */
  ghost predicate AddedAs(a: Snapshot, b: Snapshot, len: nat, stored: bool, lo: int)
    requires len < MAX_REQUEST
  {
    var r := HeapList.Kmalloc(a.nodes, len + 1);
    && stored == (r.ptr != 0) && b.nodes == (if stored then r.nodes else a.nodes)
    && (!stored ==> b == a) && Grew(a, b, lo)
  }

  /**
    The result of a creation, the files and the node list after it. A failure changes nothing; success
    changes no live block and no used slot.
  */
  ghost predicate CreatedAs(a: Snapshot, b: Snapshot, files: seq<File>, files': seq<File>, res: int,
      name: seq<Char>, content: seq<Char>, lo: int)
    requires |content| < MAX_REQUEST
  {
    var r := HeapList.Kmalloc(a.nodes, |content| + 1);
    && res == CreateCode(files, name, r.ptr != 0) && files' == Created(files, name, content, r.ptr != 0)
    && b.nodes == (if res == 0 then r.nodes else a.nodes)
    && (res != 0 ==> b == a) && Grew(a, b, lo)
  }

  lemma AddedIsCreated(a: Snapshot, b: Snapshot, files': seq<File>, stored: bool, name: seq<Char>, content: seq<Char>,
      lo: int, files: seq<File>)
    requires |content| < MAX_REQUEST && AddedAs(a, b, |content|, stored, lo)
    requires |files| < MAX_FILES && Find(files, name).None?
    requires files' == if stored then files + [File(StoredName(name), content)] else files
    ensures CreatedAs(a, b, files, files', if stored then 0 else -3, name, content, lo)
  {
  }

  /**
    Creation in terms of the names, the table and the unallocated bytes: which failure gives which code,
    and that a success appends one file under the first 31 characters of its name.
  */
  lemma CreationMeaning(a: Snapshot, b: Snapshot, files: seq<File>, files': seq<File>, res: int,
      name: seq<Char>, content: seq<Char>, lo: int)
    requires |content| < MAX_REQUEST && CreatedAs(a, b, files, files', res, name, content, lo)
    requires Tidy(a.nodes, lo, lo + ARENA) && lo > 0
    ensures res == -1 <==> |files| >= 16
    ensures res == -2 <==> |files| < 16 && Named(files, name)
    ensures var room := HasRun(Live(a.nodes), lo, lo + 16384, 12 + (|content| + 4) / 4 * 4);
      && (res == -3 <==> |files| < 16 && !Named(files, name) && !room)
      && (res == 0 <==> |files| < 16 && !Named(files, name) && room)
    ensures res != 0 ==> b == a && files' == files
    ensures res == 0 ==> files' == files + [File(if |name| <= 31 then name else name[..31], content)]
  {
    hide Grew, HeapList.Kmalloc, Tidy, HasRun;
    var room := HeapList.Kmalloc(a.nodes, |content| + 1).ptr != 0;
    RoomInRun(a.nodes, lo, lo + ARENA, |content| + 1);
    RoundedSize(|content| + 1);
    CodeMeaning(files, name, room);
    CreatedAppends(files, name, content, room);
  }

  /** A file's slot holds its name, its flag, its length and the address of its bytes. */
  lemma SlotMeaning(m: Memory, ns: seq<Node>, v: VfsNode, f: File, k: nat)
    requires FileAt(m, ns, v, f)
    ensures |f.name| <= 31 && v.name[..|f.name|] == f.name && v.name[|f.name|] == NUL
    ensures v.flags == 1 && v.length == |f.content|
    ensures k < |f.content| ==> ByteAt(m, v.buffer + k) == f.content[k] as int
    ensures ByteAt(m, v.buffer + |f.content|) == 0
  {
    ContentChar(m, v.buffer, f.content, |f.content|);
    if k < |f.content| { ContentChar(m, v.buffer, f.content, k); }
  }

  lemma OccupiedGrew(a: Snapshot, mid: Snapshot, b: Snapshot, lo: int, buf: int, size: int)
    requires Grew(a, mid, lo) && b.nodes == mid.nodes && size >= 0
    requires Tiles(b.nodes, lo, lo + ARENA) && Owns(b.nodes, buf, size) && !Owns(a.nodes, buf, 0)
    requires SameOutside(mid.image, b.image, buf, buf + size) && SlotsKept(a.table, b.table, a.count, b.count, a.nodes)
    ensures Grew(a, b, lo)
  {
    OwnerWrites(a.image, mid.image, b.image, a.nodes, b.nodes, lo, buf, size);
  }

  /** The slot after the last file becomes a file whose block is new. */
  lemma FileAdded(m: Memory, ns: seq<Node>, before: seq<Node>, table: seq<VfsNode>, v: VfsNode,
      files: seq<File>, f: File, m0: Memory)
    requires FilesAt(m, ns, table, files) && FilesAt(m0, before, table, files) && |files| < |table|
    requires FileAt(m, ns, v, f) && !Owns(before, v.buffer, 0)
    ensures FilesAt(m, ns, table[|files| := v], files + [f])
  {
    forall i | 0 <= i < |files| ensures table[i].buffer != v.buffer {
      assert FileAt(m0, before, table[i], files[i]);
      assert Owns(before, table[i].buffer, 0);
    }
  }

  /** Traffic on other blocks, as `HeapRuns` performs it, leaves every file as it is. */
  lemma TrafficKeepsFiles(m: Memory, m': Memory, s: State, lo: int, calls: seq<Call>, table: seq<VfsNode>, files: seq<File>)
    requires Sound(s, lo) && LegalRun(s, calls) && FilesAt(m, s.nodes, table, files)
    requires forall n :: n in Live(s.nodes) && Untouched(n, calls) ==> SameOn(m, m', n.Payload(), n.End())
    requires forall c, i :: c in calls && c.Free? && 0 <= i < |files| ==> c.ptr != table[i].buffer
    ensures FilesAt(m', Run(s, calls).nodes, table, files)
  {
    forall i | 0 <= i < |files| ensures FileAt(m', Run(s, calls).nodes, table[i], files[i]) {
      var size := BlockSize(|files[i].content|);
      assert FileAt(m, s.nodes, table[i], files[i]);
      var n :| n in Live(s.nodes) && n.Payload() == table[i].buffer && n.size >= size;
      assert Untouched(n, calls);
      RunKeeps(s, lo, calls, n);
      FileKept(m, m', s.nodes, Run(s, calls).nodes, table[i], files[i]);
    }
  }

  class Vfs {
    const heap: Heap
    const fileTable: array<VfsNode>
    var fileCount: nat
    ghost var files: seq<File>

    ghost predicate Valid()
      reads this, fileTable, heap, heap.ram.words
    {
      && heap.Valid() && fileTable.Length == MAX_FILES && fileCount == |files| <= MAX_FILES
      && FilesAt(heap.ram.Image(), heap.nodes, fileTable[..], files)
    }

    ghost function Now(): Snapshot
      requires heap.ram.Valid()
      reads this, fileTable, heap, heap.ram.words
    {
      Snapshot(heap.ram.Image(), heap.nodes, fileTable[..], fileCount)
    }

    constructor (heap: Heap)
      ensures this.heap == heap && fresh(fileTable) && fileTable.Length == MAX_FILES
    {
      this.heap := heap;
      fileTable := new VfsNode[16](_ => VfsNode(Nuls(MAX_FILENAME), 0, 0, 0));
      fileCount := 0;
      files := [];
    }

    /** Empties every slot. */
    method Init()
      requires heap.Valid() && fileTable.Length == MAX_FILES
      modifies this, fileTable
      ensures Valid() && files == []
      ensures forall k :: 0 <= k < MAX_FILES ==> Unused(fileTable[k])
    {
      fileCount := 0;
      files := [];
      for i := 0 to MAX_FILES
        invariant fileCount == 0 && files == [] && forall k :: 0 <= k < i ==> Unused(fileTable[k])
      {
        fileTable[i] := VfsNode(fileTable[i].name[0 := NUL], 0, 0, 0);
      }
    }

    /** The first slot of that name. */
    method ReadFile(name: seq<Char>) returns (r: Option<nat>)
      requires Valid() && Terminated(name)
      ensures r.None? <==> Find(files, Text(name)).None?
      ensures r.Some? ==> IsFirst(files, Text(name), r.value)
    {
      hide Find, FilesAt, Tiles, Linked;
      FindIsFirst(files, Text(name));
      var i: nat := 0;
      while i < fileCount
        invariant 0 <= i <= fileCount
        invariant AbsentBefore(files, Text(name), i)
      {
        var same := HasName(i, name);
        if same {
          return Some(i);
        }
        i := i + 1;
      }
      return None;
    }

    method HasName(i: nat, name: seq<Char>) returns (same: bool)
      requires Valid() && Terminated(name) && i < fileCount
      ensures same == (files[i].name == Text(name))
    {
      NameAt(heap.ram.Image(), heap.nodes, fileTable[..], files, i);
      var order := Strcmp(fileTable[i].name, name);
      same := order == 0;
    }

    /** The name array of a slot: at most 31 characters, a terminator, and what was there before. */
    method StoreName(slot: NameArray, name: seq<Char>) returns (stored: NameArray)
      requires Terminated(name)
      ensures Terminated(stored) && Text(stored) == StoredName(Text(name))
      ensures stored[|Text(stored)| + 1..] == slot[|Text(stored)| + 1..]
    {
      var nameLen := Strlen(name);
      if nameLen >= MAX_FILENAME {
        nameLen := MAX_FILENAME - 1;
      }
      stored := name[..nameLen] + [NUL] + slot[nameLen + 1..];
      assert stored[..nameLen] == Text(name)[..nameLen];
      assert NUL !in Text(name)[..nameLen];
      TextIs(stored, nameLen);
    }

    /** Copies content and terminator into a block that was just handed out. */
    method Fill(buf: Word, content: seq<Char>, len: nat)
      requires heap.Valid() && Terminated(content) && len == |Text(content)| < MAX_REQUEST
      requires Owns(heap.nodes, buf, BlockSize(len))
      modifies heap.ram.words
      ensures heap.Valid() && ContentAt(heap.ram.Image(), buf, Text(content))
      ensures SameOutside(old(heap.ram.Image()), heap.ram.Image(), buf, buf + BlockSize(len))
    {
      OwnsBounds(heap.nodes, heap.heapStart, heap.Limit(), buf, BlockSize(len));
      Memcpy(heap.ram, buf, content, len);
      Append(heap.ram, old(heap.ram.Image()), buf, content[..len], buf + len, NUL);
      assert heap.Valid() by {
        BlockSparesHeaders(old(heap.ram.Image()), heap.ram.Image(), heap.nodes, heap.heapStart, buf, BlockSize(len));
        heap.HeadersSuffice(old(heap.ram.Image()));
      }
    }

    method CreateFile(name: seq<Char>, content: seq<Char>) returns (res: int)
      requires Valid() && Terminated(name) && Terminated(content) && |Text(content)| < MAX_REQUEST
      modifies this, fileTable, heap`nodes, heap.ram.words
      ensures Valid()
      ensures CreatedAs(old(Now()), Now(), old(files), files, res, Text(name), Text(content), heap.heapStart)
    {
      if fileCount >= MAX_FILES { return -1; }
      var existing := ReadFile(name);
      if existing.Some? { return -2; }
      var stored := AddFile(name, content);
      AddedIsCreated(old(Now()), Now(), files, stored, Text(name), Text(content), heap.heapStart, old(files));
      return if stored then 0 else -3;
    }

    /** Allocates the block of a new file and fills it and the next slot. */
    method AddFile(name: seq<Char>, content: seq<Char>) returns (stored: bool)
      requires Valid() && Terminated(name) && Terminated(content) && |Text(content)| < MAX_REQUEST
      requires fileCount < MAX_FILES
      modifies this, fileTable, heap`nodes, heap.ram.words
      ensures Valid()
      ensures AddedAs(old(Now()), Now(), |Text(content)|, stored, heap.heapStart)
      ensures files == if stored then old(files) + [File(StoredName(Text(name)), Text(content))] else old(files)
    {
      var len := Strlen(content);
      var buf := Allocate(len + 1);
      stored := buf != 0;
      if stored {
        ghost var mid := Now();
        Occupy(old(heap.nodes), old(heap.ram.Image()), buf, name, content, len);
        OccupiedGrew(old(Now()), mid, Now(), heap.heapStart, buf, BlockSize(len));
      }
    }

    /** `kmalloc` called by the file system: no file notices. */
    method Allocate(size: Word) returns (buf: Word)
      requires Valid()
      modifies heap`nodes, heap.ram.words
      ensures Valid() && Allocation(heap.nodes, buf) == HeapList.Kmalloc(old(heap.nodes), size)
      ensures Grew(old(Now()), Now(), heap.heapStart)
      ensures if buf == 0 then heap.nodes == old(heap.nodes) && heap.ram.Image() == old(heap.ram.Image())
              else Owns(heap.nodes, buf, Round4(size)) && !Owns(old(heap.nodes), buf, 0)
    {
      GrantOwns(heap.nodes, heap.heapStart, size);
      buf := heap.Kmalloc(size);
      AllocationKeepsBlocks(old(heap.ram.Image()), heap.ram.Image(), old(heap.nodes), heap.nodes);
      FilesKept(old(heap.ram.Image()), heap.ram.Image(), old(heap.nodes), heap.nodes, fileTable[..], files);
    }

    /** Fills the new block and the next slot. */
    method Occupy(ghost before: seq<Node>, ghost m0: Memory, buf: Word, name: seq<Char>, content: seq<Char>, len: nat)
      requires Valid() && fileCount < MAX_FILES && Terminated(name) && Terminated(content)
      requires len == |Text(content)| < MAX_REQUEST
      requires Owns(heap.nodes, buf, BlockSize(len)) && !Owns(before, buf, 0)
      requires FilesAt(m0, before, fileTable[..], files)
      modifies this, fileTable, heap.ram.words
      ensures Valid() && files == old(files) + [File(StoredName(Text(name)), Text(content))]
      ensures SameOutside(old(heap.ram.Image()), heap.ram.Image(), buf, buf + BlockSize(len))
      ensures SlotsKept(old(fileTable[..]), fileTable[..], |old(files)|, |files|, before)
    {
      Fill(buf, content, len);
      FilesSpared(old(heap.ram.Image()), heap.ram.Image(), heap.nodes, heap.heapStart, fileTable[..], files, m0, before,
        buf, BlockSize(len));
      var stored := StoreName(fileTable[fileCount].name, name);
      fileTable[fileCount] := VfsNode(stored, FS_FILE, len, buf);
      ghost var f := File(StoredName(Text(name)), Text(content));
      FileAdded(heap.ram.Image(), heap.nodes, before, old(fileTable[..]), fileTable[fileCount], files, f, m0);
      assert fileTable[..] == old(fileTable[..])[fileCount := fileTable[fileCount]];
      fileCount := fileCount + 1;
      files := files + [f];
    }

    /** The file system was in order when the heap was as in `before`; since then it has only handed out `buf`. */
    ghost predicate Borrowed(before: Snapshot, size: Word, buf: Word)
      requires heap.ram.Valid()
      reads this, fileTable, heap, heap.ram.words
    {
      && Tidy(before.nodes, heap.heapStart, heap.heapStart + ARENA) && 0 < heap.heapStart
      && FilesAt(before.image, before.nodes, before.table, files)
      && before.table == fileTable[..] && before.count == fileCount
      && buf != 0 && Allocation(heap.nodes, buf) == HeapList.Kmalloc(before.nodes, size)
      && Grew(before, Now(), heap.heapStart)
    }

    method Borrow(size: Word) returns (buf: Word)
      requires Valid()
      modifies heap`nodes, heap.ram.words
      ensures Valid() && (buf != 0 <==> HeapList.Kmalloc(old(heap.nodes), size).ptr != 0)
      ensures if buf == 0 then Now() == old(Now()) else Borrowed(old(Now()), size, buf)
    {
      buf := Allocate(size);
    }

    /** `kfree` of a block just borrowed: node list and files are as they were. */
    method GiveBack(buf: Word, ghost before: Snapshot, ghost size: Word)
      requires Valid() && Borrowed(before, size, buf)
      modifies heap`nodes, heap.ram.words
      ensures Valid() && heap.nodes == before.nodes && Grew(before, Now(), heap.heapStart)
    {
      GrantOwns(before.nodes, heap.heapStart, size);
      KmallocThenKfree(before.nodes, heap.heapStart, heap.Limit(), size);
      heap.Kfree(buf);
      ReleasedKeeps(before.image, old(heap.ram.Image()), heap.ram.Image(), before.nodes, old(heap.nodes));
      FilesKept(before.image, heap.ram.Image(), before.nodes, before.nodes, fileTable[..], files);
    }

    /** Writes the string in the block of file `i` to the screen. */
    method WriteContent(console: Console, i: nat)
      requires Valid() && console.Valid() && i < fileCount
      modifies console`row, console`column, console`page, console.buffer
      ensures Valid() && console.Valid()
      ensures console.page == PutAll(old(console.page), files[i].content, console.currentColor)
    {
      WriteMemory(console, heap.ram, fileTable[i].buffer, files[i].content);
    }

    /** The directory listing. */
    method ListFiles(console: Console)
      requires Valid() && console.Valid()
      modifies console`row, console`column, console`page, console.buffer
      ensures Valid() && console.Valid()
      ensures console.page == PutAll(old(console.page), Listing(files), console.currentColor)
    {
      hide PutAll, Rows, Header, FilesAt, Tiles, Linked, NoAdjacentFree;
      if fileCount == 0 {
        WriteNone(console);
        return;
      }
      WriteHeader(console);
      ListRows(console);
      ListingPuts(old(console.page), files, console.currentColor);
    }

    method ListRows(console: Console)
      requires Valid() && console.Valid()
      modifies console`row, console`column, console`page, console.buffer
      ensures Valid() && console.Valid()
      ensures console.page == PutAll(old(console.page), Rows(files), console.currentColor)
    {
      var i: nat := 0;
      while i < fileCount
        invariant i <= fileCount && Valid() && console.Valid()
        invariant console.page == PutAll(old(console.page), Rows(files[..i]), console.currentColor)
      {
        ListFile(console, i);
        RowsOneMore(old(console.page), files, i, console.currentColor);
        i := i + 1;
      }
      assert files[..i] == files;
    }

    method ListFile(console: Console, i: nat)
      requires Valid() && console.Valid() && i < fileCount
      modifies console`row, console`column, console`page, console.buffer
      ensures Valid() && console.Valid()
      ensures console.page == PutAll(old(console.page), Row(files[i]), console.currentColor)
    {
      NameAt(heap.ram.Image(), heap.nodes, fileTable[..], files, i);
      SizeInArena(heap.ram.Image(), heap.nodes, heap.heapStart, fileTable[i], files[i]);
      WriteRow(console, fileTable[i].name, fileTable[i].length, files[i]);
    }
  }

  method WriteNone(console: Console)
    requires console.Valid()
    modifies console`row, console`column, console`page, console.buffer
    ensures console.Valid() && console.page == PutAll(old(console.page), Listing([]), console.currentColor)
  {
    console.Write(Ended(Literal("No files found.\n")));
  }

  lemma ListingPuts(p: Page, files: seq<File>, color: Byte)
    requires p.Ok() && files != []
    ensures PutAll(p, Listing(files), color) == PutAll(PutAll(p, Header(), color), Rows(files), color)
  {
    PutAllConcat(p, Header(), Rows(files), color);
  }

  method WriteHeader(console: Console)
    requires console.Valid()
    modifies console`row, console`column, console`page, console.buffer
    ensures console.Valid() && console.page == PutAll(old(console.page), Header(), console.currentColor)
  {
    console.Write(Ended(Literal("Name                             Size (Bytes)\n")));
    console.Write(Ended(Literal("---------------------------------------------\n")));
    PutAllConcat(old(console.page), Literal("Name                             Size (Bytes)\n"),
      Literal("---------------------------------------------\n"), console.currentColor);
  }

  method WriteRow(console: Console, name: seq<Char>, length: Word, ghost f: File)
    requires console.Valid() && Terminated(name) && Text(name) == f.name && |f.name| < MAX_FILENAME
    requires SizeText(length) == Decimal(|f.content|)
    modifies console`row, console`column, console`page, console.buffer
    ensures console.Valid() && console.page == PutAll(old(console.page), Row(f), console.currentColor)
  {
    hide PutAll, Decimal, SizeText, Row;
    WriteName(console, name);
    WriteSize(console, length);
    RowPuts(old(console.page), f, console.currentColor);
  }

  method WriteSize(console: Console, length: Word)
    requires console.Valid()
    modifies console`row, console`column, console`page, console.buffer
    ensures console.Valid() && console.page ==
      PutAll(PutAll(old(console.page), SizeText(length), console.currentColor), ['\n'], console.currentColor)
  {
    hide SizeText;
    var numStr := FormatSize(length);
    console.Write(numStr);
    console.Write(Ended(['\n']));
  }

  method WriteName(console: Console, name: seq<Char>)
    requires console.Valid() && Terminated(name)
    modifies console`row, console`column, console`page, console.buffer
    ensures var n := |Text(name)|;
      console.Valid() && console.page ==
        PutAll(PutAll(old(console.page), Text(name), console.currentColor), Blank(if n < 33 then 33 - n else 1), console.currentColor)
  {
    console.Write(name);
    var nameLen := Strlen(name);
    var spaces: int := 33 - nameLen as int;
    if spaces < 1 { spaces := 1; }
    WriteSpaces(console, spaces);
  }

  method WriteSpaces(console: Console, spaces: nat)
    requires console.Valid()
    modifies console`row, console`column, console`page, console.buffer
    ensures console.Valid() && console.page == PutAll(old(console.page), Blank(spaces), console.currentColor)
  {
    for s := 0 to spaces
      invariant console.Valid() && console.page == PutAll(old(console.page), Blank(s), console.currentColor)
    {
      console.Putchar(' ');
      PutAllConcat(old(console.page), Blank(s), [' '], console.currentColor);
    }
  }

  lemma ContentChar(m: Memory, a: Word, content: seq<Char>, i: nat)
    requires ContentAt(m, a, content) && i <= |content|
    ensures ByteAt(m, a + i) == if i == |content| then 0 else content[i] as int
    ensures i < |content| ==> content[i] != NUL
  {
    TextCharAt(m, a, |content| + 1, i);
  }

  /** `vga_write` of a string in memory. */
  method WriteMemory(console: Console, ram: Ram, a: Word, ghost content: seq<Char>)
    requires ram.Valid() && console.Valid() && ContentAt(ram.Image(), a, content)
    modifies console`row, console`column, console`page, console.buffer
    ensures console.Valid() && console.page == PutAll(old(console.page), content, console.currentColor)
  {
    var i: nat := 0;
    var c := LoadChar(ram, a, 0, content);
    while c != NUL
      invariant i <= |content| && console.Valid() && c == (if i == |content| then NUL else content[i])
      invariant console.page == PutAll(old(console.page), content[..i], console.currentColor)
      decreases |content| - i
    {
      console.Putchar(c);
      PutOneMore(old(console.page), content, i, console.currentColor);
      i := i + 1;
      c := LoadChar(ram, a, i, content);
    }
    assert content[..i] == content;
  }

  /** Character `i` of the string at `a`; only the one after the content is the terminator. */
  method LoadChar(ram: Ram, a: Word, i: nat, ghost content: seq<Char>) returns (c: Char)
    requires ram.Valid() && ContentAt(ram.Image(), a, content) && i <= |content|
    ensures c == if i == |content| then NUL else content[i]
    ensures c == NUL <==> i == |content|
  {
    ContentChar(ram.Image(), a, content, i);
    var b := LoadByte(ram, a + i);
    c := b as char;
  }

  lemma PutOneMore(p: Page, t: seq<Char>, i: nat, color: Byte)
    requires p.Ok() && i < |t|
    ensures PutAll(p, t[..i + 1], color) == Put(PutAll(p, t[..i], color), t[i], color)
  {
    assert t[..i + 1] == t[..i] + [t[i]];
    PutAllConcat(p, t[..i], [t[i]], color);
  }

  lemma RowsOneMore(p: Page, files: seq<File>, i: nat, color: Byte)
    requires p.Ok() && i < |files|
    ensures PutAll(p, Rows(files[..i + 1]), color) == PutAll(PutAll(p, Rows(files[..i]), color), Row(files[i]), color)
  {
    assert files[..i + 1][..i] == files[..i];
    PutAllConcat(p, Rows(files[..i]), Row(files[i]), color);
  }

  lemma RowPuts(p: Page, f: File, color: Byte)
    requires p.Ok() && |f.name| < MAX_FILENAME
    ensures PutAll(p, Row(f), color) ==
      PutAll(PutAll(PutAll(PutAll(p, f.name, color), Blank(33 - |f.name|), color), Decimal(|f.content|), color), ['\n'], color)
  {
    hide PutAll, Decimal, Blank;
    var blank, size := Blank(33 - |f.name|), Decimal(|f.content|);
    PutAllConcat(p, f.name, blank, color);
    PutAllConcat(p, f.name + blank, size, color);
    PutAllConcat(p, f.name + blank + size, ['\n'], color);
  }

  /** No header lies in a live block. */
  lemma BlockSparesHeaders(m: Memory, m': Memory, ns: seq<Node>, lo: int, p: int, size: int)
    requires Tiles(ns, lo, lo + ARENA) && Owns(ns, p, size) && SameOutside(m, m', p, p + size)
    ensures HeadersKept(m, m', ns)
  {
    forall n | n in ns ensures SameOn(m, m', n.addr, n.Payload()) {
      HeaderApart(ns, lo, lo + ARENA, n, p, size);
    }
  }

  /** Writes to a block that no file owned leave the files as they are. */
  lemma FilesSpared(m: Memory, m': Memory, ns: seq<Node>, lo: int, table: seq<VfsNode>, files: seq<File>,
      m0: Memory, before: seq<Node>, p: int, size: int)
    requires Tiles(ns, lo, lo + ARENA) && Owns(ns, p, size) && SameOutside(m, m', p, p + size)
    requires FilesAt(m, ns, table, files) && FilesAt(m0, before, table, files) && !Owns(before, p, 0)
    ensures FilesAt(m', ns, table, files)
  {
    forall i | 0 <= i < |files| ensures FileAt(m', ns, table[i], files[i]) {
      assert FileAt(m0, before, table[i], files[i]) && FileAt(m, ns, table[i], files[i]);
      assert Owns(before, table[i].buffer, 0);
      OwnsApart(ns, lo, lo + ARENA, p, size, table[i].buffer, BlockSize(|files[i].content|));
      FileKept(m, m', ns, ns, table[i], files[i]);
    }
  }
}
