/** What the file table means: a list of files looked up by the first matching name. */
module Files {
  import opened Words
  import opened CStrings
  import opened Numbers

  const MAX_FILENAME: nat := 32
  const MAX_FILES: nat := 16

  datatype File = File(name: seq<Char>, content: seq<Char>)

  /** Only the first 31 characters of a name are stored. */
  function StoredName(name: seq<Char>): (t: seq<Char>)
    ensures |t| < MAX_FILENAME && (t == name <==> |name| < MAX_FILENAME)
  {
    if |name| < MAX_FILENAME then name else name[..MAX_FILENAME - 1]
  }

  ghost predicate Named(files: seq<File>, name: seq<Char>) {
    exists i :: 0 <= i < |files| && files[i].name == name
  }

  /** `i` is the first file of that name. */
  ghost predicate IsFirst(files: seq<File>, name: seq<Char>, i: nat) {
    i < |files| && files[i].name == name && AbsentBefore(files, name, i)
  }

  ghost predicate AbsentBefore(files: seq<File>, name: seq<Char>, i: nat)
    requires i <= |files|
  {
    forall j :: 0 <= j < i ==> files[j].name != name
  }

  /** The content under a name: the first match counts. */
  function Find(files: seq<File>, name: seq<Char>): Option<seq<Char>> {
    if files == [] then None
    else if files[0].name == name then Some(files[0].content)
    else Find(files[1..], name)
  }

  lemma {:induction false} FindIsFirst(files: seq<File>, name: seq<Char>)
    ensures Find(files, name).None? <==> !Named(files, name)
    ensures forall i: nat :: IsFirst(files, name, i) ==> Find(files, name) == Some(files[i].content)
  {
    if files != [] {
      var rest := files[1..];
      FindIsFirst(rest, name);
      if files[0].name != name {
        assert Named(files, name) ==> Named(rest, name) by {
          if i :| 0 <= i < |files| && files[i].name == name { assert rest[i - 1].name == name; }
        }
        if i :| 0 <= i < |rest| && rest[i].name == name { assert files[i + 1].name == name; }
        forall i: nat | IsFirst(files, name, i) ensures Find(files, name) == Some(files[i].content) {
          assert IsFirst(rest, name, i - 1) by {
            forall j | 0 <= j < i - 1 ensures rest[j].name != name { assert files[j + 1].name != name; }
          }
        }
      }
    }
  }

  /** Adding a file at the end changes only the lookup of its own name, and that only when it was absent. */
  lemma {:induction false} FindAppended(files: seq<File>, f: File, name: seq<Char>)
    ensures Find(files + [f], name) ==
      if Find(files, name).Some? then Find(files, name) else if f.name == name then Some(f.content) else None
  {
    if files == [] {
      assert files + [f] == [f];
    } else {
      var more, rest := files + [f], files[1..];
      assert more[0] == files[0] && more[1..] == rest + [f];
      FindAppended(rest, f, name);
    }
  }

  ghost predicate Distinct(files: seq<File>) {
    forall i, j :: 0 <= i < j < |files| ==> files[i].name != files[j].name
  }

  /** The table as a finite map. */
  ghost function AsMap(files: seq<File>): (m: map<seq<Char>, seq<Char>>)
    ensures forall n :: n in m <==> Named(files, n)
    ensures forall n :: n in m ==> Find(files, n) == Some(m[n])
  {
    var names := set f | f in files :: f.name;
    assert forall n :: n in names <==> Named(files, n);
    map n | n in names :: FoundIn(files, n)
  }

  ghost function FoundIn(files: seq<File>, name: seq<Char>): (c: seq<Char>)
    ensures Named(files, name) ==> Find(files, name) == Some(c)
  {
    FindIsFirst(files, name);
    if Find(files, name).Some? then Find(files, name).value else []
  }

  // ---- Creation ------------------------------------------------------------------------------

  /** The result codes: full, exists, no memory, success; `room` says whether the heap can hold the content. */
  function CreateCode(files: seq<File>, name: seq<Char>, room: bool): int {
    if |files| >= MAX_FILES then -1 else if Find(files, name).Some? then -2 else if !room then -3 else 0
  }

  function Created(files: seq<File>, name: seq<Char>, content: seq<Char>, room: bool): seq<File> {
    if CreateCode(files, name, room) == 0 then files + [File(StoredName(name), content)] else files
  }

  /** Each failure has its code, and the first check that fails decides. */
  lemma CodeMeaning(files: seq<File>, name: seq<Char>, room: bool)
    ensures CreateCode(files, name, room) == -1 <==> |files| >= 16
    ensures CreateCode(files, name, room) == -2 <==> |files| < 16 && Named(files, name)
    ensures CreateCode(files, name, room) == -3 <==> |files| < 16 && !Named(files, name) && !room
    ensures CreateCode(files, name, room) == 0 <==> |files| < 16 && !Named(files, name) && room
  {
    FindIsFirst(files, name);
  }

  /** A success appends one file, under the first 31 characters of the name; a failure changes nothing. */
  lemma CreatedAppends(files: seq<File>, name: seq<Char>, content: seq<Char>, room: bool)
    ensures Created(files, name, content, room) ==
      if |files| < 16 && !Named(files, name) && room
      then files + [File(if |name| <= 31 then name else name[..31], content)] else files
  {
    CodeMeaning(files, name, room);
  }

  /** Names stay distinct exactly when the stored name is new, not only the given one. */
  lemma CreatedDistinct(files: seq<File>, name: seq<Char>, content: seq<Char>, room: bool)
    requires Distinct(files)
    ensures Distinct(Created(files, name, content, room)) <==>
      |files| >= MAX_FILES || Find(files, name).Some? || !room || Find(files, StoredName(name)).None?
    ensures |name| < MAX_FILENAME ==> Distinct(Created(files, name, content, room))
  {
    FindIsFirst(files, name);
    FindIsFirst(files, StoredName(name));
    if CreateCode(files, name, room) == 0 {
      var files' := Created(files, name, content, room);
      if Named(files, StoredName(name)) {
        var i :| 0 <= i < |files| && files[i].name == StoredName(name);
        assert files'[i].name == files'[|files|].name;
      } else {
        forall i, j | 0 <= i < j < |files'| ensures files'[i].name != files'[j].name {
          assert files'[i] == files[i];
        }
      }
    }
  }

  /** Two long names with the same first 31 characters become one name in the table twice. */
  lemma LongNamesCollide() returns (a: seq<Char>, b: seq<Char>)
    ensures a != b && NUL !in a && NUL !in b
    ensures !Distinct(Created(Created([], a, ['x'], true), b, ['y'], true))
  {
    var stem := seq<Char>(31, _ => 'n');
    a, b := stem + ['1'], stem + ['2'];
    var one := Created([], a, ['x'], true);
    var two := Created(one, b, ['y'], true);
    assert a[31] != b[31];
    assert StoredName(a) == stem && StoredName(b) == stem;
    assert one == [File(stem, ['x'])];
    assert one[1..] == [] && Find(one, b).None?;
    assert two[0].name == two[1].name;
  }

  /** On distinct names of at most 31 characters, creation inserts into the map if absent. */
  lemma CreateInserts(files: seq<File>, name: seq<Char>, content: seq<Char>, room: bool)
    requires |name| < MAX_FILENAME
    ensures AsMap(Created(files, name, content, room)) ==
      if CreateCode(files, name, room) == 0 then AsMap(files)[name := content] else AsMap(files)
    ensures CreateCode(files, name, room) == 0 ==> name !in AsMap(files)
  {
    FindIsFirst(files, name);
    if CreateCode(files, name, room) == 0 {
      var files' := Created(files, name, content, room);
      var m, m' := AsMap(files)[name := content], AsMap(files');
      forall n ensures n in m <==> n in m' {
        FindIsFirst(files, n);
        FindIsFirst(files', n);
        FindAppended(files, File(name, content), n);
      }
      forall n | n in m ensures m[n] == m'[n] {
        FindAppended(files, File(name, content), n);
      }
    }
  }

  /** What was just written is found under its name exactly when the name was not cut. */
  lemma CreatedIsFound(files: seq<File>, name: seq<Char>, content: seq<Char>, room: bool)
    requires CreateCode(files, name, room) == 0
    ensures Find(Created(files, name, content, room), name) == Some(content) <==> |name| < MAX_FILENAME
  {
    FindAppended(files, File(StoredName(name), content), name);
  }

  // ---- Runs ----------------------------------------------------------------------------------

  /** One attempt to create a file, and whether the heap had room for it. */
  datatype Attempt = Attempt(name: seq<Char>, content: seq<Char>, room: bool)

  function CreateAll(files: seq<File>, attempts: seq<Attempt>): seq<File>
    decreases |attempts|
  {
    if attempts == [] then files
    else CreateAll(Created(files, attempts[0].name, attempts[0].content, attempts[0].room), attempts[1..])
  }

  /** A file once found is found with the same content ever after, and the table never overflows. */
  lemma {:induction false} FoundForGood(files: seq<File>, attempts: seq<Attempt>, name: seq<Char>)
    requires |files| <= MAX_FILES
    ensures |CreateAll(files, attempts)| <= MAX_FILES
    ensures Find(files, name).Some? ==> Find(CreateAll(files, attempts), name) == Find(files, name)
    ensures Distinct(files) && (forall a :: a in attempts ==> |a.name| < MAX_FILENAME) ==> Distinct(CreateAll(files, attempts))
    decreases |attempts|
  {
    if attempts != [] {
      var a := attempts[0];
      FindAppended(files, File(StoredName(a.name), a.content), name);
      if Distinct(files) { CreatedDistinct(files, a.name, a.content, a.room); }
      FoundForGood(Created(files, a.name, a.content, a.room), attempts[1..], name);
    }
  }

  // ---- Listing -------------------------------------------------------------------------------

  function Blank(n: int): (t: seq<Char>)
    ensures |t| == if n > 0 then n else 0
  {
    if n <= 0 then [] else Blank(n - 1) + [' ']
  }

  /** One line of the listing. */
  function Row(f: File): seq<Char> {
    f.name + Blank(if |f.name| < MAX_FILENAME then 33 - |f.name| else 1) + Decimal(|f.content|) + ['\n']
  }

  function Rows(files: seq<File>): seq<Char> {
    if files == [] then [] else Rows(files[..|files| - 1]) + Row(files[|files| - 1])
  }

  function Header(): seq<Char> {
    Literal("Name                             Size (Bytes)\n")
    + Literal("---------------------------------------------\n")
  }

  function Listing(files: seq<File>): seq<Char> {
    if files == [] then Literal("No files found.\n") else Header() + Rows(files)
  }

  /** The stored name fills a column of 33 characters and the size after it reads back. */
  lemma RowColumns(f: File)
    requires |f.name| < MAX_FILENAME
    ensures |Row(f)| == 33 + |Decimal(|f.content|)| + 1
    ensures Row(f)[..|f.name|] == f.name && Row(f)[|f.name|..33] == Blank(33 - |f.name|)
    ensures Row(f)[33..|Row(f)| - 1] == Decimal(|f.content|) && Value(10, Row(f)[33..|Row(f)| - 1]) == |f.content|
    ensures Row(f)[|Row(f)| - 1] == '\n' && forall k :: |f.name| <= k < 33 ==> Row(f)[k] == ' '
  {
    DecimalReads(|f.content|);
    BlankIsSpaces(33 - |f.name|);
  }

  lemma {:induction false} BlankIsSpaces(n: int)
    ensures forall k :: 0 <= k < n ==> Blank(n)[k] == ' '
  {
    if n > 0 {
      BlankIsSpaces(n - 1);
    }
  }

  lemma {:induction false} RowsAround(files: seq<File>, i: nat)
    requires i < |files|
    ensures Rows(files) == Rows(files[..i]) + Row(files[i]) + Rows(files[i + 1..])
    decreases |files|
  {
    hide Row;
    var n := |files| - 1;
    var front, rest := files[..n], files[i + 1..];
    if i == n {
      assert rest == [] && Rows(rest) == [];
    } else {
      RowsAround(front, i);
      assert front[..i] == files[..i] && rest[..|rest| - 1] == front[i + 1..] && rest[|rest| - 1] == files[n];
      assert Rows(rest) == Rows(front[i + 1..]) + Row(files[n]);
    }
  }

  /** A listing is its two header lines and then the row of every file, in table order. */
  lemma ListingInOrder(files: seq<File>, i: nat)
    requires i < |files|
    ensures var title, rule := Literal("Name                             Size (Bytes)\n"),
                               Literal("---------------------------------------------\n");
      Listing(files) == title + rule + Rows(files[..i]) + Row(files[i]) + Rows(files[i + 1..])
    ensures Rows([]) == [] && Listing([]) == Literal("No files found.\n")
  {
    hide Row, Rows, Literal;
    RowsAround(files, i);
    NoRows();
  }

  lemma NoRows()
    ensures Rows([]) == []
  {
  }
}
