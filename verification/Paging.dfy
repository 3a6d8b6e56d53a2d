/** The two-level page table: what `paging_init` writes, and what the processor reads out of it. */
module Paging {
  import opened Words
  import opened Bits
  import opened PhysicalMemory

  const PRESENT: nat := 0
  const WRITABLE: nat := 1

  const ENTRIES: int := 1024
  const REGION: int := 0x40_0000
  const MAPPED: int := 0x100_0000

  /** The address of a 4 KB page frame. */
  type Page = a: Word | a % 4096 == 0

  // ---- The hardware walk (Intel SDM Vol. 3A, section 4.3, 32-bit paging, 4 KB pages) ------------

  datatype Mapping = Mapping(physical: Word, writable: bool)

  /** Entry `i` of the directory or table that fills the page at `base`. */
  ghost function Entry(m: Memory, base: Page, i: int): Word
    requires 0 <= i < ENTRIES
  {
    m[base + 4 * i]
  }

  /** The frame address in an entry: bits 31..12. */
  function Frame(entry: Word): Page {
    entry / BLOCK_SIZE * BLOCK_SIZE
  }

  /** Translation of `v` under the page directory at `cr3`, or None for a page fault. */
  ghost function Walk(m: Memory, cr3: Page, v: Word): Option<Mapping> {
    var pde := Entry(m, cr3, v / REGION);
    if !Bit(pde, PRESENT) then None else
    var pte := Entry(m, Frame(pde), v / BLOCK_SIZE % ENTRIES);
    if !Bit(pte, PRESENT) then None
    else Some(Mapping(Frame(pte) + v % BLOCK_SIZE, Bit(pde, WRITABLE) && Bit(pte, WRITABLE)))
  }

  /** Every address below 16 MB is mapped to itself, writable; every other one faults. */
  ghost predicate IdentityMap(m: Memory, cr3: Page) {
    forall v: Word :: Walk(m, cr3, v) == if v < MAPPED then Some(Mapping(v, true)) else None
  }

  // ---- The tables in memory ------------------------------------------------------------------

  /** The entry that maps the page at `address`, present and writable. */
  function Flagged(address: Page): Word {
    address + 3
  }

  /** `address | PAGE_PRESENT | PAGE_RW` is that entry: the low bits of a page address are clear. */
  lemma FlagsAreLowBits(address: Page)
    ensures WithBit(WithBit(address, PRESENT), WRITABLE) == Flagged(address)
  {
    var a1 := WithBit(address, PRESENT);
    assert a1 == address + 1;
    assert WithBit(a1, WRITABLE) == 2 * WithBit(a1 / 2, 0) + a1 % 2;
  }

  lemma FlaggedParts(address: Page)
    ensures Bit(Flagged(address), PRESENT) && Bit(Flagged(address), WRITABLE) && Frame(Flagged(address)) == address
  {
    var k, entry := address / 4096, address + 3;
    assert entry == 4096 * k + 3;
    assert entry % 2 == 1 && entry / 2 == 2048 * k + 1 && entry / 4096 == k;
    assert Bit(entry, WRITABLE) == Bit(entry / 2, 0);
  }

  /** Page `i` of region `t`. */
  function PageAt(t: int, i: int): Page
    requires 0 <= t < 4 && 0 <= i < ENTRIES
  {
    t * 4 * 1024 * 1024 + i * 0x1000
  }

  /** The first `n` entries of the table for region `t` map their pages to themselves. */
  ghost predicate TableFilled(m: Memory, table: Page, t: int, n: int)
    requires 0 <= t < 4 && n <= ENTRIES
  {
    forall i :: 0 <= i < n ==> Entry(m, table, i) == Flagged(PageAt(t, i))
  }

  /** The directory points to the given tables; its other entries are not present. */
  ghost predicate DirectoryFilled(m: Memory, directory: Page, tables: seq<Page>) {
    forall i :: 0 <= i < ENTRIES ==>
      Entry(m, directory, i) == if i < |tables| then Flagged(tables[i]) else 2
  }

  /** Directory and tables agree; the map is complete once there are four tables. */
  ghost predicate Built(m: Memory, directory: Page, tables: seq<Page>) {
    && |tables| <= 4 && DirectoryFilled(m, directory, tables)
    && forall t :: 0 <= t < |tables| ==> TableFilled(m, tables[t], t, ENTRIES)
  }

  lemma NotPresent()
    ensures !Bit(2, PRESENT)
  {
  }

  lemma BuiltIsIdentity(m: Memory, directory: Page, tables: seq<Page>)
    requires Built(m, directory, tables) && |tables| == 4
    ensures IdentityMap(m, directory)
  {
    forall v: Word
      ensures Walk(m, directory, v) == if v < MAPPED then Some(Mapping(v, true)) else None
    {
      var d, i := v / REGION, v / BLOCK_SIZE % ENTRIES;
      NotPresent();
      if v < MAPPED {
        var pde := Entry(m, directory, d);
        assert pde == Flagged(tables[d]);
        FlaggedParts(tables[d]);
        assert TableFilled(m, tables[d], d, ENTRIES);
        var pte := Entry(m, tables[d], i);
        assert pte == Flagged(PageAt(d, i));
        FlaggedParts(PageAt(d, i));
        SplitAddress(v);
      }
    }
  }

  lemma SplitAddress(v: Word)
    requires v < MAPPED
    ensures PageAt(v / REGION, v / BLOCK_SIZE % ENTRIES) + v % BLOCK_SIZE == v
  {
    assert v / BLOCK_SIZE / ENTRIES == v / REGION;
  }

  /** The map word by word: four tables of 1024 entries, and the rest of the directory not present. */
  lemma BuiltWords(m: Memory, directory: Page, tables: seq<Page>, d: int, i: int)
    requires Built(m, directory, tables) && |tables| == 4 && 0 <= d < 1024 && 0 <= i < 1024
    ensures d >= 4 ==> Entry(m, directory, d) == 2
    ensures d < 4 ==> Entry(m, directory, d) == tables[d] as int + 3
    ensures d < 4 ==> Entry(m, tables[d], i) == 0x40_0000 * d + 0x1000 * i + 3
  {
    hide Entry;
    if d < 4 { assert TableFilled(m, tables[d], d, ENTRIES); }
  }

  /** What the processor then does with every address. */
  lemma SixteenMegabytes(m: Memory, directory: Page, tables: seq<Page>, v: Word)
    requires Built(m, directory, tables) && |tables| == 4
    ensures v < 0x100_0000 ==> Walk(m, directory, v) == Some(Mapping(v, true))
    ensures v >= 0x100_0000 ==> Walk(m, directory, v) == None
  {
    BuiltIsIdentity(m, directory, tables);
  }

  lemma EntryWritten(m: Memory, m': Memory, base: Page, i: int, v: Word)
    requires 0 <= i < ENTRIES && m' == m[base + 4 * i := v]
    ensures forall k :: 0 <= k < ENTRIES ==> Entry(m', base, k) == if k == i then v else Entry(m, base, k)
    ensures SameOutside(m, m', base, base + BLOCK_SIZE)
  {
  }

  /** The page and the byte range share no byte. */
  predicate PagesApart(a: Page, lo: int, hi: int) {
    a + BLOCK_SIZE <= lo || hi <= a
  }

  lemma SameEntries(m: Memory, m': Memory, base: Page, lo: int, hi: int)
    requires SameOutside(m, m', lo, hi) && PagesApart(base, lo, hi)
    ensures forall i :: 0 <= i < ENTRIES ==> Entry(m', base, i) == Entry(m, base, i)
  {
    forall i | 0 <= i < ENTRIES ensures Entry(m', base, i) == Entry(m, base, i) {
      assert base <= base + 4 * i < base + BLOCK_SIZE;
    }
  }

  /** The map lives in its five pages: changes elsewhere do not touch it. */
  lemma BuiltFrame(m: Memory, m': Memory, directory: Page, tables: seq<Page>, lo: int, hi: int)
    requires Built(m, directory, tables) && SameOutside(m, m', lo, hi)
    requires PagesApart(directory, lo, hi) && forall p :: p in tables ==> PagesApart(p, lo, hi)
    ensures Built(m', directory, tables)
  {
    forall t | 0 <= t < |tables| ensures TableFilled(m', tables[t], t, ENTRIES) {
      assert tables[t] in tables && TableFilled(m, tables[t], t, ENTRIES);
      SameEntries(m, m', tables[t], lo, hi);
    }
    SameEntries(m, m', directory, lo, hi);
  }

  // ---- paging_init ---------------------------------------------------------------------------

  /** `address | PAGE_PRESENT | PAGE_RW`. */
  method SetFlags(address: Page) returns (entry: Word)
    ensures entry == Flagged(address)
  {
    FlagsAreLowBits(address);
    entry := WithBit(WithBit(address, PRESENT), WRITABLE);
  }

  lemma FilledOneMore(m: Memory, m': Memory, table: Page, t: int, i: int)
    requires 0 <= t < 4 && 0 <= i < ENTRIES && TableFilled(m, table, t, i)
    requires m' == m[table + 4 * i := Flagged(PageAt(t, i))]
    ensures TableFilled(m', table, t, i + 1) && SameOutside(m, m', table, table + BLOCK_SIZE)
  {
    hide Entry, PageAt, Flagged;
    EntryWritten(m, m', table, i, Flagged(PageAt(t, i)));
  }

  method FillTable(ram: Ram, table: Page, t: int)
    requires ram.Valid() && 0 <= t < 4
    modifies ram.words
    ensures TableFilled(ram.Image(), table, t, ENTRIES)
    ensures SameOutside(old(ram.Image()), ram.Image(), table, table + BLOCK_SIZE)
  {
    var i := 0;
    assert TableFilled(ram.Image(), table, t, i);
    hide TableFilled, PageAt, Flagged;
    while i < 1024
      invariant 0 <= i <= ENTRIES && TableFilled(ram.Image(), table, t, i)
      invariant SameOutside(old(ram.Image()), ram.Image(), table, table + BLOCK_SIZE)
    {
      var entry := SetFlags(PageAt(t, i));
      ghost var m := ram.Image();
      ram.Write(table + 4 * i, entry);
      FilledOneMore(m, ram.Image(), table, t, i);
      i := i + 1;
    }
  }

  ghost predicate Cleared(m: Memory, directory: Page, n: int)
    requires n <= ENTRIES
  {
    forall i :: 0 <= i < n ==> Entry(m, directory, i) == 2
  }

  method ClearDirectory(ram: Ram, directory: Page)
    requires ram.Valid()
    modifies ram.words
    ensures Built(ram.Image(), directory, [])
    ensures SameOutside(old(ram.Image()), ram.Image(), directory, directory + BLOCK_SIZE)
  {
    var i := 0;
    while i < 1024
      invariant 0 <= i <= ENTRIES && Cleared(ram.Image(), directory, i)
      invariant SameOutside(old(ram.Image()), ram.Image(), directory, directory + BLOCK_SIZE)
    {
      ghost var m := ram.Image();
      ram.Write(directory + 4 * i, 0x0000_0002);
      EntryWritten(m, ram.Image(), directory, i, 2);
      i := i + 1;
    }
  }

  lemma DirectoryExtended(m: Memory, m': Memory, directory: Page, tables: seq<Page>, p: Page)
    requires DirectoryFilled(m, directory, tables) && |tables| < 4
    requires m' == m[directory + 4 * |tables| := Flagged(p)]
    ensures DirectoryFilled(m', directory, tables + [p])
  {
    EntryWritten(m, m', directory, |tables|, Flagged(p));
  }

  /** Filling a further table and then its directory entry extends the map by one region. */
  lemma TableAdded(m: Memory, m1: Memory, m2: Memory, directory: Page, tables: seq<Page>, p: Page)
    requires Built(m, directory, tables) && |tables| < 4
    requires p != directory && p !in tables && directory !in tables
    requires SameOutside(m, m1, p, p + BLOCK_SIZE) && TableFilled(m1, p, |tables|, ENTRIES)
    requires m2 == m1[directory + 4 * |tables| := Flagged(p)]
    ensures Built(m2, directory, tables + [p])
  {
    hide Entry, PageAt, Flagged;
    BuiltFrame(m, m1, directory, tables, p, p + BLOCK_SIZE);
    DirectoryExtended(m1, m2, directory, tables, p);
    var all := tables + [p];
    forall j | 0 <= j < |all| ensures TableFilled(m2, all[j], j, ENTRIES) {
      assert all[j] in all && TableFilled(m1, all[j], j, ENTRIES);
      SameEntries(m1, m2, all[j], directory, directory + BLOCK_SIZE);
    }
  }

  /** The page was free before and is not any more. */
  ghost predicate Obtained(p: Page, before: set<int>, after: set<int>) {
    p / BLOCK_SIZE in before && p / BLOCK_SIZE !in after
  }

  ghost predicate OffPages(a: int, pages: seq<Page>) {
    forall p :: p in pages ==> !(p <= a < p + BLOCK_SIZE)
  }

  /** Nothing outside these pages has changed. */
  ghost predicate OnlyPages(m: Memory, m': Memory, pages: seq<Page>) {
    forall a :: 0 <= a < WORD_RANGE && OffPages(a, pages) ==> m[a] == m'[a]
  }

  lemma OnePageMore(m: Memory, m1: Memory, m2: Memory, pages: seq<Page>, pages': seq<Page>, p: Page)
    requires OnlyPages(m, m1, pages) && SameOutside(m1, m2, p, p + BLOCK_SIZE)
    requires p in pages' && forall q :: q in pages ==> q in pages'
    ensures OnlyPages(m, m2, pages')
  {
    forall a | 0 <= a < WORD_RANGE && OffPages(a, pages') ensures m[a] == m2[a] {
      assert OffPages(a, pages);
    }
  }

  /** All pages of the map were obtained by this run, and no two of them are the same. */
  ghost predicate OwnPages(directory: Page, tables: seq<Page>, before: set<int>, after: set<int>) {
    && directory !in tables && Obtained(directory, before, after)
    && forall p :: p in tables ==> Obtained(p, before, after)
  }

  /** One round of the loop: a new table for region |tables|, entered into the directory. */
  method MapRegion(pmm: Pmm, ram: Ram, directory: Page, t: int, ghost tables: seq<Page>, ghost before: set<int>)
    returns (table: Page)
    requires ram.Valid() && pmm.Valid() && pmm.bitmap != ram.words && 0 <= t == |tables| < 4
    modifies ram.words, pmm`free, pmm`usedBlocks, pmm.bitmap
    ensures pmm.Valid()
    ensures if old(pmm.free) == {} then pmm.free == {} else exists b :: IsLeast(b, old(pmm.free)) && pmm.free == old(pmm.free) - {b}
    ensures old(pmm.free) != {} && old(pmm.free) <= before && OwnPages(directory, tables, before, old(pmm.free)) ==>
      && OwnPages(directory, tables + [table], before, pmm.free)
      && (old(Built(ram.Image(), directory, tables)) ==> Built(ram.Image(), directory, tables + [table]))
    ensures OnlyPages(old(ram.Image()), ram.Image(), [directory, table])
  {
    table := pmm.AllocBlock();
    FillTable(ram, table, t);
    ghost var m1 := ram.Image();
    var entry := SetFlags(table);
    ram.Write(directory + 4 * t, entry);
    if old(Built(ram.Image(), directory, tables)) && old(pmm.free) != {} && old(pmm.free) <= before
       && OwnPages(directory, tables, before, old(pmm.free)) {
      TableAdded(old(ram.Image()), m1, ram.Image(), directory, tables, table);
    }
    OnePageMore(old(ram.Image()), old(ram.Image()), m1, [], [directory, table], table);
    OnePageMore(old(ram.Image()), m1, ram.Image(), [directory, table], [directory, table], directory);
  }

  /**
    `paging_init`: with five free blocks it builds the identity map in blocks of its own and returns
    the directory that is loaded into CR3.
  */
  method Init(pmm: Pmm, ram: Ram) returns (directory: Page, ghost tables: seq<Page>)
    requires ram.Valid() && pmm.Valid() && pmm.bitmap != ram.words
    modifies ram.words, pmm`free, pmm`usedBlocks, pmm.bitmap
    ensures pmm.Valid() && LowestTaken(old(pmm.free), pmm.free, 5)
    ensures |old(pmm.free)| >= 5 ==>
      && |tables| == 4 && OwnPages(directory, tables, old(pmm.free), pmm.free)
      && Built(ram.Image(), directory, tables) && IdentityMap(ram.Image(), directory)
    ensures old(pmm.free) != {} ==> IsLeast(directory / BLOCK_SIZE, old(pmm.free))
    ensures OnlyPages(old(ram.Image()), ram.Image(), [directory] + tables)
  {
    var block := pmm.AllocBlock();
    TakeOneMore(old(pmm.free), old(pmm.free), pmm.free, 0);
    directory, tables := block, [];
    ClearDirectory(ram, directory);
    assert [directory] + tables == [directory];
    OnePageMore(old(ram.Image()), old(ram.Image()), ram.Image(), [], [directory], directory);
    ghost var enough := |old(pmm.free)| >= 5;
    var t := 0;
    while t < 4
      invariant 0 <= t <= 4 && |tables| == t && pmm.Valid() && LowestTaken(old(pmm.free), pmm.free, t + 1)
      invariant enough ==>
        OwnPages(directory, tables, old(pmm.free), pmm.free) && Built(ram.Image(), directory, tables)
      invariant OnlyPages(old(ram.Image()), ram.Image(), [directory] + tables)
    {
      ghost var mid, m := pmm.free, ram.Image();
      var table := MapRegion(pmm, ram, directory, t, tables, old(pmm.free));
      TakeOneMore(old(pmm.free), mid, pmm.free, t + 1);
      PagesMore(old(ram.Image()), m, ram.Image(), directory, tables, table);
      tables := tables + [table];
      t := t + 1;
    }
    if enough { BuiltIsIdentity(ram.Image(), directory, tables); }
  }

  lemma PagesMore(m: Memory, m1: Memory, m2: Memory, directory: Page, tables: seq<Page>, table: Page)
    requires OnlyPages(m, m1, [directory] + tables) && OnlyPages(m1, m2, [directory, table])
    ensures OnlyPages(m, m2, [directory] + (tables + [table]))
  {
    var pages := [directory] + (tables + [table]);
    assert forall p :: p in [directory] + tables ==> p in pages;
    assert forall p :: p in [directory, table] ==> p == directory || p == table;
    assert directory in pages && table in pages;
    forall a | 0 <= a < WORD_RANGE && OffPages(a, pages) ensures m[a] == m2[a] {
      assert OffPages(a, [directory] + tables);
      assert OffPages(a, [directory, table]);
    }
  }
}
