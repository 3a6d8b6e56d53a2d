/** The memory part of `kernel_main`: physical manager, heap and paging brought up in this order. */
module Boot {
  import opened Words
  import opened Bits
  import opened PhysicalMemory
  import opened KernelHeap
  import opened HeapRuns
  import opened Paging

  /** 1 MB: where the first block handed out lies, and so where the arena starts. */
  const ARENA_BASE: Word := 0x10_0000

  /** The end of the nine blocks that the heap and the page tables take. */
  const BOOT_LIMIT: Word := 0x10_9000

  lemma UsableStart(memSize: Word, n: nat)
    requires 0 < n <= CAPACITY - FIRST_BLOCK
    ensures Range(FIRST_BLOCK, FIRST_BLOCK + n) <= Usable(memSize) <==> memSize >= ARENA_BASE + n * BLOCK_SIZE
    ensures memSize >= ARENA_BASE + BLOCK_SIZE ==> IsLeast(FIRST_BLOCK, Usable(memSize))
    ensures memSize < ARENA_BASE + BLOCK_SIZE ==> Usable(memSize) == {}
  {
    assert Range(FIRST_BLOCK, FIRST_BLOCK + n) <= Usable(memSize) ==> FIRST_BLOCK + n - 1 in Usable(memSize);
    if memSize < ARENA_BASE + BLOCK_SIZE {
      assert forall b :: b !in Usable(memSize);
    }
  }

  /** The nine blocks from 1 MB on are the ones taken exactly when memory reaches past them. */
  lemma NineBlocks(memSize: Word, mid: set<int>, after: set<int>)
    requires LowestTaken(Usable(memSize), mid, 4) && LowestTaken(mid, after, 5)
    ensures memSize >= BOOT_LIMIT <==> Usable(memSize) - after == Range(FIRST_BLOCK, FIRST_BLOCK + 9)
  {
    UsableStart(memSize, 9);
    TakeMore(Usable(memSize), mid, after, 4, 5);
    if memSize >= ARENA_BASE + BLOCK_SIZE {
      TakenContiguous(Usable(memSize), after, FIRST_BLOCK, 9);
    } else {
      assert FIRST_BLOCK in Range(FIRST_BLOCK, FIRST_BLOCK + 9);
    }
  }

  /** Four of them make the arena, the next five are left for the page tables. */
  lemma FourThenFive(memSize: Word, mid: set<int>, after: set<int>)
    requires LowestTaken(Usable(memSize), mid, 4) && LowestTaken(mid, after, 5) && memSize >= BOOT_LIMIT
    ensures |mid| >= 5 && IsLeast(FIRST_BLOCK + 4, mid)
    ensures forall b :: b in mid && b !in after ==> FIRST_BLOCK + 4 <= b < FIRST_BLOCK + 9
  {
    var usable := Usable(memSize);
    UsableStart(memSize, 9);
    NineBlocks(memSize, mid, after);
    SubsetSize(Range(FIRST_BLOCK, FIRST_BLOCK + 9), usable);
    TakenContiguous(usable, mid, FIRST_BLOCK, 4);
    assert Range(FIRST_BLOCK, FIRST_BLOCK + 4) <= Range(FIRST_BLOCK, FIRST_BLOCK + 9);
    forall b | b in mid ensures b >= FIRST_BLOCK + 4 {
      assert b !in usable - mid;
    }
    assert FIRST_BLOCK + 4 in Range(FIRST_BLOCK, FIRST_BLOCK + 9);
    assert FIRST_BLOCK + 4 !in usable - mid;
    forall b | b in mid && b !in after ensures b < FIRST_BLOCK + 9 {
      assert b in usable - after;
    }
  }

  /** Neither low memory nor the arena matters to the map: tasks, stacks and heap blocks lie there. */
  lemma MapSurvives(m: Memory, m': Memory, cr3: Page, tables: seq<Page>)
    requires Built(m, cr3, tables) && |tables| == 4
    requires cr3 >= ARENA_BASE + ARENA && forall p :: p in tables ==> p >= ARENA_BASE + ARENA
    requires SameOutside(m, m', 0, ARENA_BASE + ARENA)
    ensures Built(m', cr3, tables) && IdentityMap(m', cr3)
  {
    BuiltFrame(m, m', cr3, tables, 0, ARENA_BASE + ARENA);
    BuiltIsIdentity(m', cr3, tables);
  }

  /** The heap does not notice changes outside its arena. */
  lemma ArenaKept(m: Memory, m': Memory, pages: seq<Page>, lo: int)
    requires OnlyPages(m, m', pages) && forall p :: p in pages ==> p >= lo + ARENA
    ensures SameOn(m, m', lo, lo + ARENA)
  {
    forall a | 0 <= a < WORD_RANGE && lo <= a < lo + ARENA ensures m[a] == m'[a] {
      assert OffPages(a, pages);
    }
  }

  lemma PagesPlaced(cr3: Page, tables: seq<Page>, usable: set<int>, mid: set<int>, after: set<int>)
    requires IsLeast(FIRST_BLOCK + 4, mid) && IsLeast(cr3 / BLOCK_SIZE, mid) && OwnPages(cr3, tables, mid, after)
    requires forall b :: b in mid && b !in after ==> FIRST_BLOCK + 4 <= b < FIRST_BLOCK + 9
    ensures cr3 == ARENA_BASE + ARENA && forall p :: p in tables ==> cr3 < p < BOOT_LIMIT
    ensures forall p :: p in [cr3] + tables ==> p >= ARENA_BASE + ARENA
  {
    forall p | p in tables ensures cr3 < p < BOOT_LIMIT {
      assert Obtained(p, mid, after);
    }
  }

  method BringHeap(memSize: Word, pmm: Pmm, ram: Ram) returns (heap: Heap)
    requires ram.Valid() && pmm.bitmap.Length == 128 && pmm.bitmap != ram.words
    modifies pmm, pmm.bitmap, ram.words
    ensures pmm.Valid() && heap.ram == ram && fresh(heap) && LowestTaken(Usable(memSize), pmm.free, 4)
    ensures memSize >= BOOT_LIMIT ==>
      heap.Holds(ram.Image()) && heap.heapStart == ARENA_BASE && heap.nodes == Fresh(ARENA_BASE).nodes
  {
    pmm.Init(memSize);
    heap := new Heap(ram);
    heap.Init(pmm);
    if memSize >= BOOT_LIMIT {
      UsableStart(memSize, 9);
      assert heap.heapStart / BLOCK_SIZE == FIRST_BLOCK;
    }
  }

  /**
    Memory of at least 0x109000 bytes is exactly what the boot sequence needs for its nine blocks to
    be the nine from 1 MB on. Then the heap is one free node over four of them, and the page tables
    in the other five map the first 16 MB to themselves.
  */
  method Bring(memSize: Word, pmm: Pmm, ram: Ram) returns (heap: Heap, cr3: Page, ghost tables: seq<Page>)
    requires ram.Valid() && pmm.bitmap.Length == 128 && pmm.bitmap != ram.words
    modifies pmm, pmm.bitmap, ram.words
    ensures pmm.Valid() && heap.ram == ram && fresh(heap)
    ensures memSize >= BOOT_LIMIT <==> Usable(memSize) - pmm.free == Range(FIRST_BLOCK, FIRST_BLOCK + 9)
    ensures memSize >= BOOT_LIMIT ==>
      && heap.Valid() && heap.heapStart == ARENA_BASE && heap.nodes == Fresh(ARENA_BASE).nodes
      && MapBuilt(ram.Image(), cr3, tables)
  {
    heap := BringHeap(memSize, pmm, ram);
    ghost var afterHeap, m := pmm.free, ram.Image();
    cr3, tables := Paging.Init(pmm, ram);
    NineBlocks(memSize, afterHeap, pmm.free);
    if memSize >= BOOT_LIMIT {
      FourThenFive(memSize, afterHeap, pmm.free);
      PagesPlaced(cr3, tables, Usable(memSize), afterHeap, pmm.free);
      ArenaKept(m, ram.Image(), [cr3] + tables, ARENA_BASE);
      heap.HeadersSuffice(m);
    }
  }

  /** The identity map as booted: directory and tables in the five blocks after the arena. */
  ghost predicate MapBuilt(m: Memory, cr3: Page, tables: seq<Page>) {
    && cr3 == ARENA_BASE + ARENA && |tables| == 4 && Built(m, cr3, tables)
    && (forall p :: p in tables ==> cr3 < p < BOOT_LIMIT)
    && IdentityMap(m, cr3)
  }

  /** No legal run of heap calls after booting ever disturbs the identity map. */
  method BringAndRun(memSize: Word, pmm: Pmm, ram: Ram, calls: seq<Call>)
    returns (heap: Heap, cr3: Page, ghost tables: seq<Page>)
    requires ram.Valid() && pmm.bitmap.Length == 128 && pmm.bitmap != ram.words
    requires memSize >= BOOT_LIMIT && LegalRun(Fresh(ARENA_BASE), calls)
    modifies pmm, pmm.bitmap, ram.words
    ensures heap.Valid() && heap.nodes == Run(Fresh(ARENA_BASE), calls).nodes
    ensures MapBuilt(ram.Image(), cr3, tables)
  {
    heap, cr3, tables := Bring(memSize, pmm, ram);
    FreshSound(ARENA_BASE);
    ghost var m := ram.Image();
    Perform(heap, Fresh(ARENA_BASE), calls);
    MapSurvives(m, ram.Image(), cr3, tables);
  }
}
