/** The kernel heap in memory: `kmalloc` and `kfree` over headers embedded in the arena they manage. */
module KernelHeap {
  import opened Words
  import opened HeapList
  import opened HeapRelease
  import opened PhysicalMemory

  /** Four 4 KB blocks. */
  const ARENA: int := 16384

  /** The three header words of a node: payload size, free flag and next pointer. */
  ghost predicate HeaderAt(m: Memory, n: Node, next: int) {
    && 0 <= n.addr && n.addr % 4 == 0 && n.addr + HEADER <= WORD_RANGE
    && m[n.addr] == n.size
    && m[n.addr + 4] == (if n.free then 1 else 0)
    && m[n.addr + 8] == next
  }

  /** Memory holds the list `ns`, and the last node points to `last`. */
  ghost predicate Linked(m: Memory, ns: seq<Node>, last: int) {
    ns == [] || (HeaderAt(m, ns[0], StartOf(ns, 1, last)) && Linked(m, ns[1..], last))
  }

  /** No word of any of these blocks differs between the two images. */
  ghost predicate PayloadsKept(m: Memory, m': Memory, blocks: seq<Node>) {
    forall n :: n in blocks ==> SameOn(m, m', n.Payload(), n.End())
  }

  lemma {:induction false} LinkedAt(m: Memory, ns: seq<Node>, last: int, i: nat)
    requires Linked(m, ns, last) && i < |ns|
    ensures HeaderAt(m, ns[i], StartOf(ns, i + 1, last))
  {
    if i > 0 {
      var tail := ns[1..];
      assert tail[i - 1] == ns[i] && StartOf(tail, i, last) == StartOf(ns, i + 1, last);
      LinkedAt(m, tail, last, i - 1);
    }
  }

  lemma {:induction false} LinkedFrame(m: Memory, m': Memory, ns: seq<Node>, last: int, lo: int, hi: int)
    requires Linked(m, ns, last) && Tiles(ns, lo, hi) && SameOn(m, m', lo, hi)
    ensures Linked(m', ns, last)
  {
    if ns != [] {
      TilesBounds(ns[1..], ns[0].End(), hi);
      LinkedFrame(m, m', ns[1..], last, ns[0].End(), hi);
    }
  }

  /** The headers of these nodes are the same in both images. */
  ghost predicate HeadersKept(m: Memory, m': Memory, ns: seq<Node>) {
    forall n :: n in ns ==> SameOn(m, m', n.addr, n.Payload())
  }

  lemma {:induction false} LinkedHeaders(m: Memory, m': Memory, ns: seq<Node>, last: int)
    requires Linked(m, ns, last) && HeadersKept(m, m', ns)
    ensures Linked(m', ns, last)
  {
    if ns != [] {
      LinkedHeaders(m, m', ns[1..], last);
    }
  }

  lemma {:induction false} LinkedConcat(m: Memory, a: seq<Node>, b: seq<Node>, last: int)
    ensures Linked(m, a + b, last) <==> Linked(m, a, StartOf(b, 0, last)) && Linked(m, b, last)
  {
    if a == [] {
      assert a + b == b;
    } else {
      var ab, rest := a + b, a[1..];
      assert ab[0] == a[0] && ab[1..] == rest + b;
      assert StartOf(ab, 1, last) == StartOf(a, 1, StartOf(b, 0, last));
      LinkedConcat(m, rest, b, last);
    }
  }

  /** Rewriting the headers of some neighbouring nodes leaves the rest of the list in place. */
  lemma LinkedReplace(m: Memory, m': Memory, ns: seq<Node>, lo: int, hi: int, i: nat, j: nat, mid: seq<Node>)
    requires Tiles(ns, lo, hi) && Linked(m, ns, 0) && i < j <= |ns|
    requires mid != [] && mid[0].addr == ns[i].addr && Linked(m', mid, StartOf(ns, j, 0))
    requires SameOutside(m, m', ns[i].addr, StartOf(ns, j, hi))
    ensures Linked(m', Replace(ns, i, j, mid), 0)
  {
    var a, those, b := ns[..i], ns[i..j], ns[j..];
    assert ns == a + those + b && StartOf(b, 0, 0) == StartOf(ns, j, 0);
    TilesSplit(ns, lo, hi, i);
    TilesSplit(ns, lo, hi, j);
    LinkedConcat(m, a + those, b, 0);
    LinkedConcat(m, a, those, StartOf(b, 0, 0));
    LinkedFrame(m, m', a, ns[i].addr, lo, ns[i].addr);
    LinkedFrame(m, m', b, 0, StartOf(ns, j, hi), hi);
    LinkedConcat(m', a, mid, StartOf(b, 0, 0));
    LinkedConcat(m', a + mid, b, 0);
  }

  /** Writing inside a free node touches no live payload. */
  lemma FreeNodeApart(m: Memory, m': Memory, ns: seq<Node>, lo: int, hi: int, i: nat)
    requires Tiles(ns, lo, hi) && i < |ns| && ns[i].free
    requires SameOutside(m, m', ns[i].addr, ns[i].End())
    ensures PayloadsKept(m, m', Live(ns)) && SameOutside(m, m', lo, hi)
  {
    TilesAt(ns, lo, hi, i);
    forall n | n in Live(ns) ensures SameOn(m, m', n.Payload(), n.End()) {
      LiveApart(ns, lo, hi, i, n);
    }
  }

  /** A live block and a free node share no byte. */
  lemma LiveApart(ns: seq<Node>, lo: int, hi: int, i: nat, n: Node)
    requires Tiles(ns, lo, hi) && i < |ns| && ns[i].free && n in Live(ns)
    ensures n.End() <= ns[i].addr || ns[i].End() <= n.addr
  {
    LiveIndex(ns, n);
    var j :| 0 <= j < |ns| && ns[j] == n && !n.free;
    if j < i { TilesOrder(ns, lo, hi, j, i); } else { TilesOrder(ns, lo, hi, i, j); }
  }

  lemma CarvedHeaders(m: Memory, n: Node, size: int, next: int)
    requires 0 <= n.addr && n.addr % 4 == 0 && n.End() < WORD_RANGE
    requires Fits(n, size) && size >= 0 && size % 4 == 0
    requires m[n.addr + 4] == 0
    requires |Carve(n, size)| == 1 ==> HeaderAt(m, n.(free := false), next)
    requires |Carve(n, size)| == 2 ==> var rest := Carve(n, size)[1];
      m[n.addr] == size && m[n.addr + 8] == rest.addr && HeaderAt(m, rest, next)
    ensures Linked(m, Carve(n, size), next)
  {
    var c := Carve(n, size);
    assert StartOf(c, 1, next) == if |c| == 2 then c[1].addr else next;
    if |c| == 2 {
      assert c[1..] == [c[1]] && [c[1]][1..] == [];
    } else {
      assert c[1..] == [];
    }
  }

  /** Carving node `i` in memory is carving it in the list. */
  lemma Carved(m: Memory, m': Memory, ns: seq<Node>, lo: int, hi: int, i: nat, size: int)
    requires Tidy(ns, lo, hi) && Linked(m, ns, 0)
    requires i < |ns| && Fits(ns[i], size) && size >= 0 && size % 4 == 0
    requires SameOutside(m, m', ns[i].addr, ns[i].End())
    requires Linked(m', Carve(ns[i], size), StartOf(ns, i + 1, 0))
    ensures Tidy(CarveAt(ns, i, size), lo, hi) && Linked(m', CarveAt(ns, i, size), 0)
    ensures PayloadsKept(m, m', Live(ns)) && SameOutside(m, m', lo, hi)
  {
    TilesAt(ns, lo, hi, i);
    FreeNodeApart(m, m', ns, lo, hi, i);
    CarveAtTidy(ns, lo, hi, i, size);
    LinkedReplace(m, m', ns, lo, hi, i, i + 1, Carve(ns[i], size));
  }

  /** Replacing nodes i..j by one free node over the same bytes, rewriting only the first header. */
  lemma Rewritten(m: Memory, m': Memory, ns: seq<Node>, lo: int, hi: int, i: nat, j: nat, x: Node)
    requires Tiles(ns, lo, hi) && Linked(m, ns, 0) && i < j <= |ns|
    requires x.free && x.addr == ns[i].addr && x.size >= 0 && x.size % 4 == 0 && x.End() == StartOf(ns, j, hi)
    requires SameOutside(m, m', x.addr, x.addr + HEADER) && HeaderAt(m', x, StartOf(ns, j, 0))
    ensures var ns' := Replace(ns, i, j, [x]);
      && Tiles(ns', lo, hi) && Linked(m', ns', 0)
      && PayloadsKept(m, m', Live(ns')) && SameOutside(m, m', lo, hi)
  {
    var ns' := Replace(ns, i, j, [x]);
    assert ns'[i] == x && [x][1..] == [];
    ReplaceTiles(ns, lo, hi, i, j, [x]);
    TilesAt(ns', lo, hi, i);
    SpanBounds(ns, lo, hi, i, j);
    LinkedReplace(m, m', ns, lo, hi, i, j, [x]);
    FreeNodeApart(m, m', ns', lo, hi, i);
  }

  /** The `next` field of node `i`, on a word boundary. */
  lemma NextField(m: Memory, ns: seq<Node>, lo: int, hi: int, i: nat)
    requires Tiles(ns, lo, hi) && Linked(m, ns, 0) && i < |ns| && 0 < lo && lo % 4 == 0 && hi < WORD_RANGE
    ensures 0 < ns[i].addr && ns[i].addr % 4 == 0 && ns[i].addr + 8 < WORD_RANGE
    ensures m[ns[i].addr + 8] == if i + 1 < |ns| then ns[i + 1].addr else 0
    ensures i + 1 < |ns| ==> ns[i + 1].addr > 0
  {
    LinkedAt(m, ns, 0, i);
    TilesAt(ns, lo, hi, i);
    if i + 1 < |ns| { TilesAt(ns, lo, hi, i + 1); }
  }

  /** The headers of two neighbours, and the room they take together. */
  lemma PairInMemory(m: Memory, ns: seq<Node>, lo: int, hi: int, i: nat)
    requires Tiles(ns, lo, hi) && Linked(m, ns, 0) && i + 1 < |ns| && lo >= 0 && hi < WORD_RANGE
    ensures HeaderAt(m, ns[i], ns[i + 1].addr) && HeaderAt(m, ns[i + 1], StartOf(ns, i + 2, 0))
    ensures var merged := Merge(ns[i], ns[i + 1]);
      && lo <= merged.addr && merged.End() == StartOf(ns, i + 2, hi) <= hi
      && ns[i].size >= 0 && ns[i + 1].size >= 0 && merged.size % 4 == 0
      && ns[i + 1].addr == ns[i].End()
  {
    MergeShape(ns, lo, hi, i);
    LinkedAt(m, ns, 0, i);
    LinkedAt(m, ns, 0, i + 1);
  }

  /** The header before a live pointer. */
  lemma NodeBefore(m: Memory, ns: seq<Node>, lo: int, hi: int, ptr: int) returns (k: nat)
    requires Tiles(ns, lo, hi) && Linked(m, ns, 0) && lo >= 0 && hi < WORD_RANGE
    requires exists n :: n in Live(ns) && n.Payload() == ptr
    ensures k < |ns| && ns[k].Payload() == ptr && !ns[k].free && lo <= ns[k].addr && ns[k].addr % 4 == lo % 4
    ensures ns[k].size >= 0 && ns[k].size % 4 == 0 && ns[k].End() == StartOf(ns, k + 1, hi) <= hi
    ensures HeaderAt(m, ns[k], StartOf(ns, k + 1, 0)) && Mark(ns, ptr) == Replace(ns, k, k + 1, [ns[k].(free := true)])
  {
    var n :| n in Live(ns) && n.Payload() == ptr;
    LiveIndex(ns, n);
    k :| 0 <= k < |ns| && ns[k] == n && !n.free;
    LinkedAt(m, ns, 0, k);
    TilesAt(ns, lo, hi, k);
    MarkAt(ns, lo, hi, k);
  }

  lemma SpanBounds(ns: seq<Node>, lo: int, hi: int, i: nat, j: nat)
    requires Tiles(ns, lo, hi) && i < j <= |ns|
    ensures lo <= ns[i].addr && ns[i].End() <= StartOf(ns, j, hi) <= hi
  {
    TilesAt(ns, lo, hi, i);
    if j < |ns| {
      TilesAt(ns, lo, hi, j);
      TilesOrder(ns, lo, hi, i, j);
    }
  }

  class Heap {
    const ram: Ram
    var heapStart: Word
    ghost var nodes: seq<Node>

    /** The list tiles the arena and memory holds it. */
    ghost predicate WellFormed()
      reads this, ram.words
    {
      && ram.Valid()
      && 0 < heapStart && heapStart % 4 == 0 && heapStart + ARENA < WORD_RANGE
      && Tiles(nodes, heapStart, heapStart + ARENA)
      && Linked(ram.Image(), nodes, 0)
    }

    ghost predicate Valid()
      reads this, ram.words
    {
      WellFormed() && NoAdjacentFree(nodes)
    }

    /** The invariant with memory as in `m`. */
    ghost predicate Holds(m: Memory)
      reads this
    {
      && ram.Valid()
      && 0 < heapStart && heapStart % 4 == 0 && heapStart + ARENA < WORD_RANGE
      && Tidy(nodes, heapStart, heapStart + ARENA) && Linked(m, nodes, 0)
    }

    /** Writes that spare the headers keep the invariant. */
    lemma HeadersSuffice(m: Memory)
      requires Holds(m) && HeadersKept(m, ram.Image(), nodes)
      ensures Valid()
    {
      LinkedHeaders(m, ram.Image(), nodes, 0);
    }

    ghost function Limit(): int
      reads this
    {
      heapStart + ARENA
    }

    constructor (ram: Ram)
      requires ram.Valid()
      ensures this.ram == ram && heapStart == 0
    {
      this.ram := ram;
      heapStart := 0;
      nodes := [];
    }

    // The fields of node `i`, read through its address.

    method SizeOf(ghost i: nat, node: Word) returns (size: Word)
      requires WellFormed() && i < |nodes| && node == nodes[i].addr
      ensures size == nodes[i].size
    {
      LinkedAt(ram.Image(), nodes, 0, i);
      size := ram.Read(node);
    }

    method IsFree(ghost i: nat, node: Word) returns (free: bool)
      requires WellFormed() && i < |nodes| && node == nodes[i].addr
      ensures free == nodes[i].free
    {
      LinkedAt(ram.Image(), nodes, 0, i);
      TilesAt(nodes, heapStart, Limit(), i);
      var flag := ram.Read(node + 4);
      free := flag != 0;
    }

    method NextOf(ghost i: nat, node: Word) returns (next: Word)
      requires WellFormed() && i < |nodes| && node == nodes[i].addr
      ensures At(i, node, next)
    {
      hide Tiles, Linked;
      NextField(ram.Image(), nodes, heapStart, Limit(), i);
      next := ram.Read(node + 8);
    }

    /** Cuts a free node in two: its first `size` bytes of payload, and a new free node after them. */
    method Split(ghost n: Node, ghost next: int, current: Word, size: Word)
      requires ram.Valid() && current == n.addr && n.End() < WORD_RANGE && HeaderAt(ram.Image(), n, next)
      requires n.size >= size + HEADER + MIN_SPLIT && size % 4 == 0
      modifies ram.words
      ensures var rest := Node(n.addr + HEADER + size, n.size - size - HEADER, true);
        HeaderAt(ram.Image(), Node(n.addr, size, n.free), rest.addr) && HeaderAt(ram.Image(), rest, next)
      ensures SameOutside(old(ram.Image()), ram.Image(), n.addr, n.End())
    {
      var available := ram.Read(current);
      var newNode: Word := current + HEADER + size;
      ram.Write(newNode, available - size - HEADER);
      ram.Write(newNode + 4, 1);
      var following := ram.Read(current + 8);
      ram.Write(newNode + 8, following);
      ram.Write(current, size);
      ram.Write(current + 8, newNode);
    }

    /** The header writes of a successful allocation: split when worth it, then mark the node used. */
    method Grant(ghost n: Node, ghost next: int, current: Word, size: Word)
      requires ram.Valid() && current == n.addr && n.End() < WORD_RANGE && HeaderAt(ram.Image(), n, next)
      requires Fits(n, size) && size % 4 == 0 && n.size % 4 == 0
      modifies ram.words
      ensures Linked(ram.Image(), Carve(n, size), next)
      ensures SameOutside(old(ram.Image()), ram.Image(), n.addr, n.End())
    {
      var available := ram.Read(current);
      if available >= size + HEADER + MIN_SPLIT {
        Split(n, next, current, size);
      }
      ram.Write(current + 4, 0);
      CarvedHeaders(ram.Image(), n, size, next);
    }

    /** Hands out node `i`. */
    method Take(ghost i: nat, current: Word, size: Word)
      requires Valid() && i < |nodes| && current == nodes[i].addr && Fits(nodes[i], size) && size % 4 == 0
      modifies `nodes, ram.words
      ensures Valid() && nodes == CarveAt(old(nodes), i, size)
      ensures PayloadsKept(old(ram.Image()), ram.Image(), Live(old(nodes)))
      ensures SameOutside(old(ram.Image()), ram.Image(), heapStart, Limit())
    {
      LinkedAt(ram.Image(), nodes, 0, i);
      TilesAt(nodes, heapStart, Limit(), i);
      Grant(nodes[i], StartOf(nodes, i + 1, 0), current, size);
      Carved(old(ram.Image()), ram.Image(), nodes, heapStart, Limit(), i, size);
      nodes := CarveAt(nodes, i, size);
    }

    method TakeFour(pmm: Pmm) returns (first: Word)
      requires pmm.Valid()
      modifies pmm`free, pmm`usedBlocks, pmm.bitmap
      ensures pmm.Valid() && LowestTaken(old(pmm.free), pmm.free, 4)
      ensures old(pmm.free) == {} ==> first == 0
      ensures old(pmm.free) != {} ==> IsLeast(first / BLOCK_SIZE, old(pmm.free)) && first % BLOCK_SIZE == 0
    {
      first := pmm.AllocBlock();
      TakeOneMore(old(pmm.free), old(pmm.free), pmm.free, 0);
      for i := 0 to 3
        invariant pmm.Valid() && LowestTaken(old(pmm.free), pmm.free, i + 1)
      {
        ghost var mid := pmm.free;
        var block := pmm.AllocBlock();
        TakeOneMore(old(pmm.free), mid, pmm.free, i + 1);
      }
    }

    /**
      Takes four blocks and makes the first one the start of the arena, trusting that the other
      three follow it.
    */
    method Init(pmm: Pmm)
      requires ram.Valid() && pmm.Valid() && pmm.bitmap != ram.words
      modifies this, ram.words, pmm`free, pmm`usedBlocks, pmm.bitmap
      ensures pmm.Valid() && LowestTaken(old(pmm.free), pmm.free, 4)
      ensures old(pmm.free) != {} && !(0 in old(pmm.free)) ==>
        Valid() && IsLeast(heapStart / BLOCK_SIZE, old(pmm.free)) && heapStart % BLOCK_SIZE == 0
      ensures nodes == [Node(heapStart, 16372, true)]
      ensures old(pmm.free) != {} && !(0 in old(pmm.free)) ==>
        ram.Image()[heapStart] == 16372 && ram.Image()[heapStart + 4] == 1 && ram.Image()[heapStart + 8] == 0
    {
      var initialMem := TakeFour(pmm);
      heapStart := initialMem;
      WriteFirstNode();
      nodes := [Node(heapStart, ARENA - HEADER, true)];
    }

    method WriteFirstNode()
      requires ram.Valid() && heapStart % 4 == 0 && heapStart + ARENA < WORD_RANGE
      modifies ram.words
      ensures var first := [Node(heapStart, ARENA - HEADER, true)];
        Linked(ram.Image(), first, 0) && Tidy(first, heapStart, heapStart + ARENA)
    {
      ram.Write(heapStart, 4 * BLOCK_SIZE - HEADER);
      ram.Write(heapStart + 4, 1);
      ram.Write(heapStart + 8, 0);
      ghost var first := [Node(heapStart, ARENA - HEADER, true)];
      assert first[1..] == [];
    }

    method Kmalloc(request: Word) returns (ptr: Word)
      requires Valid()
      modifies `nodes, ram.words
      ensures Valid() && Allocation(nodes, ptr) == HeapList.Kmalloc(old(nodes), request)
      ensures ptr == 0 ==> ram.Image() == old(ram.Image())
      ensures PayloadsKept(old(ram.Image()), ram.Image(), Live(old(nodes)))
      ensures SameOutside(old(ram.Image()), ram.Image(), heapStart, Limit())
    {
      if request == 0 { return 0; }
      var size := Round4(request);
      var current: Word := heapStart;
      ghost var i: nat := 0;
      while current != 0
        invariant nodes == old(nodes) && ram.Image() == old(ram.Image())
        invariant if i < |nodes| then current == nodes[i].addr && current > 0 else current == 0 && i == |nodes|
        invariant forall j :: 0 <= j < i ==> !Fits(nodes[j], size)
        decreases |nodes| - i
      {
        var isFree := IsFree(i, current);
        var available := SizeOf(i, current);
        if isFree && available >= size {
          TilesAt(nodes, heapStart, Limit(), i);
          Take(i, current, size);
          return current + HEADER;
        }
        current := NextOf(i, current);
        i := i + 1;
      }
      return 0;
    }

    method Kfree(ptr: Word)
      requires Valid()
      requires ptr == 0 || exists n :: n in Live(nodes) && n.Payload() == ptr
      modifies `nodes, ram.words
      ensures Valid() && nodes == HeapRelease.Kfree(old(nodes), ptr)
      ensures PayloadsKept(old(ram.Image()), ram.Image(), Live(nodes))
      ensures SameOutside(old(ram.Image()), ram.Image(), heapStart, Limit())
    {
      if ptr == 0 { return; }
      MarkFree(ptr);
      CoalesceTidies(nodes, heapStart, Limit());
      CoalescePass();
    }

    /** Sets the flag in the header before `ptr`. */
    method MarkFree(ptr: Word)
      requires Valid() && exists n :: n in Live(nodes) && n.Payload() == ptr
      modifies `nodes, ram.words
      ensures WellFormed() && nodes == Mark(old(nodes), ptr)
      ensures PayloadsKept(old(ram.Image()), ram.Image(), Live(nodes))
      ensures SameOutside(old(ram.Image()), ram.Image(), heapStart, Limit())
    {
      ghost var k := NodeBefore(ram.Image(), nodes, heapStart, Limit(), ptr);
      var node: Word := ptr - HEADER;
      ram.Write(node + 4, 1);
      Rewritten(old(ram.Image()), ram.Image(), nodes, heapStart, Limit(), k, k + 1, nodes[k].(free := true));
      nodes := Mark(nodes, ptr);
    }

    /** Walks the list and merges neighbouring free nodes. */
    method CoalescePass()
      requires WellFormed()
      modifies `nodes, ram.words
      ensures WellFormed() && nodes == Coalesce(old(nodes)) && Live(nodes) == Live(old(nodes))
      ensures PayloadsKept(old(ram.Image()), ram.Image(), Live(old(nodes)))
      ensures SameOutside(old(ram.Image()), ram.Image(), heapStart, Limit())
    {
      var current: Word := heapStart;
      ghost var i: nat := 0;
      var next := NextOf(i, current);
      PendingEnds(nodes);
      while current != 0 && next != 0
        invariant WellFormed() && At(i, current, next)
        invariant Pending(nodes, i) == Coalesce(old(nodes)) && Live(nodes) == Live(old(nodes))
        invariant PayloadsKept(old(ram.Image()), ram.Image(), Live(old(nodes)))
        invariant SameOutside(old(ram.Image()), ram.Image(), heapStart, Limit())
        decreases |nodes| - i
      {
        i, current, next := CoalesceOnce(i, current, next);
      }
      PendingEnds(nodes);
    }

    /** The pass stands at node `i`. */
    ghost predicate At(i: nat, current: Word, next: Word)
      reads this
    {
      && i < |nodes| && current == nodes[i].addr && current > 0
      && if i + 1 < |nodes| then next == nodes[i + 1].addr && next > 0 else next == 0
    }

    /** One iteration: merge and stay, or move on. */
    method CoalesceOnce(ghost i: nat, current: Word, next: Word) returns (ghost i': nat, current': Word, next': Word)
      requires WellFormed() && At(i, current, next) && next != 0
      modifies `nodes, ram.words
      ensures WellFormed() && At(i', current', next')
      ensures Pending(nodes, i') == Pending(old(nodes), i) && Live(nodes) == Live(old(nodes))
      ensures |nodes| - i' < |old(nodes)| - i
      ensures PayloadsKept(old(ram.Image()), ram.Image(), Live(old(nodes)))
      ensures SameOutside(old(ram.Image()), ram.Image(), heapStart, Limit())
    {
      var isFree := IsFree(i, current);
      var nextIsFree := IsFree(i + 1, next);
      PendingStep(nodes, i);
      if isFree && nextIsFree {
        MergeAtLive(nodes, i);
        i', current' := i, current;
        next' := Absorb(i, current, next);
      } else {
        i', current' := i + 1, next;
        next' := NextOf(i', current');
      }
    }

    /** The header writes of a merge. */
    method MergeHeaders(ghost x: Node, ghost y: Node, ghost after: int, current: Word, next: Word)
      returns (following: Word)
      requires ram.Valid() && current == x.addr && next == y.addr && y.addr >= x.addr + HEADER
      requires HeaderAt(ram.Image(), x, y.addr) && HeaderAt(ram.Image(), y, after)
      requires x.free && 0 <= x.size + HEADER + y.size < WORD_RANGE
      modifies ram.words
      ensures following == after && HeaderAt(ram.Image(), Merge(x, y), after)
      ensures SameOutside(old(ram.Image()), ram.Image(), x.addr, x.addr + HEADER)
    {
      var size := ram.Read(current);
      var nextSize := ram.Read(next);
      ram.Write(current, size + HEADER + nextSize);
      following := ram.Read(next + 8);
      ram.Write(current + 8, following);
    }

    /** Merges the node at `current` with the next one; both are free. */
    method Absorb(ghost i: nat, current: Word, next: Word) returns (following: Word)
      requires WellFormed() && i + 1 < |nodes| && nodes[i].free && nodes[i + 1].free
      requires At(i, current, next)
      modifies `nodes, ram.words
      ensures WellFormed() && nodes == MergeAt(old(nodes), i)
      ensures At(i, current, following)
      ensures PayloadsKept(old(ram.Image()), ram.Image(), Live(nodes))
      ensures SameOutside(old(ram.Image()), ram.Image(), heapStart, Limit())
    {
      ghost var merged := Merge(nodes[i], nodes[i + 1]);
      PairInMemory(ram.Image(), nodes, heapStart, Limit(), i);
      following := MergeHeaders(nodes[i], nodes[i + 1], StartOf(nodes, i + 2, 0), current, next);
      Rewritten(old(ram.Image()), ram.Image(), nodes, heapStart, Limit(), i, i + 2, merged);
      nodes := MergeAt(nodes, i);
    }
  }
}
