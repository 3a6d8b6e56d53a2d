/** What the owner of a live heap block can rely on. */
module HeapOwners {
  import opened Words
  import opened HeapList
  import opened HeapRelease
  import opened KernelHeap

  /** `p` is a live heap pointer with at least `size` bytes behind it. */
  ghost predicate Owns(ns: seq<Node>, p: int, size: int) {
    exists n :: n in Live(ns) && n.Payload() == p && n.size >= size
  }

  lemma OwnedNode(ns: seq<Node>, p: int, size: int) returns (j: nat)
    requires Owns(ns, p, size)
    ensures j < |ns| && ns[j].Payload() == p && ns[j].size >= size && !ns[j].free
  {
    var n :| n in Live(ns) && n.Payload() == p && n.size >= size;
    LiveIndex(ns, n);
    j :| 0 <= j < |ns| && ns[j] == n && !n.free;
  }

  lemma OwnsBounds(ns: seq<Node>, lo: int, hi: int, p: int, size: int)
    requires Tiles(ns, lo, hi) && Owns(ns, p, size)
    ensures lo + HEADER <= p && p + size <= hi && p % 4 == lo % 4
  {
    var j := OwnedNode(ns, p, size);
    TilesAt(ns, lo, hi, j);
  }

  /** Two blocks are apart by at least a header. */
  lemma OwnsApart(ns: seq<Node>, lo: int, hi: int, p: int, a: int, q: int, b: int)
    requires Tiles(ns, lo, hi) && Owns(ns, p, a) && Owns(ns, q, b) && p != q
    ensures p + a + HEADER <= q || q + b + HEADER <= p
  {
    var i := OwnedNode(ns, p, a);
    var j := OwnedNode(ns, q, b);
    if i < j { TilesOrder(ns, lo, hi, i, j); } else { TilesOrder(ns, lo, hi, j, i); }
  }

  lemma OwnsKept(m: Memory, m': Memory, ns: seq<Node>, p: int, size: int)
    requires Owns(ns, p, size) && PayloadsKept(m, m', Live(ns))
    ensures SameOn(m, m', p, p + size)
  {
    var n :| n in Live(ns) && n.Payload() == p && n.size >= size;
  }

  /** No header lies inside a block, and all lie inside the arena. */
  lemma HeaderApart(ns: seq<Node>, lo: int, hi: int, n: Node, p: int, size: int)
    requires Tiles(ns, lo, hi) && n in ns && Owns(ns, p, size)
    ensures n.Payload() <= p || p + size <= n.addr
  {
    var j := OwnedNode(ns, p, size);
    var i :| 0 <= i < |ns| && ns[i] == n;
    TilesAt(ns, lo, hi, i);
    TilesAt(ns, lo, hi, j);
    if i < j { TilesOrder(ns, lo, hi, i, j); } else if j < i { TilesOrder(ns, lo, hi, j, i); }
  }

  lemma HeaderInside(ns: seq<Node>, lo: int, hi: int, n: Node)
    requires Tiles(ns, lo, hi) && n in ns
    ensures lo <= n.addr && n.Payload() <= hi
  {
    var i :| 0 <= i < |ns| && ns[i] == n;
    TilesAt(ns, lo, hi, i);
  }

  /** An arena of 16 KB never holds four live blocks of 4 KB. */
  lemma NoFourPages(ns: seq<Node>, lo: int, p: int, q: int, r: int, s: int)
    requires Tiles(ns, lo, lo + ARENA) && Owns(ns, p, 4096) && Owns(ns, q, 4096) && Owns(ns, r, 4096) && Owns(ns, s, 4096)
    ensures p == q || p == r || p == s || q == r || q == s || r == s
  {
    if p != q && p != r && p != s && q != r && q != s && r != s {
      OwnsBounds(ns, lo, lo + ARENA, p, 4096);
      OwnsBounds(ns, lo, lo + ARENA, q, 4096);
      OwnsBounds(ns, lo, lo + ARENA, r, 4096);
      OwnsBounds(ns, lo, lo + ARENA, s, 4096);
      OwnsApart(ns, lo, lo + ARENA, p, 4096, q, 4096);
      OwnsApart(ns, lo, lo + ARENA, p, 4096, r, 4096);
      OwnsApart(ns, lo, lo + ARENA, p, 4096, s, 4096);
      OwnsApart(ns, lo, lo + ARENA, q, 4096, r, 4096);
      OwnsApart(ns, lo, lo + ARENA, q, 4096, s, 4096);
      OwnsApart(ns, lo, lo + ARENA, r, 4096, s, 4096);
    }
  }

  /** After a successful call: the new pointer is owned, was not before, and everyone else still owns theirs. */
  lemma GrantOwns(ns: seq<Node>, lo: int, request: Word)
    requires Tidy(ns, lo, lo + ARENA) && lo > 0
    ensures var r := HeapList.Kmalloc(ns, request);
      && Tidy(r.nodes, lo, lo + ARENA)
      && (forall p, size :: Owns(ns, p, size) ==> Owns(r.nodes, p, size))
      && (if r.ptr == 0 then r.nodes == ns else Owns(r.nodes, r.ptr, Round4(request)) && !Owns(ns, r.ptr, 0))
  {
    var b := KmallocMeaning(ns, lo, lo + ARENA, request);
    var r := HeapList.Kmalloc(ns, request);
    if r.ptr != 0 {
      GrantsMembers(Live(ns), Live(r.nodes), b);
      assert b in Live(r.nodes);
      forall p, size | Owns(ns, p, size) ensures Owns(r.nodes, p, size) {
        var n :| n in Live(ns) && n.Payload() == p && n.size >= size;
        assert n in Live(r.nodes);
      }
    }
  }

  /** After a release: the pointer is not owned any more, everyone else still owns theirs. */
  lemma ReleaseOwns(ns: seq<Node>, lo: int, ptr: int)
    requires Tidy(ns, lo, lo + ARENA) && lo > 0
    ensures Tidy(HeapRelease.Kfree(ns, ptr), lo, lo + ARENA)
    ensures forall p, size :: Owns(HeapRelease.Kfree(ns, ptr), p, size) <==> Owns(ns, p, size) && p != ptr
  {
    KfreeMeaning(ns, lo, lo + ARENA, ptr);
    WithoutMembers(Live(ns), ptr);
    var ns' := HeapRelease.Kfree(ns, ptr);
    forall p, size ensures Owns(ns', p, size) <==> Owns(ns, p, size) && p != ptr {
      if Owns(ns, p, size) && p != ptr {
        var n :| n in Live(ns) && n.Payload() == p && n.size >= size;
        assert n in Live(ns');
      }
    }
  }

  /** Everyone who owned a block still does, with the same words in it. */
  ghost predicate BlocksKept(m: Memory, m': Memory, ns: seq<Node>, ns': seq<Node>) {
    forall p, size :: Owns(ns, p, size) ==> Owns(ns', p, size) && SameOn(m, m', p, p + size)
  }

  lemma AllocationKeepsBlocks(m: Memory, m': Memory, ns: seq<Node>, ns': seq<Node>)
    requires PayloadsKept(m, m', Live(ns))
    requires forall p, size :: Owns(ns, p, size) ==> Owns(ns', p, size)
    ensures BlocksKept(m, m', ns, ns')
  {
    forall p, size | Owns(ns, p, size) ensures SameOn(m, m', p, p + size) {
      OwnsKept(m, m', ns, p, size);
    }
  }

  lemma BlocksKeptTwice(m: Memory, m1: Memory, m2: Memory, ns: seq<Node>, ns1: seq<Node>, ns2: seq<Node>)
    requires BlocksKept(m, m1, ns, ns1) && BlocksKept(m1, m2, ns1, ns2)
    ensures BlocksKept(m, m2, ns, ns2)
  {
    forall p, size | Owns(ns, p, size) ensures Owns(ns2, p, size) && SameOn(m, m2, p, p + size) {
      assert Owns(ns1, p, size);
    }
  }

  /** Giving a block back to a heap that had the nodes `before` leaves the blocks of that time as they were. */
  lemma ReleasedKeeps(m: Memory, m1: Memory, m2: Memory, before: seq<Node>, ns: seq<Node>)
    requires BlocksKept(m, m1, before, ns) && PayloadsKept(m1, m2, Live(before))
    ensures BlocksKept(m, m2, before, before)
  {
    AllocationKeepsBlocks(m1, m2, before, before);
  }

  /** What its owner writes into a new block spares the blocks that were there before. */
  lemma OwnerWrites(m: Memory, m1: Memory, m2: Memory, before: seq<Node>, ns: seq<Node>, lo: int, p: int, size: int)
    requires Tiles(ns, lo, lo + ARENA) && Owns(ns, p, size) && !Owns(before, p, 0) && size >= 0
    requires BlocksKept(m, m1, before, ns) && SameOutside(m1, m2, p, p + size)
    ensures BlocksKept(m, m2, before, ns) && SameOutside(m1, m2, lo, lo + ARENA)
  {
    OwnsBounds(ns, lo, lo + ARENA, p, size);
    forall q, len | Owns(before, q, len) ensures SameOn(m, m2, q, q + len) {
      if len >= 0 {
        assert Owns(before, q, 0);
        OwnsApart(ns, lo, lo + ARENA, p, size, q, len);
      }
    }
  }
}
