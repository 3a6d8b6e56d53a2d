/** How much `kmalloc` hands out and when it fails, in numbers and in terms of the live blocks. */
module HeapExact {
  import opened Words
  import opened HeapList

  /** Sizes are rounded up to the next multiple of 4; the last three wrap to 0. */
  lemma RoundedSize(request: Word)
    ensures Round4(request) == if request <= 0xFFFF_FFFC then request + (4 - request % 4) % 4 else 0
  {
  }

  /** A call succeeds exactly when header and rounded size fit into one run of unallocated bytes. */
  lemma RoomInRun(ns: seq<Node>, lo: int, hi: int, request: Word)
    requires Tidy(ns, lo, hi) && lo > 0
    ensures Kmalloc(ns, request).ptr != 0 <==> request > 0 && HasRun(Live(ns), lo, hi, 12 + Round4(request))
  {
    var b := KmallocMeaning(ns, lo, hi, request);
  }

  /** From the start of a free node, the unallocated run ends where the node does. */
  lemma RunEnds(ns: seq<Node>, lo: int, hi: int, i: nat, len: int)
    requires Tidy(ns, lo, hi) && i < |ns| && ns[i].free && len >= 12
    ensures FreeRun(Live(ns), lo, hi, ns[i].addr, len) <==> len <= 12 + ns[i].size
  {
    TilesAt(ns, lo, hi, i);
    if len <= 12 + ns[i].size {
      FitGivesRun(ns, lo, hi, i, len - 12);
    } else if i + 1 < |ns| {
      TilesAt(ns, lo, hi, i + 1);
      assert ns == ns[..i + 1] + ns[i + 1..];
      NoAdjacentConcat(ns[..i + 1], ns[i + 1..]);
      LiveIndex(ns, ns[i + 1]);
    }
  }

  /**
    The granted block is exactly as large as the rounded request when a header and 16 bytes more are
    unallocated behind it; otherwise it takes all that is unallocated there.
  */
  lemma ExactSize(ns: seq<Node>, lo: int, hi: int, request: Word) returns (b: Node)
    requires Tidy(ns, lo, hi) && lo > 0 && Kmalloc(ns, request).ptr != 0
    ensures var r, size := Kmalloc(ns, request), Round4(request);
      && r.ptr == b.addr + 12 && Granted(ns, lo, hi, request, r, b)
      && (FreeRun(Live(ns), lo, hi, b.addr, size + 40) ==> b.size == size)
      && (!FreeRun(Live(ns), lo, hi, b.addr, size + 40) ==>
            FreeRun(Live(ns), lo, hi, b.addr, 12 + b.size) && !FreeRun(Live(ns), lo, hi, b.addr, 12 + b.size + 1))
  {
    var size: int := Round4(request);
    var i := FirstFit(ns, size);
    b := CarveAtHead(ns, lo, hi, i, size);
    FirstFitIsLowest(ns, lo, hi, size);
    CarveAtGrants(ns, lo, hi, i, size);
    RunEnds(ns, lo, hi, i, size + 40);
    RunEnds(ns, lo, hi, i, 12 + ns[i].size);
    RunEnds(ns, lo, hi, i, 12 + ns[i].size + 1);
  }
}
