/** What `kfree` does to the node list: it takes back one live block, tidies the list and undoes an allocation. */
module HeapRelease {
  import opened Words
  import opened HeapList

  /** The list with the node before `ptr` marked free. */
  function Mark(ns: seq<Node>, ptr: int): seq<Node> {
    if ns == [] then []
    else [if ns[0].Payload() == ptr then ns[0].(free := true) else ns[0]] + Mark(ns[1..], ptr)
  }

  /** One node covering two neighbours. */
  function Merge(x: Node, y: Node): Node {
    Node(x.addr, x.size + HEADER + y.size, true)
  }

  /** One pass that merges a free node with the next as long as that is free too. */
  function Coalesce(ns: seq<Node>): seq<Node>
    decreases |ns|
  {
    if |ns| < 2 then ns
    else if ns[0].free && ns[1].free then Coalesce([Merge(ns[0], ns[1])] + ns[2..])
    else [ns[0]] + Coalesce(ns[1..])
  }

  /** The list after node `i` has absorbed the next one. */
  function MergeAt(ns: seq<Node>, i: nat): seq<Node>
    requires i + 1 < |ns|
  {
    Replace(ns, i, i + 2, [Merge(ns[i], ns[i + 1])])
  }

  lemma MergeShape(ns: seq<Node>, lo: int, hi: int, i: nat)
    requires Tiles(ns, lo, hi) && i + 1 < |ns|
    ensures var merged := Merge(ns[i], ns[i + 1]);
      && lo <= merged.addr && merged.End() == StartOf(ns, i + 2, hi) <= hi
      && ns[i].size >= 0 && ns[i + 1].size >= 0 && merged.size % 4 == 0
      && ns[i + 1].addr == ns[i].End()
  {
    TilesAt(ns, lo, hi, i);
    TilesAt(ns, lo, hi, i + 1);
  }

  lemma MergeAtLive(ns: seq<Node>, i: nat)
    requires i + 1 < |ns| && ns[i].free && ns[i + 1].free
    ensures Live(MergeAt(ns, i)) == Live(ns)
  {
    var a, x, y, b := ns[..i], ns[i], ns[i + 1], ns[i + 2..];
    LiveAround(a, Merge(x, y), b);
    LiveAround(a, x, [y] + b);
    LiveConcat([y], b);
    LiveOne(Merge(x, y));
    LiveOne(x);
    LiveOne(y);
    AroundPair(ns, i);
  }

  lemma AroundPair(ns: seq<Node>, i: nat)
    requires i + 1 < |ns|
    ensures ns == ns[..i] + [ns[i]] + ([ns[i + 1]] + ns[i + 2..])
  {
  }

  /** What the pass will return once it has reached node `i`. */
  ghost function Pending(ns: seq<Node>, i: nat): seq<Node>
    requires i <= |ns|
  {
    ns[..i] + Coalesce(ns[i..])
  }

  lemma PendingEnds(ns: seq<Node>)
    ensures Pending(ns, 0) == Coalesce(ns)
    ensures ns != [] ==> Pending(ns, |ns| - 1) == ns
  {
    assert ns[0..] == ns;
    if ns != [] {
      assert ns[..|ns| - 1] + ns[|ns| - 1..] == ns;
    }
  }

  /** One iteration of the pass, at node `i`: merge and stay, or move on. */
  lemma PendingStep(ns: seq<Node>, i: nat)
    requires i + 1 < |ns|
    ensures if ns[i].free && ns[i + 1].free then Pending(MergeAt(ns, i), i) == Pending(ns, i)
            else Pending(ns, i + 1) == Pending(ns, i)
  {
    var rest := ns[i..];
    assert rest[0] == ns[i] && rest[1] == ns[i + 1] && rest[1..] == ns[i + 1..] && rest[2..] == ns[i + 2..];
    if ns[i].free && ns[i + 1].free {
      var merged := MergeAt(ns, i);
      assert merged[..i] == ns[..i] && merged[i..] == [Merge(ns[i], ns[i + 1])] + ns[i + 2..];
    } else {
      assert ns[..i] + [ns[i]] == ns[..i + 1];
    }
  }

  function Kfree(ns: seq<Node>, ptr: int): seq<Node> {
    if ptr == 0 then ns else Coalesce(Mark(ns, ptr))
  }

  lemma {:induction false} MarkShape(ns: seq<Node>, lo: int, hi: int, ptr: int)
    requires Tiles(ns, lo, hi)
    ensures Tiles(Mark(ns, ptr), lo, hi) && Live(Mark(ns, ptr)) == Without(Live(ns), ptr)
  {
    if ns != [] {
      MarkShape(ns[1..], ns[0].End(), hi, ptr);
      assert Mark(ns, ptr)[1..] == Mark(ns[1..], ptr);
      if !ns[0].free {
        assert Live(ns)[1..] == Live(ns[1..]);
      }
    }
  }

  /** Marking touches the one node that starts before `ptr`. */
  lemma MarkAt(ns: seq<Node>, lo: int, hi: int, k: nat)
    requires Tiles(ns, lo, hi) && k < |ns|
    ensures Mark(ns, ns[k].Payload()) == Replace(ns, k, k + 1, [ns[k].(free := true)])
  {
    var marked := Mark(ns, ns[k].Payload());
    MarkEach(ns, ns[k].Payload());
    forall j | 0 <= j < |ns| && j != k ensures ns[j].Payload() != ns[k].Payload() {
      TilesAt(ns, lo, hi, j);
      TilesAt(ns, lo, hi, k);
      if j < k { TilesOrder(ns, lo, hi, j, k); } else { TilesOrder(ns, lo, hi, k, j); }
    }
  }

  lemma {:induction false} MarkEach(ns: seq<Node>, ptr: int)
    ensures |Mark(ns, ptr)| == |ns|
    ensures forall j :: 0 <= j < |ns| ==>
      Mark(ns, ptr)[j] == if ns[j].Payload() == ptr then ns[j].(free := true) else ns[j]
  {
    if ns != [] {
      MarkEach(ns[1..], ptr);
    }
  }

  lemma MergedFront(ns: seq<Node>, lo: int, hi: int)
    requires Tiles(ns, lo, hi) && |ns| >= 2 && ns[0].free && ns[1].free
    ensures var merged := [Merge(ns[0], ns[1])] + ns[2..];
      Tiles(merged, lo, hi) && Live(merged) == Live(ns)
  {
    var merged := [Merge(ns[0], ns[1])] + ns[2..];
    assert ns[1..][0] == ns[1] && ns[1..][1..] == ns[2..] && merged[1..] == ns[2..];
  }

  /** A single pass fully coalesces any list of nodes, and moves no live block. */
  lemma {:induction false} CoalesceTidies(ns: seq<Node>, lo: int, hi: int)
    requires Tiles(ns, lo, hi)
    ensures Tidy(Coalesce(ns), lo, hi) && Live(Coalesce(ns)) == Live(ns)
    ensures ns != [] ==> Coalesce(ns) != [] && Coalesce(ns)[0].free == ns[0].free
    decreases |ns|
  {
    if |ns| < 2 {
    } else if ns[0].free && ns[1].free {
      MergedFront(ns, lo, hi);
      CoalesceTidies([Merge(ns[0], ns[1])] + ns[2..], lo, hi);
    } else {
      CoalesceTidies(ns[1..], ns[0].End(), hi);
      var r := Coalesce(ns);
      assert r[1..] == Coalesce(ns[1..]) && r[1] == Coalesce(ns[1..])[0];
    }
  }

  /** What `kfree` promises: the block at `ptr` is gone, no other has moved, the list is tidy again. */
  lemma KfreeMeaning(ns: seq<Node>, lo: int, hi: int, ptr: int)
    requires Tidy(ns, lo, hi) && 0 < lo
    ensures Tidy(Kfree(ns, ptr), lo, hi)
    ensures Live(Kfree(ns, ptr)) == Without(Live(ns), ptr)
  {
    MarkShape(ns, lo, hi, ptr);
    CoalesceTidies(Mark(ns, ptr), lo, hi);
    if ptr == 0 {
      forall n | n in Live(ns) ensures n.Payload() != ptr {
        LiveIndex(ns, n);
        var j :| 0 <= j < |ns| && ns[j] == n && !n.free;
        TilesAt(ns, lo, hi, j);
      }
      WithoutAbsent(Live(ns), ptr);
    }
  }

  /** An allocation released at once restores the list node by node. */
  lemma KmallocThenKfree(ns: seq<Node>, lo: int, hi: int, request: Word)
    requires Tidy(ns, lo, hi) && lo > 0
    ensures var r := Kmalloc(ns, request); Kfree(r.nodes, r.ptr) == ns
  {
    var r := Kmalloc(ns, request);
    var b := KmallocMeaning(ns, lo, hi, request);
    if r.ptr != 0 {
      KfreeMeaning(r.nodes, lo, hi, r.ptr);
      TidyIsLayout(ns, lo, hi);
      TidyIsLayout(Kfree(r.nodes, r.ptr), lo, hi);
    }
  }
}
