/**
  The kernel heap as a list of nodes, on values.

  `Kmalloc` is what one call does to the list; the lemmas say what that means for the blocks in use,
  without speaking of the list: the list is the only tidy layout of the live blocks, and an allocation
  takes the lowest gap that is wide enough.
*/
module HeapList {
  import opened Words

  const HEADER: int := 12
  const MIN_SPLIT: int := 16

  datatype Node = Node(addr: int, size: int, free: bool) {
    function Payload(): int { addr + HEADER }
    function End(): int { addr + HEADER + size }
  }

  // ---- Shape of the list ---------------------------------------------------------------------

  /** The nodes follow each other without gap or overlap from `lo` to `hi`, in whole words. */
  ghost predicate Tiles(ns: seq<Node>, lo: int, hi: int) {
    if ns == [] then lo == hi
    else
      && ns[0].addr == lo && ns[0].size >= 0 && ns[0].size % 4 == 0
      && Tiles(ns[1..], ns[0].End(), hi)
  }

  ghost predicate NoAdjacentFree(ns: seq<Node>) {
    |ns| < 2 || (!(ns[0].free && ns[1].free) && NoAdjacentFree(ns[1..]))
  }

  /** The invariant of the heap between calls. */
  ghost predicate Tidy(ns: seq<Node>, lo: int, hi: int) {
    Tiles(ns, lo, hi) && NoAdjacentFree(ns)
  }

  /** The allocated nodes, in address order. */
  ghost function Live(ns: seq<Node>): seq<Node> {
    if ns == [] then []
    else if ns[0].free then Live(ns[1..])
    else [ns[0]] + Live(ns[1..])
  }

  /** Where node `i` starts, or the end of the arena after the last node. */
  ghost function StartOf(ns: seq<Node>, i: nat, hi: int): int
    requires i <= |ns|
  {
    if i < |ns| then ns[i].addr else hi
  }

  lemma {:induction false} TilesSplit(ns: seq<Node>, lo: int, hi: int, i: nat)
    requires Tiles(ns, lo, hi) && i <= |ns|
    ensures Tiles(ns[..i], lo, StartOf(ns, i, hi)) && Tiles(ns[i..], StartOf(ns, i, hi), hi)
  {
    if i == 0 {
      assert ns[0..] == ns;
    } else {
      TilesSplit(ns[1..], ns[0].End(), hi, i - 1);
      assert ns[..i][1..] == ns[1..][..i - 1] && ns[i..] == ns[1..][i - 1..];
    }
  }

  lemma {:induction false} TilesConcat(a: seq<Node>, b: seq<Node>, lo: int, mid: int, hi: int)
    requires Tiles(a, lo, mid) && Tiles(b, mid, hi)
    ensures Tiles(a + b, lo, hi)
  {
    if a == [] {
      assert a + b == b;
    } else {
      TilesConcat(a[1..], b, a[0].End(), mid, hi);
      assert (a + b)[1..] == a[1..] + b;
    }
  }

  /** Every node lies inside the arena, on a word boundary when the arena does. */
  lemma {:induction false} TilesAt(ns: seq<Node>, lo: int, hi: int, i: nat)
    requires Tiles(ns, lo, hi) && i < |ns|
    ensures lo <= ns[i].addr && ns[i].size >= 0 && ns[i].size % 4 == 0 && ns[i].End() <= hi
    ensures ns[i].addr % 4 == ns[i].Payload() % 4 == lo % 4
    ensures ns[i].End() == StartOf(ns, i + 1, hi)
  {
    TilesBounds(ns[1..], ns[0].End(), hi);
    if i == 0 {
      if |ns| > 1 {
        assert ns[1..][0] == ns[1];
      }
    } else {
      TilesAt(ns[1..], ns[0].End(), hi, i - 1);
      assert ns[1..][i - 1] == ns[i];
      assert ns[0].End() % 4 == lo % 4;
    }
  }

  lemma {:induction false} TilesBounds(ns: seq<Node>, lo: int, hi: int)
    requires Tiles(ns, lo, hi)
    ensures lo + HEADER * |ns| <= hi
  {
    if ns != [] {
      TilesBounds(ns[1..], ns[0].End(), hi);
    }
  }

  /** The list is acyclic and in address order: an earlier node ends before a later one starts. */
  lemma {:induction false} TilesOrder(ns: seq<Node>, lo: int, hi: int, i: nat, j: nat)
    requires Tiles(ns, lo, hi) && i < j < |ns|
    ensures ns[i].End() <= ns[j].addr
  {
    TilesSplit(ns, lo, hi, i + 1);
    TilesAt(ns[i + 1..], StartOf(ns, i + 1, hi), hi, j - i - 1);
    TilesAt(ns, lo, hi, i);
  }

  /** Nodes i..j replaced by `mid`. */
  function Replace(ns: seq<Node>, i: nat, j: nat, mid: seq<Node>): seq<Node>
    requires i <= j <= |ns|
  {
    ns[..i] + mid + ns[j..]
  }

  lemma ReplaceTiles(ns: seq<Node>, lo: int, hi: int, i: nat, j: nat, mid: seq<Node>)
    requires Tiles(ns, lo, hi) && i <= j <= |ns| && Tiles(mid, StartOf(ns, i, hi), StartOf(ns, j, hi))
    ensures Tiles(Replace(ns, i, j, mid), lo, hi)
  {
    TilesSplit(ns, lo, hi, i);
    TilesSplit(ns, lo, hi, j);
    TilesConcat(ns[..i], mid, lo, StartOf(ns, i, hi), StartOf(ns, j, hi));
    TilesConcat(ns[..i] + mid, ns[j..], lo, StartOf(ns, j, hi), hi);
  }

  lemma {:induction false} LiveConcat(a: seq<Node>, b: seq<Node>)
    ensures Live(a + b) == Live(a) + Live(b)
  {
    if a == [] {
      assert a + b == b;
    } else {
      var ab, rest := a + b, a[1..];
      assert ab[0] == a[0] && ab[1..] == rest + b;
      LiveConcat(rest, b);
    }
  }

  lemma {:induction false} LiveIndex(ns: seq<Node>, n: Node)
    ensures n in Live(ns) <==> exists j :: 0 <= j < |ns| && ns[j] == n && !n.free
  {
    if ns != [] {
      LiveIndex(ns[1..], n);
      if n in Live(ns[1..]) {
        var j :| 0 <= j < |ns[1..]| && ns[1..][j] == n && !n.free;
        assert ns[j + 1] == n;
      }
      if j :| 0 < j < |ns| && ns[j] == n && !n.free {
        assert ns[1..][j - 1] == n;
      }
    }
  }

  // ---- The live blocks determine the list ----------------------------------------------------

  /** The reference layout: one free node in every gap between consecutive live blocks. */
  ghost function Layout(live: seq<Node>, lo: int, hi: int): seq<Node> {
    var stop := StartOf(live, 0, hi);
    (if lo == stop then [] else [Node(lo, stop - lo - HEADER, true)]) +
    (if live == [] then [] else [live[0]] + Layout(live[1..], live[0].End(), hi))
  }

  lemma {:induction false} TidyIsLayout(ns: seq<Node>, lo: int, hi: int)
    requires Tidy(ns, lo, hi)
    ensures ns == Layout(Live(ns), lo, hi)
    decreases ns, 1
  {
    if ns != [] {
      var tail := ns[1..];
      assert ns == [ns[0]] + tail;
      assert Tiles(tail, ns[0].End(), hi);
      if !ns[0].free {
        TidyAfterFree(ns, lo, hi);
      } else if tail == [] {
        assert ns[0] == Node(lo, hi - lo - HEADER, true);
      } else {
        assert tail[0] == ns[1];
        TidyAfterFree(tail, ns[0].End(), hi);
      }
    }
  }

  lemma TidyAfterFree(ns: seq<Node>, lo: int, hi: int)
    requires Tidy(ns, lo, hi) && ns != [] && !ns[0].free
    ensures Live(ns) != [] && StartOf(Live(ns), 0, hi) == lo && ns == Layout(Live(ns), lo, hi)
    decreases ns, 0
  {
    var tail := ns[1..];
    assert ns == [ns[0]] + tail && Live(ns)[1..] == Live(tail);
    TidyIsLayout(tail, ns[0].End(), hi);
  }

  // ---- Allocation ----------------------------------------------------------------------------

  /** The request rounded up to a word, in 32-bit arithmetic: it wraps to 0 above 0xFFFFFFFC. */
  function Round4(request: Word): Word {
    (request + 3) % WORD_RANGE / 4 * 4
  }

  predicate Fits(n: Node, size: int) {
    n.free && n.size >= size
  }

  /** The index of the first node that fits, or |ns|. */
  function FirstFit(ns: seq<Node>, size: int): (i: nat)
    ensures i <= |ns| && (i < |ns| ==> Fits(ns[i], size))
    ensures forall j :: 0 <= j < i ==> !Fits(ns[j], size)
  {
    if ns == [] || Fits(ns[0], size) then 0 else 1 + FirstFit(ns[1..], size)
  }

  /** The node as handed out, followed by the free remainder when that is worth a node. */
  function Carve(n: Node, size: int): seq<Node> {
    if n.size >= size + HEADER + MIN_SPLIT then
      [Node(n.addr, size, false), Node(n.addr + HEADER + size, n.size - size - HEADER, true)]
    else
      [n.(free := false)]
  }

  /** The list after node `i` has been carved. */
  function CarveAt(ns: seq<Node>, i: nat, size: int): seq<Node>
    requires i < |ns|
  {
    Replace(ns, i, i + 1, Carve(ns[i], size))
  }

  datatype Allocation = Allocation(nodes: seq<Node>, ptr: int)

  function Kmalloc(ns: seq<Node>, request: Word): Allocation {
    var size := Round4(request);
    var i := FirstFit(ns, size);
    if request == 0 || i == |ns| then Allocation(ns, 0)
    else Allocation(CarveAt(ns, i, size), ns[i].Payload())
  }

  /** No live block touches [a, a + len), which lies in the arena. */
  ghost predicate FreeRun(live: seq<Node>, lo: int, hi: int, a: int, len: int) {
    lo <= a && a + len <= hi && forall n :: n in live ==> n.End() <= a || a + len <= n.addr
  }

  ghost predicate LowestRun(live: seq<Node>, lo: int, hi: int, a: int, len: int) {
    FreeRun(live, lo, hi, a, len) && forall a' :: a' < a ==> !FreeRun(live, lo, hi, a', len)
  }

  lemma FitGivesRun(ns: seq<Node>, lo: int, hi: int, i: nat, size: int)
    requires Tiles(ns, lo, hi) && i < |ns| && Fits(ns[i], size) && size >= 0
    ensures FreeRun(Live(ns), lo, hi, ns[i].addr, HEADER + size)
  {
    TilesAt(ns, lo, hi, i);
    forall n | n in Live(ns)
      ensures n.End() <= ns[i].addr || ns[i].addr + HEADER + size <= n.addr
    {
      LiveIndex(ns, n);
      var j :| 0 <= j < |ns| && ns[j] == n && !n.free;
      if j < i { TilesOrder(ns, lo, hi, j, i); } else { TilesOrder(ns, lo, hi, i, j); }
    }
  }

  /** Free space is never scattered: any wide enough run sits inside one free node. */
  lemma {:induction false} RunGivesFit(ns: seq<Node>, lo: int, hi: int, a: int, size: int) returns (i: nat)
    requires Tidy(ns, lo, hi) && size >= 0
    requires FreeRun(Live(ns), lo, hi, a, HEADER + size)
    ensures i < |ns| && Fits(ns[i], size) && ns[i].addr <= a
  {
    if a < ns[0].End() {
      i := 0;
      assert ns[0].free || ns[0] in Live(ns);
      var tail := ns[1..];
      assert Tiles(tail, ns[0].End(), hi);
      if tail != [] {
        assert tail[0].free || tail[0] in Live(tail);
      }
    } else {
      assert forall n :: n in Live(ns[1..]) ==> n in Live(ns);
      var k := RunGivesFit(ns[1..], ns[0].End(), hi, a, size);
      i := k + 1;
      assert ns[i] == ns[1..][k];
    }
  }

  /** The blocks of `live` except the one whose payload is `ptr`. */
  ghost function Without(live: seq<Node>, ptr: int): seq<Node> {
    if live == [] then []
    else if live[0].Payload() == ptr then Without(live[1..], ptr)
    else [live[0]] + Without(live[1..], ptr)
  }

  lemma {:induction false} WithoutConcat(a: seq<Node>, b: seq<Node>, ptr: int)
    ensures Without(a + b, ptr) == Without(a, ptr) + Without(b, ptr)
  {
    if a == [] {
      assert a + b == b;
    } else {
      var ab, rest := a + b, a[1..];
      assert ab[0] == a[0] && ab[1..] == rest + b;
      WithoutConcat(rest, b, ptr);
    }
  }

  lemma {:induction false} WithoutAbsent(live: seq<Node>, ptr: int)
    requires forall n :: n in live ==> n.Payload() != ptr
    ensures Without(live, ptr) == live
  {
    if live != [] {
      WithoutAbsent(live[1..], ptr);
    }
  }

  lemma {:induction false} NoAdjacentConcat(a: seq<Node>, b: seq<Node>)
    ensures NoAdjacentFree(a + b) <==>
      NoAdjacentFree(a) && NoAdjacentFree(b) && !(a != [] && b != [] && a[|a| - 1].free && b[0].free)
  {
    if a == [] {
      assert a + b == b;
    } else {
      NoAdjacentConcat(a[1..], b);
      assert (a + b)[1..] == a[1..] + b;
      if |a| == 1 && b != [] { assert (a + b)[1] == b[0]; }
    }
  }

  lemma LiveOne(n: Node)
    ensures Live([n]) == if n.free then [] else [n]
  {
    assert [n][1..] == [];
  }

  lemma LiveAround(a: seq<Node>, n: Node, b: seq<Node>)
    ensures Live(a + [n] + b) == Live(a) + Live([n]) + Live(b)
  {
    LiveConcat(a + [n], b);
    LiveConcat(a, [n]);
  }

  lemma CarveShape(n: Node, size: int)
    requires Fits(n, size) && size >= 0 && size % 4 == 0 && n.size % 4 == 0
    ensures var c := Carve(n, size);
      && Tiles(c, n.addr, n.End()) && NoAdjacentFree(c) && !c[0].free && Live(c) == [c[0]]
      && c[0].addr == n.addr && size <= c[0].size <= size + 24
  {
    var c := Carve(n, size);
    LiveOne(c[0]);
    if |c| == 2 {
      assert c == [c[0]] + [c[1]] && c[1..] == [c[1]] && c[1..][1..] == [];
      LiveOne(c[1]);
      LiveConcat([c[0]], [c[1]]);
    } else {
      assert c[1..] == [];
    }
  }

  /** One live block more: exactly the granted one, at its place in address order. */
  ghost predicate Grants(before: seq<Node>, after: seq<Node>, b: Node) {
    && multiset(after) == multiset(before) + multiset{b}
    && Without(after, b.Payload()) == before
  }

  lemma CarveAtTidy(ns: seq<Node>, lo: int, hi: int, i: nat, size: int)
    requires Tidy(ns, lo, hi) && i < |ns| && Fits(ns[i], size) && size >= 0 && size % 4 == 0
    ensures Tidy(CarveAt(ns, i, size), lo, hi)
  {
    var a, n, b := ns[..i], ns[i], ns[i + 1..];
    var c := Carve(n, size);
    TilesAt(ns, lo, hi, i);
    CarveShape(n, size);
    ReplaceTiles(ns, lo, hi, i, i + 1, c);
    assert ns == a + [n] + b;
    NoAdjacentConcat(a + [n], b);
    NoAdjacentConcat(a, [n]);
    NoAdjacentConcat(a, c);
    NoAdjacentConcat(a + c, b);
  }

  lemma CarveAtHead(ns: seq<Node>, lo: int, hi: int, i: nat, size: int) returns (b: Node)
    requires Tiles(ns, lo, hi) && i < |ns| && Fits(ns[i], size) && size >= 0 && size % 4 == 0
    ensures b == Carve(ns[i], size)[0] && b in CarveAt(ns, i, size)
    ensures lo <= b.addr == ns[i].addr && !b.free && size <= b.size <= size + 24
  {
    TilesAt(ns, lo, hi, i);
    CarveShape(ns[i], size);
    b := Carve(ns[i], size)[0];
    assert CarveAt(ns, i, size)[i] == b;
  }

  lemma CarveAtGrants(ns: seq<Node>, lo: int, hi: int, i: nat, size: int)
    requires Tidy(ns, lo, hi) && i < |ns| && Fits(ns[i], size) && size >= 0 && size % 4 == 0
    ensures Grants(Live(ns), Live(CarveAt(ns, i, size)), Carve(ns[i], size)[0])
  {
    var a, n, b := ns[..i], ns[i], ns[i + 1..];
    var c := Carve(n, size);
    TilesAt(ns, lo, hi, i);
    CarveShape(n, size);
    LiveConcat(a, c);
    LiveConcat(a + c, b);
    GrantsOne(ns, lo, hi, i, c[0]);
  }

  lemma GrantsOne(ns: seq<Node>, lo: int, hi: int, i: nat, g: Node)
    requires Tiles(ns, lo, hi) && i < |ns| && ns[i].free && g.addr == ns[i].addr
    ensures Grants(Live(ns), Live(ns[..i]) + [g] + Live(ns[i + 1..]), g)
  {
    var a, b := Live(ns[..i]), Live(ns[i + 1..]);
    assert ns == ns[..i] + [ns[i]] + ns[i + 1..];
    LiveAround(ns[..i], ns[i], ns[i + 1..]);
    LiveOne(ns[i]);
    forall n: Node | n in a + b ensures n.Payload() != g.Payload() {
      PayloadIndex(ns, lo, hi, i, n);
    }
    WithoutAbsent(a, g.Payload());
    WithoutAbsent(b, g.Payload());
    WithoutConcat(a, [g], g.Payload());
    WithoutConcat(a + [g], b, g.Payload());
    assert [g][1..] == [];
  }

  lemma PayloadIndex(ns: seq<Node>, lo: int, hi: int, i: nat, n: Node)
    requires Tiles(ns, lo, hi) && i < |ns| && ns[i].free && n in Live(ns)
    ensures n.addr != ns[i].addr
  {
    LiveIndex(ns, n);
    var j :| 0 <= j < |ns| && ns[j] == n && !n.free;
    TilesAt(ns, lo, hi, i);
    TilesAt(ns, lo, hi, j);
    if j < i { TilesOrder(ns, lo, hi, j, i); } else { TilesOrder(ns, lo, hi, i, j); }
  }

  ghost predicate HasRun(live: seq<Node>, lo: int, hi: int, len: int) {
    exists a :: FreeRun(live, lo, hi, a, len)
  }

  lemma FirstFitIsLowest(ns: seq<Node>, lo: int, hi: int, size: int)
    requires Tidy(ns, lo, hi) && size >= 0
    ensures var i := FirstFit(ns, size);
      && (i < |ns| <==> HasRun(Live(ns), lo, hi, HEADER + size))
      && (i < |ns| ==> LowestRun(Live(ns), lo, hi, ns[i].addr, HEADER + size))
  {
    var i, live, len := FirstFit(ns, size), Live(ns), HEADER + size;
    forall a | FreeRun(live, lo, hi, a, len) ensures i < |ns| && ns[i].addr <= a {
      var k := RunGivesFit(ns, lo, hi, a, size);
      if i < k { TilesOrder(ns, lo, hi, i, k); TilesAt(ns, lo, hi, i); }
    }
    if i < |ns| {
      FitGivesRun(ns, lo, hi, i, size);
    }
  }

  /** `b` is what a successful call handed out for `request`. */
  ghost predicate Granted(ns: seq<Node>, lo: int, hi: int, request: Word, r: Allocation, b: Node) {
    && b.Payload() == r.ptr && !b.free && b in r.nodes
    && LowestRun(Live(ns), lo, hi, b.addr, HEADER + Round4(request))
    && Round4(request) <= b.size <= Round4(request) + 24
    && Grants(Live(ns), Live(r.nodes), b)
  }

  /**
    What `kmalloc` promises, in terms of the live blocks alone: it fails exactly when no run of
    header plus rounded size is unallocated; otherwise the block it adds starts at the lowest such
    run and is at most 24 bytes wider than the rounded request.
  */
  lemma KmallocMeaning(ns: seq<Node>, lo: int, hi: int, request: Word) returns (b: Node)
    requires Tidy(ns, lo, hi) && lo > 0
    ensures var r := Kmalloc(ns, request);
      && Tidy(r.nodes, lo, hi)
      && (r.ptr == 0 <==> request == 0 || !HasRun(Live(ns), lo, hi, HEADER + Round4(request)))
      && (if r.ptr == 0 then r.nodes == ns else Granted(ns, lo, hi, request, r, b))
  {
    var size := Round4(request);
    var i := FirstFit(ns, size);
    FirstFitIsLowest(ns, lo, hi, size);
    b := Node(0, 0, false);
    if i < |ns| && request != 0 {
      CarveAtTidy(ns, lo, hi, i, size);
      CarveAtGrants(ns, lo, hi, i, size);
      b := CarveAtHead(ns, lo, hi, i, size);
    }
  }

  lemma GrantsMembers(before: seq<Node>, after: seq<Node>, b: Node)
    requires Grants(before, after, b)
    ensures forall n :: n in after <==> n == b || n in before
    ensures forall n :: n in before ==> n.Payload() != b.Payload()
  {
    WithoutMembers(after, b.Payload());
    forall n ensures n in after <==> n == b || n in before {
      assert n in after <==> n in multiset(after);
      assert n in before <==> n in multiset(before);
    }
  }

  lemma {:induction false} WithoutMembers(live: seq<Node>, ptr: int)
    ensures forall n :: n in Without(live, ptr) <==> n in live && n.Payload() != ptr
  {
    if live != [] {
      WithoutMembers(live[1..], ptr);
      assert live == [live[0]] + live[1..];
    }
  }
}
