/** What holds of the heap after any number of calls. */
module HeapRuns {
  import opened Words
  import opened HeapList
  import opened HeapRelease
  import opened KernelHeap

  /** The largest request that does not wrap to 0 when rounded up to a word. */
  const MAX_REQUEST: Word := 0xFFFF_FFFC

  datatype Call = Malloc(request: Word) | Free(ptr: Word)

  /** The node list together with what each live pointer was asked for. */
  datatype State = State(nodes: seq<Node>, asked: map<int, Word>)

  /** Callers free only null or a pointer that is live. */
  predicate Legal(s: State, c: Call) {
    c.Malloc? || c.ptr == 0 || c.ptr in s.asked
  }

  function Step(s: State, c: Call): State {
    match c
    case Malloc(request) =>
      var r := HeapList.Kmalloc(s.nodes, request);
      State(r.nodes, if r.ptr == 0 then s.asked else s.asked[r.ptr := request])
    case Free(ptr) =>
      State(HeapRelease.Kfree(s.nodes, ptr), s.asked - {ptr})
  }

  predicate LegalRun(s: State, calls: seq<Call>)
    decreases |calls|
  {
    calls == [] || (Legal(s, calls[0]) && LegalRun(Step(s, calls[0]), calls[1..]))
  }

  function Run(s: State, calls: seq<Call>): State
    decreases |calls|
  {
    if calls == [] then s else Run(Step(s, calls[0]), calls[1..])
  }

  /** The heap as `heap_init` leaves it: one free node of 16372 bytes. */
  function Fresh(lo: int): State {
    State([Node(lo, ARENA - HEADER, true)], map[])
  }

  /** The block is wide enough for its request, and at most 27 bytes too wide. */
  predicate Serves(n: Node, request: Word) {
    request <= n.size <= request + 27
  }

  /** A request is served exactly when rounding it up does not wrap. */
  predicate Accounted(n: Node, request: Word) {
    request > 0 && (Serves(n, request) <==> request <= MAX_REQUEST)
  }

  /** The live payloads are exactly the pointers handed out and not freed yet. */
  ghost predicate Sound(s: State, lo: int) {
    && lo > 0 && lo % 4 == 0 && Tidy(s.nodes, lo, lo + ARENA)
    && (forall n :: n in Live(s.nodes) ==> n.Payload() in s.asked && Accounted(n, s.asked[n.Payload()]))
    && (forall p :: p in s.asked ==> exists n :: n in Live(s.nodes) && n.Payload() == p)
  }

  lemma FreshSound(lo: int)
    requires lo > 0 && lo % 4 == 0
    ensures Sound(Fresh(lo), lo)
  {
    var ns := Fresh(lo).nodes;
    assert ns[1..] == [] && Tiles([], ns[0].End(), lo + ARENA);
    LiveOne(ns[0]);
  }

  lemma StepSound(s: State, lo: int, c: Call)
    requires Sound(s, lo) && Legal(s, c)
    ensures Sound(Step(s, c), lo)
  {
    match c
    case Malloc(request) => MallocSound(s, lo, request);
    case Free(ptr) => FreeSound(s, lo, ptr);
  }

  lemma MallocSound(s: State, lo: int, request: Word)
    requires Sound(s, lo)
    ensures Sound(Step(s, Malloc(request)), lo)
  {
    hide HeapList.Kmalloc, Tidy, Live;
    var b := KmallocMeaning(s.nodes, lo, lo + ARENA, request);
    var r := HeapList.Kmalloc(s.nodes, request);
    if r.ptr != 0 {
      var live := Live(r.nodes);
      GrantsMembers(Live(s.nodes), live, b);
      assert Accounted(b, request);
      var s' := State(r.nodes, s.asked[r.ptr := request]);
      forall p | p in s'.asked ensures exists n :: n in live && n.Payload() == p {
        if p == r.ptr { assert b in live; }
      }
    }
  }

  lemma FreeSound(s: State, lo: int, ptr: Word)
    requires Sound(s, lo)
    ensures Sound(Step(s, Free(ptr)), lo)
  {
    KfreeMeaning(s.nodes, lo, lo + ARENA, ptr);
    WithoutMembers(Live(s.nodes), ptr);
  }

  /** Every state of every legal run is sound. */
  lemma {:induction false} RunSound(s: State, lo: int, calls: seq<Call>)
    requires Sound(s, lo) && LegalRun(s, calls)
    ensures Sound(Run(s, calls), lo)
    decreases |calls|
  {
    if calls != [] {
      StepSound(s, lo, calls[0]);
      RunSound(Step(s, calls[0]), lo, calls[1..]);
    }
  }

  // ---- What soundness gives callers ----------------------------------------------------------

  /** Live payloads are word-aligned, inside the arena, and apart from each other, headers included. */
  lemma LiveBlocksApart(s: State, lo: int, x: Node, y: Node)
    requires Sound(s, lo) && x in Live(s.nodes) && y in Live(s.nodes)
    ensures x.Payload() % 4 == 0 && lo <= x.addr && x.End() <= lo + ARENA && x.size >= 0
    ensures x != y ==> x.End() <= y.addr || y.End() <= x.addr
    ensures x.Payload() == y.Payload() ==> x == y
  {
    LiveIndex(s.nodes, x);
    LiveIndex(s.nodes, y);
    var i :| 0 <= i < |s.nodes| && s.nodes[i] == x && !x.free;
    var j :| 0 <= j < |s.nodes| && s.nodes[j] == y && !y.free;
    TilesAt(s.nodes, lo, lo + ARENA, i);
    TilesAt(s.nodes, lo, lo + ARENA, j);
    if i < j {
      TilesOrder(s.nodes, lo, lo + ARENA, i, j);
    } else if j < i {
      TilesOrder(s.nodes, lo, lo + ARENA, j, i);
    }
  }

  /** The first request that wraps is granted a block of no bytes at all. */
  lemma WrappedRequest(lo: int)
    requires lo > 0 && lo % 4 == 0
    ensures var r := HeapList.Kmalloc(Fresh(lo).nodes, 0xFFFF_FFFD);
      r.ptr == lo + 12 && r.nodes[0] == Node(lo, 0, false)
  {
    var n := Fresh(lo).nodes[0];
    assert Carve(n, 0)[0] == Node(lo, 0, false);
  }

  // ---- Freeing everything --------------------------------------------------------------------

  function FreeAll(ns: seq<Node>, ptrs: seq<int>): seq<Node>
    decreases |ptrs|
  {
    if ptrs == [] then ns else FreeAll(HeapRelease.Kfree(ns, ptrs[0]), ptrs[1..])
  }

  lemma {:induction false} FreeAllLive(ns: seq<Node>, lo: int, hi: int, ptrs: seq<int>)
    requires Tidy(ns, lo, hi) && lo > 0
    ensures Tidy(FreeAll(ns, ptrs), lo, hi)
    ensures forall n :: n in Live(FreeAll(ns, ptrs)) <==> n in Live(ns) && n.Payload() !in ptrs
    decreases |ptrs|
  {
    if ptrs != [] {
      var freed := HeapRelease.Kfree(ns, ptrs[0]);
      KfreeMeaning(ns, lo, hi, ptrs[0]);
      WithoutMembers(Live(ns), ptrs[0]);
      FreeAllLive(freed, lo, hi, ptrs[1..]);
    }
  }

  lemma SomeMember(live: seq<Node>)
    ensures live == [] || exists n :: n in live
  {
    if live != [] { assert live[0] in live; }
  }

  /** Freeing every live pointer, in any order, gives back the single free node `heap_init` made. */
  lemma FreeAllRestores(s: State, lo: int, ptrs: seq<int>)
    requires Sound(s, lo) && forall p :: p in s.asked ==> p in ptrs
    ensures FreeAll(s.nodes, ptrs) == Fresh(lo).nodes == [Node(lo, 16372, true)]
  {
    var ns := FreeAll(s.nodes, ptrs);
    FreeAllLive(s.nodes, lo, lo + ARENA, ptrs);
    SomeMember(Live(ns));
    TidyIsLayout(ns, lo, lo + ARENA);
  }

  // ---- How long the list can get -------------------------------------------------------------

  /** No node has an empty payload. */
  ghost predicate Roomy(ns: seq<Node>) {
    forall n :: n in ns ==> n.size >= 4
  }

  /** Then every node takes at least 16 bytes, so the list has at most 1024 nodes. */
  lemma {:induction false} RoomyLength(ns: seq<Node>, lo: int, hi: int)
    requires Tiles(ns, lo, hi) && Roomy(ns)
    ensures 16 * |ns| <= hi - lo
  {
    if ns != [] {
      RoomyLength(ns[1..], ns[0].End(), hi);
    }
  }

  lemma {:induction false} CoalesceRoomy(ns: seq<Node>)
    requires Roomy(ns)
    ensures Roomy(Coalesce(ns))
    decreases |ns|
  {
    if |ns| >= 2 {
      if ns[0].free && ns[1].free {
        CoalesceRoomy([Merge(ns[0], ns[1])] + ns[2..]);
      } else {
        CoalesceRoomy(ns[1..]);
      }
    }
  }

  lemma StepRoomy(s: State, c: Call)
    requires Roomy(s.nodes) && (c.Malloc? ==> c.request <= MAX_REQUEST)
    ensures Roomy(Step(s, c).nodes)
  {
    match c
    case Malloc(request) =>
      var i := FirstFit(s.nodes, Round4(request));
      if i < |s.nodes| {
        assert Roomy(Carve(s.nodes[i], Round4(request))) || request == 0;
      }
    case Free(ptr) =>
      MarkEach(s.nodes, ptr);
      CoalesceRoomy(Mark(s.nodes, ptr));
  }

  lemma {:induction false} RunRoomy(s: State, lo: int, calls: seq<Call>)
    requires Sound(s, lo) && LegalRun(s, calls) && Roomy(s.nodes)
    requires forall c :: c in calls && c.Malloc? ==> c.request <= MAX_REQUEST
    ensures Roomy(Run(s, calls).nodes) && |Run(s, calls).nodes| <= 1024
    decreases |calls|
  {
    if calls == [] {
      RoomyLength(s.nodes, lo, lo + ARENA);
    } else {
      StepSound(s, lo, calls[0]);
      StepRoomy(s, calls[0]);
      RunRoomy(Step(s, calls[0]), lo, calls[1..]);
    }
  }

  // ---- The same run in memory ----------------------------------------------------------------

  /** The blocks that none of the calls frees. */
  ghost predicate Untouched(n: Node, calls: seq<Call>) {
    forall c :: c in calls && c.Free? ==> c.ptr != n.Payload()
  }

  /**
    Performs the calls on the heap in memory. The list evolves as `Run` says, no word outside the
    arena changes, and neither does any word of a block that stays live throughout.
  */
  method Perform(heap: Heap, ghost s: State, calls: seq<Call>)
    requires heap.Valid() && heap.nodes == s.nodes && Sound(s, heap.heapStart) && LegalRun(s, calls)
    modifies heap`nodes, heap.ram.words
    ensures heap.Valid() && heap.nodes == Run(s, calls).nodes
    ensures SameOutside(old(heap.ram.Image()), heap.ram.Image(), heap.heapStart, heap.Limit())
    ensures forall n :: n in Live(s.nodes) && Untouched(n, calls) ==>
      SameOn(old(heap.ram.Image()), heap.ram.Image(), n.Payload(), n.End())
    decreases |calls|
  {
    if calls != [] {
      ghost var s' := Step(s, calls[0]);
      StepSound(s, heap.heapStart, calls[0]);
      StepKeeps(s, heap.heapStart, calls[0]);
      match calls[0] {
        case Malloc(request) => var ptr := heap.Kmalloc(request);
        case Free(ptr) => heap.Kfree(ptr);
      }
      Perform(heap, s', calls[1..]);
    }
  }

  lemma StepKeeps(s: State, lo: int, c: Call)
    requires Sound(s, lo) && Legal(s, c)
    ensures forall n :: n in Live(s.nodes) && Untouched(n, [c]) ==> n in Live(Step(s, c).nodes)
  {
    match c
    case Malloc(request) =>
      var b := KmallocMeaning(s.nodes, lo, lo + ARENA, request);
      var r := HeapList.Kmalloc(s.nodes, request);
      if r.ptr != 0 { GrantsMembers(Live(s.nodes), Live(r.nodes), b); }
    case Free(ptr) =>
      KfreeMeaning(s.nodes, lo, lo + ARENA, ptr);
      WithoutMembers(Live(s.nodes), ptr);
      assert c in [c];
  }

  lemma {:induction false} RunKeeps(s: State, lo: int, calls: seq<Call>, n: Node)
    requires Sound(s, lo) && LegalRun(s, calls) && n in Live(s.nodes) && Untouched(n, calls)
    ensures n in Live(Run(s, calls).nodes)
    decreases |calls|
  {
    if calls != [] {
      StepSound(s, lo, calls[0]);
      StepKeeps(s, lo, calls[0]);
      RunKeeps(Step(s, calls[0]), lo, calls[1..], n);
    }
  }
}
