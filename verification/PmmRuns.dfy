/** What holds of the physical memory manager after any number of calls. */
module PmmRuns {
  import opened Words
  import opened Bits
  import opened PhysicalMemory

  datatype Call = Alloc | Free(addr: Word)

  /** The free blocks, and the blocks handed out and not given back. */
  datatype State = State(free: set<int>, live: set<int>)

  /** One call: what `pmm_alloc_block` and `pmm_free_block` do to the sets, with the pointer returned. */
  ghost predicate Step(s: State, c: Call, s': State, r: int) {
    match c
    case Alloc =>
      if s.free == {} then r == 0 && s' == s
      else exists b :: IsLeast(b, s.free) && r == b * BLOCK_SIZE && s' == State(s.free - {b}, s.live + {b})
    case Free(addr) =>
      addr / BLOCK_SIZE in s.live && r == 0
      && s' == State(s.free + {addr / BLOCK_SIZE}, s.live - {addr / BLOCK_SIZE})
  }

  /** A run that frees only live blocks: state i, call i, state i + 1. */
  ghost predicate IsRun(states: seq<State>, calls: seq<Call>, results: seq<int>) {
    && |states| == |calls| + 1 && |results| == |calls|
    && forall i :: 0 <= i < |calls| ==> Step(states[i], calls[i], states[i + 1], results[i])
  }

  ghost predicate Partition(s: State, all: set<int>) {
    s.free !! s.live && s.free + s.live == all
  }

  lemma {:induction false} RunPartition(states: seq<State>, calls: seq<Call>, results: seq<int>, all: set<int>, i: nat)
    requires IsRun(states, calls, results) && states[0] == State(all, {}) && i < |states|
    ensures Partition(states[i], all)
  {
    if i > 0 {
      RunPartition(states, calls, results, all, i - 1);
      assert Step(states[i - 1], calls[i - 1], states[i], results[i - 1]);
    }
  }

  /**
    In every run from `pmm_init`, an allocation fails exactly when no block is free; otherwise it
    returns a 4 KB-aligned address of at least 1 MB whose block is not live already.
  */
  lemma AllocationIsFresh(states: seq<State>, calls: seq<Call>, results: seq<int>, memSize: Word, i: nat)
    requires IsRun(states, calls, results) && states[0] == State(Usable(memSize), {})
    requires i < |calls| && calls[i].Alloc?
    ensures results[i] == 0 <==> states[i].free == {}
    ensures results[i] != 0 ==>
      && results[i] % BLOCK_SIZE == 0 && results[i] >= 0x10_0000
      && results[i] / BLOCK_SIZE !in states[i].live && results[i] / BLOCK_SIZE in states[i + 1].live
  {
    RunPartition(states, calls, results, Usable(memSize), i);
    assert Step(states[i], calls[i], states[i + 1], results[i]);
    if states[i].free != {} {
      var b :| IsLeast(b, states[i].free) && results[i] == b * BLOCK_SIZE
               && states[i + 1] == State(states[i].free - {b}, states[i].live + {b});
      assert b in Usable(memSize);
      assert results[i] / BLOCK_SIZE == b;
    }
  }

  /** Every call of the run frees a live block only. */
  ghost predicate CanPerform(s: State, calls: seq<Call>)
    decreases |calls|
  {
    calls == [] || (
      && (calls[0].Free? ==> calls[0].addr / BLOCK_SIZE in s.live)
      && forall s', r :: Step(s, calls[0], s', r) ==> CanPerform(s', calls[1..]))
  }

  /** The run on the bitmap: whatever is called, it is a run of the sets, and `free` is where it ends. */
  method Perform(pmm: Pmm, calls: seq<Call>, ghost live: set<int>) returns (results: seq<Word>, ghost states: seq<State>)
    requires pmm.Valid() && CanPerform(State(pmm.free, live), calls)
    requires forall b :: b in live ==> 0 <= b < pmm.maxBlocks
    modifies pmm`free, pmm`usedBlocks, pmm.bitmap
    ensures pmm.Valid() && IsRun(states, calls, results)
    ensures states[0] == State(old(pmm.free), live) && states[|calls|].free == pmm.free
    decreases |calls|
  {
    ghost var s := State(pmm.free, live);
    if calls == [] {
      return [], [s];
    }
    var r, s' := PerformOne(pmm, calls[0], live);
    var rs, ss := Perform(pmm, calls[1..], s'.live);
    results, states := [r] + rs, [s] + ss;
    RunLonger(s, calls, r, ss, rs);
  }

  method PerformOne(pmm: Pmm, c: Call, ghost live: set<int>) returns (r: Word, ghost s': State)
    requires pmm.Valid() && (c.Free? ==> c.addr / BLOCK_SIZE in live)
    requires forall b :: b in live ==> 0 <= b < pmm.maxBlocks
    modifies pmm`free, pmm`usedBlocks, pmm.bitmap
    ensures pmm.Valid() && Step(State(old(pmm.free), live), c, s', r) && s'.free == pmm.free
    ensures forall b :: b in s'.live ==> 0 <= b < pmm.maxBlocks
  {
    match c {
      case Alloc =>
        r := pmm.AllocBlock();
        s' := State(pmm.free, if old(pmm.free) == {} then live else live + {r / BLOCK_SIZE});
      case Free(addr) =>
        pmm.FreeBlock(addr);
        r := 0;
        s' := State(pmm.free, live - {addr / BLOCK_SIZE});
    }
  }

  lemma RunLonger(s: State, calls: seq<Call>, r: int, states: seq<State>, results: seq<int>)
    requires calls != [] && IsRun(states, calls[1..], results) && Step(s, calls[0], states[0], r)
    ensures IsRun([s] + states, calls, [r] + results)
  {
    var ss, rs := [s] + states, [r] + results;
    forall i | 0 <= i < |calls| ensures Step(ss[i], calls[i], ss[i + 1], rs[i]) {
      if i > 0 { assert calls[1..][i - 1] == calls[i]; }
    }
  }

  /**
    Takes `n` blocks and gives them back in the given order, which mentions each of them: bitmap and
    counter end up as they were, word for word.
  */
  method TakeAndReturn(pmm: Pmm, n: nat, order: seq<nat>)
    requires pmm.Valid() && n <= |pmm.free| && |order| == n
    requires forall i :: 0 <= i < n ==> i in order
    requires forall k :: 0 <= k < n ==> order[k] < n
    modifies pmm`free, pmm`usedBlocks, pmm.bitmap
    ensures pmm.Valid() && pmm.free == old(pmm.free)
    ensures pmm.bitmap[..] == old(pmm.bitmap[..]) && pmm.usedBlocks == old(pmm.usedBlocks)
  {
    var taken: seq<Word> := [];
    for i := 0 to n
      invariant pmm.Valid() && |taken| == i && pmm.free <= old(pmm.free) && |pmm.free| == |old(pmm.free)| - i
      invariant forall b :: b in old(pmm.free) && b !in pmm.free ==> Among(taken, b)
      invariant forall k :: 0 <= k < i ==> taken[k] / BLOCK_SIZE in old(pmm.free)
    {
      ghost var before := taken;
      var addr := pmm.AllocBlock();
      taken := taken + [addr];
      assert forall b :: Among(before, b) ==> Among(taken, b) by {
        forall b | Among(before, b) ensures Among(taken, b) {
          var k :| 0 <= k < |before| && before[k] / BLOCK_SIZE == b;
          assert taken[k] / BLOCK_SIZE == b;
        }
      }
      assert Among(taken, addr / BLOCK_SIZE) by { assert taken[i] == addr; }
    }
    for j := 0 to n
      invariant pmm.Valid() && pmm.free <= old(pmm.free)
      invariant forall b :: b in old(pmm.free) && b !in pmm.free ==> Among(taken, b)
      invariant forall k :: 0 <= k < j ==> taken[order[k]] / BLOCK_SIZE in pmm.free
    {
      pmm.FreeBlock(taken[order[j]]);
    }
    forall b | b in old(pmm.free) ensures b in pmm.free {
      assert b in pmm.free || Among(taken, b);
      if Among(taken, b) {
        var k :| 0 <= k < n && taken[k] / BLOCK_SIZE == b;
        assert k in order;
      }
    }
    BitmapFromUsed(pmm.bitmap[..], old(pmm.bitmap[..]));
  }

  ghost predicate Among(taken: seq<Word>, b: int) {
    exists k :: 0 <= k < |taken| && taken[k] / BLOCK_SIZE == b
  }

  /**
    The shell's `testmem` takes a block and frees what it got. That restores the free blocks if and only
    if there was one; with none left it frees block 0, whose address is the null it was given.
  */
  method TestBlock(pmm: Pmm) returns (ptr: Word)
    requires pmm.Valid()
    modifies pmm`free, pmm`usedBlocks, pmm.bitmap
    ensures pmm.Valid()
    ensures pmm.free == old(pmm.free) <==> old(pmm.free) != {} || pmm.maxBlocks == 0
    ensures pmm.free == old(pmm.free) || (ptr == 0 && pmm.free == {0})
  {
    ptr := pmm.AllocBlock();
    pmm.FreeBlock(ptr);
    assert 0 in {0};
  }

  /** Memory of 1 MB leaves no block, and so `testmem` frees block 0 there. */
  method TestBlockWithoutMemory(pmm: Pmm) returns (ptr: Word)
    requires pmm.bitmap.Length == 128
    modifies pmm, pmm.bitmap
    ensures pmm.Valid() && ptr == 0 && pmm.free == {0}
  {
    pmm.Init(0x10_0000);
    assert forall b :: b !in pmm.free;
    assert pmm.free == {};
    ptr := TestBlock(pmm);
  }
}
