/** The scheduler over shared memory: `task_init`, `create_task`, `task_schedule`. */
module Tasks {
  import opened Words
  import opened HeapList
  import opened HeapRelease
  import opened KernelHeap
  import opened HeapOwners
  import opened HeapExact
  import opened RunQueue
  import opened Cpu
  import opened TaskMemory

  /** Two blocks of the heap, of 20 and 4096 bytes. */
  ghost predicate InHeap(ns: seq<Node>, t: Task) {
    Owns(ns, t.tcb, TCB_SIZE) && Owns(ns, t.lo, STACK_SIZE) && t.hi == t.lo + STACK_SIZE && t.tcb != t.lo
  }

  /** The main task lies below the arena, every other one in live blocks inside it. */
  ghost predicate HeapTasks(ns: seq<Node>, base: int, ring: seq<Task>) {
    && ring != [] && ring[0].tcb + TCB_SIZE <= base && ring[0].hi <= base
    && forall i :: 1 <= i < |ring| ==> InHeap(ns, ring[i])
  }

  /** What a task starts with: registers 0, interrupts on, an empty stack, at its entry point. */
  function Started(entryPoint: Word, top: Word): Regs {
    Regs(0, 0, 0, 0, 0, 0, 0, 0x202, top, entryPoint)
  }

  /** Heap traffic that spares live payloads spares every task. */
  lemma HeapTasksKept(m: Memory, m': Memory, ns: seq<Node>, base: int, ring: seq<Task>, i: nat)
    requires HeapTasks(ns, base, ring) && i < |ring|
    requires PayloadsKept(m, m', Live(ns)) && SameOutside(m, m', base, base + ARENA)
    ensures Kept(m, m', ring[i])
  {
    if i > 0 {
      OwnsKept(m, m', ns, ring[i].tcb, TCB_SIZE);
      OwnsKept(m, m', ns, ring[i].lo, STACK_SIZE);
    }
  }

  lemma NewTaskPlaced(ns: seq<Node>, base: int, t: Task)
    requires Tiles(ns, base, base + ARENA) && 0 < base && base % 4 == 0 && base + ARENA < WORD_RANGE && InHeap(ns, t)
    ensures Placed(t)
  {
    OwnsBounds(ns, base, base + ARENA, t.tcb, TCB_SIZE);
    OwnsBounds(ns, base, base + ARENA, t.lo, STACK_SIZE);
    OwnsApart(ns, base, base + ARENA, t.tcb, TCB_SIZE, t.lo, STACK_SIZE);
  }

  lemma InArena(ns: seq<Node>, base: int, t: Task)
    requires Tiles(ns, base, base + ARENA) && InHeap(ns, t)
    ensures base <= t.tcb && t.tcb + TCB_SIZE <= base + ARENA && base <= t.lo && t.hi <= base + ARENA
  {
    OwnsBounds(ns, base, base + ARENA, t.tcb, TCB_SIZE);
    OwnsBounds(ns, base, base + ARENA, t.lo, STACK_SIZE);
  }

  /** Tasks in different blocks are apart. */
  lemma NewTaskApart(ns: seq<Node>, base: int, s: Task, t: Task)
    requires Tiles(ns, base, base + ARENA) && InHeap(ns, s) && InHeap(ns, t)
    requires s.tcb != t.tcb && s.tcb != t.lo && s.lo != t.tcb && s.lo != t.lo
    ensures Apart(s, t) && Apart(t, s)
  {
    OwnsApart(ns, base, base + ARENA, s.tcb, TCB_SIZE, t.tcb, TCB_SIZE);
    OwnsApart(ns, base, base + ARENA, s.tcb, TCB_SIZE, t.lo, STACK_SIZE);
    OwnsApart(ns, base, base + ARENA, s.lo, STACK_SIZE, t.tcb, TCB_SIZE);
    OwnsApart(ns, base, base + ARENA, s.lo, STACK_SIZE, t.lo, STACK_SIZE);
  }

  /** A task whose blocks are new to the heap fits into the queue. */
  lemma NewTaskFits(before: seq<Node>, ns: seq<Node>, base: int, ring: seq<Task>, t: Task)
    requires Tiles(ns, base, base + ARENA) && 0 < base && base % 4 == 0 && base + ARENA < WORD_RANGE
    requires Separate(ring) && HeapTasks(before, base, ring) && HeapTasks(ns, base, ring) && InHeap(ns, t)
    requires !Owns(before, t.tcb, 0) && !Owns(before, t.lo, 0)
    ensures Separate(Inserted(ring, t)) && HeapTasks(ns, base, Inserted(ring, t))
  {
    NewTaskPlaced(ns, base, t);
    forall i | 0 <= i < |ring| ensures Apart(t, ring[i]) && Apart(ring[i], t) {
      if i == 0 {
        OwnsBounds(ns, base, base + ARENA, t.tcb, TCB_SIZE);
        OwnsBounds(ns, base, base + ARENA, t.lo, STACK_SIZE);
      } else {
        assert InHeap(before, ring[i]) && InHeap(ns, ring[i]);
        NewTaskApart(ns, base, ring[i], t);
      }
    }
    InsertedSeparate(ring, t);
    var ring' := Inserted(ring, t);
    forall i | 1 <= i < |ring'| ensures InHeap(ns, ring'[i]) {
      if i > 1 { assert ring'[i] == ring[i - 1]; }
    }
  }

  /** The arena has room for three stacks, so there are never more than four tasks. */
  lemma FourTasks(ns: seq<Node>, base: int, ring: seq<Task>)
    requires Tiles(ns, base, base + ARENA) && HeapTasks(ns, base, ring) && Separate(ring)
    ensures |ring| <= 4
  {
    if |ring| > 4 {
      assert forall i :: 1 <= i <= 4 ==> InHeap(ns, ring[i]);
      assert forall i, j :: 1 <= i < j <= 4 ==> Apart(ring[i], ring[j]);
      NoFourPages(ns, base, ring[1].lo, ring[2].lo, ring[3].lo, ring[4].lo);
    }
  }

  /** The queue lies in memory with its tasks apart from each other and owned by the heap. */
  ghost predicate TasksOk(m: Memory, ns: seq<Node>, base: int, ring: seq<Task>, cur: nat) {
    Separate(ring) && HeapTasks(ns, base, ring) && InMemory(m, ring, cur)
  }

  /** The newest task follows the head; pids count from 0 in the order of creation. */
  ghost predicate Numbered(ring: seq<Task>) {
    ring != [] && ring[0].id == 0 && forall i :: 1 <= i < |ring| ==> ring[i].id == |ring| - i
  }

  /** New tasks go right after the head: they are appended, as documented, only to a ring of one. */
  lemma AppendedOnlyAlone(ring: seq<Task>, t: Task)
    requires ring != [] && forall s :: s in ring ==> s.tcb != t.tcb
    ensures Inserted(ring, t) == ring + [t] <==> |ring| == 1
  {
    if |ring| > 1 {
      assert Inserted(ring, t)[1] == t && (ring + [t])[1] == ring[1] && ring[1] in ring;
    } else {
      assert Inserted(ring, t) == ring + [t];
    }
  }

  /** The task a schedule picks is in the state READY if and only if it is not the main task. */
  lemma PicksReadyUnlessMain(m: Memory, ring: seq<Task>, cur: nat)
    requires Separate(ring) && InMemory(m, ring, cur) && Numbered(ring) && cur < |ring|
    ensures var next := Next(|ring|, cur);
      && (m[ring[next].tcb + 12] == 0 <==> next != 0)
      && (m[ring[next].tcb + 12] == 1 <==> next == 0)
  {
    var next := Next(|ring|, cur);
    assert FieldsAt(m, ring[next], ring[Next(|ring|, next)].tcb);
  }

  lemma InsertedNumbered(ring: seq<Task>, t: Task)
    requires Numbered(ring) && t.id == |ring|
    ensures Numbered(Inserted(ring, t))
  {
    var ring' := Inserted(ring, t);
    forall i | 1 <= i < |ring'| ensures ring'[i].id == |ring'| - i {
      if i > 1 { assert ring'[i] == ring[i - 1]; }
    }
  }

  lemma DistinctPids(ring: seq<Task>, i: nat, j: nat)
    requires Numbered(ring) && i < j < |ring|
    ensures ring[i].id != ring[j].id && ring[i].id < |ring|
  {
  }

  /** The control blocks and frames of the queue, word by word. */
  lemma QueueWords(m: Memory, ring: seq<Task>, cur: nat, i: nat)
    requires Separate(ring) && InMemory(m, ring, cur) && i < |ring|
    ensures var t, next := ring[i], ring[if i + 1 < |ring| then i + 1 else 0];
      && m[t.tcb] == t.id && m[t.tcb + 12] == (if t.id == 0 then 1 else 0) && m[t.tcb + 16] == next.tcb
      && (t.id != 0 ==> m[t.tcb + 8] == t.lo)
    ensures i != cur ==> var t, sp := ring[i], m[ring[i].tcb + 4];
      && t.lo <= sp && sp + 36 == t.saved.esp <= t.hi && m[sp] == t.saved.eflags && m[sp + 4] == t.saved.ebp
      && m[sp + 8] == t.saved.edi && m[sp + 12] == t.saved.esi && m[sp + 16] == t.saved.edx && m[sp + 20] == t.saved.ecx
      && m[sp + 24] == t.saved.ebx && m[sp + 28] == t.saved.eax && m[sp + 32] == t.saved.eip
  {
    assert FieldsAt(m, ring[i], ring[Next(|ring|, i)].tcb);
    if i != cur { assert ParkedAt(m, ring[i]); }
  }

  /** What linking a new task writes: its two blocks and the head's `next` pointer. */
  ghost predicate OnlyNew(m: Memory, m': Memory, t: Task, head: Word) {
    forall a :: 0 <= a < WORD_RANGE && !(t.tcb <= a < t.tcb + TCB_SIZE) && !(t.lo <= a < t.hi) && a != head + NEXT ==>
      m'[a] == m[a]
  }

  /** The new task's blocks are filled in and linked after the head. */
  ghost predicate NewWritten(m: Memory, m': Memory, t: Task, head: Word) {
    && Placed(t) && head + NEXT < WORD_RANGE && OnlyNew(m, m', t, head) && m'[head + NEXT] == t.tcb
    && FieldsAt(m', t, m[head + NEXT]) && ParkedAt(m', t)
  }

  lemma SparedByNew(m: Memory, m': Memory, t: Task, head: Word, s: Task)
    requires OnlyNew(m, m', t, head) && Placed(t) && Placed(s) && Apart(t, s)
    requires s.tcb == head || !(s.tcb <= head + NEXT < s.tcb + TCB_SIZE)
    requires !(s.lo <= head + NEXT < s.hi)
    ensures KeptButNext(m, m', s) && (s.tcb != head ==> m'[s.tcb + NEXT] == m[s.tcb + NEXT])
  {
  }

  lemma EnlistedInMemory(m: Memory, m': Memory, ring: seq<Task>, cur: nat, t: Task)
    requires Separate(ring) && InMemory(m, ring, cur) && Separate(Inserted(ring, t)) && NewWritten(m, m', t, ring[0].tcb)
    ensures InMemory(m', Inserted(ring, t), After(cur))
    ensures forall k :: 0 <= k < |ring| ==> SameOn(m, m', ring[k].lo, ring[k].hi)
  {
    hide Resumed;
    var ring' := Inserted(ring, t);
    forall k | 0 <= k < |ring|
      ensures KeptButNext(m, m', ring[k])
      ensures m'[ring[k].tcb + NEXT] == if k == 0 then t.tcb else m[ring[k].tcb + NEXT]
    {
      hide ParkedAt, FieldsAt;
      assert ring'[After(k)] == ring[k] && Apart(ring'[1], ring'[After(k)]);
      if k > 0 { assert Apart(ring[0], ring[k]); }
      SparedByNew(m, m', t, ring[0].tcb, ring[k]);
    }
    InsertedInMemory(m, m', ring, cur, t);
  }

  /** Frame first, then control block: together they leave the task parked and linked. */
  lemma EnlistedWrites(m: Memory, m1: Memory, m2: Memory, t: Task, head: Word, top: Word)
    requires Placed(t) && t.hi == t.lo + STACK_SIZE && head + TCB_SIZE < WORD_RANGE
    requires Disjoint(head, head + TCB_SIZE, t.lo, t.hi) && Disjoint(head, head + TCB_SIZE, t.tcb, t.tcb + TCB_SIZE)
    requires top == t.hi - FRAME && Resumed(m1, top) == t.saved && SameOutside(m, m1, t.lo, t.hi)
    requires m2[t.tcb] == t.id && m2[t.tcb + ESP] == top && m2[t.tcb + NEXT] == m1[head + NEXT]
    requires m2[t.tcb + STATE] == TASK_READY && m2[t.tcb + STACK] == t.lo && t.id != 0
    requires m2[head + NEXT] == t.tcb
    requires forall a :: 0 <= a < WORD_RANGE && !(t.tcb <= a < t.tcb + TCB_SIZE) && a != head + NEXT ==> m2[a] == m1[a]
    ensures NewWritten(m, m2, t, head)
  {
    ResumedFrame(m1, m2, top);
  }

  lemma EnlistedHeaders(m: Memory, m': Memory, ns: seq<Node>, base: int, t: Task, head: Word)
    requires Tiles(ns, base, base + ARENA) && InHeap(ns, t) && head + TCB_SIZE <= base && OnlyNew(m, m', t, head)
    ensures HeadersKept(m, m', ns)
  {
    forall n | n in ns ensures SameOn(m, m', n.addr, n.Payload()) {
      HeaderApart(ns, base, base + ARENA, n, t.tcb, TCB_SIZE);
      HeaderApart(ns, base, base + ARENA, n, t.lo, STACK_SIZE);
      HeaderInside(ns, base, base + ARENA, n);
    }
  }

  /** Another allocation leaves the tasks alone. */
  lemma AllocationSpares(m: Memory, m': Memory, ns: seq<Node>, ns': seq<Node>, base: int, ring: seq<Task>, cur: nat)
    requires TasksOk(m, ns, base, ring, cur)
    requires BlocksKept(m, m', ns, ns') && SameOutside(m, m', base, base + ARENA)
    ensures TasksOk(m', ns', base, ring, cur)
    ensures ParkedIntact(m, m', ring, cur)
  {
    forall i | 0 <= i < |ring| ensures Kept(m, m', ring[i]) && (i > 0 ==> InHeap(ns', ring[i])) {
      if i > 0 { assert InHeap(ns, ring[i]); }
    }
    AllKept(m, m', ring, cur);
  }

  /** So does releasing a block that no task owns. */
  lemma ReleaseSpares(m: Memory, m': Memory, ns': seq<Node>, base: int, ring: seq<Task>, cur: nat)
    requires Separate(ring) && InMemory(m, ring, cur) && HeapTasks(ns', base, ring)
    requires PayloadsKept(m, m', Live(ns')) && SameOutside(m, m', base, base + ARENA)
    ensures TasksOk(m', ns', base, ring, cur)
    ensures ParkedIntact(m, m', ring, cur)
  {
    forall i | 0 <= i < |ring| ensures Kept(m, m', ring[i]) {
      HeapTasksKept(m, m', ns', base, ring, i);
    }
    AllKept(m, m', ring, cur);
  }

  /** A task's own writes spare the heap's headers. */
  lemma OwnWrites(m: Memory, m': Memory, ns: seq<Node>, base: int, ring: seq<Task>, i: nat)
    requires Tiles(ns, base, base + ARENA) && HeapTasks(ns, base, ring) && i < |ring| && Only(m, m', ring[i])
    ensures HeadersKept(m, m', ns) && SameOutside(m, m', 0, base + ARENA)
  {
    if i > 0 { InArena(ns, base, ring[i]); }
    forall n | n in ns ensures SameOn(m, m', n.addr, n.Payload()) {
      HeaderInside(ns, base, base + ARENA, n);
      if i > 0 {
        HeaderApart(ns, base, base + ARENA, n, ring[i].tcb, TCB_SIZE);
        HeaderApart(ns, base, base + ARENA, n, ring[i].lo, STACK_SIZE);
      }
    }
  }

  /** Arguments and frame lie below the stack pointer, and where they start is in `slot`; nothing else has changed. */
  ghost predicate ContextStored(m: Memory, m': Memory, slot: int, r: Regs, ret: Word) {
    && 44 <= r.esp && 0 <= slot < WORD_RANGE && m'[slot] == r.esp - 44 && Resumed(m', r.esp - 44) == AtCall(r, ret)
    && forall a :: 0 <= a < WORD_RANGE && !(r.esp - 44 <= a < r.esp) && a != slot ==> m'[a] == m[a]
  }

  /** Pushing arguments and frame on a task's stack and storing its stack pointer parks it. */
  lemma ParksOne(m: Memory, m': Memory, t: Task, r: Regs, ret: Word)
    requires Placed(t) && t.lo + 44 <= r.esp <= t.hi && r.esp % 4 == 0 && ContextStored(m, m', t.tcb + ESP, r, ret)
    ensures Only(m, m', t) && ParkedAt(m', t.(saved := AtCall(r, ret))) && SameOn(m, m', r.esp, t.hi)
    ensures m'[t.tcb] == m[t.tcb] && m'[t.tcb + STATE] == m[t.tcb + STATE] && m'[t.tcb + NEXT] == m[t.tcb + NEXT]
    ensures m'[t.tcb + STACK] == m[t.tcb + STACK]
  {
  }

  /** The queue afterwards, with the next task's frame still in place. */
  lemma Parks(m: Memory, m': Memory, ring: seq<Task>, cur: nat, next: nat, r: Regs, ret: Word)
    requires Separate(ring) && InMemory(m, ring, cur) && next < |ring| && next != cur
    requires ring[cur].lo + 44 <= r.esp <= ring[cur].hi && r.esp % 4 == 0
    requires ContextStored(m, m', ring[cur].tcb + ESP, r, ret)
    ensures Only(m, m', ring[cur])
    ensures Separate(Switched(ring, cur, AtCall(r, ret))) && InMemory(m', Switched(ring, cur, AtCall(r, ret)), next)
    ensures m'[ring[next].tcb + ESP] == m[ring[next].tcb + ESP]
    ensures Resumed(m', m[ring[next].tcb + ESP]) == ring[next].saved
    ensures ParkedIntact(m, m', ring, cur)
    ensures SameOn(m, m', r.esp, ring[cur].hi)
  {
    hide ContextStored, Resumed;
    assert Placed(ring[cur]) && Apart(ring[cur], ring[next]);
    assert FieldsAt(m, ring[cur], ring[Next(|ring|, cur)].tcb);
    ParksOne(m, m', ring[cur], r, ret);
    SwitchedInMemory(m, m', ring, cur, next, AtCall(r, ret));
    forall i | 0 <= i < |ring| && i != cur ensures SameOn(m, m', ring[i].lo, ring[i].hi) {
      OnlyKeepsOthers(m, m', ring[cur], ring[i]);
    }
    OnlyKeepsOthers(m, m', ring[cur], ring[next]);
    ResumedFrame(m, m', m[ring[next].tcb + ESP]);
  }

  /** Parking the running task writes only below its stack pointer and to its `esp` field. */
  ghost predicate OnlyParked(m: Memory, m': Memory, ring: seq<Task>, cur: nat, esp: int, limit: int)
    requires cur < |ring|
  {
    && SameOutside(m, m', 0, limit) && ParkedIntact(m, m', ring, cur)
    && Only(m, m', ring[cur]) && SameOn(m, m', esp, ring[cur].hi)
  }

  lemma ParksOk(m: Memory, m': Memory, ns: seq<Node>, base: int, ring: seq<Task>, cur: nat, next: nat, r: Regs, ret: Word)
    requires Tiles(ns, base, base + ARENA) && TasksOk(m, ns, base, ring, cur) && next < |ring| && next != cur
    requires ring[cur].lo + 44 <= r.esp <= ring[cur].hi && r.esp % 4 == 0
    requires ContextStored(m, m', ring[cur].tcb + ESP, r, ret)
    ensures TasksOk(m', ns, base, Switched(ring, cur, AtCall(r, ret)), next) && HeadersKept(m, m', ns)
    ensures OnlyParked(m, m', ring, cur, r.esp, base + ARENA)
    ensures Resumed(m', m[ring[next].tcb + ESP]) == ring[next].saved
  {
    Parks(m, m', ring, cur, next, r, ret);
    OwnWrites(m, m', ns, base, ring, cur);
    var ring' := Switched(ring, cur, AtCall(r, ret));
    forall i | 1 <= i < |ring'| ensures InHeap(ns, ring'[i]) {
      assert InHeap(ns, ring[i]);
    }
  }

  lemma SwitchReady(m: Memory, ring: seq<Task>, cur: nat, next: nat, esp: Word)
    requires Separate(ring) && InMemory(m, ring, cur) && next < |ring| && next != cur
    requires ring[cur].lo + 44 <= esp <= ring[cur].hi
    ensures CanSwitch(m, ring[cur], ring[next], esp)
  {
    assert Placed(ring[cur]) && Placed(ring[next]) && ParkedAt(m, ring[next]);
    ReadyPair(m, ring[cur], ring[next], esp);
  }

  ghost predicate CanSwitch(m: Memory, s: Task, t: Task, esp: Word) {
    && s.tcb + ESP < WORD_RANGE && (s.tcb + ESP) % 4 == 0 && !(esp - 44 <= s.tcb + ESP < esp)
    && t.tcb + ESP < WORD_RANGE && (t.tcb + ESP) % 4 == 0
    && m[t.tcb + ESP] % 4 == 0 && m[t.tcb + ESP] + FRAME < WORD_RANGE
  }

  lemma ReadyPair(m: Memory, s: Task, t: Task, esp: Word)
    requires Placed(s) && Placed(t) && ParkedAt(m, t) && s.lo + 44 <= esp <= s.hi
    ensures CanSwitch(m, s, t, esp)
  {
  }

  lemma NextPointer(m: Memory, ring: seq<Task>, cur: nat)
    requires Separate(ring) && InMemory(m, ring, cur)
    ensures ring[cur].tcb + NEXT < WORD_RANGE && (ring[cur].tcb + NEXT) % 4 == 0
    ensures var k := Next(|ring|, cur);
      m[ring[cur].tcb + NEXT] == ring[k].tcb && (ring[k].tcb == ring[cur].tcb <==> |ring| == 1)
  {
    hide ParkedAt;
    var k := Next(|ring|, cur);
    assert FieldsAt(m, ring[cur], ring[k].tcb);
    assert Placed(ring[cur]);
    if k != cur { assert Apart(ring[cur], ring[k]); }
  }

  /** Writes of the running task to its own stack. */
  lemma ComputesOk(m: Memory, m': Memory, ns: seq<Node>, base: int, ring: seq<Task>, cur: nat)
    requires Tiles(ns, base, base + ARENA) && TasksOk(m, ns, base, ring, cur)
    requires SameOutside(m, m', ring[cur].lo, ring[cur].hi)
    ensures TasksOk(m', ns, base, ring, cur) && HeadersKept(m, m', ns) && SameOutside(m, m', 0, base + ARENA)
    ensures ParkedIntact(m, m', ring, cur)
  {
    OwnWrites(m, m', ns, base, ring, cur);
    forall i | 0 <= i < |ring|
      ensures FieldsAt(m', ring[i], ring[Next(|ring|, i)].tcb) && (i != cur ==> ParkedAt(m', ring[i]))
      ensures i != cur ==> SameOn(m, m', ring[i].lo, ring[i].hi)
    {
      assert FieldsAt(m, ring[i], ring[Next(|ring|, i)].tcb) && Placed(ring[i]);
      if i != cur {
        assert Apart(ring[cur], ring[i]);
        OnlyKeepsOthers(m, m', ring[cur], ring[i]);
        StaysParked(m, m', ring[i]);
      }
    }
  }

  /** The two blocks are new to the heap since it had the nodes `before`. */
  ghost predicate NewBlocks(before: seq<Node>, ns: seq<Node>, t: Task) {
    InHeap(ns, t) && !Owns(before, t.tcb, 0) && !Owns(before, t.lo, 0)
  }

  lemma ReadyToWrite(ns: seq<Node>, base: int, ring: seq<Task>, t: Task)
    requires Tiles(ns, base, base + ARENA) && 0 < base && base % 4 == 0 && base + ARENA < WORD_RANGE
    requires InHeap(ns, t) && HeapTasks(ns, base, ring) && Separate(ring)
    ensures Placed(t) && Placed(ring[0])
    ensures Disjoint(ring[0].tcb, ring[0].tcb + TCB_SIZE, t.lo, t.hi)
    ensures Disjoint(ring[0].tcb, ring[0].tcb + TCB_SIZE, t.tcb, t.tcb + TCB_SIZE)
  {
    NewTaskPlaced(ns, base, t);
    InArena(ns, base, t);
  }

  lemma EnlistedOk(m0: Memory, m: Memory, m': Memory, before: seq<Node>, ns: seq<Node>, base: int,
      ring: seq<Task>, cur: nat, t: Task)
    requires Tiles(ns, base, base + ARENA) && 0 < base && base % 4 == 0 && base + ARENA < WORD_RANGE
    requires TasksOk(m, ns, base, ring, cur) && HeapTasks(before, base, ring) && NewBlocks(before, ns, t)
    requires NewWritten(m, m', t, ring[0].tcb) && BlocksKept(m0, m, before, ns)
    ensures TasksOk(m', ns, base, Inserted(ring, t), After(cur)) && HeadersKept(m, m', ns)
    ensures SameOutside(m, m', 0, base + ARENA) && |Inserted(ring, t)| <= 4
    ensures ParkedIntact(m, m', ring, cur) && BlocksKept(m0, m', before, ns)
  {
    NewTaskFits(before, ns, base, ring, t);
    InArena(ns, base, t);
    EnlistedInMemory(m, m', ring, cur, t);
    EnlistedHeaders(m, m', ns, base, t, ring[0].tcb);
    FourTasks(ns, base, Inserted(ring, t));
    NewBlocksOnly(m0, m, m', before, ns, base, t, ring[0].tcb);
  }

  /** The writes of a creation spare every block that was there before. */
  lemma NewBlocksOnly(m: Memory, m1: Memory, m2: Memory, before: seq<Node>, ns: seq<Node>, base: int, t: Task, head: Word)
    requires Tiles(ns, base, base + ARENA) && NewBlocks(before, ns, t) && OnlyNew(m1, m2, t, head) && head + TCB_SIZE <= base
    requires BlocksKept(m, m1, before, ns)
    ensures BlocksKept(m, m2, before, ns)
  {
    forall p, size | Owns(before, p, size) ensures SameOn(m, m2, p, p + size) {
      if size >= 0 {
        assert Owns(before, p, 0);
        OwnsApart(ns, base, base + ARENA, p, size, t.tcb, TCB_SIZE);
        OwnsApart(ns, base, base + ARENA, p, size, t.lo, STACK_SIZE);
        OwnsBounds(ns, base, base + ARENA, p, size);
      }
    }
  }

  /** A task's own writes spare every block but its own. */
  lemma OthersSpared(m: Memory, m': Memory, ns: seq<Node>, base: int, ring: seq<Task>, i: nat, p: int, size: int)
    requires Tiles(ns, base, base + ARENA) && HeapTasks(ns, base, ring) && i < |ring| && Only(m, m', ring[i])
    requires Owns(ns, p, size) && size >= 0 && (i > 0 ==> p != ring[i].tcb && p != ring[i].lo)
    ensures SameOn(m, m', p, p + size)
  {
    OwnsBounds(ns, base, base + ARENA, p, size);
    if i > 0 {
      assert InHeap(ns, ring[i]);
      OwnsApart(ns, base, base + ARENA, p, size, ring[i].tcb, TCB_SIZE);
      OwnsApart(ns, base, base + ARENA, p, size, ring[i].lo, STACK_SIZE);
    }
  }

  /** The main task alone, below the arena. */
  lemma AloneOk(m: Memory, m': Memory, ns: seq<Node>, base: int, main: Task)
    requires Tiles(ns, base, base + ARENA) && Placed(main) && main.tcb + TCB_SIZE <= base && main.hi <= base && main.id == 0
    requires m'[main.tcb] == 0 && m'[main.tcb + STATE] == TASK_RUNNING && m'[main.tcb + NEXT] == main.tcb
    requires SameOutside(m, m', main.tcb, main.tcb + TCB_SIZE)
    ensures TasksOk(m', ns, base, [main], 0) && HeadersKept(m, m', ns)
  {
    forall n | n in ns ensures SameOn(m, m', n.addr, n.Payload()) {
      HeaderInside(ns, base, base + ARENA, n);
    }
  }

  class Scheduler {
    const heap: Heap
    const machine: Machine
    const mainTask: Word
    var currentTask: Word
    var taskList: Word
    var nextPid: Word

    /** The run queue in ring order from the main task, and the position of the running task. */
    ghost var ring: seq<Task>
    ghost var cur: nat

    /** The scheduler and the processor as a value. */
    ghost function Q(): Queue
      reads this, machine
    {
      Queue(ring, cur, machine.regs)
    }

    ghost function Image(): Memory
      requires heap.ram.Valid()
      reads heap.ram.words
    {
      heap.ram.Image()
    }

    /** Head, running task and pids agree with the ring: the newest task follows the head. */
    ghost predicate Indexed()
      reads this
    {
      && cur < |ring| <= 4
      && taskList == mainTask == ring[0].tcb && currentTask == ring[cur].tcb
      && nextPid == |ring| && Numbered(ring)
    }

    ghost predicate Valid()
      reads this, heap, heap.ram.words
    {
      && heap.Valid() && machine.ram == heap.ram
      && Indexed() && TasksOk(Image(), heap.nodes, heap.heapStart, ring, cur)
    }

    constructor (heap: Heap, machine: Machine, mainTask: Word)
      ensures this.heap == heap && this.machine == machine && this.mainTask == mainTask && nextPid == 1
    {
      this.heap, this.machine, this.mainTask := heap, machine, mainTask;
      currentTask, taskList, nextPid := 0, 0, 1;
      ring, cur := [], 0;
    }

    /** `task_init`: the running context becomes task 0, alone in the ring. */
    method TaskInit(ghost lo: Word, ghost hi: Word)
      requires heap.Valid() && machine.ram == heap.ram && nextPid == 1
      requires var main := Task(mainTask, 0, lo, hi, machine.regs);
        Placed(main) && mainTask + TCB_SIZE <= heap.heapStart && hi <= heap.heapStart
      modifies `currentTask, `taskList, `ring, `cur, heap.ram.words
      ensures Valid() && Q() == Queue([Task(mainTask, 0, lo, hi, machine.regs)], 0, machine.regs)
      ensures Image()[mainTask] == Image()[mainTask + 4] == 0 && Image()[mainTask + 12] == 1 && Image()[mainTask + 16] == mainTask
      ensures SameOutside(old(Image()), Image(), mainTask, mainTask + TCB_SIZE)
    {
      ghost var main := Task(mainTask, 0, lo, hi, machine.regs);
      WriteMain();
      AloneOk(old(Image()), Image(), heap.nodes, heap.heapStart, main);
      heap.HeadersSuffice(old(Image()));
      currentTask := mainTask;
      taskList := mainTask;
      ring, cur := [main], 0;
    }

    method WriteMain()
      requires heap.ram.Valid() && mainTask % 4 == 0 && mainTask + TCB_SIZE < WORD_RANGE
      modifies heap.ram.words
      ensures Image()[mainTask] == 0 && Image()[mainTask + STATE] == TASK_RUNNING && Image()[mainTask + NEXT] == mainTask
      ensures Image()[mainTask + ESP] == 0
      ensures SameOutside(old(Image()), Image(), mainTask, mainTask + TCB_SIZE)
    {
      heap.ram.Write(mainTask, 0);
      heap.ram.Write(mainTask + ESP, 0);
      heap.ram.Write(mainTask + STATE, TASK_RUNNING);
      heap.ram.Write(mainTask + NEXT, mainTask);
    }

    /** The upper part of the initial frame: EIP, EAX, EBX, ECX, EDX. */
    method WriteEntry(end: Word, entryPoint: Word) returns (top: Word)
      requires heap.ram.Valid() && end % 4 == 0 && end >= FRAME
      modifies heap.ram.words
      ensures top == end - 20 && Image()[top + 16] == entryPoint
      ensures Image()[top + 12] == Image()[top + 8] == Image()[top + 4] == Image()[top] == 0
      ensures SameOutside(old(Image()), Image(), top, end)
    {
      top := end - 4;
      heap.ram.Write(top, entryPoint);
      top := top - 4;
      heap.ram.Write(top, 0);
      top := top - 4;
      heap.ram.Write(top, 0);
      top := top - 4;
      heap.ram.Write(top, 0);
      top := top - 4;
      heap.ram.Write(top, 0);
    }

    /** The initial frame, written downwards from the end of the stack. */
    method WriteFrame(stack: Word, entryPoint: Word) returns (top: Word)
      requires heap.ram.Valid() && stack % 4 == 0 && stack + STACK_SIZE < WORD_RANGE
      modifies heap.ram.words
      ensures top == stack + 4060 && Image()[top] == 0x202 && Image()[top + 32] == entryPoint
      ensures forall k :: 1 <= k <= 7 ==> Image()[top + 4 * k] == 0
      ensures Resumed(Image(), top) == Started(entryPoint, stack + STACK_SIZE)
      ensures SameOutside(old(Image()), Image(), stack, stack + STACK_SIZE)
    {
      top := stack + 4 * 1024;
      top := WriteEntry(top, entryPoint);
      top := top - 4;
      heap.ram.Write(top, 0);
      top := top - 4;
      heap.ram.Write(top, 0);
      top := top - 4;
      heap.ram.Write(top, 0);
      top := top - 4;
      heap.ram.Write(top, 0x202);
    }

    /** The fields of a new control block, and its place in the ring after the head. */
    method WriteTask(newTask: Word, id: Word, esp: Word, stack: Word)
      requires heap.ram.Valid() && newTask % 4 == 0 && newTask + TCB_SIZE < WORD_RANGE
      requires taskList % 4 == 0 && taskList + TCB_SIZE < WORD_RANGE
      requires Disjoint(newTask, newTask + TCB_SIZE, taskList, taskList + TCB_SIZE)
      modifies heap.ram.words
      ensures var m, m' := old(Image()), Image();
        && m'[newTask] == id && m'[newTask + ESP] == esp && m'[newTask + STACK] == stack
        && m'[newTask + STATE] == TASK_READY
        && m'[newTask + NEXT] == m[taskList + NEXT] && m'[taskList + NEXT] == newTask
        && forall a :: 0 <= a < WORD_RANGE && !(newTask <= a < newTask + TCB_SIZE) && a != taskList + NEXT ==> m'[a] == m[a]
    {
      heap.ram.Write(newTask, id);
      heap.ram.Write(newTask + ESP, esp);
      heap.ram.Write(newTask + STACK, stack);
      heap.ram.Write(newTask + STATE, TASK_READY);
      var first := heap.ram.Read(taskList + NEXT);
      heap.ram.Write(newTask + NEXT, first);
      heap.ram.Write(taskList + NEXT, newTask);
    }

    /** All writes of a creation. */
    method WriteNew(ghost t: Task, newTask: Word, stack: Word, entryPoint: Word)
      requires heap.ram.Valid() && Placed(t) && t.tcb == newTask && t.lo == stack && t.hi == t.lo + STACK_SIZE
      requires t.id == nextPid != 0 && t.saved == Started(entryPoint, t.hi) && stack + STACK_SIZE < WORD_RANGE
      requires taskList % 4 == 0 && taskList + TCB_SIZE < WORD_RANGE
      requires Disjoint(taskList, taskList + TCB_SIZE, t.lo, t.hi)
      requires Disjoint(taskList, taskList + TCB_SIZE, t.tcb, t.tcb + TCB_SIZE)
      modifies heap.ram.words
      ensures NewWritten(old(Image()), Image(), t, taskList)
    {
      ghost var m := Image();
      var top := WriteFrame(stack, entryPoint);
      ghost var m1 := Image();
      WriteTask(newTask, nextPid, top, stack);
      EnlistedWrites(m, m1, Image(), t, taskList, top);
    }

    /** The task's blocks are new to the heap since it had the nodes `before`, and it is ready to start. */
    ghost predicate Reserved(before: seq<Node>, t: Task, entryPoint: Word)
      reads this, heap
    {
      && HeapTasks(before, heap.heapStart, ring) && NewBlocks(before, heap.nodes, t)
      && t.id == nextPid && t.saved == Started(entryPoint, t.hi)
      && forall s :: s in ring ==> s.tcb != t.tcb
    }

    /** Fills in two new blocks and links the task in memory. */
    method LinkNew(ghost t: Task, newTask: Word, stack: Word, entryPoint: Word, ghost m: Memory, ghost before: seq<Node>)
      requires Valid() && Reserved(before, t, entryPoint) && t.tcb == newTask && t.lo == stack
      requires BlocksKept(m, Image(), before, heap.nodes)
      modifies heap.ram.words
      ensures heap.Valid() && TasksOk(Image(), heap.nodes, heap.heapStart, Inserted(ring, t), After(cur))
      ensures |ring| < 4 && SameOutside(old(Image()), Image(), 0, heap.Limit())
      ensures BlocksKept(m, Image(), before, heap.nodes)
      ensures ParkedIntact(old(Image()), Image(), old(ring), old(cur))
    {
      ReadyToWrite(heap.nodes, heap.heapStart, ring, t);
      WriteNew(t, newTask, stack, entryPoint);
      EnlistedOk(m, old(Image()), Image(), before, heap.nodes, heap.heapStart, ring, cur, t);
      heap.HeadersSuffice(old(Image()));
    }

    /** Links the task and counts it. */
    method Enlist(ghost t: Task, newTask: Word, stack: Word, entryPoint: Word, ghost m: Memory, ghost before: seq<Node>)
      requires Valid() && Reserved(before, t, entryPoint) && t.tcb == newTask && t.lo == stack
      requires BlocksKept(m, Image(), before, heap.nodes)
      modifies `nextPid, `ring, `cur, heap.ram.words
      ensures Valid() && Possible(old(Q()), Create(t)) && Q() == Step(old(Q()), Create(t))
      ensures BlocksKept(m, Image(), before, heap.nodes)
      ensures SameOutside(old(Image()), Image(), 0, heap.Limit())
      ensures ParkedIntact(old(Image()), Image(), old(ring), old(cur))
    {
      hide BlocksKept, ParkedIntact, TasksOk;
      LinkNew(t, newTask, stack, entryPoint, m, before);
      nextPid := nextPid + 1;
      InsertedNumbered(ring, t);
      ring, cur := Inserted(ring, t), After(cur);
    }

    /** `kmalloc` called by anyone: the tasks do not notice. */
    method Kmalloc(request: Word) returns (ptr: Word)
      requires Valid()
      modifies heap`nodes, heap.ram.words
      ensures Valid() && Allocation(heap.nodes, ptr) == HeapList.Kmalloc(old(heap.nodes), request)
      ensures BlocksKept(old(Image()), Image(), old(heap.nodes), heap.nodes)
      ensures if ptr == 0 then heap.nodes == old(heap.nodes)
              else Owns(heap.nodes, ptr, Round4(request)) && !Owns(old(heap.nodes), ptr, 0)
      ensures SameOutside(old(Image()), Image(), heap.heapStart, heap.Limit())
      ensures ParkedIntact(old(Image()), Image(), old(ring), old(cur))
    {
      GrantOwns(heap.nodes, heap.heapStart, request);
      ptr := heap.Kmalloc(request);
      AllocationKeepsBlocks(old(Image()), Image(), old(heap.nodes), heap.nodes);
      AllocationSpares(old(Image()), Image(), old(heap.nodes), heap.nodes, heap.heapStart, ring, cur);
    }

    /** `kfree` of a live block that belongs to no task. */
    method Kfree(ptr: Word)
      requires Valid() && Owns(heap.nodes, ptr, 0)
      requires forall i :: 1 <= i < |ring| ==> ring[i].tcb != ptr && ring[i].lo != ptr
      modifies heap`nodes, heap.ram.words
      ensures Valid() && heap.nodes == HeapRelease.Kfree(old(heap.nodes), ptr)
      ensures PayloadsKept(old(Image()), Image(), Live(heap.nodes))
      ensures SameOutside(old(Image()), Image(), heap.heapStart, heap.Limit())
      ensures ParkedIntact(old(Image()), Image(), old(ring), old(cur))
    {
      ReleaseOwns(heap.nodes, heap.heapStart, ptr);
      OwnedIsLive(heap.nodes, ptr);
      heap.Kfree(ptr);
      ReleaseSpares(old(Image()), Image(), heap.nodes, heap.heapStart, ring, cur);
    }

    /** The two allocations of a creation; when the second fails the first is undone. */
    method AllocatePair() returns (newTask: Word, stack: Word)
      requires Valid()
      modifies heap`nodes, heap.ram.words
      ensures Valid() && PairOrNone(old(heap.nodes), heap.nodes, newTask, stack)
      ensures BlocksKept(old(Image()), Image(), old(heap.nodes), heap.nodes)
      ensures SameOutside(old(Image()), Image(), heap.heapStart, heap.Limit())
    {
      stack := 0;
      newTask := AllocateControlBlock();
      if newTask != 0 {
        stack := AllocateStack(newTask, old(Image()), old(heap.nodes));
        if stack == 0 { newTask := 0; }
      }
    }

    /** `newTask` is the control block just allocated in a heap that had the nodes `before` and memory `m`. */
    ghost predicate Holding(m: Memory, before: seq<Node>, newTask: Word)
      requires heap.ram.Valid()
      reads this, heap, heap.ram.words
    {
      && Tidy(before, heap.heapStart, heap.Limit()) && HeapTasks(before, heap.heapStart, ring)
      && newTask != 0 && Allocation(heap.nodes, newTask) == HeapList.Kmalloc(before, 20)
      && Owns(heap.nodes, newTask, TCB_SIZE) && !Owns(before, newTask, 0) && BlocksKept(m, Image(), before, heap.nodes)
    }

    method AllocateControlBlock() returns (newTask: Word)
      requires Valid()
      modifies heap`nodes, heap.ram.words
      ensures Valid() && BlocksKept(old(Image()), Image(), old(heap.nodes), heap.nodes)
      ensures if newTask == 0 then PairOrNone(old(heap.nodes), heap.nodes, 0, 0)
              else Holding(old(Image()), old(heap.nodes), newTask)
      ensures SameOutside(old(Image()), Image(), heap.heapStart, heap.Limit())
    {
      NoPair(heap.nodes);
      assert Tidy(heap.nodes, heap.heapStart, heap.Limit()) && HeapTasks(heap.nodes, heap.heapStart, ring);
      newTask := Kmalloc(20);
    }

    /** The second allocation, after the control block came out of a heap with the nodes `before`. */
    method AllocateStack(newTask: Word, ghost m: Memory, ghost before: seq<Node>) returns (stack: Word)
      requires Valid() && Holding(m, before, newTask)
      modifies heap`nodes, heap.ram.words
      ensures Valid() && PairOrNone(before, heap.nodes, if stack == 0 then 0 else newTask, stack)
      ensures BlocksKept(m, Image(), before, heap.nodes)
      ensures SameOutside(old(Image()), Image(), heap.heapStart, heap.Limit())
    {
      stack := AllocateStackBlock(newTask, m, before);
      if stack == 0 {
        Undo(newTask, m, before);
      }
    }

    method AllocateStackBlock(newTask: Word, ghost m: Memory, ghost before: seq<Node>) returns (stack: Word)
      requires Valid() && Holding(m, before, newTask)
      modifies heap`nodes, heap.ram.words
      ensures Valid() && BlocksKept(m, Image(), before, heap.nodes)
      ensures if stack == 0 then Holding(m, before, newTask) && !RoomForTask(before)
              else PairOrNone(before, heap.nodes, newTask, stack)
      ensures SameOutside(old(Image()), Image(), heap.heapStart, heap.Limit())
    {
      hide PairOrNone, RoomForTask, BlocksKept, TasksOk, Tiles, Linked, NoAdjacentFree, Live, HeapTasks;
      stack := Kmalloc(4096);
      BlocksKeptTwice(m, old(Image()), Image(), before, old(heap.nodes), heap.nodes);
      SecondBlock(m, old(Image()), before, old(heap.nodes), heap.nodes, heap.heapStart, newTask, stack);
    }

    /** Frees the control block just allocated in a heap that had the nodes `before`. */
    method Undo(newTask: Word, ghost m: Memory, ghost before: seq<Node>)
      requires Valid() && Holding(m, before, newTask)
      modifies heap`nodes, heap.ram.words
      ensures Valid() && heap.nodes == before && BlocksKept(m, Image(), before, before)
      ensures SameOutside(old(Image()), Image(), heap.heapStart, heap.Limit())
    {
      KmallocThenKfree(before, heap.heapStart, heap.Limit(), 20);
      NotOwnedByTasks(before, heap.heapStart, ring, newTask);
      Kfree(newTask);
      ReleasedKeeps(m, old(Image()), Image(), before, old(heap.nodes));
    }

    /**
      `create_task`. On success the new task, with a fresh pid, follows the head and is parked to start
      at its entry point; on failure heap list, ring and pid counter are as before.
    */
    method CreateTask(entryPoint: Word) returns (newTask: Word, ghost t: Task)
      requires Valid()
      modifies `nextPid, `ring, `cur, heap`nodes, heap.ram.words
      ensures Valid() && (newTask == 0 <==> !RoomForTask(old(heap.nodes)))
      ensures newTask == 0 ==> heap.nodes == old(heap.nodes) && Q() == old(Q()) && nextPid == old(nextPid)
      ensures newTask != 0 ==>
        && IsNew(t, newTask, old(nextPid), entryPoint)
        && Possible(old(Q()), Create(t)) && Q() == Step(old(Q()), Create(t))
        && NewBlocks(old(heap.nodes), heap.nodes, t) && PairTaken(old(heap.nodes), heap.nodes, t.tcb, t.lo)
      ensures BlocksKept(old(Image()), Image(), old(heap.nodes), heap.nodes)
      ensures SameOutside(old(Image()), Image(), 0, heap.Limit())
      ensures ParkedIntact(old(Image()), Image(), old(ring), old(cur))
    {
      hide BlocksKept, RoomForTask, PairTaken, InMemory;
      var stack;
      newTask, stack := AllocatePair();
      AllocationSpares(old(Image()), Image(), old(heap.nodes), heap.nodes, heap.heapStart, ring, cur);
      t := StartedAt(newTask, nextPid, stack, entryPoint);
      if newTask != 0 {
        EnlistNew(t, newTask, stack, entryPoint, old(Image()), old(heap.nodes));
      }
    }

    /** Links a task whose blocks are new since the heap had the nodes `before`. */
    method EnlistNew(ghost t: Task, newTask: Word, stack: Word, entryPoint: Word, ghost m: Memory, ghost before: seq<Node>)
      requires Valid() && newTask != 0 && PairOrNone(before, heap.nodes, newTask, stack)
      requires t == StartedAt(newTask, nextPid, stack, entryPoint)
      requires HeapTasks(before, heap.heapStart, ring) && BlocksKept(m, Image(), before, heap.nodes)
      modifies `nextPid, `ring, `cur, heap.ram.words
      ensures Valid() && Possible(old(Q()), Create(t)) && Q() == Step(old(Q()), Create(t))
      ensures BlocksKept(m, Image(), before, heap.nodes)
      ensures SameOutside(old(Image()), Image(), 0, heap.Limit())
      ensures ParkedIntact(old(Image()), Image(), old(ring), old(cur))
    {
      NewToRing(before, heap.nodes, heap.heapStart, ring, newTask);
      Enlist(t, newTask, stack, entryPoint, m, before);
    }

    /** The running task has room on its stack for a call of `switch_to_task`. */
    ghost predicate Room()
      reads this, machine
    {
      && cur < |ring|
      && ring[cur].lo + 44 <= machine.regs.esp <= ring[cur].hi && machine.regs.esp % 4 == 0
    }

    /** The call of `switch_to_task` with its arguments and return address on the stack. */
    method CallSwitch(oldEsp: Word, newEsp: Word, ret: Word)
      requires machine.ram == heap.ram && heap.ram.Valid()
      requires 44 <= machine.regs.esp && machine.regs.esp % 4 == 0
      requires oldEsp % 4 == 0 && !(machine.regs.esp - 44 <= oldEsp < machine.regs.esp)
      requires newEsp % 4 == 0 && newEsp + FRAME < WORD_RANGE
      modifies machine, heap.ram.words
      ensures ContextStored(old(Image()), Image(), oldEsp, old(machine.regs), ret)
      ensures machine.regs == Resumed(Image(), newEsp)
    {
      machine.Push(newEsp);
      machine.Push(oldEsp);
      machine.Push(ret);
      machine.SwitchToTask();
    }

    /** The words the switch reads and writes. */
    method SwitchWords(oldTask: Word, newTask: Word, ghost next: nat, ret: Word)
      requires heap.ram.Valid() && machine.ram == heap.ram && Room() && next < |ring| && next != cur
      requires Tiles(heap.nodes, heap.heapStart, heap.Limit())
      requires TasksOk(Image(), heap.nodes, heap.heapStart, ring, cur)
      requires oldTask == ring[cur].tcb && newTask == ring[next].tcb
      modifies machine, heap.ram.words
      ensures HeadersKept(old(Image()), Image(), heap.nodes) && machine.regs == ring[next].saved
      ensures TasksOk(Image(), heap.nodes, heap.heapStart, Switched(ring, cur, AtCall(old(machine.regs), ret)), next)
      ensures OnlyParked(old(Image()), Image(), old(ring), old(cur), old(machine.regs).esp, heap.Limit())
    {
      hide OnlyParked, Resumed, ContextStored, HeadersKept, CanSwitch;
      ghost var m, r := Image(), machine.regs;
      SwitchReady(m, ring, cur, next, r.esp);
      ExchangeContexts(oldTask, newTask, ring[cur], ring[next], ret);
      ParksOk(m, Image(), heap.nodes, heap.heapStart, ring, cur, next, r, ret);
    }

    /** The arguments are read and the switch is called. */
    method ExchangeContexts(oldTask: Word, newTask: Word, ghost s: Task, ghost t: Task, ret: Word)
      requires heap.ram.Valid() && machine.ram == heap.ram && oldTask == s.tcb && newTask == t.tcb
      requires 44 <= machine.regs.esp && machine.regs.esp % 4 == 0 && CanSwitch(Image(), s, t, machine.regs.esp)
      modifies machine, heap.ram.words
      ensures ContextStored(old(Image()), Image(), s.tcb + ESP, old(machine.regs), ret)
      ensures machine.regs == Resumed(Image(), old(Image())[t.tcb + ESP])
    {
      var newEsp := heap.ram.Read(newTask + ESP);
      CallSwitch(oldTask + ESP, newEsp, ret);
    }

    /** Parks the running task and resumes its successor, which `current_task` names already. */
    method SwitchTo(oldTask: Word, newTask: Word, ret: Word)
      requires Consistent() && Room() && |ring| > 1
      requires oldTask == ring[cur].tcb && newTask == currentTask == ring[Next(|ring|, cur)].tcb
      requires |ring| <= 4 && taskList == mainTask == ring[0].tcb && nextPid == |ring| && Numbered(ring)
      modifies `ring, `cur, machine, heap.ram.words
      ensures HandedOver(old(Image()), old(Q()), ret)
    {
      hide OnlyParked, TasksOk;
      ghost var q := Step(Q(), Schedule(ret));
      StepSwitches(Q(), ret);
      SwitchMemory(oldTask, newTask, ret);
      ring, cur := q.ring, q.cur;
      assert Indexed();
      assert Consistent();
    }

    method SwitchMemory(oldTask: Word, newTask: Word, ret: Word)
      requires Consistent() && Room() && |ring| > 1
      requires oldTask == ring[cur].tcb && newTask == ring[Next(|ring|, cur)].tcb
      modifies machine, heap.ram.words
      ensures var q := Step(old(Q()), Schedule(ret));
        machine.regs == q.regs && heap.Valid() && TasksOk(Image(), heap.nodes, heap.heapStart, q.ring, q.cur)
      ensures OnlyParked(old(Image()), Image(), ring, cur, old(machine.regs).esp, heap.Limit())
    {
      StepSwitches(Q(), ret);
      SwitchWords(oldTask, newTask, Next(|ring|, cur), ret);
      heap.HeadersSuffice(old(Image()));
    }

    /** The invariant without the scheduler's own variables. */
    ghost predicate Consistent()
      reads this, heap, heap.ram.words
    {
      heap.Valid() && machine.ram == heap.ram && TasksOk(Image(), heap.nodes, heap.heapStart, ring, cur)
    }

    lemma HasStarted()
      requires Valid()
      ensures currentTask != 0
    {
      assert Placed(ring[cur]);
    }

    /** `task_schedule`: does nothing before `task_init`; then it hands over. */
    method TaskSchedule(ret: Word)
      requires heap.ram.Valid() && (currentTask != 0 ==> Valid() && Room())
      modifies `currentTask, `ring, `cur, machine, heap.ram.words
      ensures old(currentTask) == 0 ==> Q() == old(Q()) && Image() == old(Image()) && currentTask == 0
      ensures old(currentTask) != 0 ==> HandedOver(old(Image()), old(Q()), ret)
    {
      if currentTask == 0 { return; }
      HandOver(ret);
    }

    /** One scheduling step from memory `m` and queue `q`, as the parked tasks and the heap see it. */
    ghost predicate HandedOver(m: Memory, q: Queue, ret: Word)
      reads this, machine, heap, heap.ram.words
    {
      && Valid() && q.cur < |q.ring| && Possible(q, Schedule(ret)) && Q() == Step(q, Schedule(ret))
      && OnlyParked(m, Image(), q.ring, q.cur, q.regs.esp, heap.Limit())
    }

    /** The running task is parked as at the call, and its successor resumes. */
    method HandOver(ret: Word)
      requires Valid() && Room()
      modifies `currentTask, `ring, `cur, machine, heap.ram.words
      ensures HandedOver(old(Image()), old(Q()), ret)
    {
      var newTask := Successor();
      var oldTask := currentTask;
      currentTask := newTask;
      if oldTask != currentTask {
        SwitchTo(oldTask, newTask, ret);
      }
    }

    /** `current_task->next`. */
    method Successor() returns (next: Word)
      requires heap.ram.Valid() && Separate(ring) && InMemory(Image(), ring, cur) && currentTask == ring[cur].tcb
      ensures next == ring[Next(|ring|, cur)].tcb
      ensures next == currentTask <==> |ring| == 1
    {
      NextPointer(Image(), ring, cur);
      next := heap.ram.Read(currentTask + NEXT);
    }

    /** The running task computes: any registers, and a word of its own stack. */
    method Compute(regs: Regs, a: Word, v: Word)
      requires Valid() && a % 4 == 0 && ring[cur].lo <= a < ring[cur].hi
      modifies machine`regs, heap.ram.words
      ensures Valid() && Q() == Step(old(Q()), Execute(regs))
      ensures SameOutside(old(Image()), Image(), 0, heap.Limit())
      ensures ParkedIntact(old(Image()), Image(), old(ring), old(cur))
      ensures Only(old(Image()), Image(), old(ring)[old(cur)])
    {
      machine.regs := regs;
      heap.ram.Write(a, v);
      ComputesOk(old(Image()), Image(), heap.nodes, heap.heapStart, ring, cur);
      heap.HeadersSuffice(old(Image()));
    }
  }

  lemma StepSwitches(q: Queue, ret: Word)
    requires q.cur < |q.ring| && |q.ring| > 1 && q.regs.esp >= 8
    ensures var next := Next(|q.ring|, q.cur);
      Step(q, Schedule(ret)) == Queue(Switched(q.ring, q.cur, AtCall(q.regs, ret)), next, q.ring[next].saved)
    ensures Numbered(q.ring) ==> Numbered(Step(q, Schedule(ret)).ring)
    ensures forall i :: 0 <= i < |q.ring| ==> Step(q, Schedule(ret)).ring[i].tcb == q.ring[i].tcb
  {
  }

  lemma NewToRing(before: seq<Node>, ns: seq<Node>, base: int, ring: seq<Task>, p: Word)
    requires HeapTasks(before, base, ring) && !Owns(before, p, 0)
    requires Tiles(ns, base, base + ARENA) && Owns(ns, p, 0)
    ensures forall t :: t in ring ==> t.tcb != p
  {
    NotOwnedByTasks(before, base, ring, p);
    OwnsBounds(ns, base, base + ARENA, p, 0);
  }

  /** A just created task: its pid, a 4 KB stack, and a frame that enters the entry point. */
  ghost predicate IsNew(t: Task, tcb: Word, pid: Word, entryPoint: Word) {
    t.tcb == tcb && t.id == pid && t.hi == t.lo + STACK_SIZE && t.saved == Started(entryPoint, t.hi)
  }

  /** A new task in its two blocks, ready to start. */
  function StartedAt(tcb: Word, id: Word, stack: Word, entryPoint: Word): Task {
    var top := AsWord(stack + STACK_SIZE);
    Task(tcb, id, stack, top, Started(entryPoint, top))
  }

  /** The allocations of `create_task`: two new blocks, or none and the node list of before. */
  ghost predicate PairOrNone(before: seq<Node>, ns: seq<Node>, tcb: Word, stack: Word) {
    if tcb == 0 then stack == 0 && ns == before && !RoomForTask(before)
    else
      && RoomForTask(before) && stack != 0 && tcb != stack && stack + STACK_SIZE < WORD_RANGE
      && !Owns(before, tcb, 0) && !Owns(before, stack, 0)
      && Owns(ns, tcb, TCB_SIZE) && Owns(ns, stack, STACK_SIZE) && PairTaken(before, ns, tcb, stack)
  }

  lemma SecondBlock(m: Memory, m1: Memory, before: seq<Node>, mid: seq<Node>, ns: seq<Node>, base: int, tcb: Word, stack: Word)
    requires tcb != 0 && Allocation(mid, tcb) == HeapList.Kmalloc(before, 20)
    requires Allocation(ns, stack) == HeapList.Kmalloc(mid, 4096)
    requires Owns(mid, tcb, TCB_SIZE) && !Owns(before, tcb, 0) && BlocksKept(m, m1, before, mid)
    requires Tiles(ns, base, base + ARENA) && base + ARENA < WORD_RANGE
    requires stack != 0 ==>
      Owns(ns, stack, STACK_SIZE) && !Owns(mid, stack, 0) && forall p, size :: Owns(mid, p, size) ==> Owns(ns, p, size)
    ensures if stack == 0 then !RoomForTask(before) else PairOrNone(before, ns, tcb, stack)
  {
    if stack != 0 {
      OwnsBounds(ns, base, base + ARENA, stack, STACK_SIZE);
      assert Owns(mid, tcb, 0);
    }
  }

  lemma NoPair(ns: seq<Node>)
    ensures HeapList.Kmalloc(ns, 20).ptr == 0 ==> PairOrNone(ns, ns, 0, 0)
  {
  }

  /** The two blocks, and the node list, after the allocations of `create_task`. */
  ghost predicate PairTaken(before: seq<Node>, ns: seq<Node>, tcb: int, stack: int) {
    var r := HeapList.Kmalloc(before, 20);
    tcb == r.ptr && Allocation(ns, stack) == HeapList.Kmalloc(r.nodes, 4096)
  }

  /**
    The first switch to a new task, whatever runs before it: the processor is at the entry point with its
    general registers 0, EFLAGS 0x202 and the stack pointer at the end of the task's 4096 bytes.
  */
  lemma FirstSwitch(q: Queue, t: Task, entryPoint: Word, es: seq<Event>)
    requires q.Ok() && Possible(q, Create(t)) && IsNew(t, t.tcb, t.id, entryPoint)
    requires CanRun(Step(q, Create(t)), es) && ParkedUntil(Step(q, Create(t)), es, t.tcb)
    requires Run(Step(q, Create(t)), es).Running(t.tcb)
    ensures var r := Run(Step(q, Create(t)), es).regs;
      && r.eip == entryPoint && r.eflags == 0x202 && r.esp == t.lo + 4096 == t.hi
      && r.eax == r.ebx == r.ecx == r.edx == r.esi == r.edi == r.ebp == 0
  {
    var q1 := Step(q, Create(t));
    StepOk(q, Create(t));
    assert q1.ring[1] == t && q1.cur != 1;
    ResumesWithSaved(q1, es, t.tcb);
  }

  function AsWord(x: int): Word {
    if 0 <= x < WORD_RANGE then x else 0
  }

  /** The task that `create_task` makes when both allocations succeed. */
  function NewTask(ns: seq<Node>, id: int, entryPoint: Word): Task {
    var r := HeapList.Kmalloc(ns, 20);
    StartedAt(AsWord(r.ptr), AsWord(id), AsWord(HeapList.Kmalloc(r.nodes, 4096).ptr), entryPoint)
  }

  /** The node list after both allocations. */
  function NodesWithTask(ns: seq<Node>): seq<Node> {
    HeapList.Kmalloc(HeapList.Kmalloc(ns, 20).nodes, 4096).nodes
  }

  lemma IsNewTask(before: seq<Node>, ns: seq<Node>, t: Task, tcb: Word, id: Word, entryPoint: Word)
    requires IsNew(t, tcb, id, entryPoint) && PairTaken(before, ns, t.tcb, t.lo)
    ensures t == NewTask(before, id, entryPoint) && ns == NodesWithTask(before)
  {
  }

  /** Both allocations of `create_task` succeed. */
  ghost predicate RoomForTask(ns: seq<Node>) {
    var r := HeapList.Kmalloc(ns, 20);
    r.ptr != 0 && HeapList.Kmalloc(r.nodes, 4096).ptr != 0
  }

  /**
    Creation in terms of the unallocated bytes: it takes the lowest run of 32 for the control block and
    then the lowest run of 4108 for the stack, and fails exactly when one of these does not exist.
  */
  lemma CreationTakes(ns: seq<Node>, base: int, id: Word, entryPoint: Word)
    requires Tidy(ns, base, base + ARENA) && 0 < base && base + ARENA < WORD_RANGE
    ensures var mid := HeapList.Kmalloc(ns, 20).nodes;
      && (RoomForTask(ns) <==>
           HasRun(Live(ns), base, base + 16384, 32) && HasRun(Live(mid), base, base + 16384, 4108))
      && (RoomForTask(ns) ==> var t := NewTask(ns, id, entryPoint);
           && t.id == id && LowestRun(Live(ns), base, base + 16384, t.tcb - 12, 32)
           && LowestRun(Live(mid), base, base + 16384, t.lo - 12, 4108))
  {
    hide HeapList.Kmalloc, Tidy, Live;
    var mid := HeapList.Kmalloc(ns, 20).nodes;
    var b := KmallocMeaning(ns, base, base + ARENA, 20);
    RoomInRun(ns, base, base + ARENA, 20);
    var c := KmallocMeaning(mid, base, base + ARENA, 4096);
    RoomInRun(mid, base, base + ARENA, 4096);
  }

  lemma OwnedIsLive(ns: seq<Node>, p: int)
    requires Owns(ns, p, 0)
    ensures exists n :: n in Live(ns) && n.Payload() == p
  {
  }

  lemma NotOwnedByTasks(ns: seq<Node>, base: int, ring: seq<Task>, p: int)
    requires HeapTasks(ns, base, ring) && !Owns(ns, p, 0)
    ensures forall i :: 1 <= i < |ring| ==> ring[i].tcb != p && ring[i].lo != p
  {
    forall i | 1 <= i < |ring| ensures ring[i].tcb != p && ring[i].lo != p {
      assert InHeap(ns, ring[i]);
    }
  }
}
