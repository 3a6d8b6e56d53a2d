/** How the run queue lies in memory: control blocks, stacks and saved frames, all apart from each other. */
module TaskMemory {
  import opened Words
  import opened RunQueue
  import opened Cpu

  /** `sizeof(task_t)` and the offsets of its fields. */
  const TCB_SIZE: int := 20
  const ESP: int := 4
  const STACK: int := 8
  const STATE: int := 12
  const NEXT: int := 16

  const STACK_SIZE: int := 4096

  const TASK_READY: Word := 0
  const TASK_RUNNING: Word := 1

  /** What the `state` field holds for good: the main task starts as running, every other one as ready. */
  function StateOf(t: Task): Word {
    if t.id == 0 then TASK_RUNNING else TASK_READY
  }

  ghost predicate Disjoint(a: int, b: int, c: int, d: int) {
    b <= c || d <= a
  }

  ghost predicate Placed(t: Task) {
    && t.tcb % 4 == 0 && 0 < t.tcb && t.tcb + TCB_SIZE < WORD_RANGE
    && t.lo % 4 == 0 && t.lo <= t.hi && Disjoint(t.tcb, t.tcb + TCB_SIZE, t.lo, t.hi)
  }

  /** Control blocks and stacks of two tasks share no byte. */
  ghost predicate Apart(s: Task, t: Task) {
    && Disjoint(s.tcb, s.tcb + TCB_SIZE, t.tcb, t.tcb + TCB_SIZE)
    && Disjoint(s.tcb, s.tcb + TCB_SIZE, t.lo, t.hi)
    && Disjoint(s.lo, s.hi, t.tcb, t.tcb + TCB_SIZE)
    && Disjoint(s.lo, s.hi, t.lo, t.hi)
  }

  ghost predicate Separate(ring: seq<Task>) {
    && (forall i :: 0 <= i < |ring| ==> Placed(ring[i]))
    && (forall i, j :: 0 <= i < |ring| && 0 <= j < |ring| && i != j ==> Apart(ring[i], ring[j]))
  }

  /** A complete frame lies inside the task's stack and resumes it with its saved registers. */
  ghost predicate ParkedAt(m: Memory, t: Task)
    requires Placed(t)
  {
    var sp := m[t.tcb + ESP];
    t.lo <= sp && sp + FRAME <= t.hi && sp % 4 == 0 && Resumed(m, sp) == t.saved
  }

  ghost predicate FieldsAt(m: Memory, t: Task, next: Word)
    requires Placed(t)
  {
    && m[t.tcb] == t.id && m[t.tcb + STATE] == StateOf(t) && m[t.tcb + NEXT] == next
    && (t.id != 0 ==> m[t.tcb + STACK] == t.lo)
  }

  /** The `next` pointers form one cycle in ring order; every task but the running one is parked. */
  ghost predicate InMemory(m: Memory, ring: seq<Task>, cur: nat)
    requires Separate(ring)
  {
    && cur < |ring|
    && (forall i :: 0 <= i < |ring| ==> FieldsAt(m, ring[i], ring[Next(|ring|, i)].tcb))
    && (forall i :: 0 <= i < |ring| && i != cur ==> ParkedAt(m, ring[i]))
  }

  /** No word of the task's control block or stack has changed. */
  ghost predicate Kept(m: Memory, m': Memory, t: Task) {
    SameOn(m, m', t.tcb, t.tcb + TCB_SIZE) && SameOn(m, m', t.lo, t.hi)
  }

  /** Only words of the task's control block and stack have changed. */
  ghost predicate Only(m: Memory, m': Memory, t: Task) {
    forall a :: 0 <= a < WORD_RANGE && !(t.tcb <= a < t.tcb + TCB_SIZE) && !(t.lo <= a < t.hi) ==> m[a] == m'[a]
  }

  /** No word of a parked task's stack has changed. */
  ghost predicate ParkedIntact(m: Memory, m': Memory, ring: seq<Task>, cur: nat) {
    forall i :: 0 <= i < |ring| && i != cur ==> SameOn(m, m', ring[i].lo, ring[i].hi)
  }

  lemma StaysParked(m: Memory, m': Memory, t: Task)
    requires Placed(t) && ParkedAt(m, t) && Kept(m, m', t)
    ensures ParkedAt(m', t)
  {
    ResumedFrame(m, m', m[t.tcb + ESP]);
  }

  lemma OnlyKeepsOthers(m: Memory, m': Memory, s: Task, t: Task)
    requires Apart(s, t) && Only(m, m', s)
    ensures Kept(m, m', t)
  {
  }

  lemma AllKept(m: Memory, m': Memory, ring: seq<Task>, cur: nat)
    requires Separate(ring) && InMemory(m, ring, cur)
    requires forall i :: 0 <= i < |ring| ==> Kept(m, m', ring[i])
    ensures InMemory(m', ring, cur)
  {
    forall i | 0 <= i < |ring| && i != cur ensures ParkedAt(m', ring[i]) {
      StaysParked(m, m', ring[i]);
    }
  }

  /** The queue after the running task has been parked and the next one resumed. */
  ghost function Switched(ring: seq<Task>, cur: nat, saved: Regs): seq<Task>
    requires cur < |ring|
  {
    ring[cur := ring[cur].(saved := saved)]
  }

  lemma SwitchedSeparate(ring: seq<Task>, cur: nat, saved: Regs)
    requires Separate(ring) && cur < |ring|
    ensures Separate(Switched(ring, cur, saved))
  {
    var ring' := Switched(ring, cur, saved);
    forall i, j | 0 <= i < |ring| && 0 <= j < |ring| && i != j ensures Apart(ring'[i], ring'[j]) {
      assert Apart(ring[i], ring[j]);
    }
  }

  lemma SwitchedOther(m: Memory, m': Memory, ring: seq<Task>, cur: nat, i: nat)
    requires Separate(ring) && InMemory(m, ring, cur) && i < |ring| && i != cur && Only(m, m', ring[cur])
    ensures FieldsAt(m', ring[i], ring[Next(|ring|, i)].tcb) && ParkedAt(m', ring[i])
  {
    assert FieldsAt(m, ring[i], ring[Next(|ring|, i)].tcb);
    OnlyKeepsOthers(m, m', ring[cur], ring[i]);
    StaysParked(m, m', ring[i]);
  }

  /** Parking the running task in memory, while touching nothing but its own stack and `esp` field. */
  lemma SwitchedInMemory(m: Memory, m': Memory, ring: seq<Task>, cur: nat, next: nat, saved: Regs)
    requires Separate(ring) && InMemory(m, ring, cur) && next < |ring|
    requires Only(m, m', ring[cur]) && FieldsAt(m', ring[cur], m[ring[cur].tcb + NEXT])
    requires ParkedAt(m', ring[cur].(saved := saved))
    ensures Separate(Switched(ring, cur, saved)) && InMemory(m', Switched(ring, cur, saved), next)
  {
    var ring' := Switched(ring, cur, saved);
    SwitchedSeparate(ring, cur, saved);
    forall i | 0 <= i < |ring|
      ensures FieldsAt(m', ring'[i], ring'[Next(|ring|, i)].tcb) && ParkedAt(m', ring'[i])
    {
      if i != cur {
        SwitchedOther(m, m', ring, cur, i);
      } else {
        assert FieldsAt(m, ring[i], ring[Next(|ring|, i)].tcb);
      }
    }
  }

  /** The queue after a creation: the new task comes right after the head. */
  ghost function Inserted(ring: seq<Task>, t: Task): seq<Task>
    requires ring != []
  {
    [ring[0], t] + ring[1..]
  }

  lemma InsertedSeparate(ring: seq<Task>, t: Task)
    requires Separate(ring) && ring != [] && Placed(t)
    requires forall i :: 0 <= i < |ring| ==> Apart(t, ring[i]) && Apart(ring[i], t)
    ensures Separate(Inserted(ring, t))
  {
    var ring' := Inserted(ring, t);
    forall i | 0 <= i < |ring'| ensures ring'[i] == if i == 0 then ring[0] else if i == 1 then t else ring[i - 1] {
    }
    forall i, j | 0 <= i < |ring'| && 0 <= j < |ring'| && i != j ensures Apart(ring'[i], ring'[j]) {
      if i != 1 && j != 1 {
        assert Apart(ring[if i == 0 then 0 else i - 1], ring[if j == 0 then 0 else j - 1]);
      }
    }
  }

  /** Only the task's `next` pointer may have changed. */
  ghost predicate KeptButNext(m: Memory, m': Memory, t: Task)
    requires Placed(t)
  {
    && SameOn(m, m', t.tcb, t.tcb + NEXT) && SameOn(m, m', t.lo, t.hi)
  }

  lemma ParkedButNext(m: Memory, m': Memory, t: Task)
    requires Placed(t) && ParkedAt(m, t) && KeptButNext(m, m', t)
    ensures ParkedAt(m', t)
  {
    ResumedFrame(m, m', m[t.tcb + ESP]);
  }

  /** Where position `i` of the queue ends up after a creation. */
  function After(i: nat): nat {
    if i == 0 then 0 else i + 1
  }

  lemma OldTaskKept(m: Memory, m': Memory, ring: seq<Task>, cur: nat, t: Task, k: nat)
    requires Separate(ring) && InMemory(m, ring, cur) && Placed(t) && k < |ring|
    requires KeptButNext(m, m', ring[k])
    requires m'[ring[k].tcb + NEXT] == if k == 0 then t.tcb else m[ring[k].tcb + NEXT]
    ensures FieldsAt(m', ring[k], Inserted(ring, t)[Next(|ring| + 1, After(k))].tcb)
    ensures k != cur ==> ParkedAt(m', ring[k])
  {
    hide ParkedAt;
    assert FieldsAt(m, ring[k], ring[Next(|ring|, k)].tcb);
    if k != cur {
      ParkedButNext(m, m', ring[k]);
    }
  }

  /** Linking a parked task after the head, while touching nothing else of the queue. */
  lemma InsertedInMemory(m: Memory, m': Memory, ring: seq<Task>, cur: nat, t: Task)
    requires Separate(ring) && InMemory(m, ring, cur) && Placed(t) && Separate(Inserted(ring, t))
    requires forall k :: 0 <= k < |ring| ==> KeptButNext(m, m', ring[k])
    requires forall k :: 0 <= k < |ring| ==>
      m'[ring[k].tcb + NEXT] == if k == 0 then t.tcb else m[ring[k].tcb + NEXT]
    requires FieldsAt(m', t, m[ring[0].tcb + NEXT]) && ParkedAt(m', t)
    ensures InMemory(m', Inserted(ring, t), After(cur))
  {
    hide ParkedAt, KeptButNext, Apart;
    var ring' := Inserted(ring, t);
    forall i | 0 <= i < |ring'|
      ensures FieldsAt(m', ring'[i], ring'[Next(|ring'|, i)].tcb) && (i != After(cur) ==> ParkedAt(m', ring'[i]))
    {
      if i == 1 {
        assert FieldsAt(m, ring[0], ring[Next(|ring|, 0)].tcb);
      } else {
        var k := if i == 0 then 0 else i - 1;
        assert ring'[i] == ring[k];
        OldTaskKept(m, m', ring, cur, t, k);
      }
    }
  }
}
