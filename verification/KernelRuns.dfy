/** The kernel as a value, and what holds of it after any sequence of happenings. */
module KernelRuns {
  import opened Words
  import opened HeapList
  import opened KernelHeap
  import opened HeapOwners
  import opened RunQueue
  import opened TaskMemory
  import opened Tasks
  import opened Interrupt
  import opened Timer
  import opened CStrings
  import opened Files
  import opened Commands
  import opened Sessions

  function WithNodes(s: Session, nodes: seq<Node>): Session {
    s.(state := s.state.(nodes := nodes))
  }

  /** The kernel as a value: run queue and processor, files, heap, screen and line. */
  datatype Whole = Whole(queue: Queue, session: Session)

  /** What can happen to it from outside. */
  datatype Happening =
    | Ticks(ret: Word, c: Code)                // the timer interrupts the running task
    | Computes(regs: Regs, a: Word, v: Word)   // the running task writes a word of its stack
    | Spawns(entryPoint: Word)                 // `create_task` is called
    | Types(key: Char)                         // a key is typed

  /** The running task has room on its stack, writes only there, and the keyboard sends no terminators. */
  predicate CanHappen(k: Whole, e: Happening) {
    && k.queue.cur < |k.queue.ring|
    && var running, esp := k.queue.ring[k.queue.cur], k.queue.regs.esp;
       match e
       case Ticks(_, c) =>
         c.Ok() && running.lo + INTERRUPT_FRAME + c.Depth() + 44 <= esp <= running.hi && esp % 4 == 0
       case Computes(_, a, _) => a % 4 == 0 && running.lo <= a < running.hi
       case Spawns(_) => true
       case Types(key) => key != NUL
  }

  /** What the run queue sees of it. */
  ghost function EventsOf(k: Whole, e: Happening): seq<Event>
    requires CanHappen(k, e)
  {
    match e
    case Ticks(ret, c) => [Execute(InHandler(k.queue.regs, c)), Schedule(ret)]
    case Computes(regs, _, _) => [Execute(regs)]
    case Spawns(entryPoint) =>
      var t := NewTask(k.session.state.nodes, |k.queue.ring|, entryPoint);
      if RoomForTask(k.session.state.nodes) && Possible(k.queue, Create(t)) then [Create(t)] else []
    case Types(_) => []
  }

  /** What the shell and the heap see of it. */
  ghost function SessionAfter(k: Whole, e: Happening, demo: Outputs): Session
    requires CanHappen(k, e) && k.session.Ok()
  {
    match e
    case Spawns(_) =>
      if EventsOf(k, e) == [] then k.session else WithNodes(k.session, NodesWithTask(k.session.state.nodes))
    case Types(key) => Key(k.session, key, demo)
    case _ => k.session
  }

  ghost predicate Sane(k: Whole) {
    k.queue.Ok() && k.session.Ok()
  }

  lemma EventsRun(k: Whole, e: Happening)
    requires Sane(k) && CanHappen(k, e)
    ensures CanRun(k.queue, EventsOf(k, e)) && Run(k.queue, EventsOf(k, e)).Ok()
    ensures e.Ticks? ==> Possible(k.queue, Execute(InHandler(k.queue.regs, e.c)))
    ensures Run(k.queue, EventsOf(k, e)) ==
      match e
      case Ticks(ret, c) => Step(Step(k.queue, Execute(InHandler(k.queue.regs, c))), Schedule(ret))
      case Computes(regs, _, _) => Step(k.queue, Execute(regs))
      case Spawns(_) => if EventsOf(k, e) == [] then k.queue else Step(k.queue, EventsOf(k, e)[0])
      case Types(_) => k.queue
    ensures Schedules(EventsOf(k, e)) == if e.Ticks? then 1 else 0
  {
    var es := EventsOf(k, e);
    if e.Ticks? {
      RunOne(k.queue, es[0]);
      RunOne(Step(k.queue, es[0]), es[1]);
      assert es == [es[0]] + [es[1]];
      RunsInTurn(k.queue, [es[0]], [es[1]]);
    } else if es != [] {
      RunOne(k.queue, es[0]);
      assert es == [es[0]];
    }
  }

  ghost function Happened(k: Whole, e: Happening, demo: Outputs): (k': Whole)
    requires Sane(k) && CanHappen(k, e)
    ensures Sane(k')
  {
    EventsRun(k, e);
    Whole(Run(k.queue, EventsOf(k, e)), SessionAfter(k, e, demo))
  }

  // What each happening comes to.

  lemma TickHappens(k: Whole, ret: Word, c: Code, demo: Outputs)
    requires Sane(k) && CanHappen(k, Ticks(ret, c))
    ensures Happened(k, Ticks(ret, c), demo) ==
      Whole(Step(Step(k.queue, Execute(InHandler(k.queue.regs, c))), Schedule(ret)), k.session)
  {
    EventsRun(k, Ticks(ret, c));
  }

  lemma ComputeHappens(k: Whole, regs: Regs, a: Word, w: Word, demo: Outputs)
    requires Sane(k) && CanHappen(k, Computes(regs, a, w))
    ensures Happened(k, Computes(regs, a, w), demo) == Whole(Step(k.queue, Execute(regs)), k.session)
  {
    EventsRun(k, Computes(regs, a, w));
  }

  lemma KeyHappens(k: Whole, key: Char, demo: Outputs)
    requires Sane(k) && key != NUL
    ensures CanHappen(k, Types(key)) && Happened(k, Types(key), demo) == Whole(k.queue, Key(k.session, key, demo))
  {
    EventsRun(k, Types(key));
  }

  /** Without room for a task nothing changes; with it the new task is in the queue and its blocks are taken. */
  ghost predicate Spawned(k: Whole, k': Whole, entryPoint: Word, newTask: Word) {
    var ns := k.session.state.nodes;
    var t := NewTask(ns, |k.queue.ring|, entryPoint);
    if !RoomForTask(ns) then newTask == 0 && k' == k
    else
      && newTask != 0 && k.queue.cur < |k.queue.ring| && Possible(k.queue, Create(t))
      && k' == Whole(Step(k.queue, Create(t)), WithNodes(k.session, NodesWithTask(ns)))
  }

  lemma SpawnHappens(k: Whole, k': Whole, entryPoint: Word, newTask: Word, demo: Outputs)
    requires Sane(k) && Spawned(k, k', entryPoint, newTask)
    ensures CanHappen(k, Spawns(entryPoint)) && k' == Happened(k, Spawns(entryPoint), demo)
  {
    EventsRun(k, Spawns(entryPoint));
  }

  ghost predicate CanOperate(k: Whole, es: seq<Happening>, demo: Outputs)
    decreases |es|
  {
    Sane(k) && (es == [] || (CanHappen(k, es[0]) && CanOperate(Happened(k, es[0], demo), es[1..], demo)))
  }

  ghost function Operated(k: Whole, es: seq<Happening>, demo: Outputs): (k': Whole)
    requires CanOperate(k, es, demo)
    ensures Sane(k')
    decreases |es|
  {
    if es == [] then k else Operated(Happened(k, es[0], demo), es[1..], demo)
  }

  ghost function AllEvents(k: Whole, es: seq<Happening>, demo: Outputs): seq<Event>
    requires CanOperate(k, es, demo)
    decreases |es|
  {
    if es == [] then [] else EventsOf(k, es[0]) + AllEvents(Happened(k, es[0], demo), es[1..], demo)
  }

  function TickCount(es: seq<Happening>): nat {
    if es == [] then 0 else (if es[0].Ticks? then 1 else 0) + TickCount(es[1..])
  }

  /** The run queue of a run of the kernel is a run of the run queue, with one schedule per tick. */
  lemma {:induction false} QueueRuns(k: Whole, es: seq<Happening>, demo: Outputs)
    requires CanOperate(k, es, demo)
    ensures CanRun(k.queue, AllEvents(k, es, demo))
    ensures Operated(k, es, demo).queue == Run(k.queue, AllEvents(k, es, demo))
    ensures Schedules(AllEvents(k, es, demo)) == TickCount(es)
    ensures (forall e :: e in es ==> !e.Spawns?) ==> Fixed(AllEvents(k, es, demo))
    decreases |es|
  {
    if es != [] {
      var k1 := Happened(k, es[0], demo);
      EventsRun(k, es[0]);
      QueueRuns(k1, es[1..], demo);
      RunsInTurn(k.queue, EventsOf(k, es[0]), AllEvents(k1, es[1..], demo));
    }
  }

  /** Without creations, the task that runs now runs again exactly at its turns, n ticks apart. */
  lemma TurnsOfKernel(k: Whole, es: seq<Happening>, t: Word, demo: Outputs)
    requires CanOperate(k, es, demo) && k.queue.Running(t) && forall e :: e in es ==> !e.Spawns?
    ensures Operated(k, es, demo).queue.Running(t) <==> IsTurn(|k.queue.ring|, TickCount(es))
  {
    QueueRuns(k, es, demo);
    TurnsInRun(k.queue, AllEvents(k, es, demo), t);
  }

  /**
    `sleep` in the kernel: whatever is computed and typed meanwhile, a task that starts to wait for `w`
    ticks leaves within fewer than `w + n` if and only if its first turn at or past `w` comes before the
    counter has gone round, and then at that turn.
  */
  lemma SleepInKernel(k: Whole, es: seq<Happening>, t: Word, w: Word, start: Word, demo: Outputs)
    requires CanOperate(k, es, demo) && k.queue.Running(t) && forall e :: e in es ==> !e.Spawns?
    requires w > 0 && |k.queue.ring| < WORD_RANGE
    ensures CanRun(k.queue, AllEvents(k, es, demo))
    ensures LeavesAfter(k.queue, AllEvents(k, es, demo), t, w, start) && TickCount(es) < w + |k.queue.ring| <==>
      RoundUp(w, |k.queue.ring|) < WORD_RANGE && TickCount(es) == RoundUp(w, |k.queue.ring|)
  {
    QueueRuns(k, es, demo);
    LatencyInRun(k.queue, AllEvents(k, es, demo), t, w, start);
  }

  // ---- Never more than four tasks ------------------------------------------------------------

  /** Every task but the main one has its blocks in the arena, apart from all others. */
  ghost predicate Housed(k: Whole, base: int) {
    && 0 < base && base % 4 == 0 && base + ARENA < WORD_RANGE && Tidy(k.session.state.nodes, base, base + ARENA)
    && Separate(k.queue.ring) && HeapTasks(k.session.state.nodes, base, k.queue.ring)
  }

  lemma TasksRemain(ns: seq<Node>, ns': seq<Node>, base: int, ring: seq<Task>)
    requires HeapTasks(ns, base, ring) && forall p, size :: Owns(ns, p, size) ==> Owns(ns', p, size)
    ensures HeapTasks(ns', base, ring)
  {
    forall i | 1 <= i < |ring| ensures InHeap(ns', ring[i]) {
      assert InHeap(ns, ring[i]);
    }
  }

  lemma KeyKeepsHoused(k: Whole, key: Char, base: int, demo: Outputs)
    requires Sane(k) && key != NUL && Housed(k, base)
    ensures Housed(Happened(k, Types(key), demo), base)
  {
    KeyHappens(k, key, demo);
    var ns, ns' := k.session.state.nodes, Key(k.session, key, demo).state.nodes;
    var request := KeyTakes(k.session, key, demo);
    GrantOwns(ns, base, request);
    TasksRemain(ns, ns', base, k.queue.ring);
  }

  /** A key takes at most one block. */
  lemma KeyTakes(s: Session, key: Char, demo: Outputs) returns (request: Word)
    requires s.Ok()
    ensures var ns := s.state.nodes;
      var ns' := Key(s, key, demo).state.nodes;
      ns' == ns || ns' == HeapList.Kmalloc(ns, request).nodes
  {
    var command := Parse(s.line);
    request := if command.Write? then |command.content| + 1 else 0;
  }

  lemma SpawnKeepsHoused(k: Whole, entryPoint: Word, base: int)
    requires Sane(k) && Housed(k, base) && RoomForTask(k.session.state.nodes)
    ensures var ns := NodesWithTask(k.session.state.nodes);
      var t := NewTask(k.session.state.nodes, |k.queue.ring|, entryPoint);
      && Tidy(ns, base, base + ARENA) && Separate(Inserted(k.queue.ring, t)) && HeapTasks(ns, base, Inserted(k.queue.ring, t))
  {
    hide HeapList.Kmalloc, Tiles, Separate;
    var ns, ring := k.session.state.nodes, k.queue.ring;
    var r1 := HeapList.Kmalloc(ns, 20);
    var r2 := HeapList.Kmalloc(r1.nodes, 4096);
    GrantOwns(ns, base, 20);
    GrantOwns(r1.nodes, base, 4096);
    OwnsBounds(r2.nodes, base, base + ARENA, r1.ptr, TCB_SIZE);
    OwnsBounds(r2.nodes, base, base + ARENA, r2.ptr, STACK_SIZE);
    assert Owns(r1.nodes, r1.ptr, 0);
    var t := NewTask(ns, |ring|, entryPoint);
    assert InHeap(r2.nodes, t);
    TasksRemain(ns, r2.nodes, base, ring);
    NewTaskFits(ns, r2.nodes, base, ring, t);
  }

  lemma TickKeepsHoused(k: Whole, ret: Word, c: Code, base: int, demo: Outputs)
    requires Sane(k) && CanHappen(k, Ticks(ret, c)) && Housed(k, base)
    ensures Housed(Happened(k, Ticks(ret, c), demo), base)
  {
    hide Happened, Tidy, Separate;
    var ring, saved := k.queue.ring, AtCall(InHandler(k.queue.regs, c), ret);
    TickHappens(k, ret, c, demo);
    SwitchedSeparate(ring, k.queue.cur, saved);
    SwitchedHeapTasks(k.session.state.nodes, base, ring, k.queue.cur, saved);
  }

  lemma SwitchedHeapTasks(ns: seq<Node>, base: int, ring: seq<Task>, cur: nat, saved: Regs)
    requires HeapTasks(ns, base, ring) && cur < |ring|
    ensures HeapTasks(ns, base, Switched(ring, cur, saved))
  {
    forall i | 1 <= i < |ring| ensures InHeap(ns, Switched(ring, cur, saved)[i]) {
      assert InHeap(ns, ring[i]);
    }
  }

  lemma StaysHoused(k: Whole, e: Happening, base: int, demo: Outputs)
    requires Sane(k) && CanHappen(k, e) && Housed(k, base)
    ensures Housed(Happened(k, e, demo), base)
  {
    match e {
      case Ticks(ret, c) => TickKeepsHoused(k, ret, c, base, demo);
      case Computes(regs, a, w) => ComputeHappens(k, regs, a, w, demo);
      case Spawns(entryPoint) =>
        EventsRun(k, e);
        if EventsOf(k, e) != [] { SpawnKeepsHoused(k, entryPoint, base); }
      case Types(key) => KeyKeepsHoused(k, key, base, demo);
    }
  }

  /** Whatever happens, there are never more than four tasks: the arena has no room for a fourth stack. */
  lemma {:induction false} FourTasksEver(k: Whole, es: seq<Happening>, base: int, demo: Outputs)
    requires CanOperate(k, es, demo) && Housed(k, base)
    ensures Housed(Operated(k, es, demo), base) && |Operated(k, es, demo).queue.ring| <= 4
    decreases |es|
  {
    if es == [] {
      FourTasks(k.session.state.nodes, base, k.queue.ring);
    } else {
      StaysHoused(k, es[0], base, demo);
      FourTasksEver(Happened(k, es[0], demo), es[1..], base, demo);
    }
  }

  /** In any run of the kernel at most three tasks are created, counting from one task at the start. */
  lemma FewCreations(k: Whole, es: seq<Happening>, base: int, demo: Outputs)
    requires CanOperate(k, es, demo) && Housed(k, base)
    ensures |k.queue.ring| + Creations(AllEvents(k, es, demo)) <= 4
  {
    QueueRuns(k, es, demo);
    FourTasksEver(k, es, base, demo);
    QueueCountsCreations(k.queue, AllEvents(k, es, demo));
  }

  /** In any run of the kernel a waiting task runs within three ticks, creations in between or not. */
  lemma ThreeTicksSuffice(k: Whole, es: seq<Happening>, t: Word, base: int, demo: Outputs)
    requires CanOperate(k, es, demo) && Housed(k, base) && k.queue.Parked(t) && TickCount(es) >= 3
    ensures CanRun(k.queue, AllEvents(k, es, demo)) && GetsItsTurn(k.queue, AllEvents(k, es, demo), t)
  {
    QueueRuns(k, es, demo);
    FourTasksEver(k, es, base, demo);
    ThreeSchedulesSuffice(k.queue, AllEvents(k, es, demo), t);
  }

  /**
    `sleep` in the kernel with creations: in any run that is long enough, the sleeper leaves after at
    least `w` and fewer than `w + 4` ticks.
  */
  lemma SleepWithCreations(k: Whole, es: seq<Happening>, t: Word, w: Word, start: Word, base: int, demo: Outputs)
    returns (i: nat)
    requires CanOperate(k, es, demo) && Housed(k, base) && k.queue.Running(t)
    requires 0 < w <= WORD_RANGE - 4 && TickCount(es) >= w + 3
    ensures CanRun(k.queue, AllEvents(k, es, demo)) && MayLeave(k.queue, AllEvents(k, es, demo), t, w, start, i)
    ensures w <= Schedules(AllEvents(k, es, demo)[..i]) < w + 4
  {
    QueueRuns(k, es, demo);
    FourTasksEver(k, es, base, demo);
    i := MayLeaveAmongFour(k.queue, AllEvents(k, es, demo), t, w, start);
  }

  /** In milliseconds, at the 100 Hz of this kernel: where the sleeper leaves its loop. */
  lemma SleepInMillis(k: Whole, es: seq<Happening>, t: Word, ms: Word, start: Word, base: int, i: nat, demo: Outputs)
    requires CanOperate(k, es, demo) && Housed(k, base) && k.queue.Running(t) && 10 * TickCount(es) >= ms + 40
    requires var all := AllEvents(k, es, demo);
      && k.queue.Ok() && i <= |all| && CanRun(k.queue, all[..i])
      && LeavesAfter(k.queue, all[..i], t, DelayTicks(ms, 100), start)
    ensures ms - 10 < 10 * Schedules(AllEvents(k, es, demo)[..i]) < if ms < 10 then 50 else ms + 40
  {
    QueueRuns(k, es, demo);
    FourTasksEver(k, es, base, demo);
    SleepMillis(k.queue, AllEvents(k, es, demo), t, ms, start, i);
  }

  /** Whatever happens, a file that exists keeps its content, and line and screen keep agreeing. */
  lemma {:induction false} FilesLast(k: Whole, es: seq<Happening>, name: seq<Char>, demo: Outputs)
    requires CanOperate(k, es, demo)
    ensures Find(k.session.state.files, name).Some? ==>
      Find(Operated(k, es, demo).session.state.files, name) == Find(k.session.state.files, name)
    ensures Agrees(k.session) ==> Agrees(Operated(k, es, demo).session)
    decreases |es|
  {
    if es != [] {
      var e, s := es[0], k.session;
      if e.Types? {
        if Find(s.state.files, name).Some? { KeyKeepsFiles(s, e.key, name, demo); }
        if Agrees(s) { ScreenAgreesWithLine(s, [e.key], demo); OneKey(s, e.key, demo); }
      }
      FilesLast(Happened(k, e, demo), es[1..], name, demo);
    }
  }

  lemma OneKey(s: Session, c: Char, demo: Outputs)
    requires s.Ok()
    ensures Keys(s, [c], demo) == Key(s, c, demo)
  {
    assert [c][1..] == [];
  }

  /** Task `t` stays parked in every state before the last one. */
  ghost predicate ParkedThrough(k: Whole, es: seq<Happening>, t: Word, demo: Outputs)
    requires CanOperate(k, es, demo)
    decreases |es|
  {
    es == [] || (k.queue.Parked(t) && ParkedThrough(Happened(k, es[0], demo), es[1..], t, demo))
  }

  /** The events bring the next turn of task `t`. */
  ghost predicate ComesBack(k: Whole, es: seq<Happening>, t: Word, demo: Outputs) {
    CanOperate(k, es, demo) && ParkedThrough(k, es, t, demo) && Operated(k, es, demo).queue.Running(t)
  }

  /** The stacks of all tasks that stay parked through a run are as they were. */
  ghost predicate StacksKept(m: Memory, m': Memory, k: Whole, es: seq<Happening>, demo: Outputs)
    requires CanOperate(k, es, demo)
  {
    forall i :: 0 <= i < |k.queue.ring| && i != k.queue.cur && ParkedThrough(k, es, k.queue.ring[i].tcb, demo) ==>
      SameOn(m, m', k.queue.ring[i].lo, k.queue.ring[i].hi)
  }

  /** A parked task has the same stack after an event. */
  lemma StaysInRing(k: Whole, e: Happening, i: nat, demo: Outputs) returns (i': nat)
    requires Sane(k) && CanHappen(k, e) && i < |k.queue.ring|
    ensures var ring := Happened(k, e, demo).queue.ring;
      i' < |ring| && ring[i'].tcb == k.queue.ring[i].tcb && ring[i'].lo == k.queue.ring[i].lo && ring[i'].hi == k.queue.ring[i].hi
  {
    EventsRun(k, e);
    i' := if e.Spawns? && EventsOf(k, e) != [] && i > 0 then i + 1 else i;
  }

  /** One event more for the stack of one task. */
  lemma StackKeptLonger(m: Memory, m1: Memory, m2: Memory, k: Whole, e: Happening, rest: seq<Happening>, i: nat,
      demo: Outputs)
    requires Sane(k) && CanHappen(k, e) && ParkedIntact(m, m1, k.queue.ring, k.queue.cur)
    requires CanOperate(Happened(k, e, demo), rest, demo) && StacksKept(m1, m2, Happened(k, e, demo), rest, demo)
    requires rest == [] ==> m1 == m2
    requires i < |k.queue.ring| && i != k.queue.cur && ParkedThrough(Happened(k, e, demo), rest, k.queue.ring[i].tcb, demo)
    ensures SameOn(m, m2, k.queue.ring[i].lo, k.queue.ring[i].hi)
  {
    var k1 := Happened(k, e, demo);
    var i' := StaysInRing(k, e, i, demo);
    if rest != [] {
      assert k1.queue.Parked(k1.queue.ring[i'].tcb);
      assert i' != k1.queue.cur;
      assert SameOn(m1, m2, k1.queue.ring[i'].lo, k1.queue.ring[i'].hi);
    }
  }

  lemma StacksKeptLonger(m: Memory, m1: Memory, m2: Memory, k: Whole, es: seq<Happening>, demo: Outputs)
    requires es != [] && CanOperate(k, es, demo) && ParkedIntact(m, m1, k.queue.ring, k.queue.cur)
    requires StacksKept(m1, m2, Happened(k, es[0], demo), es[1..], demo) && (es[1..] == [] ==> m1 == m2)
    ensures StacksKept(m, m2, k, es, demo)
  {
    var q := k.queue;
    forall i | 0 <= i < |q.ring| && i != q.cur && ParkedThrough(k, es, q.ring[i].tcb, demo)
      ensures SameOn(m, m2, q.ring[i].lo, q.ring[i].hi)
    {
      StackKeptLonger(m, m1, m2, k, es[0], es[1..], i, demo);
    }
  }

  // ---- Back from an interrupt ----------------------------------------------------------------

  lemma {:induction false} ParkedInTurn(q: Queue, a: seq<Event>, b: seq<Event>, t: Word)
    requires CanRun(q, a) && CanRun(Run(q, a), b) && CanRun(q, a + b)
    requires ParkedUntil(q, a, t) && ParkedUntil(Run(q, a), b, t)
    ensures ParkedUntil(q, a + b, t)
    decreases |a|
  {
    if a == [] {
      assert a + b == b;
    } else {
      var ab, rest := a + b, a[1..];
      assert ab[0] == a[0] && ab[1..] == rest + b;
      ParkedInTurn(Step(q, a[0]), rest, b, t);
    }
  }

  /** Within one happening a parked task stays parked up to its last event. */
  lemma EventParks(k: Whole, e: Happening, t: Word)
    requires Sane(k) && CanHappen(k, e) && k.queue.Parked(t)
    ensures CanRun(k.queue, EventsOf(k, e)) && ParkedUntil(k.queue, EventsOf(k, e), t)
  {
    EventsRun(k, e);
    var es := EventsOf(k, e);
    if es != [] {
      assert es[1..] != [] ==> es[1..][1..] == [];
      assert es[0].Execute? ==> Step(k.queue, es[0]).ring == k.queue.ring && Step(k.queue, es[0]).cur == k.queue.cur;
    }
  }

  lemma {:induction false} ParkedInQueue(k: Whole, es: seq<Happening>, t: Word, demo: Outputs)
    requires CanOperate(k, es, demo) && ParkedThrough(k, es, t, demo)
    ensures CanRun(k.queue, AllEvents(k, es, demo)) && ParkedUntil(k.queue, AllEvents(k, es, demo), t)
    decreases |es|
  {
    if es != [] {
      var k1 := Happened(k, es[0], demo);
      EventParks(k, es[0], t);
      ParkedInQueue(k1, es[1..], t, demo);
      QueueRuns(k, es, demo);
      ParkedInTurn(k.queue, EventsOf(k, es[0]), AllEvents(k1, es[1..], demo), t);
    }
  }

  /** When the interrupted task runs again, its registers are as at the call of `switch_to_task`. */
  lemma BackFromTick(k: Whole, ret: Word, c: Code, es: seq<Happening>, demo: Outputs)
    requires Sane(k) && CanHappen(k, Ticks(ret, c))
    requires ComesBack(Happened(k, Ticks(ret, c), demo), es, k.queue.ring[k.queue.cur].tcb, demo)
    ensures var called := InHandler(k.queue.regs, c);
      Operated(Happened(k, Ticks(ret, c), demo), es, demo).queue.regs ==
        if |k.queue.ring| > 1 then AtCall(called, ret) else called
  {
    var k1, t := Happened(k, Ticks(ret, c), demo), k.queue.ring[k.queue.cur].tcb;
    TickHappens(k, ret, c, demo);
    QueueRuns(k1, es, demo);
    ParkedInQueue(k1, es, t, demo);
    if |k.queue.ring| > 1 {
      assert k1.queue.ring[k.queue.cur].tcb == t && k1.queue.cur != k.queue.cur;
      ResumesWithSaved(k1.queue, AllEvents(k1, es, demo), t);
    }
  }

  /** What a tick saved of the interrupted task is still there when its turn comes again. */
  lemma StillSaved(m: Memory, m': Memory, k: Whole, tick: Happening, es: seq<Happening>, demo: Outputs)
    requires Sane(k) && tick.Ticks? && CanHappen(k, tick) && Interrupted(m, k.queue.regs)
    requires var k1 := Happened(k, tick, demo);
      && CanOperate(k1, es, demo) && StacksKept(m, m', k1, es, demo) && (es == [] ==> m == m')
      && ParkedThrough(k1, es, k.queue.ring[k.queue.cur].tcb, demo)
    ensures Interrupted(m', k.queue.regs)
  {
    var i' := StaysInRing(k, tick, k.queue.cur, demo);
    if es != [] {
      var q1 := Happened(k, tick, demo).queue;
      assert q1.Parked(q1.ring[i'].tcb) && i' != q1.cur;
      assert SameOn(m, m', q1.ring[i'].lo, q1.ring[i'].hi);
      SavedKept(m, m', k.queue.regs.esp - INTERRUPT_FRAME, k.queue.regs);
    }
  }

  lemma TicksAdd(start: Word, ticks: Word, es: seq<Happening>)
    requires es != [] && ticks == TicksAfter(start, if es[0].Ticks? then 1 else 0)
    ensures TicksAfter(ticks, TickCount(es[1..])) == TicksAfter(start, TickCount(es))
  {
    MoreTicks(start, if es[0].Ticks? then 1 else 0, TickCount(es[1..]));
  }

  lemma {:induction false} MoreTicks(start: Word, a: nat, b: nat)
    ensures TicksAfter(TicksAfter(start, a), b) == TicksAfter(start, a + b)
  {
    if b > 0 {
      MoreTicks(start, a, b - 1);
      OneMoreTick(TicksAfter(start, a), b - 1);
      OneMoreTick(start, a + b - 1);
    }
  }

  /**
    Memory and registers when the interrupted task runs again: what the interrupt saved is intact, and `n`
    words above the stack pointer it starts.
  */
  lemma BackWithSaved(m: Memory, m': Memory, k: Whole, ret: Word, c: Code, es: seq<Happening>, demo: Outputs) returns (n: nat)
    requires Sane(k) && CanHappen(k, Ticks(ret, c)) && Interrupted(m, k.queue.regs)
    requires var k1 := Happened(k, Ticks(ret, c), demo);
      && ComesBack(k1, es, k.queue.ring[k.queue.cur].tcb, demo)
      && StacksKept(m, m', k1, es, demo) && (es == [] ==> m == m')
    ensures var esp := Operated(Happened(k, Ticks(ret, c), demo), es, demo).queue.regs.esp;
      Interrupted(m', k.queue.regs) && esp % 4 == 0 && esp + 4 * n + INTERRUPT_FRAME == k.queue.regs.esp
  {
    StillSaved(m, m', k, Ticks(ret, c), es, demo);
    hide Happened, Operated, StacksKept, Interrupted, ComesBack;
    BackFromTick(k, ret, c, es, demo);
    n := if |k.queue.ring| > 1 then c.live + 2 else c.live;
  }
}
