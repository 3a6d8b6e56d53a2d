/** The parts together on one heap: ticks, new tasks, computations and keystrokes do not disturb each other. */
module Kernel {
  import opened Words
  import opened HeapList
  import opened KernelHeap
  import opened HeapOwners
  import opened RunQueue
  import opened Cpu
  import opened TaskMemory
  import opened Tasks
  import opened Interrupt
  import opened Timer
  import opened CStrings
  import opened Files
  import opened Vfs
  import opened Shell
  import opened Paging
  import opened Boot
  import opened KernelRuns
  import Commands
  import Dialogs
  import HeapRuns
  import Vga
  import opened PhysicalMemory

  /** No file's block is a task's control block or stack. */
  ghost predicate FilesApart(ring: seq<Task>, table: seq<VfsNode>, n: nat)
    requires n <= |table|
  {
    forall i, k :: 1 <= i < |ring| && 0 <= k < n ==> ring[i].tcb != table[k].buffer && ring[i].lo != table[k].buffer
  }

  /** What the running task writes leaves the files alone. */
  lemma TaskSparesFiles(m: Memory, m': Memory, ns: seq<Node>, base: int, ring: seq<Task>, cur: nat,
      table: seq<VfsNode>, files: seq<File>)
    requires Tiles(ns, base, base + ARENA) && HeapTasks(ns, base, ring) && cur < |ring| && Only(m, m', ring[cur])
    requires FilesAt(m, ns, table, files) && FilesApart(ring, table, |files|)
    ensures FilesAt(m', ns, table, files)
  {
    forall i | 0 <= i < |files| ensures FileAt(m', ns, table[i], files[i]) {
      var size := BlockSize(|files[i].content|);
      assert FileAt(m, ns, table[i], files[i]);
      OthersSpared(m, m', ns, base, ring, cur, table[i].buffer, size);
      FileKept(m, m', ns, ns, table[i], files[i]);
    }
  }

  /** No scheduling step moves a task's blocks. */
  lemma TickKeepsApart(q: Queue, ret: Word, c: Code, table: seq<VfsNode>, n: nat)
    requires q.cur < |q.ring| && c.Ok() && q.regs.esp >= INTERRUPT_FRAME + c.Depth() + 8 && n <= |table| && FilesApart(q.ring, table, n)
    ensures FilesApart(Step(Step(q, Execute(InHandler(q.regs, c))), Schedule(ret)).ring, table, n)
  {
  }

  /** A new file's block belongs to no task. */
  lemma NewFileApart(before: seq<Node>, base: int, ring: seq<Task>, table: seq<VfsNode>, table': seq<VfsNode>, n: nat, n': nat)
    requires HeapTasks(before, base, ring) && SlotsKept(table, table', n, n', before) && FilesApart(ring, table, n)
    ensures FilesApart(ring, table', n')
  {
    if n' > n { NotOwnedByTasks(before, base, ring, table'[n].buffer); }
  }

  /** A new task's blocks belong to no file. */
  lemma NewTaskSparesFiles(m: Memory, before: seq<Node>, ns: seq<Node>, ring: seq<Task>, t: Task, table: seq<VfsNode>, files: seq<File>)
    requires FilesAt(m, before, table, files) && FilesApart(ring, table, |files|) && NewBlocks(before, ns, t) && ring != []
    ensures FilesApart(Inserted(ring, t), table, |files|)
  {
    var ring' := Inserted(ring, t);
    forall i, k | 1 <= i < |ring'| && 0 <= k < |files|
      ensures ring'[i].tcb != table[k].buffer && ring'[i].lo != table[k].buffer
    {
      assert FileAt(m, before, table[k], files[k]);
      assert Owns(before, table[k].buffer, 0);
      if i > 1 { assert ring'[i] == ring[i - 1]; }
    }
  }

  /** Writes below the page tables leave the identity map as booted. */
  lemma MapKept(m: Memory, m': Memory, cr3: Page, tables: seq<Page>)
    requires MapBuilt(m, cr3, tables) && SameOutside(m, m', 0, ARENA_BASE + ARENA)
    ensures MapBuilt(m', cr3, tables)
  {
    MapSurvives(m, m', cr3, tables);
  }

  /** Tasks, files and identity map all hold in memory, apart from each other. */
  ghost predicate Sparable(m: Memory, ns: seq<Node>, ring: seq<Task>, cur: nat,
      table: seq<VfsNode>, files: seq<File>, cr3: Page, tables: seq<Page>)
  {
    && Tiles(ns, ARENA_BASE, ARENA_BASE + ARENA) && HeapTasks(ns, ARENA_BASE, ring) && cur < |ring|
    && FilesAt(m, ns, table, files) && FilesApart(ring, table, |files|) && MapBuilt(m, cr3, tables)
  }

  /** What the running task writes leaves files and identity map alone. */
  lemma TaskSparesAll(m: Memory, m': Memory, ns: seq<Node>, ring: seq<Task>, cur: nat,
      table: seq<VfsNode>, files: seq<File>, cr3: Page, tables: seq<Page>)
    requires Sparable(m, ns, ring, cur, table, files, cr3, tables) && Only(m, m', ring[cur])
    ensures FilesAt(m', ns, table, files) && MapBuilt(m', cr3, tables)
  {
    TaskSparesFiles(m, m', ns, ARENA_BASE, ring, cur, table, files);
    OwnWrites(m, m', ns, ARENA_BASE, ring, cur);
    MapKept(m, m', cr3, tables);
  }

  /** What the file system writes leaves tasks and identity map alone. */
  lemma FilesSpareAll(a: Snapshot, b: Snapshot, ring: seq<Task>, cur: nat, cr3: Page, tables: seq<Page>)
    requires Grew(a, b, ARENA_BASE) && TasksOk(a.image, a.nodes, ARENA_BASE, ring, cur)
    requires a.count <= |a.table| && FilesApart(ring, a.table, a.count) && MapBuilt(a.image, cr3, tables)
    ensures TasksOk(b.image, b.nodes, ARENA_BASE, ring, cur) && ParkedIntact(a.image, b.image, ring, cur)
    ensures b.count <= |b.table| && FilesApart(ring, b.table, b.count) && MapBuilt(b.image, cr3, tables)
  {
    MapKept(a.image, b.image, cr3, tables);
    AllocationSpares(a.image, b.image, a.nodes, b.nodes, ARENA_BASE, ring, cur);
    NewFileApart(a.nodes, ARENA_BASE, ring, a.table, b.table, a.count, b.count);
  }

  lemma FourTimes(n: nat)
    ensures 4 * n / 4 == n
  {
  }

  class Kernel {
    const scheduler: Scheduler
    const timer: TimerInterrupt
    const shell: Shell

    /** The page directory that is loaded, and the tables behind it. */
    const cr3: Page
    ghost const tables: seq<Page>

    ghost predicate Valid()
      reads this, scheduler, scheduler.machine, scheduler.heap, scheduler.heap.ram.words
      reads shell, shell.commandBuffer, shell.console, shell.console.buffer, shell.vfs, shell.vfs.fileTable
    {
      && timer.scheduler == scheduler && shell.vfs.heap == scheduler.heap
      && scheduler.Valid() && shell.Valid()
      && FilesApart(scheduler.ring, shell.vfs.fileTable[..], |shell.vfs.files|)
      && scheduler.heap.heapStart == ARENA_BASE && MapBuilt(scheduler.Image(), cr3, tables)
    }

    constructor (scheduler: Scheduler, timer: TimerInterrupt, shell: Shell, cr3: Page, ghost tables: seq<Page>)
      ensures this.scheduler == scheduler && this.timer == timer && this.shell == shell
      ensures this.cr3 == cr3 && this.tables == tables
    {
      this.scheduler, this.timer, this.shell := scheduler, timer, shell;
      this.cr3, this.tables := cr3, tables;
    }

    ghost function Now(): Whole
      requires shell.bufferIdx <= shell.commandBuffer.Length
      reads this, scheduler, scheduler.machine, shell, shell.commandBuffer, shell.console, shell.vfs, shell.vfs.heap
    {
      Whole(scheduler.Q(), shell.Now())
    }

    lemma IsSane()
      requires Valid()
      ensures Sane(Now())
    {
    }

    lemma IsSparable()
      requires Valid()
      ensures Sparable(scheduler.Image(), scheduler.heap.nodes, scheduler.ring, scheduler.cur, shell.vfs.fileTable[..],
        shell.vfs.files, cr3, tables)
    {
    }

    /** Every task but the main one lives in the arena. */
    lemma IsHoused()
      requires Valid()
      ensures Housed(Now(), ARENA_BASE)
    {
    }

    /** Whatever happens to the kernel, a waiting task runs within three ticks, and few tasks can be created. */
    lemma NobodyStarves(events: seq<Happening>, t: Word)
      requires Valid() && CanOperate(Now(), events, shell.demo)
      ensures CanRun(Now().queue, AllEvents(Now(), events, shell.demo))
      ensures Now().queue.Parked(t) && TickCount(events) >= 3 ==>
        GetsItsTurn(Now().queue, AllEvents(Now(), events, shell.demo), t)
      ensures |Now().queue.ring| + Creations(AllEvents(Now(), events, shell.demo)) <= 4
    {
      IsHoused();
      FewCreations(Now(), events, ARENA_BASE, shell.demo);
      QueueRuns(Now(), events, shell.demo);
      if Now().queue.Parked(t) && TickCount(events) >= 3 {
        ThreeTicksSuffice(Now(), events, t, ARENA_BASE, shell.demo);
      }
    }

    /** A sleeper leaves after at least `w` and fewer than `w + 4` ticks, whatever is created meanwhile. */
    lemma SleeperLeaves(events: seq<Happening>, w: Word, start: Word) returns (i: nat)
      requires Valid() && CanOperate(Now(), events, shell.demo)
      requires 0 < w <= WORD_RANGE - 4 && TickCount(events) >= w + 3
      ensures CanRun(Now().queue, AllEvents(Now(), events, shell.demo))
      ensures MayLeave(Now().queue, AllEvents(Now(), events, shell.demo), scheduler.currentTask, w, start, i)
      ensures w <= Schedules(AllEvents(Now(), events, shell.demo)[..i]) < w + 4
    {
      IsHoused();
      i := SleepWithCreations(Now(), events, scheduler.currentTask, w, start, ARENA_BASE, shell.demo);
    }

    /** `e` has happened to the kernel `before` with memory `m`: all as specified, and parked stacks untouched. */
    ghost predicate Done(before: Whole, e: Happening, m: Memory, ticks: Word)
      reads this, scheduler, scheduler.machine, scheduler.heap, scheduler.heap.ram.words, timer, timer.clock
      reads shell, shell.commandBuffer, shell.console, shell.console.buffer, shell.vfs, shell.vfs.fileTable
    {
      && Valid() && Sane(before) && CanHappen(before, e) && Now() == Happened(before, e, shell.demo)
      && timer.clock.ticks == TicksAfter(ticks, if e.Ticks? then 1 else 0)
      && ParkedIntact(m, scheduler.Image(), before.queue.ring, before.queue.cur)
    }

    /** The timer ticks: the next task runs, and files, heap, screen and line are as before. */
    method Tick(ret: Word, c: Code)
      requires Valid() && CanHappen(Now(), Ticks(ret, c))
      modifies timer.clock, scheduler`currentTask, scheduler`ring, scheduler`cur, scheduler.machine, scheduler.heap.ram.words
      ensures Done(old(Now()), Ticks(ret, c), old(scheduler.Image()), old(timer.clock.ticks))
      ensures Interrupted(scheduler.Image(), old(scheduler.machine.regs))
    {
      hide Happened, ParkedIntact, FilesAt, MapBuilt, FilesApart, TasksOk, Linked, Tiles, Interrupted;
      IsSane();
      TickHappens(Now(), ret, c, shell.demo);
      Interrupt(ret, c);
    }

    method Interrupt(ret: Word, c: Code)
      requires Valid() && CanHappen(Now(), Ticks(ret, c))
      modifies timer.clock, scheduler`currentTask, scheduler`ring, scheduler`cur, scheduler.machine, scheduler.heap.ram.words
      ensures Valid() && shell.Now() == old(shell.Now())
      ensures scheduler.Q() == Step(Step(old(scheduler.Q()), Execute(InHandler(old(scheduler.machine.regs), c))), Schedule(ret))
      ensures timer.clock.ticks == TicksAfter(old(timer.clock.ticks), 1)
      ensures Interrupted(scheduler.Image(), old(scheduler.machine.regs))
      ensures ParkedIntact(old(scheduler.Image()), scheduler.Image(), old(scheduler.ring), old(scheduler.cur))
    {
      hide Step, InHandler, Interrupted, ParkedIntact, Only;
      ghost var m, ns, ring, cur := scheduler.Image(), scheduler.heap.nodes, scheduler.ring, scheduler.cur;
      ghost var table, files := shell.vfs.fileTable[..], shell.vfs.files;
      assert Sparable(m, ns, ring, cur, table, files, cr3, tables);
      TickKeepsApart(scheduler.Q(), ret, c, table, |files|);
      timer.Irq0(ret, c);
      TaskSparesAll(m, scheduler.Image(), ns, ring, cur, table, files, cr3, tables);
    }

    /** The running task computes on its own stack. */
    method Compute(regs: Regs, a: Word, w: Word)
      requires Valid() && CanHappen(Now(), Computes(regs, a, w))
      modifies scheduler.machine`regs, scheduler.heap.ram.words
      ensures Done(old(Now()), Computes(regs, a, w), old(scheduler.Image()), old(timer.clock.ticks))
    {
      hide Happened, Step, ParkedIntact, Only, TasksOk, FilesAt, Linked, Tiles;
      IsSane();
      ComputeHappens(Now(), regs, a, w, shell.demo);
      ghost var m, ns, ring, cur := scheduler.Image(), scheduler.heap.nodes, scheduler.ring, scheduler.cur;
      ghost var table, files := shell.vfs.fileTable[..], shell.vfs.files;
      IsSparable();
      scheduler.Compute(regs, a, w);
      TaskSparesAll(m, scheduler.Image(), ns, ring, cur, table, files, cr3, tables);
    }

    /** `create_task`, which may fail: files, screen and line are as before. */
    method Spawn(entryPoint: Word) returns (newTask: Word)
      requires Valid()
      modifies scheduler`nextPid, scheduler`ring, scheduler`cur, scheduler.heap`nodes, scheduler.heap.ram.words
      ensures Done(old(Now()), Spawns(entryPoint), old(scheduler.Image()), old(timer.clock.ticks))
      ensures Spawned(old(Now()), Now(), entryPoint, newTask)
    {
      hide Spawned, Happened, ParkedIntact, FilesAt, MapBuilt, FilesApart, TasksOk, Linked, Tiles;
      IsSane();
      newTask := CreateTask(entryPoint);
      SpawnHappens(old(Now()), Now(), entryPoint, newTask, shell.demo);
    }

    method CreateTask(entryPoint: Word) returns (newTask: Word)
      requires Valid()
      modifies scheduler`nextPid, scheduler`ring, scheduler`cur, scheduler.heap`nodes, scheduler.heap.ram.words
      ensures Valid() && Spawned(old(Now()), Now(), entryPoint, newTask)
      ensures ParkedIntact(old(scheduler.Image()), scheduler.Image(), old(scheduler.ring), old(scheduler.cur))
    {
      ghost var t;
      newTask, t := scheduler.CreateTask(entryPoint);
      var s, v := scheduler, shell.vfs;
      FilesKept(old(s.Image()), s.Image(), old(s.heap.nodes), s.heap.nodes, v.fileTable[..], v.files);
      MapKept(old(s.Image()), s.Image(), cr3, tables);
      if newTask != 0 {
        IsNewTask(old(s.heap.nodes), s.heap.nodes, t, newTask, old(s.nextPid), entryPoint);
        NewTaskSparesFiles(old(s.Image()), old(s.heap.nodes), s.heap.nodes, old(s.ring), t, v.fileTable[..], v.files);
      }
    }

    /** A key is typed: the run queue and the registers are as before. */
    method Key(c: Char)
      requires Valid() && c != NUL
      modifies shell, shell.commandBuffer, shell.console`row, shell.console`column, shell.console`page
      modifies shell.console`currentColor, shell.console.buffer
      modifies shell.vfs, shell.vfs.fileTable, scheduler.heap`nodes, scheduler.heap.ram.words
      ensures Done(old(Now()), Types(c), old(scheduler.Image()), old(timer.clock.ticks))
    {
      hide Commands.Key, Happened, ParkedIntact, FilesAt, MapBuilt, FilesApart, TasksOk, Tiles, Linked;
      IsSane();
      KeyHappens(Now(), c, shell.demo);
      Input(c);
    }

    method Input(c: Char)
      requires Valid() && c != NUL
      modifies shell, shell.commandBuffer, shell.console`row, shell.console`column, shell.console`page
      modifies shell.console`currentColor, shell.console.buffer
      modifies shell.vfs, shell.vfs.fileTable, scheduler.heap`nodes, scheduler.heap.ram.words
      ensures Valid() && scheduler.Q() == old(scheduler.Q())
      ensures shell.Now() == Commands.Key(old(shell.Now()), c, shell.demo)
      ensures ParkedIntact(old(scheduler.Image()), scheduler.Image(), scheduler.ring, scheduler.cur)
    {
      hide Commands.Key;
      ghost var before, ring, cur := shell.vfs.Now(), scheduler.ring, scheduler.cur;
      assert TasksOk(before.image, before.nodes, ARENA_BASE, ring, cur);
      shell.Input(c);
      FilesSpareAll(before, shell.vfs.Now(), ring, cur, cr3, tables);
    }

    /** One happening. */
    method Happen(e: Happening)
      requires Valid() && CanHappen(Now(), e)
      modifies shell, shell.commandBuffer, shell.console, shell.console.buffer, shell.vfs, shell.vfs.fileTable
      modifies timer.clock, scheduler, scheduler.machine, scheduler.heap`nodes, scheduler.heap.ram.words
      ensures Done(old(Now()), e, old(scheduler.Image()), old(timer.clock.ticks))
    {
      match e {
        case Ticks(ret, c) => Tick(ret, c);
        case Computes(regs, a, w) => Compute(regs, a, w);
        case Spawns(entryPoint) => var newTask := Spawn(entryPoint);
        case Types(key) => Key(key);
      }
    }

    /** Any number of happenings, each possible when it comes. */
    method Operate(events: seq<Happening>)
      requires Valid() && CanOperate(Now(), events, shell.demo)
      modifies shell, shell.commandBuffer, shell.console, shell.console.buffer, shell.vfs, shell.vfs.fileTable
      modifies timer.clock, scheduler, scheduler.machine, scheduler.heap`nodes, scheduler.heap.ram.words
      ensures Valid() && Now() == Operated(old(Now()), events, shell.demo)
      ensures timer.clock.ticks == TicksAfter(old(timer.clock.ticks), TickCount(events))
      ensures StacksKept(old(scheduler.Image()), scheduler.Image(), old(Now()), events, shell.demo)
      ensures events == [] ==> scheduler.Image() == old(scheduler.Image())
      decreases |events|
    {
      if events != [] {
        Happen(events[0]);
        ghost var m, ticks := scheduler.Image(), timer.clock.ticks;
        Operate(events[1..]);
        StacksKeptLonger(old(scheduler.Image()), m, scheduler.Image(), old(Now()), events, shell.demo);
        TicksAdd(old(timer.clock.ticks), ticks, events);
      }
    }

    /** `events` may follow a tick now, and bring the interrupted task's next turn. */
    ghost predicate TurnComesAfter(ret: Word, c: Code, events: seq<Happening>)
      requires shell.bufferIdx <= shell.commandBuffer.Length
      reads this, scheduler, scheduler.machine, shell, shell.commandBuffer, shell.console, shell.vfs, shell.vfs.heap
    {
      && Sane(Now()) && CanHappen(Now(), Ticks(ret, c))
      && ComesBack(Happened(Now(), Ticks(ret, c), shell.demo), events, scheduler.ring[scheduler.cur].tcb, shell.demo)
    }

    /**
      An interrupt is invisible to the interrupted task: whatever happens until its turn comes again, it
      then goes on with exactly the registers it had.
    */
    method InterruptAndBack(ret: Word, c: Code, events: seq<Happening>)
      requires Valid() && TurnComesAfter(ret, c, events)
      modifies shell, shell.commandBuffer, shell.console, shell.console.buffer, shell.vfs, shell.vfs.fileTable
      modifies timer.clock, scheduler, scheduler.machine, scheduler.heap`nodes, scheduler.heap.ram.words
      ensures Valid() && scheduler.machine.regs == old(scheduler.machine.regs)
      ensures scheduler.currentTask == old(scheduler.currentTask)
    {
      ghost var r := scheduler.machine.regs;
      var calledAt := scheduler.machine.regs.esp - INTERRUPT_FRAME;
      hide TurnComesAfter, Interrupted;
      ghost var n := TickAndOperate(ret, c, events);
      FourTimes(n);
      var words := calledAt - scheduler.machine.regs.esp;
      assert words == 4 * n;
      GoOn(words / 4, r);
    }

    /** The interrupted task goes on with the registers that were saved. */
    method GoOn(n: nat, ghost r: Regs)
      requires Valid() && Interrupted(scheduler.Image(), r)
      requires scheduler.machine.regs.esp % 4 == 0 && scheduler.machine.regs.esp + 4 * n + INTERRUPT_FRAME == r.esp
      modifies scheduler.machine
      ensures Valid() && scheduler.machine.regs == r
    {
      timer.Return(n, r);
    }

    /** The interrupt and what follows; the interrupted task runs again, with its registers still saved. */
    method TickAndOperate(ret: Word, c: Code, events: seq<Happening>) returns (ghost n: nat)
      requires Valid() && TurnComesAfter(ret, c, events)
      modifies shell, shell.commandBuffer, shell.console, shell.console.buffer, shell.vfs, shell.vfs.fileTable
      modifies timer.clock, scheduler, scheduler.machine, scheduler.heap`nodes, scheduler.heap.ram.words
      ensures Valid() && Interrupted(scheduler.Image(), old(scheduler.machine.regs))
      ensures scheduler.machine.regs.esp + 4 * n + INTERRUPT_FRAME == old(scheduler.machine.regs.esp)
      ensures scheduler.machine.regs.esp % 4 == 0 && scheduler.currentTask == old(scheduler.currentTask)
    {
      ghost var k := Now();
      assert ComesBack(Happened(k, Ticks(ret, c), shell.demo), events, scheduler.currentTask, shell.demo);
      hide Happened, InHandler, StacksKept, Interrupted, TurnComesAfter, ParkedIntact;
      Tick(ret, c);
      ghost var m := scheduler.Image();
      Operate(events);
      n := BackWithSaved(m, scheduler.Image(), k, ret, c, events, shell.demo);
    }
  }

  // ---- Booting -------------------------------------------------------------------------------

  /** The first task finds room. */
  lemma FreshHasRoom(lo: int)
    requires lo > 0 && lo % 4 == 0
    ensures RoomForTask(HeapRuns.Fresh(lo).nodes)
  {
    var ns := HeapRuns.Fresh(lo).nodes;
    var rest := Node(lo + 32, ARENA - 44, true);
    assert ns[1..] == [] && FirstFit(ns, 20) == 0;
    var ns1 := HeapList.Kmalloc(ns, 20).nodes;
    assert ns1 == [Node(lo, 20, false), rest];
    assert ns1[1..] == [rest] && FirstFit([rest], 4096) == 0 && FirstFit(ns1, 4096) == 1;
  }

  /** `task_init` and the first `create_task`. */
  method StartTasks(heap: Heap, mainTask: Word, ghost lo: Word, ghost hi: Word, regs: Regs, background: Word)
    returns (scheduler: Scheduler, ghost t: Task)
    requires heap.Valid() && RoomForTask(heap.nodes)
    requires var main := Task(mainTask, 0, lo, hi, regs);
      Placed(main) && mainTask + TCB_SIZE <= heap.heapStart && hi <= heap.heapStart
    modifies heap`nodes, heap.ram.words
    ensures fresh(scheduler) && fresh(scheduler.machine) && scheduler.heap == heap && scheduler.Valid()
    ensures var q := Queue([Task(mainTask, 0, lo, hi, regs)], 0, regs);
      Possible(q, Create(t)) && scheduler.Q() == Step(q, Create(t)) && IsNew(t, t.tcb, 1, background)
    ensures SameOutside(old(heap.ram.Image()), heap.ram.Image(), 0, heap.Limit())
  {
    var machine := new Machine(heap.ram, regs);
    scheduler := new Scheduler(heap, machine, mainTask);
    scheduler.TaskInit(lo, hi);
    var newTask;
    newTask, t := scheduler.CreateTask(background);
  }

  /** Memory, paging and tasks. */
  method BringTasks(memSize: Word, pmm: Pmm, ram: Ram, mainTask: Word, ghost lo: Word, ghost hi: Word, regs: Regs,
      background: Word)
    returns (scheduler: Scheduler, cr3: Page, ghost tables: seq<Page>, ghost t: Task)
    requires ram.Valid() && pmm.bitmap.Length == 128 && pmm.bitmap != ram.words && memSize >= BOOT_LIMIT
    requires var main := Task(mainTask, 0, lo, hi, regs);
      Placed(main) && mainTask + TCB_SIZE <= ARENA_BASE && hi <= ARENA_BASE
    modifies pmm, pmm.bitmap, ram.words
    ensures fresh(scheduler) && fresh(scheduler.machine) && fresh(scheduler.heap) && scheduler.heap.ram == ram
    ensures scheduler.Valid() && scheduler.heap.heapStart == ARENA_BASE && MapBuilt(ram.Image(), cr3, tables)
    ensures var q := Queue([Task(mainTask, 0, lo, hi, regs)], 0, regs);
      Possible(q, Create(t)) && scheduler.Q() == Step(q, Create(t)) && IsNew(t, t.tcb, 1, background)
  {
    var heap;
    heap, cr3, tables := Bring(memSize, pmm, ram);
    FreshHasRoom(ARENA_BASE);
    ghost var m := ram.Image();
    scheduler, t := StartTasks(heap, mainTask, lo, hi, regs, background);
    MapKept(m, ram.Image(), cr3, tables);
  }

  /** `vga_init`, `vfs_init` and `shell_init`. */
  method StartShell(heap: Heap, demo: Commands.Outputs) returns (shell: Shell)
    requires heap.Valid()
    ensures fresh(shell) && fresh(shell.commandBuffer) && fresh(shell.console) && fresh(shell.console.buffer)
    ensures fresh(shell.vfs) && fresh(shell.vfs.fileTable) && shell.vfs.heap == heap
    ensures shell.Valid() && Dialogs.JustStarted(shell.Now())
  {
    var console := new Vga.Console();
    var vfs := new Vfs(heap);
    vfs.Init();
    shell := new Shell(console, vfs, demo);
    shell.Init();
    Dialogs.ShellStarts(heap.nodes, shell.entered);
  }

  /** The boot sequence establishes the invariant, with two tasks and an empty file system. */
  method Start(memSize: Word, pmm: Pmm, ram: Ram, mainTask: Word, ghost lo: Word, ghost hi: Word, regs: Regs,
      background: Word, demo: Commands.Outputs)
    returns (kernel: Kernel, ghost t: Task)
    requires ram.Valid() && pmm.bitmap.Length == 128 && pmm.bitmap != ram.words && memSize >= BOOT_LIMIT
    requires var main := Task(mainTask, 0, lo, hi, regs);
      Placed(main) && mainTask + TCB_SIZE <= ARENA_BASE && hi <= ARENA_BASE
    modifies pmm, pmm.bitmap, ram.words
    ensures kernel.Valid() && Dialogs.JustStarted(kernel.shell.Now())
    ensures kernel.timer.clock.ticks == 0 && kernel.timer.clock.targetFreq == 100
    ensures var q := Queue([Task(mainTask, 0, lo, hi, regs)], 0, regs);
      Possible(q, Create(t)) && kernel.scheduler.Q() == Step(q, Create(t)) && IsNew(t, t.tcb, 1, background)
  {
    hide Dialogs.JustStarted, MapBuilt, TasksOk, Tiles, Linked;
    var scheduler, cr3;
    ghost var tables;
    scheduler, cr3, tables, t := BringTasks(memSize, pmm, ram, mainTask, lo, hi, regs, background);
    var shell := StartShell(scheduler.heap, demo);
    var clock := new Clock();
    var timer := new TimerInterrupt(clock, scheduler);
    kernel := new Kernel(scheduler, timer, shell, cr3, tables);
  }
}
