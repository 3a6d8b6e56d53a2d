/** The timer interrupt over the real scheduler: what it saves, one scheduling step, what it restores. */
module Interrupt {
  import opened Words
  import opened Bits
  import opened RunQueue
  import opened TaskMemory
  import opened Tasks
  import opened Timer

  /** EFLAGS, CS, EIP from the processor and eight registers from `pusha`. */
  const INTERRUPT_FRAME: int := 44

  /** The code segment every task runs in. */
  const KERNEL_CS: Word := 0x08

  /** The interrupt flag's position in EFLAGS. */
  const IF: nat := 9

  /** Memory holds, at `e`, what an interrupt of a task with registers `r` has saved. */
  ghost predicate Saved(m: Memory, e: int, r: Regs) {
    && 0 <= e && e + INTERRUPT_FRAME < WORD_RANGE && r.esp == e + INTERRUPT_FRAME
    && m[e] == r.edi && m[e + 4] == r.esi && m[e + 8] == r.ebp && m[e + 12] == e + 32 && m[e + 16] == r.ebx
    && m[e + 20] == r.edx && m[e + 24] == r.ecx && m[e + 28] == r.eax
    && m[e + 32] == r.eip && m[e + 36] == 0x08 && m[e + 40] == r.eflags
  }

  lemma SavedKept(m: Memory, m': Memory, e: int, r: Regs)
    requires Saved(m, e, r) && SameOn(m, m', e, e + INTERRUPT_FRAME)
    ensures Saved(m', e, r)
  {
  }

  /** The registers `r` as an interrupt leaves them below the interrupted stack. */
  ghost predicate Interrupted(m: Memory, r: Regs) {
    r.esp >= INTERRUPT_FRAME && Saved(m, r.esp - INTERRUPT_FRAME, r)
  }

  lemma ParkedAfter(m0: Memory, m: Memory, m': Memory, ring: seq<Task>, cur: nat, esp: int, limit: int)
    requires cur < |ring| && ParkedIntact(m0, m, ring, cur) && Only(m0, m, ring[cur]) && OnlyParked(m, m', ring, cur, esp, limit)
    ensures ParkedIntact(m0, m', ring, cur) && Only(m0, m', ring[cur]) && SameOn(m, m', esp, ring[cur].hi)
  {
  }

  lemma InterruptedKept(m: Memory, m': Memory, r: Regs, lo: int, hi: int)
    requires Interrupted(m, r) && lo <= r.esp - INTERRUPT_FRAME && r.esp <= hi && SameOn(m, m', lo, hi)
    ensures Interrupted(m', r)
  {
    SavedKept(m, m', r.esp - INTERRUPT_FRAME, r);
  }

  /**
    What the C functions that the handler calls do up to the call of `switch_to_task`: the words they push
    below the saved context, how many of these are still on the stack, and what they leave in the registers.
  */
  datatype Code = Code(words: seq<Word>, live: nat, regs: Regs) {
    predicate Ok() {
      live <= |words|
    }

    function Depth(): nat {
      4 * |words|
    }
  }

  class TimerInterrupt {
    const clock: Clock
    const scheduler: Scheduler

    /** The running task is inside the handler, with `r` saved on its stack and room for C functions and scheduler. */
    ghost predicate Handling(r: Regs, depth: nat)
      reads scheduler, scheduler.machine, scheduler.heap, scheduler.heap.ram.words
    {
      && scheduler.Valid() && scheduler.Room() && Interrupted(scheduler.Image(), r)
      && scheduler.machine.regs.esp + INTERRUPT_FRAME == r.esp <= scheduler.ring[scheduler.cur].hi
      && scheduler.ring[scheduler.cur].lo + depth + 44 <= scheduler.machine.regs.esp
    }

    constructor (clock: Clock, scheduler: Scheduler)
      ensures this.clock == clock && this.scheduler == scheduler
    {
      this.clock, this.scheduler := clock, scheduler;
    }

    /** The pushes on entry: by the processor, then `pusha`. */
    method Enter()
      requires scheduler.heap.ram.Valid() && scheduler.machine.ram == scheduler.heap.ram
      requires var esp := scheduler.machine.regs.esp; INTERRUPT_FRAME <= esp && esp % 4 == 0
      modifies scheduler.machine, scheduler.heap.ram.words
      ensures var r := old(scheduler.machine.regs);
        && scheduler.machine.regs == r.(esp := r.esp - INTERRUPT_FRAME)
        && Saved(scheduler.Image(), r.esp - INTERRUPT_FRAME, r)
        && SameOutside(old(scheduler.Image()), scheduler.Image(), r.esp - INTERRUPT_FRAME, r.esp)
    {
      var machine := scheduler.machine;
      machine.Push(machine.regs.eflags);
      machine.Push(KERNEL_CS);
      machine.Push(machine.regs.eip);
      PushAll();
    }

    /** `pusha`. */
    method PushAll()
      requires scheduler.heap.ram.Valid() && scheduler.machine.ram == scheduler.heap.ram
      requires 32 <= scheduler.machine.regs.esp && scheduler.machine.regs.esp % 4 == 0
      modifies scheduler.machine, scheduler.heap.ram.words
      ensures var r, m := old(scheduler.machine.regs), scheduler.Image(); var e := r.esp - 32;
        && scheduler.machine.regs == r.(esp := e)
        && m[e] == r.edi && m[e + 4] == r.esi && m[e + 8] == r.ebp && m[e + 12] == r.esp && m[e + 16] == r.ebx
        && m[e + 20] == r.edx && m[e + 24] == r.ecx && m[e + 28] == r.eax
        && SameOutside(old(scheduler.Image()), m, e, r.esp)
    {
      var before := scheduler.machine.regs.esp;
      var r := scheduler.machine.regs;
      PushFour(r.eax, r.ecx, r.edx, r.ebx);
      PushFour(before, r.ebp, r.esi, r.edi);
    }

    method PushFour(a: Word, b: Word, c: Word, d: Word)
      requires scheduler.heap.ram.Valid() && scheduler.machine.ram == scheduler.heap.ram
      requires 16 <= scheduler.machine.regs.esp && scheduler.machine.regs.esp % 4 == 0
      modifies scheduler.machine, scheduler.heap.ram.words
      ensures var r, m := old(scheduler.machine.regs), scheduler.Image(); var e := r.esp - 16;
        && scheduler.machine.regs == r.(esp := e)
        && m[e] == d && m[e + 4] == c && m[e + 8] == b && m[e + 12] == a
        && SameOutside(old(scheduler.Image()), m, e, r.esp)
    {
      var machine := scheduler.machine;
      machine.Push(a);
      machine.Push(b);
      machine.Push(c);
      machine.Push(d);
    }

    /**
      The interrupted task goes on: the C functions take their `n` words off the stack, the arguments of
      the switch included, then `cli` and the epilogue.
    */
    method Return(n: nat, ghost r: Regs)
      requires scheduler.heap.ram.Valid() && scheduler.machine.ram == scheduler.heap.ram
      requires scheduler.machine.regs.esp % 4 == 0 && scheduler.machine.regs.esp + 4 * n + INTERRUPT_FRAME == r.esp
      requires Interrupted(scheduler.Image(), r)
      modifies scheduler.machine
      ensures scheduler.machine.regs == r
    {
      PopWords(n);
      var machine := scheduler.machine;
      machine.regs := machine.regs.(eflags := ClearIf(machine.regs.eflags));
      Leave(r);
    }

    method PopWords(n: nat)
      requires scheduler.heap.ram.Valid() && scheduler.machine.ram == scheduler.heap.ram
      requires scheduler.machine.regs.esp % 4 == 0 && scheduler.machine.regs.esp + 4 * n < WORD_RANGE
      modifies scheduler.machine
      ensures scheduler.machine.regs.esp == old(scheduler.machine.regs.esp) + 4 * n
    {
      for i := 0 to n
        invariant scheduler.machine.regs.esp == old(scheduler.machine.regs.esp) + 4 * i
      {
        var v := scheduler.machine.Pop();
      }
    }

    /** The epilogue: `popa`, `iretd`. Whatever the registers hold, the interrupted ones come back. */
    method Leave(ghost r: Regs)
      requires scheduler.heap.ram.Valid() && scheduler.machine.ram == scheduler.heap.ram
      requires scheduler.machine.regs.esp % 4 == 0 && Saved(scheduler.Image(), scheduler.machine.regs.esp, r)
      modifies scheduler.machine
      ensures scheduler.machine.regs == r
    {
      var machine := scheduler.machine;
      PopAll();
      var v := machine.Pop();
      machine.regs := machine.regs.(eip := v);
      v := machine.Pop();
      v := machine.Pop();
      machine.regs := machine.regs.(eflags := v);
    }

    /** `popa`: the stored stack pointer is skipped. */
    method PopAll()
      requires scheduler.heap.ram.Valid() && scheduler.machine.ram == scheduler.heap.ram
      requires scheduler.machine.regs.esp % 4 == 0 && scheduler.machine.regs.esp + 32 < WORD_RANGE
      modifies scheduler.machine
      ensures var e, m := old(scheduler.machine.regs).esp, scheduler.Image();
        scheduler.machine.regs == old(scheduler.machine.regs).(edi := m[e], esi := m[e + 4], ebp := m[e + 8],
          ebx := m[e + 16], edx := m[e + 20], ecx := m[e + 24], eax := m[e + 28], esp := e + 32)
    {
      var machine := scheduler.machine;
      var v := machine.Pop();
      machine.regs := machine.regs.(edi := v);
      v := machine.Pop();
      machine.regs := machine.regs.(esi := v);
      v := machine.Pop();
      machine.regs := machine.regs.(ebp := v);
      v := machine.Pop();
      v := machine.Pop();
      machine.regs := machine.regs.(ebx := v);
      v := machine.Pop();
      machine.regs := machine.regs.(edx := v);
      v := machine.Pop();
      machine.regs := machine.regs.(ecx := v);
      v := machine.Pop();
      machine.regs := machine.regs.(eax := v);
    }

    /** `irq0_handler` up to the switch. */
    method Irq0(ret: Word, c: Code)
      requires scheduler.Valid() && c.Ok()
      requires var s := scheduler;
        s.ring[s.cur].lo + INTERRUPT_FRAME + c.Depth() + 44 <= s.machine.regs.esp <= s.ring[s.cur].hi && s.machine.regs.esp % 4 == 0
      modifies clock, scheduler`currentTask, scheduler`ring, scheduler`cur, scheduler.machine, scheduler.heap.ram.words
      ensures scheduler.Valid() && clock.ticks == TicksAfter(old(clock.ticks), 1) && !clock.needReschedule
      ensures scheduler.Q() == Step(Step(old(scheduler.Q()), Execute(InHandler(old(scheduler.machine.regs), c))), Schedule(ret))
      ensures Interrupted(scheduler.Image(), old(scheduler.machine.regs))
      ensures ParkedIntact(old(scheduler.Image()), scheduler.Image(), old(scheduler.ring), old(scheduler.cur))
      ensures Only(old(scheduler.Image()), scheduler.Image(), old(scheduler.ring)[old(scheduler.cur)])
    {
      hide Interrupted, Handling, SetIf;
      ghost var r := scheduler.machine.regs;
      EnterKeeps(c.Depth());
      Tick(ret, c, r);
    }

    /** The timer's handler, and the reschedule that it asks for. */
    method Tick(ret: Word, c: Code, ghost r: Regs)
      requires Handling(r, c.Depth()) && c.Ok() && scheduler.machine.regs == r.(esp := r.esp - INTERRUPT_FRAME)
      modifies clock, scheduler`currentTask, scheduler`ring, scheduler`cur, scheduler.machine, scheduler.heap.ram.words
      ensures clock.ticks == TicksAfter(old(clock.ticks), 1) && !clock.needReschedule
      ensures scheduler.Valid() && Interrupted(scheduler.Image(), r)
      ensures scheduler.Q() == Step(Step(old(scheduler.Q()), Execute(InHandler(r, c))), Schedule(ret))
      ensures ParkedIntact(old(scheduler.Image()), scheduler.Image(), old(scheduler.ring), old(scheduler.cur))
      ensures Only(old(scheduler.Image()), scheduler.Image(), old(scheduler.ring)[old(scheduler.cur)])
    {
      clock.Handler();
      var needed := clock.NeedsReschedule();
      if needed {
        clock.ClearReschedule();
        StiAndSchedule(ret, c, r);
      }
    }

    /** The C functions run, `sti` among them, and the scheduler: the interrupted registers stay saved. */
    method StiAndSchedule(ret: Word, c: Code, ghost r: Regs)
      requires Handling(r, c.Depth()) && c.Ok()
      modifies scheduler`currentTask, scheduler`ring, scheduler`cur, scheduler.machine, scheduler.heap.ram.words
      ensures scheduler.Valid() && Interrupted(scheduler.Image(), r)
      ensures scheduler.Q() == Step(Step(old(scheduler.Q()), Execute(InHandler(r, c))), Schedule(ret))
      ensures ParkedIntact(old(scheduler.Image()), scheduler.Image(), old(scheduler.ring), old(scheduler.cur))
      ensures Only(old(scheduler.Image()), scheduler.Image(), old(scheduler.ring)[old(scheduler.cur)])
    {
      ghost var ring, cur, m0 := scheduler.ring, scheduler.cur, scheduler.Image();
      RunCode(c, r);
      ghost var m, esp := scheduler.Image(), scheduler.machine.regs.esp;
      assert esp <= r.esp - INTERRUPT_FRAME && r.esp <= ring[cur].hi;
      hide Interrupted, InHandler, ParkedIntact, Only, OnlyParked;
      CallSchedule(ret);
      ParkedAfter(m0, m, scheduler.Image(), ring, cur, esp, scheduler.heap.Limit());
      InterruptedKept(m, scheduler.Image(), r, esp, ring[cur].hi);
    }

    method CallSchedule(ret: Word)
      requires scheduler.Valid() && scheduler.Room()
      modifies scheduler`currentTask, scheduler`ring, scheduler`cur, scheduler.machine, scheduler.heap.ram.words
      ensures scheduler.HandedOver(old(scheduler.Image()), old(scheduler.Q()), ret)
    {
      scheduler.HasStarted();
      scheduler.TaskSchedule(ret);
    }

    /** What they push stays below the saved context and on the running task's stack. */
    method RunCode(c: Code, ghost r: Regs)
      requires Handling(r, c.Depth()) && c.Ok()
      modifies scheduler.machine, scheduler.heap.ram.words
      ensures scheduler.Valid() && scheduler.Room() && Interrupted(scheduler.Image(), r)
      ensures scheduler.machine.regs == InHandler(r, c)
      ensures ParkedIntact(old(scheduler.Image()), scheduler.Image(), scheduler.ring, scheduler.cur)
      ensures Only(old(scheduler.Image()), scheduler.Image(), scheduler.ring[scheduler.cur])
    {
      hide TasksOk;
      ghost var m := scheduler.Image();
      var esp := scheduler.machine.regs.esp;
      PushWords(c.words);
      scheduler.machine.regs := c.regs.(esp := esp - 4 * c.live, eflags := SetIf(c.regs.eflags));
      var s := scheduler;
      SavedKept(m, s.Image(), r.esp - INTERRUPT_FRAME, r);
      ComputesOk(m, s.Image(), s.heap.nodes, s.heap.heapStart, s.ring, s.cur);
      s.heap.HeadersSuffice(m);
    }

    method PushWords(words: seq<Word>)
      requires scheduler.heap.ram.Valid() && scheduler.machine.ram == scheduler.heap.ram
      requires 4 * |words| <= scheduler.machine.regs.esp && scheduler.machine.regs.esp % 4 == 0
      modifies scheduler.machine, scheduler.heap.ram.words
      ensures scheduler.machine.regs == old(scheduler.machine.regs).(esp := old(scheduler.machine.regs.esp) - 4 * |words|)
      ensures SameOutside(old(scheduler.Image()), scheduler.Image(),
        old(scheduler.machine.regs.esp) - 4 * |words|, old(scheduler.machine.regs.esp))
    {
      for i := 0 to |words|
        invariant scheduler.machine.regs == old(scheduler.machine.regs).(esp := old(scheduler.machine.regs.esp) - 4 * i)
        invariant SameOutside(old(scheduler.Image()), scheduler.Image(),
          old(scheduler.machine.regs.esp) - 4 * i, old(scheduler.machine.regs.esp))
      {
        scheduler.machine.Push(words[i]);
      }
    }

    /** The entry pushes stay on the running task's stack. */
    method EnterKeeps(ghost depth: nat)
      requires scheduler.Valid()
      requires var s := scheduler;
        s.ring[s.cur].lo + INTERRUPT_FRAME + depth + 44 <= s.machine.regs.esp <= s.ring[s.cur].hi && s.machine.regs.esp % 4 == 0
      modifies scheduler.machine, scheduler.heap.ram.words
      ensures var r := old(scheduler.machine.regs);
        Handling(r, depth) && scheduler.machine.regs == r.(esp := r.esp - INTERRUPT_FRAME)
      ensures ParkedIntact(old(scheduler.Image()), scheduler.Image(), old(scheduler.ring), old(scheduler.cur))
      ensures Only(old(scheduler.Image()), scheduler.Image(), old(scheduler.ring)[old(scheduler.cur)])
    {
      hide TasksOk, Saved;
      ghost var m := scheduler.Image();
      Enter();
      var s := scheduler;
      ComputesOk(m, s.Image(), s.heap.nodes, s.heap.heapStart, s.ring, s.cur);
      s.heap.HeadersSuffice(m);
    }
  }

  /** EFLAGS after `sti`. */
  function SetIf(eflags: Word): Word {
    WordSize();
    BitRange(eflags, IF, 32);
    WithBit(eflags, IF)
  }

  /** EFLAGS after `cli`. */
  function ClearIf(eflags: Word): Word {
    WordSize();
    BitRange(eflags, IF, 32);
    WithoutBit(eflags, IF)
  }

  /** The registers when the scheduler calls `switch_to_task` for the handler. */
  function InHandler(r: Regs, c: Code): Regs
    requires c.Ok() && r.esp >= INTERRUPT_FRAME + 4 * c.live
  {
    c.regs.(esp := r.esp - INTERRUPT_FRAME - 4 * c.live, eflags := SetIf(c.regs.eflags))
  }

  /** `sti` and `cli` touch no other bit of EFLAGS. */
  lemma OnlyInterruptFlag(eflags: Word, j: nat)
    ensures Bit(SetIf(eflags), j) <==> j == 9 || Bit(eflags, j)
    ensures Bit(ClearIf(eflags), j) <==> j != 9 && Bit(eflags, j)
  {
    BitAfterSet(eflags, 9, j);
    BitAfterClear(eflags, 9, j);
  }

  /**
    While the interrupted task is away it is parked inside the handler with interrupts enabled: below the
    saved context, the words of the C functions and the two arguments, at the return address `ret`.
  */
  lemma ParkedEnabled(q: Queue, r: Regs, c: Code, ret: Word)
    requires q.Ok() && q.regs == r && |q.ring| > 1 && c.Ok() && r.esp >= 52 + 4 * c.live
    ensures var parked := Step(Step(q, Execute(InHandler(r, c))), Schedule(ret)).ring[q.cur];
      && parked.tcb == q.ring[q.cur].tcb && parked.saved.eip == ret
      && parked.saved.esp == r.esp - 44 - 4 * c.live - 8 && Bit(parked.saved.eflags, 9)
  {
    OnlyInterruptFlag(c.regs.eflags, 9);
  }
}
