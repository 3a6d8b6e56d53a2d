/** The register and stack machine: pushes, pops, and the context switch built from them. */
module Cpu {
  import opened Words
  import opened RunQueue

  /** Words between the saved stack pointer and the return address, and one more for that. */
  const FRAME: int := 36

  /** What the restore half of the switch loads from a stack whose saved pointer is `sp`. */
  ghost function Resumed(m: Memory, sp: Word): Regs
    requires sp + FRAME < WORD_RANGE
  {
    Regs(m[sp + 28], m[sp + 24], m[sp + 20], m[sp + 16], m[sp + 12], m[sp + 8], m[sp + 4],
         m[sp], sp + FRAME, m[sp + 32])
  }

  lemma ResumedFrame(m: Memory, m': Memory, sp: Word)
    requires sp + FRAME < WORD_RANGE && SameOn(m, m', sp, sp + FRAME)
    ensures Resumed(m', sp) == Resumed(m, sp)
  {
  }

  class Machine {
    const ram: Ram
    var regs: Regs

    constructor (ram: Ram, regs: Regs)
      ensures this.ram == ram && this.regs == regs
    {
      this.ram := ram;
      this.regs := regs;
    }

    method Push(v: Word)
      requires ram.Valid() && regs.esp >= 4 && regs.esp % 4 == 0
      modifies `regs, ram.words
      ensures regs == old(regs).(esp := old(regs).esp - 4)
      ensures ram.Image() == old(ram.Image())[regs.esp := v]
    {
      regs := regs.(esp := regs.esp - 4);
      ram.Write(regs.esp, v);
    }

    method Pop() returns (v: Word)
      requires ram.Valid() && regs.esp + 4 < WORD_RANGE && regs.esp % 4 == 0
      modifies `regs
      ensures regs == old(regs).(esp := old(regs).esp + 4) && v == ram.Image()[old(regs).esp]
    {
      v := ram.Read(regs.esp);
      regs := regs.(esp := regs.esp + 4);
    }

    /** The saving half: registers and flags onto the current stack. */
    method PushContext()
      requires ram.Valid() && 32 <= regs.esp && regs.esp + 4 < WORD_RANGE && regs.esp % 4 == 0
      modifies `regs, ram.words
      ensures regs == old(regs).(esp := old(regs).esp - 32)
      ensures SameOutside(old(ram.Image()), ram.Image(), regs.esp, regs.esp + 32)
      ensures Resumed(ram.Image(), regs.esp) ==
        old(regs).(eip := ram.Image()[old(regs).esp], esp := old(regs).esp + 4)
      ensures var r, m := old(regs), ram.Image();
        && m[r.esp - 4] == r.eax && m[r.esp - 8] == r.ebx && m[r.esp - 12] == r.ecx && m[r.esp - 16] == r.edx
        && m[r.esp - 20] == r.esi && m[r.esp - 24] == r.edi && m[r.esp - 28] == r.ebp && m[r.esp - 32] == r.eflags
    {
      PushData();
      Push(regs.esi);
      Push(regs.edi);
      Push(regs.ebp);
      Push(regs.eflags);
    }

    /** Its first four pushes. */
    method PushData()
      requires ram.Valid() && 16 <= regs.esp && regs.esp % 4 == 0
      modifies `regs, ram.words
      ensures var r, m := old(regs), ram.Image();
        && regs == r.(esp := r.esp - 16) && SameOutside(old(ram.Image()), m, r.esp - 16, r.esp)
        && m[r.esp - 4] == r.eax && m[r.esp - 8] == r.ebx && m[r.esp - 12] == r.ecx && m[r.esp - 16] == r.edx
    {
      Push(regs.eax);
      Push(regs.ebx);
      Push(regs.ecx);
      Push(regs.edx);
    }

    /** The restoring half, up to and including `ret`. */
    method PopContext()
      requires ram.Valid() && regs.esp + FRAME < WORD_RANGE && regs.esp % 4 == 0
      modifies `regs
      ensures regs == Resumed(ram.Image(), old(regs).esp)
    {
      PopFlagsAndPointers();
      var v := Pop();
      regs := regs.(edx := v);
      v := Pop();
      regs := regs.(ecx := v);
      v := Pop();
      regs := regs.(ebx := v);
      v := Pop();
      regs := regs.(eax := v);
      v := Pop();
      regs := regs.(eip := v);
    }

    /** Its first four pops. */
    method PopFlagsAndPointers()
      requires ram.Valid() && regs.esp + FRAME < WORD_RANGE && regs.esp % 4 == 0
      modifies `regs
      ensures var sp, m := old(regs).esp, ram.Image();
        regs == old(regs).(eflags := m[sp], ebp := m[sp + 4], edi := m[sp + 8], esi := m[sp + 12], esp := sp + 16)
    {
      var v := Pop();
      regs := regs.(eflags := v);
      v := Pop();
      regs := regs.(ebp := v);
      v := Pop();
      regs := regs.(edi := v);
      v := Pop();
      regs := regs.(esi := v);
    }

    /**
      `switch_to_task`: on entry the stack holds the return address, where to save the stack pointer,
      and the stack pointer to load. The frame it leaves behind resumes the caller exactly; the
      processor ends up with what the other stack holds.
    */
    method SwitchToTask()
      requires ram.Valid() && 32 <= regs.esp && regs.esp + 12 < WORD_RANGE && regs.esp % 4 == 0
      requires var p := ram.Image()[regs.esp + 4];
        p % 4 == 0 && !(regs.esp - 32 <= p < regs.esp + 12)
      requires var q := ram.Image()[regs.esp + 8]; q % 4 == 0 && q + FRAME < WORD_RANGE
      modifies `regs, ram.words
      ensures var s := old(regs).esp; var p := old(ram.Image())[s + 4]; var q := old(ram.Image())[s + 8];
        && ram.Image()[p] == s - 32
        && Resumed(ram.Image(), s - 32) == old(regs).(eip := old(ram.Image())[s], esp := s + 4)
        && regs == Resumed(ram.Image(), q)
        && (forall a :: 0 <= a < WORD_RANGE && !(s - 32 <= a < s) && a != p ==> ram.Image()[a] == old(ram.Image())[a])
    {
      ghost var s, m0 := regs.esp, ram.Image();
      PushContext();
      ghost var m1 := ram.Image();
      var oldEsp := ram.Read(regs.esp + 36);
      regs := regs.(eax := oldEsp);
      ram.Write(regs.eax, regs.esp);
      ResumedFrame(m1, ram.Image(), s - 32);
      var newEsp := ram.Read(regs.esp + 40);
      regs := regs.(esp := newEsp);
      PopContext();
    }
  }
}
