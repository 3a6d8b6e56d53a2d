/** The physical memory manager: a packed bitmap and a redundant counter that refine a set of free blocks. */
module PhysicalMemory {
  import opened Words
  import opened Bits

  const BLOCK_SIZE: int := 4096

  /** 1 MB / 4 KB: blocks below this one are never handed out. */
  const FIRST_BLOCK: int := 256

  function Min(x: int, y: int): int {
    if x < y then x else y
  }

  ghost predicate IsLeast(b: int, s: set<int>) {
    b in s && forall c :: c in s ==> b <= c
  }

  /** The `n` lowest blocks of `before` have been taken, or all when there are fewer. */
  ghost predicate LowestTaken(before: set<int>, after: set<int>, n: nat) {
    && after <= before
    && |after| == (if n <= |before| then |before| - n else 0)
    && forall x, y :: x in before && x !in after && y in after ==> x < y
  }

  lemma TakeOneMore(before: set<int>, mid: set<int>, after: set<int>, n: nat)
    requires LowestTaken(before, mid, n)
    requires if mid == {} then after == {} else exists b :: IsLeast(b, mid) && after == mid - {b}
    ensures LowestTaken(before, after, n + 1)
  {
    SubsetSize(mid, before);
    if mid != {} {
      var b :| IsLeast(b, mid) && after == mid - {b};
      assert |mid| == |after| + 1;
    }
  }

  lemma TakeMore(before: set<int>, mid: set<int>, after: set<int>, n: nat, k: nat)
    requires LowestTaken(before, mid, n) && LowestTaken(mid, after, k)
    ensures LowestTaken(before, after, n + k)
  {
    SubsetSize(mid, before);
  }

  /** `n` blocks taken from the lowest free one on are contiguous exactly when these `n` were free. */
  lemma TakenContiguous(before: set<int>, after: set<int>, b: int, n: nat)
    requires LowestTaken(before, after, n) && IsLeast(b, before)
    ensures Range(b, b + n) <= before <==> before - after == Range(b, b + n)
  {
    var wanted, taken := Range(b, b + n), before - after;
    if wanted <= before {
      SubsetSize(wanted, before);
      assert taken !! after && taken + after == before;
      forall x | x in wanted ensures x in taken {
        if x in after {
          assert taken <= Range(b, x);
          SubsetSize(taken, Range(b, x));
        }
      }
      SubsetSame(wanted, taken);
    }
  }

  /** The blocks that memory of `memSize` bytes puts at the manager's disposal. */
  ghost function Usable(memSize: Word): set<int> {
    Range(FIRST_BLOCK, Min(memSize / BLOCK_SIZE, CAPACITY))
  }

  /** These are the whole blocks of 4096 bytes from 1 MB up to the end of memory or 16 MB. */
  lemma UsableBlocks(memSize: Word, b: int)
    ensures b in Usable(memSize) <==> 0x10_0000 <= 4096 * b && 4096 * b + 4096 <= memSize && 4096 * b < 0x100_0000
  {
  }

  class Pmm {
    const bitmap: array<Word>
    var maxBlocks: Word
    var usedBlocks: Word

    ghost var free: set<int>

    /** The bitmap holds exactly the free set; bits past the managed blocks stay set. */
    ghost predicate Shape()
      reads this, bitmap
    {
      && bitmap.Length == 128 && maxBlocks <= CAPACITY
      && (forall b :: b in free ==> 0 <= b < maxBlocks)
      && forall b :: 0 <= b < CAPACITY ==> (b in free <==> !Used(bitmap[..], b))
    }

    ghost predicate Valid()
      reads this, bitmap
    {
      Shape() && usedBlocks == maxBlocks - |free|
    }

    constructor ()
      ensures bitmap.Length == 128 && fresh(bitmap)
    {
      bitmap := new Word[128](_ => 0);
      maxBlocks, usedBlocks, free := 4096, 4096, {};
    }

    method SetBit(b: Word)
      requires Shape() && b < maxBlocks
      modifies `free, bitmap
      ensures Shape() && free == old(free) - {b}
    {
      WordSize();
      BitRange(bitmap[b / 32], b % 32, 32);
      bitmap[b / 32] := WithBit(bitmap[b / 32], b % 32);
      SetBlock(old(bitmap[..]), bitmap[..], b);
      free := free - {b};
    }

    method ClearBit(b: Word)
      requires Shape() && b < maxBlocks
      modifies `free, bitmap
      ensures Shape() && free == old(free) + {b} && |free| <= maxBlocks
    {
      WordSize();
      BitRange(bitmap[b / 32], b % 32, 32);
      bitmap[b / 32] := WithoutBit(bitmap[b / 32], b % 32);
      ClearBlock(old(bitmap[..]), bitmap[..], b);
      free := free + {b};
      SizeInRange(free, maxBlocks);
    }

    method TestBit(b: Word) returns (used: bool)
      requires Shape() && b < maxBlocks
      ensures used <==> b !in free
    {
      used := Bit(bitmap[b / 32], b % 32);
    }

    method MarkAllUsed()
      requires bitmap.Length == 128
      modifies bitmap
      ensures forall b :: 0 <= b < CAPACITY ==> Used(bitmap[..], b)
    {
      for i := 0 to 128
        invariant forall j :: 0 <= j < i ==> bitmap[j] == 0xFFFF_FFFF
      {
        bitmap[i] := 0xFFFF_FFFF;
      }
      WordSize();
      forall b: nat | b < CAPACITY ensures Used(bitmap[..], b) {
        AllOnes(32, b % 32);
      }
    }

    method Init(memSize: Word)
      requires bitmap.Length == 128
      modifies this, bitmap
      ensures Valid() && free == Usable(memSize) && maxBlocks == Min(memSize / BLOCK_SIZE, CAPACITY)
    {
      maxBlocks := memSize / BLOCK_SIZE;
      if maxBlocks > 128 * 32 {
        maxBlocks := 128 * 32;
      }
      MarkAllUsed();
      usedBlocks := maxBlocks;
      free := {};
      FreeFrom(FIRST_BLOCK);
    }

    /** The loop that frees every managed block from `start` on. */
    method FreeFrom(start: Word)
      requires Valid() && free == {} && start < CAPACITY
      modifies `free, `usedBlocks, bitmap
      ensures Valid() && free == Range(start, maxBlocks)
    {
      var i := start;
      while i < maxBlocks
        invariant Valid() && start <= i <= CAPACITY
        invariant forall b :: b in free <==> start <= b < i && b < maxBlocks
      {
        ClearBit(i);
        usedBlocks := usedBlocks - 1;
        i := i + 1;
      }
    }

    method AllocBlock() returns (addr: Word)
      requires Valid()
      modifies `free, `usedBlocks, bitmap
      ensures Valid()
      ensures old(free) == {} ==> addr == 0 && free == {}
      ensures old(free) != {} ==>
        IsLeast(addr / BLOCK_SIZE, old(free)) && addr % BLOCK_SIZE == 0
        && free == old(free) - {addr / BLOCK_SIZE}
    {
      hide Used;
      addr := 0;
      if maxBlocks - usedBlocks == 0 { return; }
      var i: Word := 0;
      while i < maxBlocks
        invariant i <= maxBlocks && unchanged(this) && unchanged(bitmap)
        invariant forall b :: 0 <= b < i ==> b !in free
      {
        var used := TestBit(i);
        if !used {
          SetBit(i);
          usedBlocks := usedBlocks + 1;
          return i * BLOCK_SIZE;
        }
        i := i + 1;
      }
    }

    method FreeBlock(addr: Word)
      requires Valid()
      modifies `free, `usedBlocks, bitmap
      ensures Valid()
      ensures free == old(free) + (if addr / BLOCK_SIZE < maxBlocks then {addr / BLOCK_SIZE} else {})
    {
      var block := addr / BLOCK_SIZE;
      if block < maxBlocks {
        var used := TestBit(block);
        if used {
          ClearBit(block);
          usedBlocks := usedBlocks - 1;
        }
      }
    }

    method GetFreeMemory() returns (bytes: Word)
      requires Valid()
      ensures bytes == 4096 * |free|
    {
      bytes := (maxBlocks - usedBlocks) * BLOCK_SIZE;
    }
  }
}
