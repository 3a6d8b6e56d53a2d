/** The 32-bit machine words and the word-addressed memory every kernel module shares. */
module Words {

  datatype Option<+T> = None | Some(value: T)

  const WORD_RANGE: int := 0x1_0000_0000

  /** A `uint32_t`, a `size_t` or a pointer on i386. */
  type Word = x: int | 0 <= x < 0x1_0000_0000

  type Byte = b: int | 0 <= b < 256

  /**
    The whole 4 GB address space. Element `a` is the word at byte address `a`; every access is to an
    aligned word, so only the elements at multiples of 4 are ever used.
  */
  type Memory = m: seq<Word> | |m| == 0x1_0000_0000
    ghost witness seq(WORD_RANGE, _ => 0)

  /** The two images agree on every word of the byte range [lo, hi). */
  ghost predicate SameOn(m: Memory, m': Memory, lo: int, hi: int) {
    forall a :: 0 <= a < WORD_RANGE && lo <= a < hi ==> m[a] == m'[a]
  }

  /** The two images agree on every word outside the byte range [lo, hi). */
  ghost predicate SameOutside(m: Memory, m': Memory, lo: int, hi: int) {
    forall a :: 0 <= a < WORD_RANGE && !(lo <= a < hi) ==> m[a] == m'[a]
  }

  /** The integers in [lo, hi). */
  ghost function Range(lo: int, hi: int): (s: set<int>)
    ensures forall b :: b in s <==> lo <= b < hi
    ensures |s| == if lo < hi then hi - lo else 0
    decreases hi - lo
  {
    if lo >= hi then {} else Range(lo, hi - 1) + {hi - 1}
  }

  lemma {:induction false} SizeInRange(s: set<int>, n: nat)
    requires forall b :: b in s ==> 0 <= b < n
    ensures |s| <= n
  {
    if n > 0 {
      SizeInRange(s - {n - 1}, n - 1);
    } else {
      assert forall b :: b !in s;
      assert s == {};
    }
  }

  lemma {:induction false} SubsetSize<T>(s: set<T>, t: set<T>)
    requires s <= t
    ensures |s| <= |t|
  {
    if s != {} {
      var b :| b in s;
      SubsetSize(s - {b}, t - {b});
    }
  }

  lemma SubsetSame<T>(s: set<T>, t: set<T>)
    requires s <= t && |s| >= |t|
    ensures s == t
  {
    if s != t {
      var b :| b in t && b !in s;
      SubsetSize(s, t - {b});
    }
  }

  /** Physical memory, read and written one aligned word at a time. */
  class Ram {
    const words: array<Word>

    ghost predicate Valid() {
      words.Length == WORD_RANGE
    }

    ghost function Image(): Memory
      requires Valid()
      reads words
    {
      words[..]
    }

    constructor (cells: array<Word>)
      requires cells.Length == WORD_RANGE
      ensures words == cells && Valid()
    {
      words := cells;
    }

    method Read(a: Word) returns (v: Word)
      requires Valid() && a % 4 == 0
      ensures v == Image()[a]
    {
      v := words[a];
    }

    method Write(a: Word, v: Word)
      requires Valid() && a % 4 == 0
      modifies words
      ensures Image() == old(Image())[a := v]
    {
      words[a] := v;
    }
  }
}
