/** Single-bit operations on machine words, and the packed bitmap of the physical memory manager. */
module Bits {
  import opened Words

  /** Bit `k` of `w`: the test `w & (1 << k)`. */
  predicate Bit(w: nat, k: nat) {
    if k == 0 then w % 2 == 1 else Bit(w / 2, k - 1)
  }

  /** `w | (1 << k)`. */
  function WithBit(w: nat, k: nat): nat {
    if k == 0 then w / 2 * 2 + 1 else 2 * WithBit(w / 2, k - 1) + w % 2
  }

  /** `w & ~(1 << k)`. */
  function WithoutBit(w: nat, k: nat): nat {
    if k == 0 then w / 2 * 2 else 2 * WithoutBit(w / 2, k - 1) + w % 2
  }

  function Pow2(n: nat): (p: nat)
    ensures p >= 1
  {
    if n == 0 then 1 else 2 * Pow2(n - 1)
  }

  /** Bit `k` has the weight 2^k. */
  lemma {:induction false} BitWeight(w: nat, k: nat)
    ensures Bit(w, k) <==> w / Pow2(k) % 2 == 1
    ensures WithBit(w, k) == if Bit(w, k) then w else w + Pow2(k)
    ensures WithoutBit(w, k) == if Bit(w, k) then w - Pow2(k) else w
  {
    if k > 0 {
      BitWeight(w / 2, k - 1);
      HalvedTwice(w, Pow2(k - 1));
    }
  }

  lemma HalvedTwice(w: nat, p: nat)
    requires p > 0
    ensures w / 2 / p == w / (2 * p)
  {
    var q, r := w / 2 / p, w / 2 % p;
    assert w == 2 * (q * p + r) + w % 2 == q * (2 * p) + (2 * r + w % 2);
    QuotientIs(w, 2 * p, q, 2 * r + w % 2);
  }

  lemma QuotientIs(w: int, d: int, q: int, r: int)
    requires d > 0 && w == q * d + r && 0 <= r < d
    ensures w / d == q
  {
    var x := w / d - q;
    assert x * d == r - w % d;
    assert x >= 1 ==> x * d >= d;
    assert x <= -1 ==> x * d <= -d;
  }

  lemma {:induction false} BitAfterSet(w: nat, k: nat, j: nat)
    ensures Bit(WithBit(w, k), j) <==> j == k || Bit(w, j)
  {
    if k > 0 && j > 0 {
      BitAfterSet(w / 2, k - 1, j - 1);
    }
  }

  lemma {:induction false} BitAfterClear(w: nat, k: nat, j: nat)
    ensures Bit(WithoutBit(w, k), j) <==> j != k && Bit(w, j)
  {
    if k > 0 && j > 0 {
      BitAfterClear(w / 2, k - 1, j - 1);
    }
  }

  lemma {:induction false} BitRange(w: nat, k: nat, n: nat)
    requires w < Pow2(n) && k < n
    ensures WithBit(w, k) < Pow2(n) && WithoutBit(w, k) < Pow2(n)
  {
    Halved(w, n);
    if k > 0 {
      BitRange(w / 2, k - 1, n - 1);
    }
  }

  lemma Halved(w: nat, n: nat)
    requires n > 0
    ensures w < Pow2(n) <==> w / 2 < Pow2(n - 1)
  {
    assert w == 2 * (w / 2) + w % 2;
  }

  lemma WordSize()
    ensures Pow2(32) == WORD_RANGE
  {
    assert Pow2(8) == 256;
    assert Pow2(16) == 65536;
    assert Pow2(24) == 16777216;
  }

  lemma {:induction false} AllOnes(n: nat, k: nat)
    requires k < n
    ensures Bit(Pow2(n) - 1, k)
  {
    if k > 0 {
      assert (Pow2(n) - 1) / 2 == Pow2(n - 1) - 1;
      AllOnes(n - 1, k - 1);
    }
  }

  /** A word is determined by its bits. */
  lemma {:induction false} WordFromBits(v: nat, w: nat, n: nat)
    requires v < Pow2(n) && w < Pow2(n)
    requires forall k :: 0 <= k < n ==> (Bit(v, k) <==> Bit(w, k))
    ensures v == w
  {
    if n > 0 {
      assert Bit(v, 0) <==> Bit(w, 0);
      forall k | 0 <= k < n - 1 ensures Bit(v / 2, k) <==> Bit(w / 2, k) {
        assert Bit(v, k + 1) <==> Bit(w, k + 1);
      }
      WordFromBits(v / 2, w / 2, n - 1);
    }
  }

  // ---- The bitmap ----------------------------------------------------------------------------

  /** How many blocks the bitmap can track, 32 to a word. */
  const CAPACITY: int := 4096

  type Bitmap = bm: seq<Word> | |bm| == 128 witness seq(128, _ => 0)

  /** Block `b` is marked used. */
  predicate Used(bm: Bitmap, b: nat)
    requires b < CAPACITY
  {
    Bit(bm[b / 32], b % 32)
  }

  lemma SetBlock(bm: Bitmap, bm': Bitmap, b: nat)
    requires b < CAPACITY && bm' == bm[b / 32 := bm'[b / 32]]
    requires bm'[b / 32] == WithBit(bm[b / 32], b % 32)
    ensures forall c :: 0 <= c < CAPACITY ==> (Used(bm', c) <==> c == b || Used(bm, c))
  {
    forall c: nat | c < CAPACITY ensures Used(bm', c) <==> c == b || Used(bm, c) {
      BitAfterSet(bm[b / 32], b % 32, c % 32);
    }
  }

  lemma ClearBlock(bm: Bitmap, bm': Bitmap, b: nat)
    requires b < CAPACITY && bm' == bm[b / 32 := bm'[b / 32]]
    requires bm'[b / 32] == WithoutBit(bm[b / 32], b % 32)
    ensures forall c :: 0 <= c < CAPACITY ==> (Used(bm', c) <==> c != b && Used(bm, c))
  {
    forall c: nat | c < CAPACITY ensures Used(bm', c) <==> c != b && Used(bm, c) {
      BitAfterClear(bm[b / 32], b % 32, c % 32);
    }
  }

  /** Two bitmaps with the same used blocks are the same words. */
  lemma BitmapFromUsed(bm: Bitmap, bm': Bitmap)
    requires forall b :: 0 <= b < CAPACITY ==> (Used(bm, b) <==> Used(bm', b))
    ensures bm == bm'
  {
    WordSize();
    forall i | 0 <= i < 128 ensures bm[i] == bm'[i] {
      forall k | 0 <= k < 32 ensures Bit(bm[i], k) <==> Bit(bm'[i], k) {
        assert Used(bm, 32 * i + k) <==> Used(bm', 32 * i + k);
      }
      WordFromBits(bm[i], bm'[i], 32);
    }
  }
}
