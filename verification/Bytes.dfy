/** Single bytes of the word-addressed memory, least significant first. */
module Bytes {
  import opened Words
  import opened CStrings

  function Pack(b0: Byte, b1: Byte, b2: Byte, b3: Byte): Word {
    b0 + 256 * b1 + 65536 * b2 + 16777216 * b3
  }

  function ByteOf(w: Word, k: int): Byte
    requires 0 <= k < 4
  {
    if k == 0 then w % 256 else if k == 1 then w / 256 % 256 else if k == 2 then w / 65536 % 256 else w / 16777216
  }

  function WithByte(w: Word, k: int, v: Byte): Word
    requires 0 <= k < 4
  {
    if k == 0 then Pack(v, ByteOf(w, 1), ByteOf(w, 2), ByteOf(w, 3))
    else if k == 1 then Pack(ByteOf(w, 0), v, ByteOf(w, 2), ByteOf(w, 3))
    else if k == 2 then Pack(ByteOf(w, 0), ByteOf(w, 1), v, ByteOf(w, 3))
    else Pack(ByteOf(w, 0), ByteOf(w, 1), ByteOf(w, 2), v)
  }

  lemma PackParts(b0: Byte, b1: Byte, b2: Byte, b3: Byte)
    ensures var w := Pack(b0, b1, b2, b3);
      ByteOf(w, 0) == b0 && ByteOf(w, 1) == b1 && ByteOf(w, 2) == b2 && ByteOf(w, 3) == b3
  {
    var w := Pack(b0, b1, b2, b3);
    var w1, w2 := b1 + 256 * (b2 + 256 * b3), b2 + 256 * b3;
    assert w == 256 * w1 + b0 && w1 == 256 * w2 + b1;
    assert w / 256 == w1 && w1 / 256 == w2 && w2 / 256 == b3;
    assert w / 65536 == w2 && w / 16777216 == b3;
  }

  /** Little-endian: the byte at the lowest address is the least significant one. */
  lemma BytesMakeWord(w: Word)
    ensures w == ByteOf(w, 0) + 0x100 * ByteOf(w, 1) + 0x1_0000 * ByteOf(w, 2) + 0x100_0000 * ByteOf(w, 3)
    ensures Pack(ByteOf(w, 0), ByteOf(w, 1), ByteOf(w, 2), ByteOf(w, 3)) == w
  {
    var w1 := w / 256;
    assert w1 / 256 == w / 65536 && w1 / 256 / 256 == w / 16777216;
  }

  /** Replacing one byte of a word leaves the other three. */
  lemma WithByteParts(w: Word, k: int, v: Byte, j: int)
    requires 0 <= k < 4 && 0 <= j < 4
    ensures ByteOf(WithByte(w, k, v), j) == if j == k then v else ByteOf(w, j)
  {
    if k == 0 { PackParts(v, ByteOf(w, 1), ByteOf(w, 2), ByteOf(w, 3)); }
    if k == 1 { PackParts(ByteOf(w, 0), v, ByteOf(w, 2), ByteOf(w, 3)); }
    if k == 2 { PackParts(ByteOf(w, 0), ByteOf(w, 1), v, ByteOf(w, 3)); }
    if k == 3 { PackParts(ByteOf(w, 0), ByteOf(w, 1), ByteOf(w, 2), v); }
  }

  /** The address of the word that holds the byte at `a`. */
  function WordOf(a: Word): (d: Word)
    ensures d % 4 == 0 && d <= a < d + 4
  {
    a / 4 * 4
  }

  /** The byte at any address. */
  function ByteAt(m: Memory, a: Word): Byte {
    ByteOf(m[WordOf(a)], a - WordOf(a))
  }

  /** The memory after a byte store. */
  ghost function Stored(m: Memory, a: Word, v: Byte): Memory {
    m[WordOf(a) := WithByte(m[WordOf(a)], a - WordOf(a), v)]
  }

  lemma ByteStored(m: Memory, a: Word, v: Byte, b: Word)
    ensures ByteAt(Stored(m, a, v), b) == if b == a then v else ByteAt(m, b)
  {
    if WordOf(a) == WordOf(b) {
      WithByteParts(m[WordOf(a)], a - WordOf(a), v, b - WordOf(b));
    }
  }

  /** The `n` characters from address `a` on. */
  ghost function TextAt(m: Memory, a: Word, n: nat): (t: seq<Char>)
    requires a + n <= WORD_RANGE
    ensures |t| == n
  {
    if n == 0 then [] else TextAt(m, a, n - 1) + [ByteAt(m, a + n - 1) as char]
  }

  lemma {:induction false} TextCharAt(m: Memory, a: Word, n: nat, i: nat)
    requires a + n <= WORD_RANGE && i < n
    ensures TextAt(m, a, n)[i] as int == ByteAt(m, a + i)
  {
    if i < n - 1 { TextCharAt(m, a, n - 1, i); }
  }

  /** A text stays as long as the words it lies in do. */
  lemma {:induction false} TextKept(m: Memory, m': Memory, a: Word, n: nat)
    requires a % 4 == 0 && a + n <= WORD_RANGE && SameOn(m, m', a, a + n)
    ensures TextAt(m', a, n) == TextAt(m, a, n)
  {
    if n > 0 {
      TextKept(m, m', a, n - 1);
      assert a <= WordOf(a + n - 1);
    }
  }

  /** `n` bytes have been written at `a`, and no other word has changed. */
  ghost predicate Copied(before: Memory, m: Memory, a: Word, t: seq<Char>) {
    a + |t| <= WORD_RANGE && TextAt(m, a, |t|) == t && SameOutside(before, m, a, a + |t|)
  }

  /** Storing one more byte after a text. */
  lemma CopiedOneMore(before: Memory, m: Memory, a: Word, t: seq<Char>, c: Char)
    requires a % 4 == 0 && a + |t| < WORD_RANGE && Copied(before, m, a, t)
    ensures Copied(before, Stored(m, a + |t|, c as int), a, t + [c])
  {
    hide Stored, ByteOf;
    TextGrows(m, a, |t|, c);
    StoredInside(m, a, a + |t|, c as int);
    var m' := Stored(m, a + |t|, c as int);
    SpansJoin(before, m, m', a, a + |t|);
  }

  lemma TextGrows(m: Memory, a: Word, n: nat, c: Char)
    requires a + n < WORD_RANGE
    ensures TextAt(Stored(m, a + n, c as int), a, n + 1) == TextAt(m, a, n) + [c]
  {
    TextSpared(m, a, n, a + n, c as int);
    ByteStored(m, a + n, c as int, a + n);
  }

  lemma StoredInside(m: Memory, lo: Word, a: Word, v: Byte)
    requires lo % 4 == 0 && lo <= a
    ensures SameOutside(m, Stored(m, a, v), lo, a + 1)
  {
    assert lo <= WordOf(a);
  }

  lemma SpansJoin(m: Memory, m': Memory, m'': Memory, lo: int, hi: int)
    requires SameOutside(m, m', lo, hi) && SameOutside(m', m'', lo, hi + 1)
    ensures SameOutside(m, m'', lo, hi + 1)
  {
  }

  lemma {:induction false} TextSpared(m: Memory, a: Word, n: nat, b: Word, v: Byte)
    requires a + n <= b
    ensures TextAt(Stored(m, b, v), a, n) == TextAt(m, a, n)
  {
    if n > 0 {
      TextSpared(m, a, n - 1, b, v);
      ByteStored(m, b, v, a + n - 1);
    }
  }

  method LoadByte(ram: Ram, a: Word) returns (v: Byte)
    requires ram.Valid()
    ensures v == ByteAt(ram.Image(), a)
  {
    var w := ram.Read(WordOf(a));
    v := ByteOf(w, a - WordOf(a));
  }

  method StoreByte(ram: Ram, a: Word, v: Byte)
    requires ram.Valid()
    modifies ram.words
    ensures ram.Image() == Stored(old(ram.Image()), a, v)
  {
    var w := ram.Read(WordOf(a));
    ram.Write(WordOf(a), WithByte(w, a - WordOf(a), v));
  }

  /** Stores the character that follows the text `t` at `dst`. */
  method Append(ram: Ram, ghost before: Memory, ghost dst: Word, ghost t: seq<Char>, a: Word, c: Char)
    requires ram.Valid() && dst % 4 == 0 && a == dst + |t| && Copied(before, ram.Image(), dst, t)
    modifies ram.words
    ensures Copied(before, ram.Image(), dst, t + [c])
  {
    CopiedOneMore(before, ram.Image(), dst, t, c);
    StoreByte(ram, a, c as int);
  }

  /** `memcpy` into memory. */
  method Memcpy(ram: Ram, dst: Word, src: seq<Char>, size: nat)
    requires ram.Valid() && dst % 4 == 0 && dst + size <= WORD_RANGE && size <= |src|
    modifies ram.words
    ensures Copied(old(ram.Image()), ram.Image(), dst, src[..size])
  {
    var i: nat := 0;
    while i < size
      invariant i <= size && Copied(old(ram.Image()), ram.Image(), dst, src[..i])
    {
      Append(ram, old(ram.Image()), dst, src[..i], dst + i, src[i]);
      assert src[..i + 1] == src[..i] + [src[i]];
      i := i + 1;
    }
  }
}
