/** Numbers as text: `print_uint`, `print_hex` and the size column of a directory listing. */
module Numbers {
  import opened Words
  import opened CStrings
  import opened Vga

  function Digit(d: int): (c: Char)
    requires 0 <= d < 16
  {
    if d < 10 then ('0' as int + d) as char else ('a' as int + d - 10) as char
  }

  /** What a digit stands for in base 16 or below. */
  function DigitValue(c: Char): int {
    if '0' <= c <= '9' then c as int - '0' as int
    else if 'a' <= c <= 'f' then c as int - 'a' as int + 10
    else 16
  }

  /** The number a positional numeral stands for. */
  function Value(base: nat, t: seq<Char>): int
    decreases |t|
  {
    if t == [] then 0 else base * Value(base, t[..|t| - 1]) + DigitValue(t[|t| - 1])
  }

  predicate Numeral(base: nat, t: seq<Char>) {
    t != [] && forall i :: 0 <= i < |t| ==> DigitValue(t[i]) < base
  }

  /** The digits of `n` in base 10, most significant first. */
  function Decimal(n: nat): (t: seq<Char>)
    ensures NUL !in t && t != []
  {
    if n < 10 then [Digit(n)] else Decimal(n / 10) + [Digit(n % 10)]
  }

  /** The last `k` hexadecimal digits of `n`. */
  function Hex(n: nat, k: nat): (t: seq<Char>)
    ensures NUL !in t && |t| == k
    decreases k
  {
    if k == 0 then [] else Hex(n / 16, k - 1) + [Digit(n % 16)]
  }

  function Power(base: nat, k: nat): nat {
    if k == 0 then 1 else base * Power(base, k - 1)
  }

  /** The digits are these characters. */
  lemma DigitNames(d: int)
    requires 0 <= d < 16
    ensures Digit(d) == "0123456789abcdef"[d] && DigitValue(Digit(d)) == d
  {
    var names: string := "0123456789abcdef";
    assert forall i :: 0 <= i < 10 ==> names[i] as int == 48 + i;
    assert forall i :: 10 <= i < 16 ==> names[i] as int == 87 + i;
  }

  /** The numeral reads back as the number and has no leading zero. */
  lemma {:induction false} DecimalReads(n: nat)
    ensures Numeral(10, Decimal(n)) && Value(10, Decimal(n)) == n
    ensures Decimal(n)[0] == '0' <==> n == 0
    ensures n == 0 ==> Decimal(n) == ['0']
  {
    var t := Decimal(n);
    if n >= 10 {
      DecimalReads(n / 10);
      assert t[..|t| - 1] == Decimal(n / 10);
    }
  }

  /** There is no other numeral of that kind. */
  lemma {:induction false} DecimalUnique(t: seq<Char>)
    requires Numeral(10, t) && (|t| > 1 ==> t[0] != '0')
    ensures Value(10, t) >= 0 && t == Decimal(Value(10, t))
    ensures t[0] != '0' ==> Value(10, t) > 0
    decreases |t|
  {
    var front, last := t[..|t| - 1], t[|t| - 1];
    if |t| > 1 {
      DecimalUnique(front);
      assert t == front + [last] && DigitValue(last) < 10;
      assert Value(10, t) / 10 == Value(10, front) && Value(10, t) % 10 == DigitValue(last);
    }
  }

  lemma {:induction false} HexReads(n: nat, k: nat)
    requires n < Power(16, k)
    ensures Value(16, Hex(n, k)) == n && (k > 0 ==> Numeral(16, Hex(n, k)))
    decreases k
  {
    if k > 0 {
      HexReads(n / 16, k - 1);
      assert Hex(n, k)[..k - 1] == Hex(n / 16, k - 1);
    }
  }

  /** Every word has at most ten decimal digits, and eight hexadecimal ones suffice. */
  lemma WordDigits()
    ensures Power(10, 10) == 10_000_000_000 > WORD_RANGE && Power(16, 8) == WORD_RANGE
  {
    assert Power(10, 5) == 100_000;
    assert Power(16, 4) == 65_536;
  }

  /** Fills a buffer of 12 from the back and writes the filled part. */
  method PrintUint(console: Console, value: Word)
    requires console.Valid()
    modifies console`row, console`column, console`page, console.buffer
    ensures console.Valid() && console.page == PutAll(old(console.page), Decimal(value), console.currentColor)
  {
    if value == 0 {
      TextIs(['0', NUL], 1);
      console.Write(['0', NUL]);
      return;
    }
    var buf, first := DecimalBuffer(value);
    TextIs(buf[first..], |Decimal(value)|);
    console.Write(buf[first..]);
  }

  /** The digits end right before the terminator at index 11. */
  method DecimalBuffer(value: Word) returns (buf: seq<Char>, first: nat)
    requires value > 0
    ensures |buf| == 12 && first <= 10 && buf[first..] == Decimal(value) + [NUL]
  {
    var a := new Char[12](_ => NUL);
    var i: int, num: Word := 10, value;
    a[11] := NUL;
    WordDigits();
    while num > 0
      invariant 0 <= i <= 10 && num < Power(10, i) && a[11] == NUL
      invariant num == 0 ==> i < 10 && a[i + 1..11] == Decimal(value)
      invariant num > 0 ==> Decimal(value) == Decimal(num) + a[i + 1..11]
    {
      ghost var was := a[i + 1..11];
      a[i] := Digit(num % 10);
      assert a[i..11] == [Digit(num % 10)] + was;
      i := i - 1;
      num := num / 10;
    }
    buf, first := a[..], i + 1;
    assert buf[first..] == a[i + 1..11] + [NUL];
  }

  /** Writes "0x" and eight lower-case digits. */
  method PrintHex(console: Console, value: Word)
    requires console.Valid()
    modifies console`row, console`column, console`page, console.buffer
    ensures console.Valid()
    ensures console.page == PutAll(old(console.page), ['0', 'x'] + Hex(value, 8), console.currentColor)
  {
    var buf := HexBuffer(value);
    TextIs(buf, 10);
    console.Write(buf);
  }

  method HexBuffer(value: Word) returns (buf: seq<Char>)
    ensures |buf| == 11 && buf == (['0', 'x'] + Hex(value, 8)) + [NUL]
  {
    var a := new Char[11](_ => NUL);
    var v: nat := value;
    a[0], a[1], a[10] := '0', 'x', NUL;
    var i := 9;
    while i >= 2
      invariant 1 <= i <= 9 && a[0] == '0' && a[1] == 'x' && a[10] == NUL
      invariant Hex(value, 8) == Hex(v, i - 1) + a[i + 1..10]
    {
      ghost var was := a[i + 1..10];
      a[i] := Digit(v % 16);
      assert a[i..10] == [Digit(v % 16)] + was;
      v := v / 16;
      i := i - 1;
    }
    buf := a[..];
    assert buf[..2] == ['0', 'x'] && buf[2..10] == a[2..10] && buf[10..] == [NUL];
  }

  function Reverse(t: seq<Char>): (r: seq<Char>)
    ensures |r| == |t|
  {
    if t == [] then [] else [t[|t| - 1]] + Reverse(t[..|t| - 1])
  }

  /** The digits still to be produced. */
  function DigitsLeft(n: nat): seq<Char> {
    if n == 0 then [] else Decimal(n)
  }

  lemma NextDigit(n: nat, done: seq<Char>)
    requires n > 0
    ensures DigitsLeft(n) + Reverse(done) == DigitsLeft(n / 10) + Reverse(done + [Digit(n % 10)])
  {
    assert (done + [Digit(n % 10)])[..|done|] == done;
  }

  /** The size as the source's signed `int` sees it. */
  function Signed(size: Word): int {
    if size < 0x8000_0000 then size else size - WORD_RANGE
  }

  /** What the size column shows: nothing at all for a size that the `int` takes for negative. */
  function SizeText(size: Word): (t: seq<Char>)
    ensures NUL !in t
  {
    if Signed(size) >= 0 then Decimal(size) else []
  }

  /** The size column: the digits are collected least significant first, then reversed. */
  method FormatSize(size: Word) returns (numStr: seq<Char>)
    ensures Terminated(numStr) && Text(numStr) == SizeText(size) && |numStr| == 12
    ensures Text(numStr) == if size < 0x8000_0000 then Decimal(size) else []
  {
    var a := new Char[12](_ => NUL);
    var idx: nat := 1;
    var val := Signed(size);
    if val == 0 {
      a[0] := '0';
    } else {
      var temp, tIdx := SizeDigits(val);
      idx := CopyReversed(a, temp, tIdx);
    }
    a[idx] := NUL;
    numStr := a[..];
    assert numStr[..idx] == SizeText(size);
    TextIs(numStr, idx);
  }

  method CopyReversed(a: array<Char>, temp: seq<Char>, n: nat) returns (idx: nat)
    requires n <= |temp| && n <= a.Length
    modifies a
    ensures idx == n && a[..idx] == Reverse(temp[..n])
  {
    var tIdx := n;
    idx := 0;
    while tIdx > 0
      invariant 0 <= tIdx && idx + tIdx == n && a[..idx] + Reverse(temp[..tIdx]) == Reverse(temp[..n])
    {
      assert temp[..tIdx][..tIdx - 1] == temp[..tIdx - 1];
      ghost var was := a[..idx];
      tIdx := tIdx - 1;
      a[idx] := temp[tIdx];
      idx := idx + 1;
      assert a[..idx] == was + [temp[tIdx]];
    }
  }

  method SizeDigits(size: int) returns (temp: seq<Char>, n: nat)
    requires -WORD_RANGE < size < WORD_RANGE && size != 0
    ensures |temp| == 12 && n <= 10 && Reverse(temp[..n]) == if size > 0 then Decimal(size) else []
  {
    var a := new Char[12](_ => NUL);
    var val := size;
    n := 0;
    WordDigits();
    while val > 0
      invariant n <= 10 && (size > 0 ==> 0 <= val < Power(10, 10 - n)) && (size < 0 ==> val == size && n == 0)
      invariant size > 0 ==> Decimal(size) == DigitsLeft(val) + Reverse(a[..n])
    {
      NextDigit(val, a[..n]);
      ghost var was := a[..n];
      a[n] := Digit(val % 10);
      n := n + 1;
      assert a[..n] == was + [Digit(val % 10)];
      val := val / 10;
    }
    temp := a[..];
  }
}
