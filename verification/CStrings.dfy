/** Null-terminated strings: the library functions on them, against the text they stand for. */
module CStrings {
  import opened Words

  /** An 8-bit character. */
  type Char = c: char | c as int < 256 witness ' '

  const NUL: Char := 0 as char

  ghost predicate Terminated(s: seq<Char>) {
    NUL in s
  }

  /** The characters before the first terminator. */
  function Text(s: seq<Char>): (t: seq<Char>)
    ensures NUL !in t && |t| <= |s| && t == s[..|t|]
    ensures NUL in s ==> |t| < |s| && s[|t|] == NUL
  {
    if s == [] || s[0] == NUL then [] else [s[0]] + Text(s[1..])
  }

  /** The text is the only stretch without terminator that a terminator follows. */
  lemma {:induction false} TextIs(s: seq<Char>, n: nat)
    requires n < |s| && s[n] == NUL && NUL !in s[..n]
    ensures Text(s) == s[..n]
  {
    if n > 0 {
      assert s[0] == s[..n][0] && s[..n][1..] == s[1..][..n - 1];
      TextIs(s[1..], n - 1);
    }
  }

  /** A text with its terminator. */
  function Ended(t: seq<Char>): (s: seq<Char>)
    requires NUL !in t
    ensures Terminated(s) && Text(s) == t
  {
    TextIs(t + [NUL], |t|);
    t + [NUL]
  }

  /** The text of a string literal; literals hold 8-bit characters other than the terminator. */
  function Literal(s: string): (t: seq<Char>)
    ensures |t| == |s| && NUL !in t
    ensures forall i :: 0 <= i < |s| && 0 < s[i] as int < 256 ==> t[i] == s[i]
  {
    seq(|s|, i requires 0 <= i < |s| => Plain(s[i]))
  }

  function Plain(c: char): (c': Char)
    ensures c' != NUL
  {
    if 0 < c as int < 256 then c else '?'
  }

  method Strlen(s: seq<Char>) returns (len: nat)
    requires Terminated(s)
    ensures len == |Text(s)|
  {
    len := 0;
    while s[len] != NUL
      invariant len < |s| && NUL !in s[..len] && NUL in s[len..]
      decreases |s| - len
    {
      assert s[..len + 1] == s[..len] + [s[len]];
      len := len + 1;
    }
    TextIs(s, len);
  }

  // ---- Comparison ----------------------------------------------------------------------------

  /** Lexicographic order on unsigned bytes. */
  ghost predicate Less(a: seq<Char>, b: seq<Char>) {
    b != [] && (a == [] || a[0] < b[0] || (a[0] == b[0] && Less(a[1..], b[1..])))
  }

  lemma {:induction false} LessTotal(a: seq<Char>, b: seq<Char>)
    ensures Less(a, b) || Less(b, a) || a == b
    ensures !(Less(a, b) && Less(b, a)) && !Less(a, a)
  {
    if a != [] && b != [] && a[0] == b[0] {
      LessTotal(a[1..], b[1..]);
      assert a == [a[0]] + a[1..] && b == [b[0]] + b[1..];
    }
    if a != [] { LessTotal(a[1..], a[1..]); }
  }

  lemma {:induction false} LessTransitive(a: seq<Char>, b: seq<Char>, c: seq<Char>)
    requires Less(a, b) && Less(b, c)
    ensures Less(a, c)
  {
    if a != [] && a[0] == b[0] == c[0] {
      LessTransitive(a[1..], b[1..], c[1..]);
    }
  }

  /** What follows a common prefix decides. */
  lemma {:induction false} LessAfter(a: seq<Char>, b: seq<Char>, i: nat)
    requires i <= |a| && i <= |b| && a[..i] == b[..i]
    ensures Less(a, b) <==> Less(a[i..], b[i..])
    ensures a == b <==> a[i..] == b[i..]
  {
    if i > 0 {
      assert a[0] == a[..i][0] == b[..i][0] == b[0];
      assert a[1..][..i - 1] == a[..i][1..] && b[1..][..i - 1] == b[..i][1..];
      assert a[1..][i - 1..] == a[i..] && b[1..][i - 1..] == b[i..];
      LessAfter(a[1..], b[1..], i - 1);
      assert a == [a[0]] + a[1..] && b == [b[0]] + b[1..];
    } else {
      assert a[0..] == a && b[0..] == b;
    }
  }

  /** The sign of the result is the order of the texts. */
  method Strcmp(s1: seq<Char>, s2: seq<Char>) returns (r: int)
    requires Terminated(s1) && Terminated(s2)
    ensures r == 0 <==> Text(s1) == Text(s2)
    ensures r < 0 <==> Less(Text(s1), Text(s2))
  {
    var i := 0;
    while s1[i] != NUL && s1[i] == s2[i]
      invariant i <= |Text(s1)| && i <= |Text(s2)| && Text(s1)[..i] == Text(s2)[..i]
      decreases |s1| - i
    {
      assert s2[i] != NUL;
      assert Text(s1)[..i + 1] == Text(s1)[..i] + [s1[i]] && Text(s2)[..i + 1] == Text(s2)[..i] + [s2[i]];
      i := i + 1;
    }
    LessAfter(Text(s1), Text(s2), i);
    return s1[i] as int - s2[i] as int;
  }

  /** At most `n` characters. */
  function Take(s: seq<Char>, n: nat): seq<Char> {
    if |s| <= n then s else s[..n]
  }

  method Strncmp(s1: seq<Char>, s2: seq<Char>, n: nat) returns (r: int)
    requires Terminated(s1) && Terminated(s2)
    ensures r == 0 <==> Take(Text(s1), n) == Take(Text(s2), n)
    ensures r < 0 <==> Less(Take(Text(s1), n), Take(Text(s2), n))
  {
    var i: nat, m: nat := 0, n;
    while m != 0 && s1[i] != NUL && s1[i] == s2[i]
      invariant i + m == n && i <= |Text(s1)| && i <= |Text(s2)| && Text(s1)[..i] == Text(s2)[..i]
      decreases m
    {
      assert Text(s1)[..i + 1] == Text(s1)[..i] + [s1[i]] && Text(s2)[..i + 1] == Text(s2)[..i] + [s2[i]];
      i, m := i + 1, m - 1;
    }
    StoppedAt(s1, s2, n, i);
    if m == 0 { return 0; }
    return s1[i] as int - s2[i] as int;
  }

  /** Where the comparison stops decides. */
  lemma StoppedAt(s1: seq<Char>, s2: seq<Char>, n: nat, i: nat)
    requires Terminated(s1) && Terminated(s2) && i <= n
    requires i <= |Text(s1)| && i <= |Text(s2)| && Text(s1)[..i] == Text(s2)[..i]
    requires i == n || s1[i] == NUL || s1[i] != s2[i]
    ensures Take(Text(s1), n) == Take(Text(s2), n) <==> i == n || s1[i] == s2[i]
    ensures Less(Take(Text(s1), n), Take(Text(s2), n)) <==> i < n && s1[i] < s2[i]
  {
    hide Text;
    var a, b := Take(Text(s1), n), Take(Text(s2), n);
    assert a[..i] == Text(s1)[..i] && b[..i] == Text(s2)[..i];
    LessAfter(a, b, i);
  }

  // ---- Search --------------------------------------------------------------------------------

  /** The position of the first `ch` in the text or of its terminator, or None. */
  method Strchr(s: seq<Char>, ch: Char) returns (r: Option<nat>)
    requires Terminated(s)
    ensures r.None? <==> ch != NUL && ch !in Text(s)
    ensures r.Some? ==> r.value <= |Text(s)| && s[r.value] == ch && ch !in Text(s)[..r.value]
  {
    var i := 0;
    while s[i] != ch
      invariant i <= |Text(s)| && ch !in Text(s)[..i]
      decreases |s| - i
    {
      if s[i] == NUL {
        assert Text(s)[..i] == Text(s);
        return None;
      }
      assert Text(s)[..i + 1] == Text(s)[..i] + [s[i]];
      i := i + 1;
    }
    if ch != NUL { assert Text(s)[i] == ch; }
    return Some(i);
  }
}
