/**
 * The fragment of .NET string handling that the core relies on: ordinal
 * lower-casing, `Trim`, `Contains`, decimal rendering of integers, and the
 * sequence relations used to state what the rewrites keep.
 */
module Text {
  import opened Wrappers

  /** The characters `char.IsWhiteSpace` accepts; the regular-expression class `\s` matches the same set. */
  predicate IsSpace(c: char) {
    var n := c as int;
    n == 0x20 || 0x09 <= n <= 0x0D || n == 0x85 || n == 0xA0 || n == 0x1680
    || 0x2000 <= n <= 0x200A || n == 0x2028 || n == 0x2029 || n == 0x202F
    || n == 0x205F || n == 0x3000
  }

  /** Where a greedy `\s*` starting at `i` stops: the first non-space position at or after `i`. */
  function SpaceEnd(s: string, i: int): (j: int)
    requires 0 <= i <= |s|
    ensures i <= j <= |s|
    ensures forall k :: i <= k < j ==> IsSpace(s[k])
    ensures j < |s| ==> !IsSpace(s[j])
    decreases |s| - i
  {
    if i < |s| && IsSpace(s[i]) then SpaceEnd(s, i + 1) else i
  }

  predicate IsAsciiLetter(c: char) {
    'a' <= c <= 'z' || 'A' <= c <= 'Z'
  }

  predicate IsAsciiDigit(c: char) {
    '0' <= c <= '9'
  }

  function LowerChar(c: char): (r: char)
    ensures 'A' <= c <= 'Z' ==> r as int == c as int + 32
    ensures !('A' <= c <= 'Z') ==> r == c
  {
    if 'A' <= c <= 'Z' then (c as int + 32) as char else c
  }

  /** `ToLower` on the ASCII letters; every other character is kept. */
  function ToLower(s: string): (r: string)
    ensures |r| == |s|
    ensures forall i :: 0 <= i < |s| ==> r[i] == LowerChar(s[i])
    ensures forall i :: 0 <= i < |r| ==> !('A' <= r[i] <= 'Z')
  {
    seq(|s|, i requires 0 <= i < |s| => LowerChar(s[i]))
  }

  /** `TrimStart`: the suffix of `s` that starts at its first non-space character. */
  function TrimStart(s: string): (r: string)
    ensures |r| <= |s| && r == s[|s| - |r|..]
    ensures forall i :: 0 <= i < |s| - |r| ==> IsSpace(s[i])
    ensures r != [] ==> !IsSpace(r[0])
  {
    if s != [] && IsSpace(s[0]) then TrimStart(s[1..]) else s
  }

  /** `TrimEnd`: the prefix of `s` that ends at its last non-space character. */
  function TrimEnd(s: string): (r: string)
    ensures |r| <= |s| && r == s[..|r|]
    ensures forall i :: |r| <= i < |s| ==> IsSpace(s[i])
    ensures r != [] ==> !IsSpace(r[|r| - 1])
  {
    if s != [] && IsSpace(s[|s| - 1]) then TrimEnd(s[..|s| - 1]) else s
  }

  /** `Trim`: both ends. */
  function Trim(s: string): string {
    TrimEnd(TrimStart(s))
  }

  /** Text without capitals is its own lower-case form. */
  lemma LowerFixed(s: string)
    requires forall i :: 0 <= i < |s| ==> !('A' <= s[i] <= 'Z')
    ensures ToLower(s) == s
  {
    assert forall i :: 0 <= i < |s| ==> ToLower(s)[i] == s[i];
  }

  /** Text that is already lower-case and trimmed is its own normal form. */
  lemma LowerTrimmedFixed(s: string)
    requires forall i :: 0 <= i < |s| ==> !('A' <= s[i] <= 'Z')
    requires s != [] ==> !IsSpace(s[0]) && !IsSpace(s[|s| - 1])
    ensures Trim(ToLower(s)) == s
  {
    LowerFixed(s);
  }

  /** Lower-casing works character by character, so it distributes over concatenation. */
  lemma ToLowerAppend(a: string, b: string)
    ensures ToLower(a + b) == ToLower(a) + ToLower(b)
  {
    assert forall i | 0 <= i < |a + b| :: ToLower(a + b)[i] == (ToLower(a) + ToLower(b))[i];
  }

  /** `TrimEnd` keeps every character up to a non-space one. */
  lemma TrimEndKeeps(v: string, j: int)
    requires 0 < j <= |v| && !IsSpace(v[j - 1])
    ensures j <= |TrimEnd(v)|
  {
  }

  /** Once a non-space character is reached, what follows is kept by `TrimStart`. */
  lemma {:induction false} TrimStartAppend(s: string, t: string)
    requires TrimStart(s) != []
    ensures TrimStart(s + t) == TrimStart(s) + t
  {
    assert (s + t)[0] == s[0];
    if IsSpace(s[0]) {
      assert (s + t)[1..] == s[1..] + t;
      TrimStartAppend(s[1..], t);
    }
  }

  /** `TrimEnd` of a longer text still begins with what `TrimEnd` kept of the shorter one. */
  lemma TrimEndAppend(a: string, t: string)
    requires TrimEnd(a) != []
    ensures |TrimEnd(a)| <= |TrimEnd(a + t)| && TrimEnd(a + t)[..|TrimEnd(a)|] == TrimEnd(a)
  {
    var len := |TrimEnd(a)|;
    assert (a + t)[len - 1] == a[len - 1];
    TrimEndKeeps(a + t, len);
    assert (a + t)[..len] == a[..len];
  }

  /** Text appended after a string leaves its trimmed form at the front of the new trimmed form. */
  lemma TrimAppendPrefix(s: string, t: string)
    requires Trim(s) != []
    ensures |Trim(s)| <= |Trim(s + t)| && Trim(s + t)[..|Trim(s)|] == Trim(s)
  {
    TrimStartAppend(s, t);
    TrimEndAppend(TrimStart(s), t);
  }

  /** An occurrence in a prefix is an occurrence at the same place. */
  lemma LitAtPrefix(x: string, y: string, q: int, p: string)
    requires LitAt(x, q, p) && |x| <= |y| && y[..|x|] == x
    ensures LitAt(y, q, p)
  {
    assert y[q..q + |p|] == x[q..q + |p|];
  }

  /** Text appended after a string does not hide what its trimmed form contains. */
  lemma TrimAppendKeeps(s: string, t: string, p: string)
    requires p != [] && Contains(Trim(s), p)
    ensures Contains(Trim(s + t), p)
  {
    var q :| 0 <= q <= |Trim(s)| && LitAt(Trim(s), q, p);
    TrimAppendPrefix(s, t);
    LitAtPrefix(Trim(s), Trim(s + t), q, p);
  }

  /** `p` occurs in `s` starting at index `i`. */
  predicate LitAt(s: string, i: int, p: string) {
    0 <= i && i + |p| <= |s| && s[i..i + |p|] == p
  }

  /** Ordinal `s.Contains(p)`. */
  predicate Contains(s: string, p: string) {
    exists i | 0 <= i <= |s| :: LitAt(s, i, p)
  }

  /** Some phrase of `ps` is a substring of `s` (the `Any(... Contains ...)` idiom). */
  predicate ContainsAny(s: string, ps: seq<string>) {
    exists k | 0 <= k < |ps| :: Contains(s, ps[k])
  }

  /** A phrase that holds a character absent from `s` does not occur in it. */
  lemma AbsentCharExcludes(s: string, p: string, c: char)
    requires c in p && c !in s
    ensures !Contains(s, p)
  {
  }

  /** An occurrence inside a larger text is an occurrence. */
  lemma LitAtContains(s: string, i: int, p: string)
    requires LitAt(s, i, p)
    ensures Contains(s, p)
  {
  }

  function DigitChar(d: nat): (c: char)
    requires d < 10
    ensures IsAsciiDigit(c) && c as int - '0' as int == d
  {
    ('0' as int + d) as char
  }

  /** Decimal rendering of a natural number, as string interpolation writes it. */
  function NatToString(n: nat): (r: string)
    ensures |r| >= 1
    ensures forall i :: 0 <= i < |r| ==> IsAsciiDigit(r[i])
    ensures |r| > 1 ==> r[0] != '0'
    ensures DecimalValue(r) == n
  {
    if n < 10 then [DigitChar(n)] else NatToString(n / 10) + [DigitChar(n % 10)]
  }

  /** The number a string of decimal digits denotes. */
  function DecimalValue(s: string): nat
    requires forall i :: 0 <= i < |s| ==> IsAsciiDigit(s[i])
  {
    if s == [] then 0
    else
      assert IsAsciiDigit(s[|s| - 1]);
      DecimalValue(s[..|s| - 1]) * 10 + (s[|s| - 1] as int - '0' as int)
  }

  /** Decimal rendering of an integer, with a leading '-' for negative numbers. */
  function IntToString(n: int): (r: string)
    ensures |r| >= 1
    ensures (r[0] == '-') == (n < 0)
  {
    if n < 0 then "-" + NatToString(-n) else NatToString(n)
  }

  /** `IndexOf(c)`: the first position of `c`, or `None` where the program gets -1. */
  function IndexOfChar(s: string, c: char): (r: Option<nat>)
    ensures r.None? <==> c !in s
    ensures r.Some? ==> r.value < |s| && s[r.value] == c && c !in s[..r.value]
  {
    if s == [] then None
    else if s[0] == c then Some(0)
    else match IndexOfChar(s[1..], c)
      case None => None
      case Some(k) => assert s[..k + 1] == [s[0]] + s[1..][..k]; Some(k + 1)
  }

  /** Number of occurrences of `c` in `s` (LINQ `Count(ch => ch == c)`). */
  function Count(s: string, c: char): (n: nat)
    ensures n <= |s|
    ensures n == 0 <==> c !in s
  {
    if s == [] then 0 else (if s[0] == c then 1 else 0) + Count(s[1..], c)
  }

  lemma {:induction false} CountAppend(a: string, b: string, c: char)
    ensures Count(a + b, c) == Count(a, c) + Count(b, c)
  {
    if a == [] {
      assert a + b == b;
    } else {
      assert (a + b)[1..] == a[1..] + b;
      CountAppend(a[1..], b, c);
    }
  }

  /** `n` copies of `c` (`new string(c, n)`). */
  function Repeat(c: char, n: nat): (r: string)
    ensures |r| == n
    ensures forall i :: 0 <= i < n ==> r[i] == c
  {
    seq(n, i => c)
  }

  lemma {:induction false} CountRepeat(c: char, d: char, n: nat)
    ensures Count(Repeat(c, n), d) == if c == d then n else 0
  {
    if n > 0 {
      assert Repeat(c, n)[1..] == Repeat(c, n - 1);
      CountRepeat(c, d, n - 1);
    }
  }

  /** `a` is obtained from `b` by deleting characters. */
  predicate IsSubsequence<T(==)>(a: seq<T>, b: seq<T>)
    decreases |b|
  {
    |a| <= |b| &&
    (a == [] || (b != [] && ((a[0] == b[0] && IsSubsequence(a[1..], b[1..])) || IsSubsequence(a, b[1..]))))
  }

  lemma {:induction false} SubsequenceRefl<T>(a: seq<T>)
    ensures IsSubsequence(a, a)
  {
    if a != [] {
      SubsequenceRefl(a[1..]);
    }
  }

  /** Deleting more characters of a subsequence's source keeps it a subsequence of what remains; the
      two step lemmas below are the cases a left-to-right deletion scan needs. */
  lemma SubsequenceKeep<T>(x: T, a: seq<T>, b: seq<T>)
    requires IsSubsequence(a, b)
    ensures IsSubsequence([x] + a, [x] + b)
  {
    assert ([x] + a)[1..] == a;
    assert ([x] + b)[1..] == b;
  }

  lemma SubsequenceDrop<T>(x: T, a: seq<T>, b: seq<T>)
    requires IsSubsequence(a, b)
    ensures IsSubsequence(a, [x] + b)
  {
    assert ([x] + b)[1..] == b;
  }

  /** The elements of `s` that satisfy `keep`, in order. */
  function Filter<T(!new)>(s: seq<T>, keep: T -> bool): (r: seq<T>)
    ensures |r| <= |s|
    ensures forall i :: 0 <= i < |r| ==> keep(r[i])
    ensures forall x :: x in r <==> x in s && keep(x)
  {
    if s == [] then [] else (if keep(s[0]) then [s[0]] else []) + Filter(s[1..], keep)
  }

  lemma {:induction false} FilterIsSubsequence<T(!new)>(s: seq<T>, keep: T -> bool)
    ensures IsSubsequence(Filter(s, keep), s)
  {
    if s != [] {
      FilterIsSubsequence(s[1..], keep);
      assert s == [s[0]] + s[1..];
      if keep(s[0]) {
        SubsequenceKeep(s[0], Filter(s[1..], keep), s[1..]);
      } else {
        SubsequenceDrop(s[0], Filter(s[1..], keep), s[1..]);
        assert Filter(s, keep) == Filter(s[1..], keep);
      }
    }
  }

  lemma {:induction false} FilterAppend<T(!new)>(a: seq<T>, b: seq<T>, keep: T -> bool)
    ensures Filter(a + b, keep) == Filter(a, keep) + Filter(b, keep)
  {
    if a == [] {
      assert a + b == b;
    } else {
      assert (a + b)[1..] == a[1..] + b;
      FilterAppend(a[1..], b, keep);
    }
  }

  /** Leaving out one element gives a subsequence. */
  lemma DropOneIsSubsequence<T>(s: seq<T>, i: nat)
    requires i < |s|
    ensures IsSubsequence(s[..i] + s[i + 1..], s)
  {
    var rest := s[i + 1..];
    SubsequenceRefl(rest);
    SubsequenceDrop(s[i], rest, rest);
    assert s[i..] == [s[i]] + rest;
    SubsequencePrefix(s[..i], rest, s[i..]);
    assert s[..i] + s[i..] == s;
  }

  /** A common prefix keeps a subsequence a subsequence. */
  lemma {:induction false} SubsequencePrefix<T>(x: seq<T>, a: seq<T>, b: seq<T>)
    requires IsSubsequence(a, b)
    ensures IsSubsequence(x + a, x + b)
    decreases |x|
  {
    if x == [] {
      assert x + a == a && x + b == b;
    } else {
      SubsequencePrefix(x[1..], a, b);
      SubsequenceKeep(x[0], x[1..] + a, x[1..] + b);
      assert [x[0]] + (x[1..] + a) == x + a;
      assert [x[0]] + (x[1..] + b) == x + b;
    }
  }

  lemma {:induction false} FilterNone<T(!new)>(s: seq<T>, keep: T -> bool)
    requires forall i | 0 <= i < |s| :: !keep(s[i])
    ensures Filter(s, keep) == []
  {
    if s != [] {
      FilterNone(s[1..], keep);
    }
  }

  lemma {:induction false} FilterAll<T(!new)>(s: seq<T>, keep: T -> bool)
    requires forall i | 0 <= i < |s| :: keep(s[i])
    ensures Filter(s, keep) == s
  {
    if s != [] {
      FilterAll(s[1..], keep);
    }
  }

  /** The plain concatenation of a sequence of fragments (`+=` in order, no separator). */
  function Concat(fs: seq<string>): string {
    if fs == [] then "" else Concat(fs[..|fs| - 1]) + fs[|fs| - 1]
  }

  lemma {:induction false} ConcatAppend(a: seq<string>, b: seq<string>)
    ensures Concat(a + b) == Concat(a) + Concat(b)
  {
    if b == [] {
      assert a + b == a;
    } else {
      assert (a + b)[..|a + b| - 1] == a + b[..|b| - 1];
      ConcatAppend(a, b[..|b| - 1]);
    }
  }
}
