/**
 * `FixCommonJsonIssues`: the second chance a reply gets when it does not
 * deserialise. Four regular-expression replacements and a character filter
 * run in order; each replacement is written as the left-to-right scan
 * `Regex.Replace` performs: at each position either the pattern matches, its
 * replacement is emitted and the scan resumes after the match, or one
 * character is copied and the scan moves on by one.
 */
module JsonRepair {
  import opened Text

  // ---- `,(\s*[}\]])` -> `$1`: trailing commas ----

  /** The pattern matches at `p`: a comma whose next non-space character closes an object or array. */
  predicate TrailingCommaAt(s: string, p: int)
    requires 0 <= p < |s|
  {
    s[p] == ',' && var q := SpaceEnd(s, p + 1); q < |s| && (s[q] == '}' || s[q] == ']')
  }

  function StripTrailingCommasFrom(s: string, p: int): string
    requires 0 <= p <= |s|
    decreases |s| - p
  {
    if p == |s| then []
    else if TrailingCommaAt(s, p) then
      var q := SpaceEnd(s, p + 1);
      s[p + 1..q + 1] + StripTrailingCommasFrom(s, q + 1)
    else [s[p]] + StripTrailingCommasFrom(s, p + 1)
  }

  function StripTrailingCommas(json: string): string {
    StripTrailingCommasFrom(json, 0)
  }

  /** `s` with every `c` removed. */
  function Without(s: string, c: char): string {
    if s == [] then [] else (if s[0] == c then [] else [s[0]]) + Without(s[1..], c)
  }

  lemma {:induction false} WithoutAppend(a: string, b: string, c: char)
    ensures Without(a + b, c) == Without(a, c) + Without(b, c)
  {
    if a == [] {
      assert a + b == b;
    } else {
      assert (a + b)[1..] == a[1..] + b;
      WithoutAppend(a[1..], b, c);
    }
  }

  /** One step of the pass: the source piece is `x` followed by `src`, the output piece is `out`. */
  lemma CommaStep(x: string, out: string, rest: string, src: string)
    requires IsSubsequence(rest, src) && Without(rest, ',') == Without(src, ',')
    requires out == x || (|x| >= 1 && x[0] == ',' && out == x[1..])
    ensures IsSubsequence(out + rest, x + src)
    ensures Without(out + rest, ',') == Without(x + src, ',')
  {
    CommaStepWithout(x, out, rest, src);
    if out == x {
      SubsequencePrefix(x, rest, src);
    } else {
      DropFirstSubsequence(x, rest, src);
    }
  }

  /** Dropping the first character of the piece keeps the output a subsequence. */
  lemma DropFirstSubsequence<T>(x: seq<T>, rest: seq<T>, src: seq<T>)
    requires IsSubsequence(rest, src) && |x| >= 1
    ensures IsSubsequence(x[1..] + rest, x + src)
  {
    SubsequencePrefix(x[1..], rest, src);
    SubsequenceDrop(x[0], x[1..] + rest, x[1..] + src);
    assert x + src == [x[0]] + (x[1..] + src);
  }

  lemma WithoutDropsFirst(x: string, c: char)
    requires |x| >= 1 && x[0] == c
    ensures Without(x, c) == Without(x[1..], c)
  {
  }

  lemma CommaStepWithout(x: string, out: string, rest: string, src: string)
    requires Without(rest, ',') == Without(src, ',')
    requires out == x || (|x| >= 1 && x[0] == ',' && out == x[1..])
    ensures Without(out + rest, ',') == Without(x + src, ',')
  {
    WithoutAppend(out, rest, ',');
    WithoutAppend(x, src, ',');
    if out != x {
      WithoutDropsFirst(x, ',');
    }
  }

  lemma {:induction false} StripTrailingCommasFromKeeps(s: string, p: int)
    requires 0 <= p <= |s|
    ensures IsSubsequence(StripTrailingCommasFrom(s, p), s[p..])
    ensures Without(StripTrailingCommasFrom(s, p), ',') == Without(s[p..], ',')
    decreases |s| - p
  {
    if p == |s| {
      assert s[p..] == [];
    } else {
      var next := if TrailingCommaAt(s, p) then SpaceEnd(s, p + 1) + 1 else p + 1;
      StripTrailingCommasFromKeeps(s, next);
      assert s[p..] == s[p..next] + s[next..];
      CommaStep(s[p..next], if TrailingCommaAt(s, p) then s[p + 1..next] else s[p..next],
        StripTrailingCommasFrom(s, next), s[next..]);
    }
  }

  /** The trailing-comma pass only deletes characters, and every character it deletes is a comma. */
  lemma StripTrailingCommasOnlyDeletesCommas(json: string)
    ensures IsSubsequence(StripTrailingCommas(json), json)
    ensures Without(StripTrailingCommas(json), ',') == Without(json, ',')
  {
    StripTrailingCommasFromKeeps(json, 0);
    assert json[0..] == json;
  }

  lemma {:induction false} StripTrailingCommasFromIdentity(s: string, p: int)
    requires 0 <= p <= |s|
    requires forall k | p <= k < |s| :: !TrailingCommaAt(s, k)
    ensures StripTrailingCommasFrom(s, p) == s[p..]
    decreases |s| - p
  {
    if p < |s| {
      StripTrailingCommasFromIdentity(s, p + 1);
      assert s[p..] == [s[p]] + s[p + 1..];
    }
  }

  /** Text with no trailing comma is left alone. */
  lemma NoTrailingCommaUnchanged(json: string)
    requires forall k | 0 <= k < |json| :: !TrailingCommaAt(json, k)
    ensures StripTrailingCommas(json) == json
  {
    StripTrailingCommasFromIdentity(json, 0);
  }

  // ---- `([^\\])"([^"\\]*?)"([^"\\]*?)"` -> `$1"$2\"$3"`: quotes inside strings ----

  /** Where `[^"\\]*` starting at `i` stops: the first quote or backslash at or after `i`. Because the
      class excludes the quote that must follow, the lazy quantifier stops at the same place. */
  function PlainEnd(s: string, i: int): (j: int)
    requires 0 <= i <= |s|
    ensures i <= j <= |s|
    ensures forall k | i <= k < j :: s[k] != '"' && s[k] != '\\'
    ensures j < |s| ==> s[j] == '"' || s[j] == '\\'
    decreases |s| - i
  {
    if i < |s| && s[i] != '"' && s[i] != '\\' then PlainEnd(s, i + 1) else i
  }

  /** The pattern matches at `p`: a non-backslash, then three quotes with only plain characters
      between them. */
  predicate InnerQuoteAt(s: string, p: int)
    requires 0 <= p < |s|
  {
    p + 1 < |s| && s[p] != '\\' && s[p + 1] == '"' &&
    var j := PlainEnd(s, p + 2);
    j < |s| && s[j] == '"' &&
    var k := PlainEnd(s, j + 1);
    k < |s| && s[k] == '"'
  }

  /** What the pass emits at `p` and where it resumes: on a match, the matched text with a
      backslash inserted before its middle quote; otherwise the one character. */
  function EscapePiece(s: string, p: int): (r: (string, int))
    requires 0 <= p < |s|
    ensures p < r.1 <= |s|
    ensures Inserted(s[p..r.1], r.0)
  {
    if InnerQuoteAt(s, p) then
      var j := PlainEnd(s, p + 2);
      var k := PlainEnd(s, j + 1);
      assert s[p..k + 1][..j - p] == s[p..j] && s[p..k + 1][j - p..] == s[j..k + 1];
      (s[p..j] + "\\" + s[j..k + 1], k + 1)
    else ([s[p]], p + 1)
  }

  /** `out` is `x`, or `x` with one backslash inserted. */
  predicate Inserted(x: string, out: string) {
    out == x || exists m | 0 <= m <= |x| :: out == x[..m] + "\\" + x[m..]
  }

  function EscapeInnerQuotesFrom(s: string, p: int): string
    requires 0 <= p <= |s|
    decreases |s| - p
  {
    if p == |s| then []
    else
      var piece := EscapePiece(s, p);
      piece.0 + EscapeInnerQuotesFrom(s, piece.1)
  }

  function EscapeInnerQuotes(json: string): string {
    EscapeInnerQuotesFrom(json, 0)
  }


  /** One step of the pass: the piece `x` of the source is emitted as `out`, either unchanged or
      with one backslash inserted at offset `m`. */
  lemma EscapeStep(x: string, out: string, rest: string, src: string)
    requires IsSubsequence(src, rest) && Without(rest, '\\') == Without(src, '\\')
    requires Inserted(x, out)
    ensures IsSubsequence(x + src, out + rest)
    ensures Without(out + rest, '\\') == Without(x + src, '\\')
  {
    if out == x {
      SubsequencePrefix(x, src, rest);
      WithoutAppend(out, rest, '\\');
      WithoutAppend(x, src, '\\');
    } else {
      var m :| 0 <= m <= |x| && out == x[..m] + "\\" + x[m..];
      EscapeStepWithout(x, out, m, rest, src);
      InsertSubsequence(x, m, '\\', src, rest);
    }
  }

  lemma EscapeStepWithout(x: string, out: string, m: int, rest: string, src: string)
    requires Without(rest, '\\') == Without(src, '\\')
    requires out == x || (0 <= m <= |x| && out == x[..m] + "\\" + x[m..])
    ensures Without(out + rest, '\\') == Without(x + src, '\\')
  {
    WithoutAppend(out, rest, '\\');
    WithoutAppend(x, src, '\\');
    if out != x {
      InsertedBackslashFiltered(x[..m], x[m..]);
      assert x == x[..m] + x[m..];
    }
  }

  lemma InsertedBackslashFiltered(a: string, c: string)
    ensures Without(a + "\\" + c, '\\') == Without(a + c, '\\')
  {
    var b := "\\";
    assert Without(b, '\\') == [] by {
      assert b[1..] == [];
    }
    WithoutAppend(a + b, c, '\\');
    WithoutAppend(a, b, '\\');
    WithoutAppend(a, c, '\\');
    assert Without(a, '\\') + [] == Without(a, '\\');
  }

  lemma InsertSubsequence<T>(x: seq<T>, m: int, b: T, src: seq<T>, rest: seq<T>)
    requires IsSubsequence(src, rest) && 0 <= m <= |x|
    ensures IsSubsequence(x + src, x[..m] + [b] + x[m..] + rest)
  {
    var tail := x[m..] + src;
    var tail' := [b] + (x[m..] + rest);
    SubsequencePrefix(x[m..], src, rest);
    SubsequenceDrop(b, tail, x[m..] + rest);
    SubsequencePrefix(x[..m], tail, tail');
    assert x[..m] + tail == x + src;
    assert x[..m] + tail' == x[..m] + [b] + x[m..] + rest;
  }

  lemma {:induction false} EscapeInnerQuotesFromKeeps(s: string, p: int)
    requires 0 <= p <= |s|
    ensures IsSubsequence(s[p..], EscapeInnerQuotesFrom(s, p))
    ensures Without(EscapeInnerQuotesFrom(s, p), '\\') == Without(s[p..], '\\')
    decreases |s| - p
  {
    if p == |s| {
      assert s[p..] == [];
      SubsequenceRefl(EscapeInnerQuotesFrom(s, p));
    } else {
      var piece := EscapePiece(s, p);
      EscapeInnerQuotesFromKeeps(s, piece.1);
      var x, src, rest := s[p..piece.1], s[piece.1..], EscapeInnerQuotesFrom(s, piece.1);
      assert s[p..] == x + src;
      assert EscapeInnerQuotesFrom(s, p) == piece.0 + rest;
      EscapeStep(x, piece.0, rest, src);
    }
  }

  /** The quote pass only inserts characters, and every character it inserts is a backslash. */
  lemma EscapeInnerQuotesOnlyInsertsBackslashes(json: string)
    ensures IsSubsequence(json, EscapeInnerQuotes(json))
    ensures Without(EscapeInnerQuotes(json), '\\') == Without(json, '\\')
  {
    EscapeInnerQuotesFromKeeps(json, 0);
    assert json[0..] == json;
  }

  lemma {:induction false} EscapeInnerQuotesFromIdentity(s: string, p: int)
    requires 0 <= p <= |s| && '"' !in s
    ensures EscapeInnerQuotesFrom(s, p) == s[p..]
    decreases |s| - p
  {
    if p < |s| {
      assert !InnerQuoteAt(s, p);
      EscapeInnerQuotesFromIdentity(s, p + 1);
      assert s[p..] == [s[p]] + s[p + 1..];
    }
  }

  /** Without a quote character there is nothing to escape. */
  lemma NoQuoteNothingEscaped(json: string)
    requires '"' !in json
    ensures EscapeInnerQuotes(json) == json
  {
    EscapeInnerQuotesFromIdentity(json, 0);
  }

  // ---- `([{,])\s*([a-zA-Z_][a-zA-Z0-9_]*)\s*:` -> `$1 "$2":`: bare member names ----

  predicate IsNameStart(c: char) { IsAsciiLetter(c) || c == '_' }

  predicate IsNameChar(c: char) { IsNameStart(c) || IsAsciiDigit(c) }

  /** Where `[a-zA-Z0-9_]*` starting at `i` stops. */
  function NameEnd(s: string, i: int): (j: int)
    requires 0 <= i <= |s|
    ensures i <= j <= |s|
    ensures forall k | i <= k < j :: IsNameChar(s[k])
    ensures j < |s| ==> !IsNameChar(s[j])
    decreases |s| - i
  {
    if i < |s| && IsNameChar(s[i]) then NameEnd(s, i + 1) else i
  }

  /** The pattern matches at `p`. Both `\s*` runs and the name run are maximal: giving any of them
      back leaves a space or name character where the pattern needs something else. */
  predicate BareNameAt(s: string, p: int)
    requires 0 <= p < |s|
  {
    (s[p] == '{' || s[p] == ',') &&
    var q := SpaceEnd(s, p + 1);
    q < |s| && IsNameStart(s[q]) &&
    var f := SpaceEnd(s, NameEnd(s, q + 1));
    f < |s| && s[f] == ':'
  }

  /** What the pass emits at `p` and where it resumes: on a match, the opener, a space and the
      quoted name followed by the colon; otherwise the one character. */
  function NamePiece(s: string, p: int): (r: (string, int))
    requires 0 <= p < |s|
    ensures p < r.1 <= |s|
    ensures Skeleton(r.0) == Skeleton(s[p..r.1])
  {
    if BareNameAt(s, p) then
      var q := SpaceEnd(s, p + 1);
      var e := NameEnd(s, q + 1);
      var f := SpaceEnd(s, e);
      NameMatchShape(s, p, q, e, f);
      NamePieceSkeleton(s[p], s[p + 1..q], s[q..e], s[e..f]);
      ([s[p]] + " \"" + s[q..e] + "\":", f + 1)
    else ([s[p]], p + 1)
  }

  lemma NameMatchShape(s: string, p: int, q: int, e: int, f: int)
    requires 0 <= p < q <= e <= f < |s| && s[f] == ':'
    ensures s[p..f + 1] == [s[p]] + s[p + 1..q] + s[q..e] + s[e..f] + ":"
  {
    assert s[p..f + 1] == s[p..q] + s[q..f + 1];
    assert s[p..q] == [s[p]] + s[p + 1..q];
    assert s[q..f + 1] == s[q..e] + s[e..f + 1];
    assert s[e..f + 1] == s[e..f] + [s[f]];
  }

  lemma NamePieceSkeleton(c: char, before: string, name: string, after: string)
    requires forall i | 0 <= i < |before| :: IsSpace(before[i])
    requires forall i | 0 <= i < |after| :: IsSpace(after[i])
    ensures Skeleton([c] + " \"" + name + "\":") == Skeleton([c] + before + name + after + ":")
  {
    SkeletonNone(before);
    SkeletonNone(after);
    OpenQuoteSkeleton();
    CloseQuoteSkeleton();
    SkeletonOfFour([c], " \"", name, "\":");
    SkeletonOfFive([c], before, name, after, ":");
  }

  lemma OpenQuoteSkeleton()
    ensures Skeleton(" \"") == []
  {
    SkeletonNone(" \"");
  }

  lemma CloseQuoteSkeleton()
    ensures Skeleton("\":") == ":"
  {
    assert "\":"[1..] == ":";
  }

  lemma SkeletonOfFour(a: string, b: string, c: string, d: string)
    ensures Skeleton(a + b + c + d) == Skeleton(a) + Skeleton(b) + Skeleton(c) + Skeleton(d)
  {
    SkeletonAppend(a + b + c, d);
    SkeletonAppend(a + b, c);
    SkeletonAppend(a, b);
  }

  lemma SkeletonOfFive(a: string, b: string, c: string, d: string, e: string)
    ensures Skeleton(a + b + c + d + e) == Skeleton(a) + Skeleton(b) + Skeleton(c) + Skeleton(d) + Skeleton(e)
  {
    SkeletonAppend(a + b + c + d, e);
    SkeletonOfFour(a, b, c, d);
  }

  function QuoteNamesFrom(s: string, p: int): string
    requires 0 <= p <= |s|
    decreases |s| - p
  {
    if p == |s| then []
    else
      var piece := NamePiece(s, p);
      piece.0 + QuoteNamesFrom(s, piece.1)
  }

  function QuoteNames(json: string): string {
    QuoteNamesFrom(json, 0)
  }

  /** What the quoting passes must not change: `s` without its whitespace and quotes. */
  function Skeleton(s: string): string {
    if s == [] then [] else (if IsSpace(s[0]) || s[0] == '"' then [] else [s[0]]) + Skeleton(s[1..])
  }

  lemma {:induction false} SkeletonAppend(a: string, b: string)
    ensures Skeleton(a + b) == Skeleton(a) + Skeleton(b)
  {
    if a == [] {
      assert a + b == b;
    } else {
      assert (a + b)[1..] == a[1..] + b;
      SkeletonAppend(a[1..], b);
    }
  }

  lemma {:induction false} SkeletonNone(s: string)
    requires forall i | 0 <= i < |s| :: IsSpace(s[i]) || s[i] == '"'
    ensures Skeleton(s) == []
  {
    if s != [] {
      SkeletonNone(s[1..]);
    }
  }

  lemma {:induction false} QuoteNamesFromSkeleton(s: string, p: int)
    requires 0 <= p <= |s|
    ensures Skeleton(QuoteNamesFrom(s, p)) == Skeleton(s[p..])
    decreases |s| - p
  {
    if p == |s| {
      assert s[p..] == [];
    } else {
      var piece := NamePiece(s, p);
      QuoteNamesFromSkeleton(s, piece.1);
      assert s[p..] == s[p..piece.1] + s[piece.1..];
      SkeletonAppend(piece.0, QuoteNamesFrom(s, piece.1));
      SkeletonAppend(s[p..piece.1], s[piece.1..]);
    }
  }

  /** The skeleton of six concatenated pieces. */
  lemma SkeletonOfPieces(a: string, b: string, c: string, d: string, e: string, f: string)
    ensures Skeleton(a + b + c + d + e + f) ==
      Skeleton(a) + Skeleton(b) + Skeleton(c)
      + Skeleton(d) + Skeleton(e) + Skeleton(f)
  {
    SkeletonAppend(a + b + c + d + e, f);
    SkeletonAppend(a + b + c + d, e);
    SkeletonAppend(a + b + c, d);
    SkeletonAppend(a + b, c);
    SkeletonAppend(a, b);
  }

  /** Quoting names adds whitespace and quotes only, and drops whitespace only. */
  lemma QuoteNamesKeepsSkeleton(json: string)
    ensures Skeleton(QuoteNames(json)) == Skeleton(json)
  {
    QuoteNamesFromSkeleton(json, 0);
    assert json[0..] == json;
  }

  lemma {:induction false} QuoteNamesFromIdentity(s: string, p: int)
    requires 0 <= p <= |s| && ':' !in s
    ensures QuoteNamesFrom(s, p) == s[p..]
    decreases |s| - p
  {
    if p < |s| {
      assert !BareNameAt(s, p);
      QuoteNamesFromIdentity(s, p + 1);
      assert s[p..] == [s[p]] + s[p + 1..];
    }
  }

  /** Without a colon there is no member to quote. */
  lemma NoColonNoNameQuoted(json: string)
    requires ':' !in json
    ensures QuoteNames(json) == json
  {
    QuoteNamesFromIdentity(json, 0);
  }

  // ---- `:\s*([a-zA-Z][a-zA-Z0-9\s]*?)([,}])` -> `: "$1"$2`: bare values ----

  predicate IsValueChar(c: char) { IsAsciiLetter(c) || IsAsciiDigit(c) || IsSpace(c) }

  /** Where the lazy `[a-zA-Z0-9\s]*?` stops: the first character outside the class; the match
      exists only if that character is `,` or `}`. */
  function ValueEnd(s: string, i: int): (j: int)
    requires 0 <= i <= |s|
    ensures i <= j <= |s|
    ensures forall k | i <= k < j :: IsValueChar(s[k])
    ensures j < |s| ==> !IsValueChar(s[j])
    decreases |s| - i
  {
    if i < |s| && IsValueChar(s[i]) then ValueEnd(s, i + 1) else i
  }

  predicate BareValueAt(s: string, p: int)
    requires 0 <= p < |s|
  {
    s[p] == ':' &&
    var q := SpaceEnd(s, p + 1);
    q < |s| && IsAsciiLetter(s[q]) &&
    var e := ValueEnd(s, q + 1);
    e < |s| && (s[e] == ',' || s[e] == '}')
  }

  /** What the pass emits at `p` and where it resumes: on a match, the colon, a space, the quoted
      value and the delimiter; otherwise the one character. */
  function ValuePiece(s: string, p: int): (r: (string, int))
    requires 0 <= p < |s|
    ensures p < r.1 <= |s|
    ensures Skeleton(r.0) == Skeleton(s[p..r.1])
  {
    if BareValueAt(s, p) then
      var q := SpaceEnd(s, p + 1);
      var e := ValueEnd(s, q + 1);
      assert s[p..e + 1] == ":" + s[p + 1..q] + s[q..e] + [s[e]];
      ValuePieceSkeleton(s[p + 1..q], s[q..e], s[e]);
      (": \"" + s[q..e] + "\"" + [s[e]], e + 1)
    else ([s[p]], p + 1)
  }

  lemma ValuePieceSkeleton(before: string, value: string, c: char)
    requires forall i | 0 <= i < |before| :: IsSpace(before[i])
    ensures Skeleton(": \"" + value + "\"" + [c]) == Skeleton(":" + before + value + [c])
  {
    SkeletonNone(before);
    SkeletonNone("\"");
    assert Skeleton(": \"") == ":" by {
      assert ": \""[1..] == " \"";
      SkeletonNone(" \"");
    }
    SkeletonAppend(": \"" + value + "\"", [c]);
    SkeletonAppend(": \"" + value, "\"");
    SkeletonAppend(": \"", value);
    SkeletonAppend(":" + before + value, [c]);
    SkeletonAppend(":" + before, value);
    SkeletonAppend(":", before);
  }

  function QuoteValuesFrom(s: string, p: int): string
    requires 0 <= p <= |s|
    decreases |s| - p
  {
    if p == |s| then []
    else
      var piece := ValuePiece(s, p);
      piece.0 + QuoteValuesFrom(s, piece.1)
  }

  function QuoteValues(json: string): string {
    QuoteValuesFrom(json, 0)
  }

  lemma {:induction false} QuoteValuesFromSkeleton(s: string, p: int)
    requires 0 <= p <= |s|
    ensures Skeleton(QuoteValuesFrom(s, p)) == Skeleton(s[p..])
    decreases |s| - p
  {
    if p == |s| {
      assert s[p..] == [];
    } else {
      var piece := ValuePiece(s, p);
      QuoteValuesFromSkeleton(s, piece.1);
      assert s[p..] == s[p..piece.1] + s[piece.1..];
      SkeletonAppend(piece.0, QuoteValuesFrom(s, piece.1));
      SkeletonAppend(s[p..piece.1], s[piece.1..]);
    }
  }

  /** Quoting values adds whitespace and quotes only, and drops whitespace only. */
  lemma QuoteValuesKeepsSkeleton(json: string)
    ensures Skeleton(QuoteValues(json)) == Skeleton(json)
  {
    QuoteValuesFromSkeleton(json, 0);
    assert json[0..] == json;
  }

  lemma {:induction false} QuoteValuesFromIdentity(s: string, p: int)
    requires 0 <= p <= |s| && ':' !in s
    ensures QuoteValuesFrom(s, p) == s[p..]
    decreases |s| - p
  {
    if p < |s| {
      assert !BareValueAt(s, p);
      QuoteValuesFromIdentity(s, p + 1);
      assert s[p..] == [s[p]] + s[p + 1..];
    }
  }

  /** Without a colon there is no value to quote. */
  lemma NoColonNoValueQuoted(json: string)
    requires ':' !in json
    ensures QuoteValues(json) == json
  {
    QuoteValuesFromIdentity(json, 0);
  }

  // ---- control characters ----

  /** `char.IsControl`: U+0000 to U+001F and U+007F to U+009F. */
  predicate IsControl(c: char) {
    c as int <= 0x1F || 0x7F <= c as int <= 0x9F
  }

  /** What the filter keeps: non-control characters, and newline, carriage return and tab. */
  function KeepsChar(c: char): bool {
    !IsControl(c) || c == '\n' || c == '\r' || c == '\t'
  }

  function StripControl(json: string): string {
    Filter(json, KeepsChar)
  }

  /** The filter leaves no other control character, loses no other character, and running it again
      changes nothing. */
  lemma StripControlProperties(json: string)
    ensures forall c | c in StripControl(json) :: !IsControl(c) || c == '\n' || c == '\r' || c == '\t'
    ensures forall c | c in json && KeepsChar(c) :: c in StripControl(json)
    ensures IsSubsequence(StripControl(json), json)
    ensures StripControl(StripControl(json)) == StripControl(json)
  {
    FilterIsSubsequence(json, KeepsChar);
    FilterAll(StripControl(json), KeepsChar);
  }

  // ---- the whole pass ----

  /** `FixCommonJsonIssues`: the five rewrites in the order written. */
  function FixCommonJsonIssues(json: string): (r: string)
    ensures forall c | c in r :: KeepsChar(c)
    ensures PlainText(json) ==> r == json
  {
    var r := StripControl(QuoteValues(QuoteNames(EscapeInnerQuotes(StripTrailingCommas(json)))));
    if PlainText(json) then PlainTextUnchanged(json); r else r
  }

  /** Text none of the rewrites touches: no comma, quote or colon, and no control character
      the filter drops. */
  predicate PlainText(json: string) {
    ',' !in json && '"' !in json && ':' !in json && forall i | 0 <= i < |json| :: KeepsChar(json[i])
  }

  lemma PlainTextUnchanged(json: string)
    requires PlainText(json)
    ensures StripControl(QuoteValues(QuoteNames(EscapeInnerQuotes(StripTrailingCommas(json))))) == json
  {
    NoTrailingCommaUnchanged(json);
    NoQuoteNothingEscaped(json);
    NoColonNoNameQuoted(json);
    NoColonNoValueQuoted(json);
    FilterAll(json, KeepsChar);
  }

  // ---------------------------------------------------------------------------
  // Each rewrite on a small reply.

  /** A comma before a closing bracket goes; the space after it stays. */
  lemma TrailingCommaExample()
    ensures StripTrailingCommas("[1, ]") == "[1 ]"
  {
  }

  /** A bare property name after `{` is quoted, and the rewrite writes one space after the brace. */
  lemma BareNameExample()
    ensures QuoteNames("{a:1}") == "{ \"a\":1}"
  {
  }

  /** A bare word after a colon is quoted up to the closing brace. */
  lemma BareValueExample()
    ensures QuoteValues(":yes}") == ": \"yes\"}"
  {
  }

  /** A colon, a word that starts with a letter and runs on in letters, digits and white space,
      and a `,` or `}`: the word is quoted and a space is written after the colon. */
  lemma BareWordQuoted(w: string, d: char)
    requires |w| > 0 && IsAsciiLetter(w[0]) && (d == ',' || d == '}')
    requires forall i | 0 <= i < |w| :: IsValueChar(w[i])
    ensures QuoteValues(":" + w + [d]) == ": \"" + w + "\"" + [d]
  {
    var s := ":" + w + [d];
    assert s[1] == w[0] && s[|w| + 1] == d;
    assert SpaceEnd(s, 1) == 1;
    var e := ValueEnd(s, 2);
    assert forall k | 2 <= k < |w| + 1 :: IsValueChar(s[k]) by {
      forall k | 2 <= k < |w| + 1 ensures IsValueChar(s[k]) {
        assert s[k] == w[k - 1];
      }
    }
    assert e == |w| + 1;
    assert BareValueAt(s, 0);
    assert s[1..e] == w;
    assert ValuePiece(s, 0) == (": \"" + w + "\"" + [d], |s|);
    assert QuoteValuesFrom(s, |s|) == [];
    assert QuoteValuesFrom(s, 0) == ValuePiece(s, 0).0 + QuoteValuesFrom(s, |s|);
  }

  /** The value rewrite does not tell JSON literals from bare words: `true` and `null` after a
      colon are quoted too, so a boolean or a null becomes a string. */
  lemma LiteralValuesQuoted(literal: string, d: char)
    requires literal == "true" || literal == "false" || literal == "null"
    requires d == ',' || d == '}'
    ensures QuoteValues(":" + literal + [d]) == ": \"" + literal + "\"" + [d]
  {
    BareWordQuoted(literal, d);
  }

  /** The escape rewrite also fires on well-formed JSON: in `{"a":"b"}` the three quotes after `{`
      look like a string with an inner quote, and the closing quote of the name is escaped. */
  lemma WellFormedNameEscaped()
    ensures EscapeInnerQuotes("{\"a\":\"b\"}") == "{\"a\\\":\"b\"}"
  {
    var s := "{\"a\":\"b\"}";
    assert PlainEnd(s, 2) == 3 && PlainEnd(s, 4) == 5;
    assert InnerQuoteAt(s, 0);
    assert s[0..3] == "{\"a" && s[3..6] == "\":\"";
    assert s[0..3] + "\\" + s[3..6] == "{\"a\\\":\"";
    assert EscapePiece(s, 0) == ("{\"a\\\":\"", 6);
    assert PlainEnd(s, 8) == 9;
    assert EscapeInnerQuotesFrom(s, 6) == "b\"}";
  }
}
