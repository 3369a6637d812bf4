/**
 * `ExtractFirstJsonObject` and the brace balancing that follows it in
 * `HandleTaskOperation`: the first `{` of the model's reply starts a scan that
 * counts braces outside string literals and stops right after the brace that
 * brings the count back to zero; a reply cut short is then closed with as many
 * `}` as it lacks.
 */
module JsonExtraction {
  import opened Wrappers
  import opened Text

  /** What the scan carries from one character to the next. */
  datatype ScanState = ScanState(depth: int, inString: bool)

  /** A `"` not preceded by a backslash opens or closes a string literal. */
  predicate TogglesString(text: string, i: int)
    requires 0 <= i < |text|
  {
    text[i] == '"' && (i == 0 || text[i - 1] != '\\')
  }

  /** The scan state after character `i`. */
  function Step(text: string, i: int, st: ScanState): ScanState
    requires 0 <= i < |text|
  {
    var inString := if TogglesString(text, i) then !st.inString else st.inString;
    var depth :=
      if inString then st.depth
      else if text[i] == '{' then st.depth + 1
      else if text[i] == '}' then st.depth - 1
      else st.depth;
    ScanState(depth, inString)
  }

  /** The scan state after characters `lo .. hi-1`. */
  function StateAfter(text: string, lo: int, hi: int, st: ScanState): ScanState
    requires 0 <= lo <= hi <= |text|
    decreases hi - lo
  {
    if hi == lo then st else Step(text, hi - 1, StateAfter(text, lo, hi - 1, st))
  }

  /** The scan stops after a character that leaves depth 0 outside a string. */
  predicate Closes(st: ScanState) {
    st.depth == 0 && !st.inString
  }

  /** Where the scan started at `start` with an empty state ends (exclusive): after the first
      character that closes, or at the end of the text. */
  function ScanEnd(text: string, start: int): (e: int)
    requires 0 <= start < |text|
    ensures start < e <= |text|
    ensures forall j | start < j < e :: !Closes(StateAfter(text, start, j, ScanState(0, false)))
    ensures e < |text| ==> Closes(StateAfter(text, start, e, ScanState(0, false)))
  {
    ScanEndFrom(text, start, start + 1)
  }

  function ScanEndFrom(text: string, start: int, i: int): (e: int)
    requires 0 <= start < i <= |text|
    requires forall j | start < j < i :: !Closes(StateAfter(text, start, j, ScanState(0, false)))
    ensures i <= e <= |text|
    ensures forall j | start < j < e :: !Closes(StateAfter(text, start, j, ScanState(0, false)))
    ensures e < |text| ==> Closes(StateAfter(text, start, e, ScanState(0, false)))
    decreases |text| - i
  {
    if i == |text| || Closes(StateAfter(text, start, i, ScanState(0, false))) then i
    else ScanEndFrom(text, start, i + 1)
  }

  /** The extracted object: `None` when the text has no `{`, otherwise the scanned stretch from
      the first `{`. */
  function FirstJsonObject(text: string): (r: Option<string>)
    ensures r.None? <==> '{' !in text
    ensures r.Some? ==> r.value != [] && r.value[0] == '{'
    ensures r.Some? ==> exists k | 0 <= k <= |text| - |r.value| ::
      '{' !in text[..k] && text[k..k + |r.value|] == r.value
  {
    match IndexOfChar(text, '{')
    case None => None
    case Some(start) =>
      var e := ScanEnd(text, start);
      assert text[start..start + |text[start..e]|] == text[start..e];
      Some(text[start..e])
  }

  /** `ExtractFirstJsonObject`: the loop, with its `StringBuilder` and `break`. */
  method ExtractFirstJsonObject(text: string) returns (r: Option<string>)
    ensures r == FirstJsonObject(text)
  {
    var found := IndexOfChar(text, '{');
    if found.None? {
      return None;
    }
    var start := found.value;
    var depth := 0;
    var inString := false;
    var sb: string := [];
    var i := start;
    while i < |text|
      invariant start <= i <= |text|
      invariant sb == text[start..i]
      invariant ScanState(depth, inString) == StateAfter(text, start, i, ScanState(0, false))
      invariant forall j | start < j <= i :: !Closes(StateAfter(text, start, j, ScanState(0, false)))
      decreases |text| - i
    {
      var c := text[i];
      if c == '"' && (i == 0 || text[i - 1] != '\\') {
        inString := !inString;
      }
      if !inString {
        if c == '{' {
          depth := depth + 1;
        } else if c == '}' {
          depth := depth - 1;
        }
      }
      sb := sb + [c];
      if depth == 0 && !inString {
        assert sb == text[start..i + 1];
        ScanEndIsFirstClose(text, start, i + 1);
        return Some(sb);
      }
      i := i + 1;
    }
    ScanEndIsFirstClose(text, start, |text|);
    return Some(sb);
  }

  /** The scan end is the first closing position, or the end of the text. */
  lemma ScanEndIsFirstClose(text: string, start: int, e: int)
    requires 0 <= start < e <= |text|
    requires forall j | start < j < e :: !Closes(StateAfter(text, start, j, ScanState(0, false)))
    requires e == |text| || Closes(StateAfter(text, start, e, ScanState(0, false)))
    ensures ScanEnd(text, start) == e
  {
  }

  /** From a `{`, the string-aware depth never goes below zero, stays at least one until the
      scan ends, and can only reach zero outside a string, on a `}`. */
  lemma {:induction false} ScanStaysOpen(text: string, start: int, j: int)
    requires 0 <= start < j <= |text| && text[start] == '{' && j <= ScanEnd(text, start)
    ensures var st := StateAfter(text, start, j, ScanState(0, false));
      st.depth >= 0
      && (j < ScanEnd(text, start) ==> st.depth >= 1)
      && (st.depth == 0 ==> text[j - 1] == '}' && !st.inString)
    decreases j - start
  {
    if j > start + 1 {
      ScanStaysOpen(text, start, j - 1);
    }
  }

  /** The extracted object, read by the scan that produced it: every proper prefix leaves the
      string-aware depth at one or more, and when the object closes it does so on a `}` outside
      a string. */
  lemma ExtractionStaysOpen(text: string, start: int)
    requires '{' in text && IndexOfChar(text, '{') == Some(start)
    ensures var r := FirstJsonObject(text).value;
      start + |r| <= |text| && r == text[start..start + |r|]
      && (forall j | start < j < start + |r| :: StateAfter(text, start, j, ScanState(0, false)).depth >= 1)
      && (Closes(StateAfter(text, start, start + |r|, ScanState(0, false))) ==> r[|r| - 1] == '}')
  {
    var e := ScanEnd(text, start);
    ExtractedStretch(text, start, e);
    forall j | start < j < e
      ensures StateAfter(text, start, j, ScanState(0, false)).depth >= 1
    {
      ScanStaysOpen(text, start, j);
    }
    ScanStaysOpen(text, start, e);
  }

  /** Open minus close braces. */
  function Depth(s: string): int {
    Count(s, '{') - Count(s, '}')
  }

  /** Without quote characters the scan never enters a string, and its depth is the brace
      balance of what it has read. */
  lemma {:induction false} QuoteFreeDepth(text: string, start: int, j: int)
    requires 0 <= start <= j <= |text|
    requires '"' !in text[start..]
    ensures StateAfter(text, start, j, ScanState(0, false)) == ScanState(Depth(text[start..j]), false)
    decreases j - start
  {
    if j > start {
      QuoteFreeDepth(text, start, j - 1);
      assert text[start..][j - 1 - start] == text[j - 1];
      DepthAppend(text, start, j);
      QuoteFreeStep(text, start, j);
    }
  }

  /** Reading a character that is not a quote, outside a string: character `j - 1`. */
  lemma QuoteFreeStep(text: string, start: int, j: int)
    requires 0 <= start < j <= |text| && text[j - 1] != '"'
    requires StateAfter(text, start, j - 1, ScanState(0, false)) == ScanState(Depth(text[start..j - 1]), false)
    requires Depth(text[start..j]) == Depth(text[start..j - 1]) + BraceDelta(text[j - 1])
    ensures StateAfter(text, start, j, ScanState(0, false)) == ScanState(Depth(text[start..j]), false)
  {
  }

  /** How one character moves the brace balance. */
  function BraceDelta(c: char): int {
    if c == '{' then 1 else if c == '}' then -1 else 0
  }

  /** The balance of a stretch grows by its last character, character `j - 1`. */
  lemma DepthAppend(text: string, start: int, j: int)
    requires 0 <= start < j <= |text|
    ensures Depth(text[start..j]) == Depth(text[start..j - 1]) + BraceDelta(text[j - 1])
  {
    assert text[start..j] == text[start..j - 1] + [text[j - 1]];
    CountAppend(text[start..j - 1], [text[j - 1]], '{');
    CountAppend(text[start..j - 1], [text[j - 1]], '}');
  }

  /** Before the scan end the quote-free balance never returns to zero, it never goes below
      zero, and it reaches zero only on a `}`: the scan's depth, read as a brace count. */
  lemma DepthStaysPositive(text: string, start: int, j: int)
    requires 0 <= start < j <= |text| && j <= ScanEnd(text, start)
    requires text[start] == '{' && '"' !in text[start..]
    ensures j < ScanEnd(text, start) ==> Depth(text[start..j]) > 0
    ensures Depth(text[start..j]) >= 0
    ensures Depth(text[start..j]) == 0 ==> text[j - 1] == '}'
  {
    ScanStaysOpen(text, start, j);
    QuoteFreeDepth(text, start, j);
  }

  /** The scanned stretch, read from a quote-free `{`. */
  lemma {:induction false} QuoteFreeStretch(text: string, start: int)
    requires 0 <= start < |text| && text[start] == '{' && '"' !in text[start..]
    ensures var r := text[start..ScanEnd(text, start)];
      (forall j | 0 < j < |r| :: Depth(r[..j]) > 0) && Depth(r) >= 0
      && (Depth(r) == 0 ==> r[|r| - 1] == '}')
  {
    var e := ScanEnd(text, start);
    var r := text[start..e];
    forall j | 0 < j < |r|
      ensures Depth(r[..j]) > 0
    {
      assert r[..j] == text[start..start + j];
      DepthStaysPositive(text, start, start + j);
    }
    DepthStaysPositive(text, start, e);
  }

  /** In a reply without quote characters, every proper prefix of the extracted object has more
      `{` than `}`; the object itself has at least as many `{` as `}`, and when it has exactly
      as many it ends in the `}` that balanced it. */
  lemma QuoteFreeExtraction(text: string)
    requires '{' in text && '"' !in text
    ensures var r := FirstJsonObject(text).value;
      (forall j | 0 < j < |r| :: Depth(r[..j]) > 0) && Depth(r) >= 0
      && (Depth(r) == 0 ==> r[|r| - 1] == '}')
  {
    var start := IndexOfChar(text, '{').value;
    assert '"' !in text[start..];
    QuoteFreeStretch(text, start);
  }

  /** The brace fix: append one `}` per missing close brace. */
  function BalanceBraces(json: string): (r: string)
    ensures |r| >= |json| && r[..|json|] == json
    ensures forall i | |json| <= i < |r| :: r[i] == '}'
    ensures Depth(json) > 0 ==> Depth(r) == 0
    ensures Depth(json) <= 0 ==> r == json
  {
    var braceCount := Count(json, '{') - Count(json, '}');
    if braceCount > 0 then
      CountAppend(json, Repeat('}', braceCount), '{');
      CountAppend(json, Repeat('}', braceCount), '}');
      CountRepeat('}', '{', braceCount);
      CountRepeat('}', '}', braceCount);
      json + Repeat('}', braceCount)
    else json
  }

  /** Closing twice changes nothing. */
  lemma BalanceBracesIdempotent(json: string)
    ensures BalanceBraces(BalanceBraces(json)) == BalanceBraces(json)
  {
  }

  /** For a quote-free reply the extracted and balanced object has as many `}` as `{`. */
  lemma QuoteFreeBalanced(text: string)
    requires '{' in text && '"' !in text
    ensures Depth(BalanceBraces(FirstJsonObject(text).value)) == 0
  {
    QuoteFreeExtraction(text);
  }

  /** The extraction, once the first `{` and the scan end are known. */
  lemma ExtractedStretch(text: string, start: int, e: int)
    requires 0 <= start < |text| && IndexOfChar(text, '{') == Some(start) && ScanEnd(text, start) == e
    ensures FirstJsonObject(text) == Some(text[start..e])
  {
  }

  /** One more character of a scan whose state so far is known. */
  lemma ScanStep(text: string, lo: int, hi: int, before: ScanState, after: ScanState)
    requires 0 <= lo < hi <= |text|
    requires StateAfter(text, lo, hi - 1, ScanState(0, false)) == before
    requires Step(text, hi - 1, before) == after
    ensures StateAfter(text, lo, hi, ScanState(0, false)) == after
  {
  }

  /** Text around the object is dropped: `x{"a":1}y` gives `{"a":1}`. */
  lemma SurroundingTextDropped(t: string)
    requires t == "x{\"a\":1}y"
    ensures FirstJsonObject(t) == Some("{\"a\":1}")
  {
    assert t[0] == 'x' && t[1] == '{' && t[2] == '"' && t[3] == 'a' && t[4] == '"';
    assert t[5] == ':' && t[6] == '1' && t[7] == '}' && t[8] == 'y';
    Surrounding(t);
  }

  /** The same, with the text given character by character. */
  lemma Surrounding(t: string)
    requires |t| == 9 && t[0] == 'x' && t[1] == '{' && t[2] == '"' && t[3] == 'a' && t[4] == '"'
    requires t[5] == ':' && t[6] == '1' && t[7] == '}' && t[8] == 'y'
    ensures FirstJsonObject(t) == Some("{\"a\":1}")
  {
    var s0 := ScanState(0, false);
    assert IndexOfChar(t, '{') == Some(1);
    ScanStep(t, 1, 2, s0, ScanState(1, false));
    ScanStep(t, 1, 3, ScanState(1, false), ScanState(1, true));
    ScanStep(t, 1, 4, ScanState(1, true), ScanState(1, true));
    ScanStep(t, 1, 5, ScanState(1, true), ScanState(1, false));
    ScanStep(t, 1, 6, ScanState(1, false), ScanState(1, false));
    ScanStep(t, 1, 7, ScanState(1, false), ScanState(1, false));
    ScanStep(t, 1, 8, ScanState(1, false), ScanState(0, false));
    ScanEndIsFirstClose(t, 1, 8);
    ExtractedStretch(t, 1, 8);
    assert t[1..8] == "{\"a\":1}";
  }

  /** The escape test looks at one preceding character only, so in `{"a":"\\"}x` the quote
      after the escaped backslash is taken as escaped: the scan stays inside the string, passes
      the closing brace, and takes the whole text, trailing `x` included. */
  lemma EscapedBackslashHidesQuote(t: string)
    requires t == "{\"a\":\"\\\\\"}x"
    ensures FirstJsonObject(t) == Some(t)
  {
    assert |t| == 11 && t[0] == '{' && t[1] == '"' && t[2] == 'a' && t[3] == '"' && t[4] == ':';
    assert t[5] == '"' && t[6] == '\\' && t[7] == '\\' && t[8] == '"' && t[9] == '}' && t[10] == 'x';
    EscapedBackslash(t);
  }

  /** The same, with the text given character by character. */
  lemma EscapedBackslash(t: string)
    requires |t| == 11 && t[0] == '{' && t[1] == '"' && t[2] == 'a' && t[3] == '"' && t[4] == ':'
    requires t[5] == '"' && t[6] == '\\' && t[7] == '\\' && t[8] == '"' && t[9] == '}' && t[10] == 'x'
    ensures FirstJsonObject(t) == Some(t)
  {
    var s0 := ScanState(0, false);
    assert IndexOfChar(t, '{') == Some(0);
    ScanStep(t, 0, 1, ScanState(0, false), ScanState(1, false));
    ScanStep(t, 0, 2, ScanState(1, false), ScanState(1, true));
    ScanStep(t, 0, 3, ScanState(1, true), ScanState(1, true));
    ScanStep(t, 0, 4, ScanState(1, true), ScanState(1, false));
    ScanStep(t, 0, 5, ScanState(1, false), ScanState(1, false));
    ScanStep(t, 0, 6, ScanState(1, false), ScanState(1, true));
    ScanStep(t, 0, 7, ScanState(1, true), ScanState(1, true));
    ScanStep(t, 0, 8, ScanState(1, true), ScanState(1, true));
    ScanStep(t, 0, 9, ScanState(1, true), ScanState(1, true));
    ScanStep(t, 0, 10, ScanState(1, true), ScanState(1, true));
    ScanEndIsFirstClose(t, 0, 11);
    ExtractedStretch(t, 0, 11);
    assert t[0..11] == t;
  }
}
