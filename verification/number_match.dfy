/** The first step of the response parser: `response.match(/(\d+(\.\d+)?)/)`
    and `Number(numberMatch[1])`. The match is the leftmost one, and at that
    position the greedy quantifiers take the longest text the pattern allows. */
module NumberMatch {
  import opened Wrappers
  import opened Decimal
  import opened TextRuns

  /** Text the whole pattern `\d+(\.\d+)?` matches: a run of digits, then
      optionally a point and a second, non-empty run of digits. */
  predicate IsNumberText(t: string) {
    exists k :: 1 <= k <= |t| && SplitsAt(t, k)
  }

  /** `t[..k]` is the digit run and, when it is not all of `t`, the rest is a
      point followed by a non-empty digit run. */
  predicate SplitsAt(t: string, k: int) {
    && 1 <= k <= |t| && AllDigits(t[..k])
    && (k == |t| || (t[k] == '.' && k + 1 < |t| && AllDigits(t[k + 1..])))
  }

  /** The class of characters the scan for a match skips. */
  predicate NotDigit(c: char) {
    !IsDigit(c)
  }

  /** The index of the first digit at or after `i`, or `|s|` when there is
      none: the end of the run of non-digits starting at `i`. */
  function FirstDigit(s: string, i: nat): (j: nat)
    requires i <= |s|
    ensures i <= j <= |s|
    ensures forall k :: i <= k < j ==> !IsDigit(s[k])
    ensures j < |s| ==> IsDigit(s[j])
  {
    RunEnd(s, i, NotDigit)
  }

  /** The first digit is determined by the text: any index with no digit
      before it and a digit at it (or the end of the text) is the one
      `FirstDigit` finds. */
  lemma FirstDigitUnique(s: string, i: nat, j: nat)
    requires i <= j <= |s|
    requires forall k :: i <= k < j ==> !IsDigit(s[k])
    requires j < |s| ==> IsDigit(s[j])
    ensures FirstDigit(s, i) == j
  {
    RunEndUnique(s, i, j, NotDigit);
  }

  /** Where a match lies in the response: `s[start..end]` is the matched
      text, and `s[start..intEnd]` its integer digits. */
  datatype Span = Span(start: nat, intEnd: nat, end: nat)

  /** The integer digits run from `start` to `intEnd` and are the whole digit
      run there; the fraction, if any, is a point and the whole digit run
      after it, and there is one whenever a point and a digit follow. */
  predicate Shaped(s: string, m: Span) {
    && m.start < m.intEnd <= m.end <= |s|
    && (forall k :: m.start <= k < m.intEnd ==> IsDigit(s[k]))
    && (m.intEnd == |s| || !IsDigit(s[m.intEnd]))
    && (m.end > m.intEnd ==>
          m.intEnd + 1 < m.end && s[m.intEnd] == '.'
          && (forall k :: m.intEnd + 1 <= k < m.end ==> IsDigit(s[k]))
          && (m.end == |s| || !IsDigit(s[m.end])))
    && (m.end == m.intEnd ==>
          !(m.intEnd + 1 < |s| && s[m.intEnd] == '.' && IsDigit(s[m.intEnd + 1])))
  }

  /** The match of `(\d+(\.\d+)?)` in `s`, or `None` where `match` gives null. */
  function Leftmost(s: string): (m: Option<Span>)
    ensures m.None? <==> DigitFree(s)
    ensures m.Some? ==> Shaped(s, m.value) && DigitFree(s[..m.value.start])
  {
    var start := FirstDigit(s, 0);
    if start == |s| then None
    else
      var intEnd := RunEnd(s, start, IsDigit);
      assert DigitFree(s[..start]) by {
        assert forall k :: 0 <= k < start ==> s[..start][k] == s[k];
      }
      if intEnd + 1 < |s| && s[intEnd] == '.' && IsDigit(s[intEnd + 1]) then
        Some(Span(start, intEnd, RunEnd(s, intEnd + 1, IsDigit)))
      else
        Some(Span(start, intEnd, intEnd))
  }

  /** The fraction digits of a match: empty when it has no fraction. */
  function FracDigits(s: string, m: Span): (f: string)
    requires Shaped(s, m)
    ensures AllDigits(f)
  {
    if m.end == m.intEnd then ""
    else
      AllDigitsSlice(s, m.intEnd + 1, m.end);
      s[m.intEnd + 1..m.end]
  }

  /** The digits of a match with its point left out: "12.5" gives "125". */
  function MatchDigits(s: string, m: Span): (ds: string)
    requires Shaped(s, m)
    ensures AllDigits(ds) && |ds| == m.intEnd - m.start + |FracDigits(s, m)|
  {
    AllDigitsSlice(s, m.start, m.intEnd);
    ValueConcat(s[m.start..m.intEnd], FracDigits(s, m));
    s[m.start..m.intEnd] + FracDigits(s, m)
  }

  /** `Number(numberMatch[1])`, exactly: with the point moved past the
      fraction it is the match's digits read as one integer, so leading zeros
      and trailing fraction zeros do not change it ("007.50" is 7.5). */
  function SpanValue(s: string, m: Span): (v: real)
    requires Shaped(s, m)
    ensures Shifted(v, |FracDigits(s, m)|) == Value(MatchDigits(s, m)) as real
    ensures v >= Value(s[m.start..m.intEnd]) as real
  {
    AllDigitsSlice(s, m.start, m.intEnd);
    var ds := s[m.start..m.intEnd];
    var f := FracDigits(s, m);
    ScaledValue(ds, f);
    if m.end == m.intEnd then Value(ds) as real
    else Value(ds) as real + FracValue(f)
  }

  /** Any text the pattern matches starts with a digit. */
  lemma NumberTextStartsWithDigit(t: string)
    ensures IsNumberText(t) ==> |t| >= 1 && IsDigit(t[0])
  {
    if IsNumberText(t) {
      var k :| 1 <= k <= |t| && SplitsAt(t, k);
      assert t[..k][0] == t[0];
    }
  }

  /** The leftmost match: the text found matches the pattern, no match starts
      earlier, and none at the same position reaches further. */
  lemma LeftmostIsLongestMatch(s: string)
    requires !DigitFree(s)
    ensures var m := Leftmost(s).value;
            && IsNumberText(s[m.start..m.end])
            && (forall p, e :: 0 <= p < m.start && p <= e <= |s| ==> !IsNumberText(s[p..e]))
            && (forall e :: m.end < e <= |s| ==> !IsNumberText(s[m.start..e]))
  {
    var m := Leftmost(s).value;
    ShapedIsNumberText(s, m);
    NoEarlierMatch(s, m.start);
    forall e | m.end < e <= |s|
      ensures !IsNumberText(s[m.start..e])
    {
      if IsNumberText(s[m.start..e]) {
        MatchReachesNoFurther(s, m, e);
      }
    }
  }

  /** The text of a shaped span is text the pattern matches. */
  lemma ShapedIsNumberText(s: string, m: Span)
    requires Shaped(s, m)
    ensures IsNumberText(s[m.start..m.end])
  {
    var t := s[m.start..m.end];
    var k := m.intEnd - m.start;
    assert t[..k] == s[m.start..m.intEnd];
    AllDigitsSlice(s, m.start, m.intEnd);
    if m.end > m.intEnd {
      assert t[k + 1..] == s[m.intEnd + 1..m.end];
      AllDigitsSlice(s, m.intEnd + 1, m.end);
      assert t[k] == s[m.intEnd];
    }
    assert SplitsAt(t, k);
  }

  /** No match starts in digit-free text. */
  lemma NoEarlierMatch(s: string, start: nat)
    requires start <= |s| && DigitFree(s[..start])
    ensures forall p, e :: 0 <= p < start && p <= e <= |s| ==> !IsNumberText(s[p..e])
  {
    forall p, e | 0 <= p < start && p <= e <= |s|
      ensures !IsNumberText(s[p..e])
    {
      assert !IsDigit(s[p]) by {
        assert s[..start][p] == s[p];
      }
      NumberTextStartsWithDigit(s[p..e]);
      if p < e {
        assert s[p..e][0] == s[p];
      }
    }
  }

  /** A slice is all digits exactly when each of its positions in `s` is. */
  lemma AllDigitsSlice(s: string, a: nat, b: nat)
    requires a <= b <= |s|
    ensures AllDigits(s[a..b]) <==> forall i :: a <= i < b ==> IsDigit(s[i])
  {
    assert forall i :: a <= i < b ==> s[a..b][i - a] == s[i];
  }

  /** Any text the pattern matches from the start of the match ends within
      the match: the integer digits cannot run past the digit run, and a
      fraction only follows where the match took one. */
  lemma MatchReachesNoFurther(s: string, m: Span, e: nat)
    requires Shaped(s, m) && m.start <= e <= |s|
    requires IsNumberText(s[m.start..e])
    ensures e <= m.end
  {
    var t := s[m.start..e];
    var k :| 1 <= k <= |t| && SplitsAt(t, k);
    WitnessPositions(s, m.start, e, k);
    SpanBound(s, m, m.start + k, e);
  }

  /** The split of a matched slice `s[a..e]` into integer digits and
      fraction, stated on positions of `s`. */
  lemma WitnessPositions(s: string, a: nat, e: nat, k: nat)
    requires a <= e <= |s|
    requires 1 <= k && SplitsAt(s[a..e], k)
    ensures forall i :: a <= i < a + k ==> IsDigit(s[i])
    ensures a + k == e || (s[a + k] == '.' && a + k + 1 < e && forall i :: a + k + 1 <= i < e ==> IsDigit(s[i]))
  {
    var t := s[a..e];
    var j := a + k;
    assert t[..k] == s[a..j];
    AllDigitsSlice(s, a, j);
    if k < |t| {
      assert t[k + 1..] == s[j + 1..e];
      AllDigitsSlice(s, j + 1, e);
      assert t[k] == s[j];
    }
  }

  /** The same, stated on positions of `s`: integer digits up to `j`, then
      either the end `e` or a point and fraction digits up to `e`. */
  lemma SpanBound(s: string, m: Span, j: nat, e: nat)
    requires Shaped(s, m) && m.start < j <= e <= |s|
    requires forall i :: m.start <= i < j ==> IsDigit(s[i])
    requires j == e || (s[j] == '.' && j + 1 < e && forall i :: j + 1 <= i < e ==> IsDigit(s[i]))
    ensures e <= m.end
  {
    assert j <= m.intEnd;
    if j < e {
      assert j == m.intEnd;
      assert IsDigit(s[j + 1]);
    }
  }
}
