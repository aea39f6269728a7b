/** Runs of characters of one class, the unit the response parser's regular
    expressions work on: `\d+` is a run of digits and `\w+` a run of word
    characters, and a greedy `+` always takes the whole run. */
module TextRuns {
  import opened Decimal

  /** `\w`: an ASCII letter, an ASCII digit or the underscore. */
  predicate IsWordChar(c: char) {
    ('a' <= c <= 'z') || ('A' <= c <= 'Z') || IsDigit(c) || c == '_'
  }

  /** Where the run of `cls` characters starting at `i` ends: the first index
      at or after `i` whose character is not of the class. */
  function RunEnd(s: string, i: nat, cls: char -> bool): (j: nat)
    requires i <= |s|
    ensures i <= j <= |s|
    ensures forall k :: i <= k < j ==> cls(s[k])
    ensures j == |s| || !cls(s[j])
    decreases |s| - i
  {
    if i < |s| && cls(s[i]) then RunEnd(s, i + 1, cls) else i
  }

  /** A run is determined by where it starts: any end that bounds a run of
      the class is the one `RunEnd` finds. */
  lemma RunEndUnique(s: string, i: nat, j: nat, cls: char -> bool)
    requires i <= j <= |s|
    requires forall k :: i <= k < j ==> cls(s[k])
    requires j == |s| || !cls(s[j])
    ensures RunEnd(s, i, cls) == j
  {
  }

  /** Cutting a text at `n` and putting the halves back gives the text. */
  lemma SliceSplit(s: string, n: nat)
    requires n <= |s|
    ensures s == s[..n] + s[n..]
  {
  }

  /** The same cut around the character at `n`. */
  lemma SliceAround(s: string, n: nat)
    requires n < |s|
    ensures s == s[..n] + ([s[n]] + s[n + 1..])
  {
    assert s[n..] == [s[n]] + s[n + 1..];
    SliceSplit(s, n);
  }

  /** No digit anywhere in the concatenation of two digit-free strings. */
  lemma DigitFreeConcat(a: string, b: string)
    requires DigitFree(a) && DigitFree(b)
    ensures DigitFree(a + b)
  {
    forall i | 0 <= i < |a + b|
      ensures !IsDigit((a + b)[i])
    {
      if i >= |a| {
        assert (a + b)[i] == b[i - |a|];
      }
    }
  }
}
