/** The clean-up the response parser applies before `JSON.parse`: five global
    regular-expression replacements, applied one after another. */
module Rewrites {
  import opened Decimal
  import opened TextRuns

  /** `.replace(/(\w+):/g, '"$1":')`: every run of word characters directly
      followed by a colon is put in double quotes. The scan goes left to right;
      inside a run not followed by a colon no later start in that run matches
      either, so the text is consumed run by run. */
  function QuoteKeys(s: string): (r: string)
    decreases |s|
  {
    if s == [] then []
    else if !IsWordChar(s[0]) then [s[0]] + QuoteKeys(s[1..])
    else
      var n := RunEnd(s, 0, IsWordChar);
      if n < |s| && s[n] == ':' then "\"" + s[..n] + "\":" + QuoteKeys(s[n + 1..])
      else s[..n] + QuoteKeys(s[n..])
  }

  /** `s` with its double-quote characters removed. */
  function Unquoted(s: string): string {
    if s == [] then [] else (if s[0] == '"' then [] else [s[0]]) + Unquoted(s[1..])
  }

  lemma {:induction false} UnquotedConcat(a: string, b: string)
    ensures Unquoted(a + b) == Unquoted(a) + Unquoted(b)
  {
    if a != [] {
      assert (a + b)[1..] == a[1..] + b;
      UnquotedConcat(a[1..], b);
    } else {
      assert a + b == b;
    }
  }

  /** Quoting keys only inserts double quotes: dropping every double quote
      from the result gives the input with its own double quotes dropped. */
  lemma {:induction false} QuoteKeysOnlyAddsQuotes(s: string)
    ensures Unquoted(QuoteKeys(s)) == Unquoted(s)
    decreases |s|
  {
    if s == [] {
    } else if !IsWordChar(s[0]) {
      QuoteKeysOnlyAddsQuotes(s[1..]);
      UnquotedAfterChar(s);
    } else {
      var n := RunEnd(s, 0, IsWordChar);
      if n < |s| && s[n] == ':' {
        QuoteKeysOnlyAddsQuotes(s[n + 1..]);
        UnquotedAfterKey(s, n);
      } else {
        QuoteKeysOnlyAddsQuotes(s[n..]);
        UnquotedAfterRun(s, n);
      }
    }
  }

  /** The step of `QuoteKeysOnlyAddsQuotes` past a character outside a run. */
  lemma UnquotedAfterChar(s: string)
    requires s != [] && !IsWordChar(s[0])
    requires Unquoted(QuoteKeys(s[1..])) == Unquoted(s[1..])
    ensures Unquoted(QuoteKeys(s)) == Unquoted(s)
  {
    UnquotedConcat([s[0]], QuoteKeys(s[1..]));
    UnquotedConcat([s[0]], s[1..]);
    assert [s[0]] + s[1..] == s;
  }

  /** The step of `QuoteKeysOnlyAddsQuotes` past a key and its colon. */
  lemma UnquotedAfterKey(s: string, n: nat)
    requires s != [] && IsWordChar(s[0]) && n == RunEnd(s, 0, IsWordChar)
    requires n < |s| && s[n] == ':'
    requires Unquoted(QuoteKeys(s[n + 1..])) == Unquoted(s[n + 1..])
    ensures Unquoted(QuoteKeys(s)) == Unquoted(s)
  {
    UnquotedOfWordRun(s[..n]);
    UnquotedOfKeyQuoted(s, n);
    UnquotedOfKeyPlain(s, n);
  }

  lemma UnquotedOfKeyQuoted(s: string, n: nat)
    requires s != [] && IsWordChar(s[0]) && n == RunEnd(s, 0, IsWordChar)
    requires n < |s| && s[n] == ':' && Unquoted(s[..n]) == s[..n]
    ensures Unquoted(QuoteKeys(s)) == s[..n] + ":" + Unquoted(QuoteKeys(s[n + 1..]))
  {
    assert QuoteKeys(s) == "\"" + s[..n] + "\":" + QuoteKeys(s[n + 1..]);
    UnquotedOfQuotedKey(s[..n], QuoteKeys(s[n + 1..]));
  }

  lemma UnquotedOfKeyPlain(s: string, n: nat)
    requires n < |s| && s[n] == ':' && Unquoted(s[..n]) == s[..n]
    ensures Unquoted(s) == s[..n] + ":" + Unquoted(s[n + 1..])
  {
    var rest := s[n + 1..];
    SliceAround(s, n);
    UnquotedOfPlainKey(s[..n], rest);
  }

  /** A key left unquoted keeps its colon. */
  lemma UnquotedOfPlainKey(key: string, rest: string)
    requires Unquoted(key) == key
    ensures Unquoted(key + ([':'] + rest)) == key + ":" + Unquoted(rest)
  {
    UnquotedConcat(key, [':'] + rest);
    UnquotedCons(':', rest);
  }

  /** Dropping double quotes keeps any other first character. */
  lemma UnquotedCons(c: char, x: string)
    requires c != '"'
    ensures Unquoted([c] + x) == [c] + Unquoted(x)
  {
    assert ([c] + x)[1..] == x;
  }

  /** The step of `QuoteKeysOnlyAddsQuotes` past a run without a colon. */
  lemma UnquotedAfterRun(s: string, n: nat)
    requires s != [] && IsWordChar(s[0]) && n == RunEnd(s, 0, IsWordChar)
    requires !(n < |s| && s[n] == ':')
    requires Unquoted(QuoteKeys(s[n..])) == Unquoted(s[n..])
    ensures Unquoted(QuoteKeys(s)) == Unquoted(s)
  {
    QuoteKeysOfRun(s, n);
    SliceSplit(s, n);
    UnquotedAfterPrefix(QuoteKeys(s), s, s[..n], QuoteKeys(s[n..]), s[n..]);
  }

  /** A run of word characters without a colon after it is copied as it is. */
  lemma QuoteKeysOfRun(s: string, n: nat)
    requires s != [] && IsWordChar(s[0]) && n == RunEnd(s, 0, IsWordChar)
    requires !(n < |s| && s[n] == ':')
    ensures QuoteKeys(s) == s[..n] + QuoteKeys(s[n..])
  {
  }

  /** Texts that agree once unquoted still agree behind a common prefix. */
  lemma UnquotedAfterPrefix(a: string, b: string, run: string, x: string, y: string)
    requires a == run + x && b == run + y && Unquoted(x) == Unquoted(y)
    ensures Unquoted(a) == Unquoted(b)
  {
    UnquotedConcat(run, x);
    UnquotedConcat(run, y);
  }

  /** A quoted key loses its quotes again. */
  lemma UnquotedOfQuotedKey(run: string, x: string)
    requires Unquoted(run) == run
    ensures Unquoted("\"" + run + "\":" + x) == run + ":" + Unquoted(x)
  {
    var w := [':'] + x;
    var v := ['"'] + w;
    var u := run + v;
    assert "\"" + run + "\":" + x == ['"'] + u;
    UnquotedQuote(u);
    UnquotedConcat(run, v);
    UnquotedQuote(w);
    UnquotedCons(':', x);
  }

  /** Dropping double quotes drops a leading one. */
  lemma UnquotedQuote(x: string)
    ensures Unquoted(['"'] + x) == Unquoted(x)
  {
    assert (['"'] + x)[1..] == x;
  }

  /** A run of word characters holds no double quote. */
  lemma {:induction false} UnquotedOfWordRun(run: string)
    requires forall i :: 0 <= i < |run| ==> IsWordChar(run[i])
    ensures Unquoted(run) == run
  {
    if run != [] {
      UnquotedOfWordRun(run[1..]);
      assert [run[0]] + run[1..] == run;
    }
  }

  /** Text without a colon has no keys to quote. */
  lemma {:induction false} QuoteKeysWithoutColon(s: string)
    requires ':' !in s
    ensures QuoteKeys(s) == s
    decreases |s|
  {
    if s != [] {
      if !IsWordChar(s[0]) {
        QuoteKeysWithoutColon(s[1..]);
        assert [s[0]] + s[1..] == s;
      } else {
        var n := RunEnd(s, 0, IsWordChar);
        assert n < |s| ==> s[n] in s;
        QuoteKeysWithoutColon(s[n..]);
        SliceSplit(s, n);
      }
    }
  }

  /** A key and its colon become the quoted key and the colon. */
  lemma QuoteKeysOfKey(key: string, rest: string)
    requires |key| >= 1 && forall i :: 0 <= i < |key| ==> IsWordChar(key[i])
    ensures QuoteKeys(key + ":" + rest) == "\"" + key + "\":" + QuoteKeys(rest)
  {
    var s := key + ":" + rest;
    assert s[|key|] == ':';
    RunEndUnique(s, 0, |key|, IsWordChar);
    assert s[..|key|] == key;
    assert s[|key| + 1..] == rest;
  }

  /** Quoting keys brings no digit into digit-free text. */
  lemma {:induction false} QuoteKeysKeepsDigitFree(s: string)
    requires DigitFree(s)
    ensures DigitFree(QuoteKeys(s))
    decreases |s|
  {
    if s != [] {
      if !IsWordChar(s[0]) {
        QuoteKeysKeepsDigitFree(s[1..]);
        DigitFreeConcat([s[0]], QuoteKeys(s[1..]));
      } else {
        var n := RunEnd(s, 0, IsWordChar);
        assert DigitFree(s[..n]);
        if n < |s| && s[n] == ':' {
          QuoteKeysKeepsDigitFree(s[n + 1..]);
          DigitFreeConcat("\"", s[..n]);
          DigitFreeConcat("\"" + s[..n], "\":");
          DigitFreeConcat("\"" + s[..n] + "\":", QuoteKeys(s[n + 1..]));
        } else {
          QuoteKeysKeepsDigitFree(s[n..]);
          DigitFreeConcat(s[..n], QuoteKeys(s[n..]));
        }
      }
    }
  }

  /** `.replace(/(\d+)c/g, '$1')` for a suffix letter `c`: the letter is
      dropped wherever it directly follows a run of digits. The scan takes
      each digit run whole, since a shorter run is followed by a digit. */
  function StripSuffix(s: string, c: char): (r: string)
    requires !IsDigit(c)
    decreases |s|
  {
    if s == [] then []
    else if !IsDigit(s[0]) then [s[0]] + StripSuffix(s[1..], c)
    else
      var n := RunEnd(s, 0, IsDigit);
      if n < |s| && s[n] == c then s[..n] + StripSuffix(s[n + 1..], c)
      else s[..n] + StripSuffix(s[n..], c)
  }

  /** Reference reading of the same replacement, one character at a time:
      keep every character except a `c` right after a digit. `afterDigit`
      says whether the character before `s` was a digit. */
  function DropAfterDigit(s: string, c: char, afterDigit: bool): string {
    if s == [] then []
    else (if s[0] == c && afterDigit then [] else [s[0]]) + DropAfterDigit(s[1..], c, IsDigit(s[0]))
  }

  /** Through a run of digits the reference keeps every digit and ends up
      just after a digit. */
  lemma {:induction false} DropThroughDigits(ds: string, t: string, c: char, afterDigit: bool)
    requires |ds| >= 1 && AllDigits(ds) && !IsDigit(c)
    ensures DropAfterDigit(ds + t, c, afterDigit) == ds + DropAfterDigit(t, c, true)
    decreases |ds|
  {
    assert (ds + t)[0] == ds[0];
    assert (ds + t)[1..] == ds[1..] + t;
    if |ds| > 1 {
      DropThroughDigits(ds[1..], t, c, true);
    } else {
      assert ds[1..] + t == t;
    }
    assert [ds[0]] + ds[1..] == ds;
  }

  /** The regular-expression scan and the reference reading agree. */
  lemma {:induction false} StripSuffixIsDropAfterDigit(s: string, c: char)
    requires !IsDigit(c)
    ensures StripSuffix(s, c) == DropAfterDigit(s, c, false)
    decreases |s|
  {
    if s != [] {
      if !IsDigit(s[0]) {
        StripSuffixIsDropAfterDigit(s[1..], c);
      } else {
        var n := RunEnd(s, 0, IsDigit);
        var ds := s[..n];
        assert |ds| >= 1 && AllDigits(ds) by {
          assert forall i :: 0 <= i < n ==> ds[i] == s[i];
        }
        if n < |s| && s[n] == c {
          var t := s[n + 1..];
          StripSuffixIsDropAfterDigit(t, c);
          SliceAround(s, n);
          DropOfSuffix(ds, t, c);
        } else {
          var t := s[n..];
          StripSuffixIsDropAfterDigit(t, c);
          SliceSplit(s, n);
          DropOfNoSuffix(ds, t, c);
        }
      }
    }
  }

  /** The reference drops a `c` right after a digit run. */
  lemma DropOfSuffix(ds: string, t: string, c: char)
    requires |ds| >= 1 && AllDigits(ds) && !IsDigit(c)
    ensures DropAfterDigit(ds + ([c] + t), c, false) == ds + DropAfterDigit(t, c, false)
  {
    DropThroughDigits(ds, [c] + t, c, false);
    assert ([c] + t)[1..] == t;
  }

  /** The reference keeps whatever other character ends a digit run. */
  lemma DropOfNoSuffix(ds: string, t: string, c: char)
    requires |ds| >= 1 && AllDigits(ds) && !IsDigit(c)
    requires t == [] || (!IsDigit(t[0]) && t[0] != c)
    ensures DropAfterDigit(ds + t, c, false) == ds + DropAfterDigit(t, c, false)
  {
    DropThroughDigits(ds, t, c, false);
  }

  /** On digit-free text the suffix strip changes nothing. */
  lemma {:induction false} StripSuffixOfDigitFree(s: string, c: char)
    requires !IsDigit(c) && DigitFree(s)
    ensures StripSuffix(s, c) == s
    decreases |s|
  {
    if s != [] {
      StripSuffixOfDigitFree(s[1..], c);
      assert [s[0]] + s[1..] == s;
    }
  }

  /** The whole clean-up before `JSON.parse`: keys quoted, then the NBT
      suffixes `b`, `d`, `f` and `L` stripped from numbers, in that order. */
  function CleanUp(s: string): string {
    StripSuffix(StripSuffix(StripSuffix(StripSuffix(QuoteKeys(s), 'b'), 'd'), 'f'), 'L')
  }

  /** On digit-free text only the key quoting has any effect. */
  lemma CleanUpOfDigitFree(s: string)
    requires DigitFree(s)
    ensures CleanUp(s) == QuoteKeys(s)
  {
    var q := QuoteKeys(s);
    QuoteKeysKeepsDigitFree(s);
    StripSuffixOfDigitFree(q, 'b');
    StripSuffixOfDigitFree(q, 'd');
    StripSuffixOfDigitFree(q, 'f');
    StripSuffixOfDigitFree(q, 'L');
  }
}
