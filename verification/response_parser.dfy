/** `parseMinecraftResponse`: what the info, block and entity nodes make of
    the text the server answers with. A number anywhere in the text wins;
    otherwise bracketed text is cleaned up and handed to `JSON.parse`, and
    anything else comes back as it was. */
module ResponseParser {
  import opened Wrappers
  import opened Decimal
  import opened TextRuns
  import opened NumberMatch
  import opened Rewrites

  /** A JSON document, as `JSON.parse` returns it. */
  datatype Json =
    | JNull
    | JBool(b: bool)
    | JNumber(n: real)
    | JString(s: string)
    | JArray(items: seq<Json>)
    | JObject(members: seq<(string, Json)>)

  /** What the parser returns: `null`, a number, a parsed document, or the
      response text itself. */
  datatype Parsed = Null | Number(value: real) | Structured(doc: Json) | Raw(text: string)

  /** `JSON.parse` as the parser uses it: the document, or `None` where it
      throws. */
  type JsonParser = string -> Option<Json>

  /** The parser. `None` stands for a missing (undefined or null) response. */
  function ParseResponse(response: Option<string>, parseJson: JsonParser): (r: Parsed)
    ensures r == Null <==> response == None || response == Some("")
    ensures r.Number? <==> response.Some? && !DigitFree(response.value)
    ensures r.Number? ==> r.value >= 0.0
    ensures r.Structured? ==>
              var s := response.value;
              && DigitFree(s) && ('{' in s || '[' in s)
              && parseJson(QuoteKeys(s)) == Some(r.doc)
    ensures r.Raw? ==>
              var s := response.value;
              && r.text == s && s != "" && DigitFree(s)
              && (('{' !in s && '[' !in s) || parseJson(QuoteKeys(s)) == None)
  {
    match response
    case None => Null
    case Some(s) =>
      if s == "" then Null
      else
        match Leftmost(s)
        case Some(m) => Number(SpanValue(s, m))
        case None =>
          if '{' in s || '[' in s then
            CleanUpOfDigitFree(s);
            match parseJson(CleanUp(s))
            case Some(doc) => Structured(doc)
            case None => Raw(s)
          else Raw(s)
  }

  /** A response with a digit parses to the value of its leftmost, longest
      match of `\d+(\.\d+)?`, whatever the rest of the text. */
  lemma NumberIsLeftmostMatch(s: string, parseJson: JsonParser)
    requires !DigitFree(s)
    ensures var m := Leftmost(s).value;
            && ParseResponse(Some(s), parseJson) == Number(SpanValue(s, m))
            && IsNumberText(s[m.start..m.end])
            && (forall p, e :: 0 <= p < m.start && p <= e <= |s| ==> !IsNumberText(s[p..e]))
            && (forall e :: m.end < e <= |s| ==> !IsNumberText(s[m.start..e]))
  {
    LeftmostIsLongestMatch(s);
  }

  /** The text following a number that ends the match there: not a digit, and
      not a point followed by a digit. */
  predicate EndsNumber(suffix: string) {
    suffix == [] || (!IsDigit(suffix[0]) && !(suffix[0] == '.' && |suffix| > 1 && IsDigit(suffix[1])))
  }

  /** An integer written in a response is read back: "Steve has 20 health"
      parses to 20. */
  lemma IntegerRoundTrip(prefix: string, n: nat, suffix: string, parseJson: JsonParser)
    requires DigitFree(prefix) && EndsNumber(suffix)
    ensures ParseResponse(Some(prefix + NatToDigits(n) + suffix), parseJson) == Number(n as real)
  {
    var ds := NatToDigits(n);
    var s := prefix + ds + suffix;
    var start := |prefix|;
    var intEnd := |prefix| + |ds|;
    assert forall k :: 0 <= k < start ==> s[k] == prefix[k];
    assert forall k :: start <= k < intEnd ==> s[k] == ds[k - start];
    assert intEnd < |s| ==> s[intEnd] == suffix[0];
    assert intEnd + 1 < |s| ==> s[intEnd + 1] == suffix[1];
    FirstDigitUnique(s, 0, start);
    RunEndUnique(s, start, intEnd, IsDigit);
    assert s[start..intEnd] == ds;
    assert Leftmost(s) == Some(Span(start, intEnd, intEnd));
  }

  /** A decimal written in a response is read back exactly, fraction
      included: "1.25 blocks" parses to 1.25, "1.2.3" to 1.2. */
  lemma DecimalRoundTrip(prefix: string, n: nat, frac: string, suffix: string, parseJson: JsonParser)
    requires DigitFree(prefix) && |frac| >= 1 && AllDigits(frac)
    requires suffix == [] || !IsDigit(suffix[0])
    ensures ParseResponse(Some(prefix + NatToDigits(n) + "." + frac + suffix), parseJson)
            == Number(n as real + FracValue(frac))
  {
    var ds := NatToDigits(n);
    var s := prefix + ds + "." + frac + suffix;
    var intEnd := |prefix| + |ds|;
    var m := Span(|prefix|, intEnd, intEnd + 1 + |frac|);
    LeftmostOfDecimal(prefix, ds, frac, suffix);
    DecimalParts(prefix, ds, frac, suffix);
    ParseOfMatch(s, m, ds, frac, parseJson);
  }

  /** A response whose match has the integer digits `ds` and the fraction
      digits `frac` parses to their value. */
  lemma ParseOfMatch(s: string, m: Span, ds: string, frac: string, parseJson: JsonParser)
    requires Leftmost(s) == Some(m) && m.end > m.intEnd
    requires s[m.start..m.intEnd] == ds && s[m.intEnd + 1..m.end] == frac
    ensures AllDigits(ds) && AllDigits(frac)
    ensures ParseResponse(Some(s), parseJson) == Number(Value(ds) as real + FracValue(frac))
  {
    ParseOfDigits(s, parseJson);
    SpanValueOf(s, m, ds, frac);
  }

  /** A response with a digit parses to the value of its match. */
  lemma ParseOfDigits(s: string, parseJson: JsonParser)
    requires !DigitFree(s)
    ensures ParseResponse(Some(s), parseJson) == Number(SpanValue(s, Leftmost(s).value))
  {
    assert s != "";
  }

  /** The value of a match with integer digits `ds` and fraction digits `frac`. */
  lemma SpanValueOf(s: string, m: Span, ds: string, frac: string)
    requires Shaped(s, m) && m.end > m.intEnd
    requires s[m.start..m.intEnd] == ds && s[m.intEnd + 1..m.end] == frac
    ensures AllDigits(ds) && AllDigits(frac)
    ensures SpanValue(s, m) == Value(ds) as real + FracValue(frac)
  {
    AllDigitsSlice(s, m.start, m.intEnd);
    AllDigitsSlice(s, m.intEnd + 1, m.end);
  }

  /** Leading zeros and trailing fraction zeros do not count: "007.50"
      parses to 7.5. */
  lemma PaddedDecimal(parseJson: JsonParser)
    ensures ParseResponse(Some("007.50"), parseJson) == Number(7.5)
  {
    PaddedMatch();
    PaddedDigits();
    ParseOfMatch("007.50", Span(0, 3, 6), "007", "50", parseJson);
  }

  /** Where the match lies in "007.50", and its two digit runs. */
  lemma PaddedMatch()
    ensures Leftmost("007.50") == Some(Span(0, 3, 6))
    ensures "007.50"[0..3] == "007" && "007.50"[4..6] == "50"
  {
    assert "" + "007" + "." + "50" + "" == "007.50";
    LeftmostOfDecimal("", "007", "50", "");
    DecimalParts("", "007", "50", "");
  }

  /** The values of the digit runs of "007.50". */
  lemma PaddedDigits()
    ensures Value("007") == 7 && FracValue("50") == 0.5
  {
    assert "007"[..2] == "00" && "00"[..1] == "0" && "0"[..0] == "";
    assert "50"[..1] == "5" && "5"[..0] == "";
    assert Value("50") == 50;
  }

  /** The integer digits and the fraction digits of a written decimal. */
  lemma DecimalParts(prefix: string, ds: string, frac: string, suffix: string)
    ensures var s := prefix + ds + "." + frac + suffix;
            var intEnd := |prefix| + |ds|;
            && s[|prefix|..intEnd] == ds
            && s[intEnd + 1..intEnd + 1 + |frac|] == frac
  {
    var s := prefix + ds + "." + frac + suffix;
    var intEnd := |prefix| + |ds|;
    assert forall k :: 0 <= k < |ds| ==> s[|prefix|..intEnd][k] == ds[k];
    assert forall k :: 0 <= k < |frac| ==> s[intEnd + 1..intEnd + 1 + |frac|][k] == frac[k];
  }

  /** Where the match lies in a decimal written after digit-free text. */
  lemma LeftmostOfDecimal(prefix: string, ds: string, frac: string, suffix: string)
    requires DigitFree(prefix) && |ds| >= 1 && AllDigits(ds) && |frac| >= 1 && AllDigits(frac)
    requires suffix == [] || !IsDigit(suffix[0])
    ensures var intEnd := |prefix| + |ds|;
            Leftmost(prefix + ds + "." + frac + suffix) == Some(Span(|prefix|, intEnd, intEnd + 1 + |frac|))
  {
    var s := prefix + ds + "." + frac + suffix;
    var start := |prefix|;
    var intEnd := |prefix| + |ds|;
    var end := intEnd + 1 + |frac|;
    assert forall k :: 0 <= k < start ==> !IsDigit(s[k]) by {
      assert forall k :: 0 <= k < start ==> s[k] == prefix[k];
    }
    assert forall k :: start <= k < intEnd ==> IsDigit(s[k]) by {
      assert forall k :: start <= k < intEnd ==> s[k] == ds[k - start];
    }
    assert s[intEnd] == '.';
    assert forall k :: intEnd + 1 <= k < end ==> IsDigit(s[k]) by {
      assert forall k :: intEnd + 1 <= k < end ==> s[k] == frac[k - intEnd - 1];
    }
    assert end == |s| || !IsDigit(s[end]) by {
      assert end < |s| ==> s[end] == suffix[0];
    }
    DecimalAt(s, start, intEnd, end);
  }

  /** The match, stated on positions: no digit before `start`, digits up to
      `intEnd`, a point, and digits up to `end` where the run stops. */
  lemma DecimalAt(s: string, start: nat, intEnd: nat, end: nat)
    requires start < intEnd && intEnd + 1 < end <= |s|
    requires forall k :: 0 <= k < start ==> !IsDigit(s[k])
    requires forall k :: start <= k < intEnd ==> IsDigit(s[k])
    requires s[intEnd] == '.'
    requires forall k :: intEnd + 1 <= k < end ==> IsDigit(s[k])
    requires end == |s| || !IsDigit(s[end])
    ensures Leftmost(s) == Some(Span(start, intEnd, end))
  {
    FirstDigitUnique(s, 0, start);
    RunEndUnique(s, start, intEnd, IsDigit);
    RunEndUnique(s, intEnd + 1, end, IsDigit);
  }

  /** The parser has no sign: "-5" parses to 5. */
  lemma SignIsDropped(n: nat, parseJson: JsonParser)
    ensures ParseResponse(Some("-" + NatToDigits(n)), parseJson) == Number(n as real)
  {
    assert "-" + NatToDigits(n) + "" == "-" + NatToDigits(n);
    IntegerRoundTrip("-", n, "", parseJson);
  }

  /** NBT data with a number in it is read as its first number: the suffix
      clean-up before `JSON.parse` never sees a digit. */
  lemma NbtWithNumberIsNumber(parseJson: JsonParser)
    ensures ParseResponse(Some("{foo:1b,bar:2.5d}"), parseJson) == Number(1.0)
  {
    assert NatToDigits(1) == "1";
    assert "{foo:" + "1" + "b,bar:2.5d}" == "{foo:1b,bar:2.5d}";
    IntegerRoundTrip("{foo:", 1, "b,bar:2.5d}", parseJson);
  }

  /** Bracketed text without digits goes to `JSON.parse` with only its keys
      quoted, and comes back raw when that throws. */
  lemma BracketedText(s: string, parseJson: JsonParser)
    requires DigitFree(s) && ('{' in s || '[' in s)
    ensures ParseResponse(Some(s), parseJson)
            == match parseJson(QuoteKeys(s))
               case Some(doc) => Structured(doc)
               case None => Raw(s)
  {
  }
}
