/** Cell cleaning, metric-name cleaning, unit inference and the fallback ticker of the
    Screener.in normalisation pipeline (powerbi.py). */
module Cleaning {
  import opened Text

  /** The literal the source strips as its currency sign: the rupee sign as it reads
      after a UTF-8 / Mac Roman mix-up, three characters long. */
  const RupeeMojibake: string := "\U{201A}\U{00C7}\U{03C0}"

  /** The characters the regex class [\d.-] lets through. */
  predicate IsNumericChar(c: char) { IsDigit(c) || c == '.' || c == '-' }

  /** The placeholders Screener.in prints for a missing figure. */
  predicate IsAbsent(value: string) {
    value == "" || Strip(value) in ["", "-", "NA", "N/A"]
  }

  /** clean_numeric_value: "" for an absent figure (never "0"); otherwise the cell with
      separators, percent and currency signs and every other non-numeric character
      removed. The result stays text so that "absent" and "zero" remain apart. */
  function CleanNumericValue(value: string): (r: string)
    ensures IsAbsent(value) ==> r == ""
    ensures forall i :: 0 <= i < |r| ==> IsNumericChar(r[i])
  {
    if IsAbsent(value) then ""
    else
      var cleaned := RemoveAll(RemoveAll(RemoveAll(RemoveAll(Strip(value), ","), "%"), RupeeMojibake), "$");
      Filter(cleaned, IsNumericChar)
  }

  lemma MojibakeIsNotNumeric()
    ensures forall i :: 0 <= i < |RupeeMojibake| ==> !IsNumericChar(RupeeMojibake[i])
  {
  }

  /** The four replace steps delete only characters the final deletion drops anyway. */
  lemma ReplacesAreSubsumed(s: string)
    ensures Filter(RemoveAll(RemoveAll(RemoveAll(RemoveAll(s, ","), "%"), RupeeMojibake), "$"), IsNumericChar)
         == Filter(s, IsNumericChar)
  {
    var s1 := RemoveAll(s, ",");
    var s2 := RemoveAll(s1, "%");
    var s3 := RemoveAll(s2, RupeeMojibake);
    FilterRemoveAll(s, ",", IsNumericChar);
    FilterRemoveAll(s1, "%", IsNumericChar);
    MojibakeIsNotNumeric();
    FilterRemoveAll(s2, RupeeMojibake, IsNumericChar);
    FilterRemoveAll(s3, "$", IsNumericChar);
  }

  /** The replace steps are subsumed by the final character-class deletion: a present
      value cleans to exactly its digits, dots and minus signs, in order. */
  lemma CleanNumericValueIsFilter(value: string)
    requires !IsAbsent(value)
    ensures CleanNumericValue(value) == Filter(value, IsNumericChar)
  {
    ReplacesAreSubsumed(Strip(value));
    FilterStrip(value, IsNumericChar);
  }

  /** Cleaning only deletes: the result is a subsequence of the input. */
  lemma CleanNumericValueKeepsNumericChars(value: string)
    ensures IsSubsequence(CleanNumericValue(value), value)
  {
    if !IsAbsent(value) {
      CleanNumericValueIsFilter(value);
      FilterIsSubsequence(value, IsNumericChar);
    }
  }

  /** Cleaning is idempotent except on the output "-": cleaning a cleaned value changes
      it only when it is "-", which a second pass reads as the absent marker. */
  lemma CleanNumericValueIdempotent(value: string)
    ensures var r := CleanNumericValue(value);
      r != "-" ==> CleanNumericValue(r) == r
  {
    var r := CleanNumericValue(value);
    if r != "-" && r != "" {
      NumericNotAbsent(r);
      CleanNumericValueIsFilter(r);
      FilterKeepsAll(r, IsNumericChar);
    }
  }

  /** A cleaned value other than "" and "-" is not read as a placeholder. */
  lemma NumericNotAbsent(r: string)
    requires r != "" && r != "-"
    requires forall i :: 0 <= i < |r| ==> IsNumericChar(r[i])
    ensures !IsAbsent(r)
  {
    assert IsNumericChar(r[0]) && IsNumericChar(r[|r| - 1]);
    StripUntrimmable(r);
    assert r[0] != 'N';
  }

  /** The exception: "-%" cleans to "-", and "-" cleans to "". */
  lemma CleanNumericValueDashNotIdempotent()
    ensures CleanNumericValue("-%") == "-"
    ensures CleanNumericValue(CleanNumericValue("-%")) == ""
  {
    StripUntrimmable("-%");
    assert !IsAbsent("-%");
    CleanNumericValueIsFilter("-%");
    assert Filter("-%", IsNumericChar) == "-";
  }

  lemma NotAbsentExample()
    ensures !IsAbsent("1,200%")
  {
    StripUntrimmable("1,200%");
  }

  lemma FilterExample()
    ensures Filter("1,200%", IsNumericChar) == "1200"
  {

  }

  lemma CleanNumericValueExample()
    ensures CleanNumericValue("1,200%") == "1200"
  {
    NotAbsentExample();
    FilterExample();
    CleanNumericValueIsFilter("1,200%");
  }

  /** The characters clean_metric_name never touches: everything but whitespace and the
      row markers +, * and #. */
  predicate IsMetricText(c: char) { !IsSpace(c) && c != '+' && c != '*' && c != '#' }

  /** clean_metric_name: trims, deletes every +, * and # (anywhere, not only at the
      end), then turns each whitespace run into one blank. The result may still end in
      a blank when a marker stood after one ("Sales +" gives "Sales "). */
  function CleanMetricName(metric: string): (r: string)
    ensures metric == "" ==> r == ""
    ensures forall i :: 0 <= i < |r| ==> r[i] != '+' && r[i] != '*' && r[i] != '#'
    ensures forall i :: 0 <= i < |r| ==> IsSpace(r[i]) ==> r[i] == ' '
    ensures forall i :: 0 <= i < |r| - 1 ==> !(r[i] == ' ' && r[i + 1] == ' ')
  {
    if metric == "" then ""
    else CollapseWhitespace(RemoveAll(RemoveAll(RemoveAll(Strip(metric), "+"), "*"), "#"))
  }

  /** Nothing but whitespace and markers is lost: the name's other characters all
      survive, in their order. */
  lemma CleanMetricNameKeepsText(metric: string)
    ensures Filter(CleanMetricName(metric), IsMetricText) == Filter(metric, IsMetricText)
  {
    if metric != "" {
      var s0 := Strip(metric);
      var s1 := RemoveAll(s0, "+");
      var s2 := RemoveAll(s1, "*");
      var s3 := RemoveAll(s2, "#");
      assert Filter(s0, IsMetricText) == Filter(metric, IsMetricText) by {
        FilterStrip(metric, IsMetricText);
      }
      assert Filter(s1, IsMetricText) == Filter(s0, IsMetricText) by {
        FilterRemoveAll(s0, "+", IsMetricText);
      }
      assert Filter(s2, IsMetricText) == Filter(s1, IsMetricText) by {
        FilterRemoveAll(s1, "*", IsMetricText);
      }
      assert Filter(s3, IsMetricText) == Filter(s2, IsMetricText) by {
        FilterRemoveAll(s2, "#", IsMetricText);
      }
      FilterCollapseWhitespace(s3, IsMetricText);
    }
  }

  /** The cleaned name has the words of the name once its markers are deleted. With the
      ensures of CleanMetricName (whitespace only as single blanks), this makes the result
      those words joined by one blank each, at most with a blank left at either end where
      a marker stood next to whitespace. */
  lemma CleanMetricNameWords(metric: string)
    ensures Split(CleanMetricName(metric)) ==
      Split(RemoveAll(RemoveAll(RemoveAll(metric, "+"), "*"), "#"))
  {
    if metric != "" {
      var a, b := StripPadding(metric);
      var x := RemoveAll(RemoveAll(RemoveAll(Strip(metric), "+"), "*"), "#");
      assert RemoveAll(RemoveAll(RemoveAll(metric, "+"), "*"), "#") == a + x + b by {
        MarkersPadded(a, Strip(metric), b);
      }
      SplitCollapseWhitespace(x);
      SplitSkipsPadding(a, x, b);
    }
  }

  /** Deleting the markers leaves whitespace padding as it is. */
  lemma MarkersPadded(a: string, s: string, b: string)
    requires AllSpace(a) && AllSpace(b)
    ensures RemoveAll(RemoveAll(RemoveAll(a + s + b, "+"), "*"), "#") ==
      a + RemoveAll(RemoveAll(RemoveAll(s, "+"), "*"), "#") + b
  {
    RemoveAllPadded(a, s, b, "+");
    RemoveAllPadded(a, RemoveAll(s, "+"), b, "*");
    RemoveAllPadded(a, RemoveAll(RemoveAll(s, "+"), "*"), b, "#");
  }

  /** A name that is already trimmed, marker-free and single-spaced is left as it is. */
  lemma CleanMetricNameFixesCleanText(metric: string)
    requires Strip(metric) == metric
    requires '+' !in metric && '*' !in metric && '#' !in metric
    requires CollapseWhitespace(metric) == metric
    ensures CleanMetricName(metric) == metric
  {
    if metric != "" {
      RemoveAllAbsent(metric, "+");
      RemoveAllAbsent(metric, "*");
      RemoveAllAbsent(metric, "#");
    }
  }

  /** The six unit labels infer_unit can produce. */
  const Units: set<string> := {"INR Crores", "INR", "Percentage", "Ratio", "Days", "Number"}

  /** The keyword lists of infer_unit, in the order they are tried. */
  const MonetaryWords: seq<string> := ["sales", "revenue", "profit", "income", "expense", "asset",
    "liability", "equity", "cash", "borrowing", "investment", "market cap", "reserves",
    "fixed assets", "current assets", "total assets", "total liabilities"]
  const PerShareWords: seq<string> := ["eps", "dividend", "book value", "face value"]
  const PercentageWords: seq<string> := ["margin", "roe", "roce", "roa", "ratio", "yield",
    "coverage", "payout", "growth", "tax %", "opm %"]
  const RatioWords: seq<string> := ["debt to equity", "current ratio", "quick ratio", "p/e", "p/b",
    "ev/ebitda", "interest coverage"]
  const DurationWords: seq<string> := ["days", "turnover", "cycle", "debtor days", "inventory days",
    "working capital days"]
  const PriceWords: seq<string> := ["price", "current price"]

  /** Python's any(word in text for word in words). */
  predicate MentionsAny(text: string, words: seq<string>) {
    exists w :: w in words && Contains(text, w)
  }

  /** The classification step of infer_unit: the keyword lists are tried in a fixed
      order on the cleaned, lower-cased name and the first list that matches decides. */
  function UnitForText(t: string): (u: string)
    ensures u in Units
  {
    if MentionsAny(t, MonetaryWords) then "INR Crores"
    else if MentionsAny(t, PerShareWords) then "INR"
    else if MentionsAny(t, PercentageWords) then "Percentage"
    else if MentionsAny(t, RatioWords) then "Ratio"
    else if MentionsAny(t, DurationWords) then "Days"
    else if MentionsAny(t, PriceWords) then "INR"
    else "Number"
  }

  /** infer_unit: the statement name is not consulted. */
  function InferUnit(metricName: string, statement: string): (u: string)
    ensures u in Units
  {
    UnitForText(Lower(CleanMetricName(metricName)))
  }

  lemma InferUnitIgnoresStatement(metricName: string, s1: string, s2: string)
    ensures InferUnit(metricName, s1) == InferUnit(metricName, s2)
  {
  }

  /** A text mentions none of the words when each word holds, at the given position,
      two adjacent characters that never occur side by side in the text. */
  lemma NoneMentioned(t: string, pairs: set<(char, char)>, words: seq<string>, positions: seq<nat>)
    requires AdjacentPairsIn(t, pairs)
    requires |positions| == |words|
    requires forall i :: 0 <= i < |words| ==>
      positions[i] + 1 < |words[i]| && (words[i][positions[i]], words[i][positions[i] + 1]) !in pairs
    ensures !MentionsAny(t, words)
  {
    forall i | 0 <= i < |words|
      ensures !Contains(t, words[i])
    {
      ForeignPairNotContained(t, words[i], positions[i], pairs);
    }
  }

  /** A text that contains p also mentions every list holding a word inside p. */
  lemma MentionThrough(t: string, p: string, q: string, words: seq<string>)
    requires q in words && Contains(p, q)
    ensures Contains(t, p) ==> MentionsAny(t, words)
  {
    if Contains(t, p) {
      ContainsTransitive(t, p, q);
    }
  }

  /** Four ratio keywords end in a word of an earlier list. */
  lemma ShadowedRatioWords()
    ensures Contains("debt to equity", "equity") && Contains("current ratio", "ratio")
    ensures Contains("quick ratio", "ratio") && Contains("interest coverage", "coverage")
  {
    assert "debt to equity" == "debt to " + "equity";
    ContainsSuffix("debt to ", "equity");
    assert "current ratio" == "current " + "ratio";
    ContainsSuffix("current ", "ratio");
    assert "quick ratio" == "quick " + "ratio";
    ContainsSuffix("quick ", "ratio");
    assert "interest coverage" == "interest " + "coverage";
    ContainsSuffix("interest ", "coverage");
  }

  /** Any metric that mentions "debt to equity" is classed as INR Crores: the monetary
      list, tried first, already matches its "equity". */
  lemma DebtToEquityIsInrCrores(metricName: string, statement: string)
    requires Contains(Lower(CleanMetricName(metricName)), "debt to equity")
    ensures InferUnit(metricName, statement) == "INR Crores"
  {
    ShadowedRatioWords();
    MentionThrough(Lower(CleanMetricName(metricName)), "debt to equity", "equity", MonetaryWords);
  }

  lemma RatioWordsBeyondShadow(t: string)
    requires UnitForText(t) == "Ratio"
    ensures Contains(t, "p/e") || Contains(t, "p/b") || Contains(t, "ev/ebitda")
  {
    ShadowedRatioWords();
    MentionThrough(t, "debt to equity", "equity", MonetaryWords);
    MentionThrough(t, "current ratio", "ratio", PercentageWords);
    MentionThrough(t, "quick ratio", "ratio", PercentageWords);
    MentionThrough(t, "interest coverage", "coverage", PercentageWords);
  }

  /** Four of the seven ratio keywords can never decide the unit, because an earlier list
      matches a word inside them: "Ratio" comes only from "p/e", "p/b" or "ev/ebitda". */
  lemma RatioOnlyFromValuationWords(metricName: string, statement: string)
    requires InferUnit(metricName, statement) == "Ratio"
    ensures var t := Lower(CleanMetricName(metricName));
      Contains(t, "p/e") || Contains(t, "p/b") || Contains(t, "ev/ebitda")
  {
    RatioWordsBeyondShadow(Lower(CleanMetricName(metricName)));
  }
}
