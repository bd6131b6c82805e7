/** Worked examples of the whitespace collapsing of clean_metric_name on sample metric
    names; they need only the string primitives. */
module WhitespaceExamples {
  import opened Text

  lemma NetSalesSingleSpaced()
    ensures SingleSpaced("Net Sales")
  {
  }

  lemma NetSalesCollapses()
    ensures CollapseWhitespace("Net Sales") == "Net Sales"
  {
    NetSalesSingleSpaced();
    CollapseSingleSpaced("Net Sales");
  }

  lemma EpsInRsSingleSpaced()
    ensures SingleSpaced("EPS in Rs")
  {
  }

  lemma EpsInRsCollapses()
    ensures CollapseWhitespace("EPS in Rs") == "EPS in Rs"
  {
    EpsInRsSingleSpaced();
    CollapseSingleSpaced("EPS in Rs");
  }

  lemma RoePercentSingleSpaced()
    ensures SingleSpaced("ROE %")
  {
  }

  lemma RoePercentCollapses()
    ensures CollapseWhitespace("ROE %") == "ROE %"
  {
    RoePercentSingleSpaced();
    CollapseSingleSpaced("ROE %");
  }

  lemma PriceToEarningsSingleSpaced()
    ensures SingleSpaced("P/E")
  {
  }

  lemma PriceToEarningsCollapses()
    ensures CollapseWhitespace("P/E") == "P/E"
  {
    PriceToEarningsSingleSpaced();
    CollapseSingleSpaced("P/E");
  }

  lemma WorkingCapitalDaysSingleSpaced()
    ensures SingleSpaced("Working Capital Days")
  {
  }

  lemma WorkingCapitalDaysCollapses()
    ensures CollapseWhitespace("Working Capital Days") == "Working Capital Days"
  {
    WorkingCapitalDaysSingleSpaced();
    CollapseSingleSpaced("Working Capital Days");
  }

  lemma PriceSingleSpaced()
    ensures SingleSpaced("Price")
  {
  }

  lemma PriceCollapses()
    ensures CollapseWhitespace("Price") == "Price"
  {
    PriceSingleSpaced();
    CollapseSingleSpaced("Price");
  }

  lemma UnknownMetricSingleSpaced()
    ensures SingleSpaced("Unknown Metric")
  {
  }

  lemma UnknownMetricCollapses()
    ensures CollapseWhitespace("Unknown Metric") == "Unknown Metric"
  {
    UnknownMetricSingleSpaced();
    CollapseSingleSpaced("Unknown Metric");
  }

  lemma DebtToEquitySingleSpaced()
    ensures SingleSpaced("Debt to Equity")
  {
  }

  lemma DebtToEquityCollapses()
    ensures CollapseWhitespace("Debt to Equity") == "Debt to Equity"
  {
    DebtToEquitySingleSpaced();
    CollapseSingleSpaced("Debt to Equity");
  }

  lemma MarkerAfterBlankCollapses()
    ensures CollapseWhitespace("Sales ") == "Sales "
  {
    assert "Sales " == "Sales" + " ";
    CollapseTrailingBlank("Sales");
  }
}

/** Worked examples of clean_metric_name and infer_unit on Screener.in metric names; each
    fact about a literal is proved in a lemma of its own. */
module UnitExamples {
  import opened Text
  import opened Cleaning
  import opened WhitespaceExamples

  lemma NetSalesIsClean()
    ensures CleanMetricName("Net Sales") == "Net Sales"
  {
    assert '+' !in "Net Sales" && '*' !in "Net Sales" && '#' !in "Net Sales";
    StripUntrimmable("Net Sales");
    NetSalesCollapses();
    CleanMetricNameFixesCleanText("Net Sales");
  }

  lemma NetSalesLowered()
    ensures Lower("Net Sales") == "net sales"
  {
  }

  /** The pairs of adjacent characters in "net sales". */
  const NetSalesPairs: set<(char, char)> := {(' ', 's'), ('a', 'l'), ('e', 's'), ('e', 't'), ('l', 'e'), ('n', 'e'), ('s', 'a'), ('t', ' ')}

  lemma NetSalesPairsCover()
    ensures AdjacentPairsIn("net sales", NetSalesPairs)
  {
  }

  lemma NetSalesMentionsMonetaryWords()
    ensures MentionsAny("net sales", MonetaryWords)
  {
    assert "net sales" == "net " + "sales";
    ContainsSuffix("net ", "sales");
    assert "sales" in MonetaryWords;
  }

  /** "Net Sales" is classed as "INR Crores". */
  lemma InferUnitNetSales()
    ensures InferUnit("Net Sales", "Profit & Loss") == "INR Crores"
  {
    NetSalesIsClean();
    NetSalesLowered();
    NetSalesMentionsMonetaryWords();
  }

  lemma EpsInRsIsClean()
    ensures CleanMetricName("EPS in Rs") == "EPS in Rs"
  {
    assert '+' !in "EPS in Rs" && '*' !in "EPS in Rs" && '#' !in "EPS in Rs";
    StripUntrimmable("EPS in Rs");
    EpsInRsCollapses();
    CleanMetricNameFixesCleanText("EPS in Rs");
  }

  lemma EpsInRsLowered()
    ensures Lower("EPS in Rs") == "eps in rs"
  {
  }

  /** The pairs of adjacent characters in "eps in rs". */
  const EpsInRsPairs: set<(char, char)> := {(' ', 'i'), (' ', 'r'), ('e', 'p'), ('i', 'n'), ('n', ' '), ('p', 's'), ('r', 's'), ('s', ' ')}

  lemma EpsInRsPairsCover()
    ensures AdjacentPairsIn("eps in rs", EpsInRsPairs)
  {
  }

  lemma EpsInRsNotMonetaryWords()
    ensures !MentionsAny("eps in rs", MonetaryWords)
  {
    EpsInRsPairsCover();
    NoneMentioned("eps in rs", EpsInRsPairs, MonetaryWords, [0, 0, 0, 1, 0, 0, 0, 0, 0, 0, 1, 0, 0, 0, 0, 0, 0]);
  }

  lemma EpsInRsMentionsPerShareWords()
    ensures MentionsAny("eps in rs", PerShareWords)
  {
    assert StartsWith("eps in rs", "eps");
    assert "eps" in PerShareWords;
  }

  /** "EPS in Rs" is classed as "INR". */
  lemma InferUnitEpsInRs()
    ensures InferUnit("EPS in Rs", "Profit & Loss") == "INR"
  {
    EpsInRsIsClean();
    EpsInRsLowered();
    EpsInRsNotMonetaryWords();
    EpsInRsMentionsPerShareWords();
  }

  lemma RoePercentIsClean()
    ensures CleanMetricName("ROE %") == "ROE %"
  {
    assert '+' !in "ROE %" && '*' !in "ROE %" && '#' !in "ROE %";
    StripUntrimmable("ROE %");
    RoePercentCollapses();
    CleanMetricNameFixesCleanText("ROE %");
  }

  lemma RoePercentLowered()
    ensures Lower("ROE %") == "roe %"
  {
  }

  /** The pairs of adjacent characters in "roe %". */
  const RoePercentPairs: set<(char, char)> := {(' ', '%'), ('e', ' '), ('o', 'e'), ('r', 'o')}

  lemma RoePercentPairsCover()
    ensures AdjacentPairsIn("roe %", RoePercentPairs)
  {
  }

  lemma RoePercentNotMonetaryWords()
    ensures !MentionsAny("roe %", MonetaryWords)
  {
    RoePercentPairsCover();
    NoneMentioned("roe %", RoePercentPairs, MonetaryWords, [0, 0, 0, 0, 0, 0, 0, 0, 0, 0, 0, 0, 0, 0, 0, 0, 0]);
  }

  lemma RoePercentNotPerShareWords()
    ensures !MentionsAny("roe %", PerShareWords)
  {
    RoePercentPairsCover();
    NoneMentioned("roe %", RoePercentPairs, PerShareWords, [0, 0, 0, 0]);
  }

  lemma RoePercentMentionsPercentageWords()
    ensures MentionsAny("roe %", PercentageWords)
  {
    assert StartsWith("roe %", "roe");
    assert "roe" in PercentageWords;
  }

  /** "ROE %" is classed as "Percentage". */
  lemma InferUnitRoePercent()
    ensures InferUnit("ROE %", "Profit & Loss") == "Percentage"
  {
    RoePercentIsClean();
    RoePercentLowered();
    RoePercentNotMonetaryWords();
    RoePercentNotPerShareWords();
    RoePercentMentionsPercentageWords();
  }

  lemma PriceToEarningsIsClean()
    ensures CleanMetricName("P/E") == "P/E"
  {
    assert '+' !in "P/E" && '*' !in "P/E" && '#' !in "P/E";
    StripUntrimmable("P/E");
    PriceToEarningsCollapses();
    CleanMetricNameFixesCleanText("P/E");
  }

  lemma PriceToEarningsLowered()
    ensures Lower("P/E") == "p/e"
  {
  }

  /** The pairs of adjacent characters in "p/e". */
  const PriceToEarningsPairs: set<(char, char)> := {('/', 'e'), ('p', '/')}

  lemma PriceToEarningsPairsCover()
    ensures AdjacentPairsIn("p/e", PriceToEarningsPairs)
  {
  }

  lemma PriceToEarningsNotMonetaryWords()
    ensures !MentionsAny("p/e", MonetaryWords)
  {
    PriceToEarningsPairsCover();
    NoneMentioned("p/e", PriceToEarningsPairs, MonetaryWords, [0, 0, 0, 0, 0, 0, 0, 0, 0, 0, 0, 0, 0, 0, 0, 0, 0]);
  }

  lemma PriceToEarningsNotPerShareWords()
    ensures !MentionsAny("p/e", PerShareWords)
  {
    PriceToEarningsPairsCover();
    NoneMentioned("p/e", PriceToEarningsPairs, PerShareWords, [0, 0, 0, 0]);
  }

  lemma PriceToEarningsNotPercentageWords()
    ensures !MentionsAny("p/e", PercentageWords)
  {
    PriceToEarningsPairsCover();
    NoneMentioned("p/e", PriceToEarningsPairs, PercentageWords, [0, 0, 0, 0, 0, 0, 0, 0, 0, 0, 0]);
  }

  lemma PriceToEarningsMentionsRatioWords()
    ensures MentionsAny("p/e", RatioWords)
  {
    assert StartsWith("p/e", "p/e");
    assert "p/e" in RatioWords;
  }

  /** "P/E" is classed as "Ratio". */
  lemma InferUnitPriceToEarnings()
    ensures InferUnit("P/E", "Profit & Loss") == "Ratio"
  {
    PriceToEarningsIsClean();
    PriceToEarningsLowered();
    PriceToEarningsNotMonetaryWords();
    PriceToEarningsNotPerShareWords();
    PriceToEarningsNotPercentageWords();
    PriceToEarningsMentionsRatioWords();
  }

  lemma WorkingCapitalDaysIsClean()
    ensures CleanMetricName("Working Capital Days") == "Working Capital Days"
  {
    assert '+' !in "Working Capital Days" && '*' !in "Working Capital Days" && '#' !in "Working Capital Days";
    StripUntrimmable("Working Capital Days");
    WorkingCapitalDaysCollapses();
    CleanMetricNameFixesCleanText("Working Capital Days");
  }

  lemma WorkingCapitalDaysLowered()
    ensures Lower("Working Capital Days") == "working capital days"
  {
  }

  /** The pairs of adjacent characters in "working capital days". */
  const WorkingCapitalDaysPairs: set<(char, char)> := {(' ', 'c'), (' ', 'd'), ('a', 'l'), ('a', 'p'), ('a', 'y'), ('c', 'a'), ('d', 'a'), ('g', ' '), ('i', 'n'), ('i', 't'), ('k', 'i'), ('l', ' '), ('n', 'g'), ('o', 'r'), ('p', 'i'), ('r', 'k'), ('t', 'a'), ('w', 'o'), ('y', 's')}

  lemma WorkingCapitalDaysPairsCover()
    ensures AdjacentPairsIn("working capital days", WorkingCapitalDaysPairs)
  {
  }

  lemma WorkingCapitalDaysNotMonetaryWords()
    ensures !MentionsAny("working capital days", MonetaryWords)
  {
    WorkingCapitalDaysPairsCover();
    NoneMentioned("working capital days", WorkingCapitalDaysPairs, MonetaryWords, [0, 0, 0, 1, 0, 0, 0, 0, 1, 0, 1, 0, 0, 0, 0, 0, 0]);
  }

  lemma WorkingCapitalDaysNotPerShareWords()
    ensures !MentionsAny("working capital days", PerShareWords)
  {
    WorkingCapitalDaysPairsCover();
    NoneMentioned("working capital days", WorkingCapitalDaysPairs, PerShareWords, [0, 0, 0, 0]);
  }

  lemma WorkingCapitalDaysNotPercentageWords()
    ensures !MentionsAny("working capital days", PercentageWords)
  {
    WorkingCapitalDaysPairsCover();
    NoneMentioned("working capital days", WorkingCapitalDaysPairs, PercentageWords, [0, 0, 0, 0, 0, 0, 0, 0, 0, 1, 0]);
  }

  lemma WorkingCapitalDaysNotRatioWords()
    ensures !MentionsAny("working capital days", RatioWords)
  {
    WorkingCapitalDaysPairsCover();
    NoneMentioned("working capital days", WorkingCapitalDaysPairs, RatioWords, [0, 0, 0, 0, 0, 0, 1]);
  }

  lemma WorkingCapitalDaysMentionsDurationWords()
    ensures MentionsAny("working capital days", DurationWords)
  {
    assert "working capital days" == "working capital " + "days";
    ContainsSuffix("working capital ", "days");
    assert "days" in DurationWords;
  }

  /** "Working Capital Days" is classed as "Days". */
  lemma InferUnitWorkingCapitalDays()
    ensures InferUnit("Working Capital Days", "Profit & Loss") == "Days"
  {
    WorkingCapitalDaysIsClean();
    WorkingCapitalDaysLowered();
    WorkingCapitalDaysNotMonetaryWords();
    WorkingCapitalDaysNotPerShareWords();
    WorkingCapitalDaysNotPercentageWords();
    WorkingCapitalDaysNotRatioWords();
    WorkingCapitalDaysMentionsDurationWords();
  }

  lemma PriceIsClean()
    ensures CleanMetricName("Price") == "Price"
  {
    assert '+' !in "Price" && '*' !in "Price" && '#' !in "Price";
    StripUntrimmable("Price");
    PriceCollapses();
    CleanMetricNameFixesCleanText("Price");
  }

  lemma PriceLowered()
    ensures Lower("Price") == "price"
  {
  }

  /** The pairs of adjacent characters in "price". */
  const PricePairs: set<(char, char)> := {('c', 'e'), ('i', 'c'), ('p', 'r'), ('r', 'i')}

  lemma PricePairsCover()
    ensures AdjacentPairsIn("price", PricePairs)
  {
  }

  lemma PriceNotMonetaryWords()
    ensures !MentionsAny("price", MonetaryWords)
  {
    PricePairsCover();
    NoneMentioned("price", PricePairs, MonetaryWords, [0, 0, 1, 0, 0, 0, 0, 0, 0, 0, 0, 0, 0, 0, 0, 0, 0]);
  }

  lemma PriceNotPerShareWords()
    ensures !MentionsAny("price", PerShareWords)
  {
    PricePairsCover();
    NoneMentioned("price", PricePairs, PerShareWords, [0, 0, 0, 0]);
  }

  lemma PriceNotPercentageWords()
    ensures !MentionsAny("price", PercentageWords)
  {
    PricePairsCover();
    NoneMentioned("price", PricePairs, PercentageWords, [0, 0, 0, 0, 0, 0, 0, 0, 0, 0, 0]);
  }

  lemma PriceNotRatioWords()
    ensures !MentionsAny("price", RatioWords)
  {
    PricePairsCover();
    NoneMentioned("price", PricePairs, RatioWords, [0, 0, 0, 0, 0, 0, 0]);
  }

  lemma PriceNotDurationWords()
    ensures !MentionsAny("price", DurationWords)
  {
    PricePairsCover();
    NoneMentioned("price", PricePairs, DurationWords, [0, 0, 0, 0, 0, 0]);
  }

  lemma PriceMentionsPriceWords()
    ensures MentionsAny("price", PriceWords)
  {
    assert StartsWith("price", "price");
    assert "price" in PriceWords;
  }

  /** "Price" is classed as "INR". */
  lemma InferUnitPrice()
    ensures InferUnit("Price", "Profit & Loss") == "INR"
  {
    PriceIsClean();
    PriceLowered();
    PriceNotMonetaryWords();
    PriceNotPerShareWords();
    PriceNotPercentageWords();
    PriceNotRatioWords();
    PriceNotDurationWords();
    PriceMentionsPriceWords();
  }

  lemma UnknownMetricIsClean()
    ensures CleanMetricName("Unknown Metric") == "Unknown Metric"
  {
    assert '+' !in "Unknown Metric" && '*' !in "Unknown Metric" && '#' !in "Unknown Metric";
    StripUntrimmable("Unknown Metric");
    UnknownMetricCollapses();
    CleanMetricNameFixesCleanText("Unknown Metric");
  }

  lemma UnknownMetricLowered()
    ensures Lower("Unknown Metric") == "unknown metric"
  {
  }

  /** The pairs of adjacent characters in "unknown metric". */
  const UnknownMetricPairs: set<(char, char)> := {(' ', 'm'), ('e', 't'), ('i', 'c'), ('k', 'n'), ('m', 'e'), ('n', ' '), ('n', 'k'), ('n', 'o'), ('o', 'w'), ('r', 'i'), ('t', 'r'), ('u', 'n'), ('w', 'n')}

  lemma UnknownMetricPairsCover()
    ensures AdjacentPairsIn("unknown metric", UnknownMetricPairs)
  {
  }

  lemma UnknownMetricNotMonetaryWords()
    ensures !MentionsAny("unknown metric", MonetaryWords)
  {
    UnknownMetricPairsCover();
    NoneMentioned("unknown metric", UnknownMetricPairs, MonetaryWords, [0, 0, 0, 0, 0, 0, 0, 0, 0, 0, 0, 0, 0, 0, 0, 0, 0]);
  }

  lemma UnknownMetricNotPerShareWords()
    ensures !MentionsAny("unknown metric", PerShareWords)
  {
    UnknownMetricPairsCover();
    NoneMentioned("unknown metric", UnknownMetricPairs, PerShareWords, [0, 0, 0, 0]);
  }

  lemma UnknownMetricNotPercentageWords()
    ensures !MentionsAny("unknown metric", PercentageWords)
  {
    UnknownMetricPairsCover();
    NoneMentioned("unknown metric", UnknownMetricPairs, PercentageWords, [0, 0, 0, 0, 0, 0, 0, 0, 0, 0, 0]);
  }

  lemma UnknownMetricNotRatioWords()
    ensures !MentionsAny("unknown metric", RatioWords)
  {
    UnknownMetricPairsCover();
    NoneMentioned("unknown metric", UnknownMetricPairs, RatioWords, [0, 0, 0, 0, 0, 0, 0]);
  }

  lemma UnknownMetricNotDurationWords()
    ensures !MentionsAny("unknown metric", DurationWords)
  {
    UnknownMetricPairsCover();
    NoneMentioned("unknown metric", UnknownMetricPairs, DurationWords, [0, 0, 0, 0, 0, 0]);
  }

  lemma UnknownMetricNotPriceWords()
    ensures !MentionsAny("unknown metric", PriceWords)
  {
    UnknownMetricPairsCover();
    NoneMentioned("unknown metric", UnknownMetricPairs, PriceWords, [0, 0]);
  }

  /** "Unknown Metric" is classed as "Number". */
  lemma InferUnitUnknownMetric()
    ensures InferUnit("Unknown Metric", "Profit & Loss") == "Number"
  {
    UnknownMetricIsClean();
    UnknownMetricLowered();
    UnknownMetricNotMonetaryWords();
    UnknownMetricNotPerShareWords();
    UnknownMetricNotPercentageWords();
    UnknownMetricNotRatioWords();
    UnknownMetricNotDurationWords();
    UnknownMetricNotPriceWords();
  }

  lemma DebtToEquityIsClean()
    ensures CleanMetricName("Debt to Equity") == "Debt to Equity"
  {
    assert '+' !in "Debt to Equity" && '*' !in "Debt to Equity" && '#' !in "Debt to Equity";
    StripUntrimmable("Debt to Equity");
    DebtToEquityCollapses();
    CleanMetricNameFixesCleanText("Debt to Equity");
  }

  lemma DebtToEquityLowered()
    ensures Lower("Debt to Equity") == "debt to equity"
  {
  }

  /** The pairs of adjacent characters in "debt to equity". */
  const DebtToEquityPairs: set<(char, char)> := {(' ', 'e'), (' ', 't'), ('b', 't'), ('d', 'e'), ('e', 'b'), ('e', 'q'), ('i', 't'), ('o', ' '), ('q', 'u'), ('t', ' '), ('t', 'o'), ('t', 'y'), ('u', 'i')}

  lemma DebtToEquityPairsCover()
    ensures AdjacentPairsIn("debt to equity", DebtToEquityPairs)
  {
  }

  lemma DebtToEquityMentionsMonetaryWords()
    ensures MentionsAny("debt to equity", MonetaryWords)
  {
    assert "debt to equity" == "debt to " + "equity";
    ContainsSuffix("debt to ", "equity");
    assert "equity" in MonetaryWords;
  }

  /** "Debt to Equity" is classed as "INR Crores", not "Ratio": "equity" is a monetary keyword,
      and the monetary list is consulted before the ratio list. */
  lemma InferUnitDebtToEquity()
    ensures InferUnit("Debt to Equity", "Profit & Loss") == "INR Crores"
  {
    DebtToEquityIsClean();
    DebtToEquityLowered();
    DebtToEquityMentionsMonetaryWords();
  }

  lemma MarkerAfterBlankStrip()
    ensures Strip("Sales +") == "Sales +"
  {
    StripUntrimmable("Sales +");
  }

  lemma MarkerAfterBlankRemoved()
    ensures RemoveAll("Sales +", "+") == "Sales "
  {
    assert "Sales +" == "Sales " + "+";
    RemoveAllCharAppend("Sales ", "+", "+");
    RemoveAllAbsent("Sales ", "+");
    assert RemoveAll("+", "+") == "";
  }

  lemma MarkerAfterBlankOthersAbsent()
    ensures RemoveAll("Sales ", "*") == "Sales " && RemoveAll("Sales ", "#") == "Sales "
  {
    RemoveAllAbsent("Sales ", "*");
    RemoveAllAbsent("Sales ", "#");
  }

  /** Deleting the "+" expander marker leaves the blank before it in place: the
      cleaned name of "Sales +" still ends in a blank. */
  lemma CleanMetricNameKeepsBlankBeforeMarker()
    ensures CleanMetricName("Sales +") == "Sales "
  {
    MarkerAfterBlankStrip();
    MarkerAfterBlankRemoved();
    MarkerAfterBlankOthersAbsent();
    MarkerAfterBlankCollapses();
  }
}
