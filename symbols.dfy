/** Resolution of a company name or keyword to its NSE ticker (powerbi.py): a fixed table
    of common names, then the Yahoo Finance search, then the Screener.in search, then each
    word of the name on its own, and finally a ticker made up from the name's letters. */
module SymbolResolver {
  import opened Wrappers
  import opened Sequences
  import opened Text

  /** generate_symbol_fallback: the ASCII letters of the name, upper-cased, at most seven
      of them. The result is empty when the name has no letters. */
  function GenerateSymbolFallback(name: string): (r: string)
    ensures |r| <= 7
    ensures |r| == 7 || |r| == |Filter(name, IsLetter)|
    ensures |r| <= |Filter(name, IsLetter)|
    ensures forall i :: 0 <= i < |r| ==> r[i] == UpperChar(Filter(name, IsLetter)[i])
    ensures forall i :: 0 <= i < |r| ==> IsUpperLetter(r[i])
  {
    var letters := Upper(Filter(name, IsLetter));
    if |letters| <= 7 then letters else letters[..7]
  }

  /** The fallback is empty exactly when the name holds no letter at all. */
  lemma FallbackEmptyIffNoLetters(name: string)
    ensures GenerateSymbolFallback(name) == [] <==> forall i :: 0 <= i < |name| ==> !IsLetter(name[i])
  {
    FilterEmpty(name, IsLetter);
  }

  /** Otherwise the fallback starts with the first letter of the name, upper-cased. */
  lemma FallbackStartsWithFirstLetter(name: string, k: nat)
    requires k < |name| && IsLetter(name[k])
    requires forall j :: 0 <= j < k ==> !IsLetter(name[j])
    ensures GenerateSymbolFallback(name) != []
    ensures GenerateSymbolFallback(name)[0] == UpperChar(name[k])
  {
    assert name == name[..k] + ([name[k]] + name[k + 1..]);
    FilterAppend(name[..k], [name[k]] + name[k + 1..], IsLetter);
    FilterEmpty(name[..k], IsLetter);
    FilterCons(name[k], name[k + 1..], IsLetter);
  }

  /** A made-up ticker is its own fallback: it is already upper-case letters only and no
      longer than seven. */
  lemma FallbackIdempotent(name: string)
    ensures GenerateSymbolFallback(GenerateSymbolFallback(name)) == GenerateSymbolFallback(name)
  {
    var r := GenerateSymbolFallback(name);
    FilterKeepsAll(r, IsLetter);
    forall i | 0 <= i < |r| ensures Upper(r)[i] == r[i] {
      assert IsUpperLetter(r[i]);
    }
  }

  /** The lower-cased names that resolve without any search. */
  const CommonPatterns: map<string, string> := map[
    "ambuja" := "AMBUJACEM",
    "tcs" := "TCS",
    "tata consultancy services" := "TCS",
    "infosys" := "INFY",
    "reliance" := "RELIANCE",
    "hdfc bank" := "HDFCBANK",
    "icici bank" := "ICICIBANK",
    "wipro" := "WIPRO",
    "hcl tech" := "HCLTECH",
    "tech mahindra" := "TECHM",
    "axis bank" := "AXISBANK",
    "kotak bank" := "KOTAKBANK"]

  /** Neither the names nor the tickers of the table are empty. */
  lemma CommonPatternsNonEmpty()
    ensures "" !in CommonPatterns
    ensures forall k :: k in CommonPatterns ==> CommonPatterns[k] != ""
  {
  }

  /** One entry of the Yahoo search response's "quotes" list; a field the entry lacks
      reads as "". */
  datatype Quote = Quote(symbol: string, exchange: string)

  /** The Yahoo rule for an NSE listing: a ".NS" suffix or the exchange code "NSI". */
  predicate IsNseQuote(q: Quote) {
    EndsWith(q.symbol, ".NS") || q.exchange == "NSI"
  }

  /** The position of the first NSE quote, if any. */
  function FirstNseQuote(quotes: seq<Quote>): (i: Option<nat>)
    ensures i.Some? ==> i.value < |quotes| && IsNseQuote(quotes[i.value])
    ensures i.Some? ==> forall j :: 0 <= j < i.value ==> !IsNseQuote(quotes[j])
    ensures i.None? ==> forall j :: 0 <= j < |quotes| ==> !IsNseQuote(quotes[j])
  {
    if quotes == [] then None
    else if IsNseQuote(quotes[0]) then Some(0)
    else match FirstNseQuote(quotes[1..])
      case None => None
      case Some(k) => Some(k + 1)
  }

  /** The selection loop of search_yahoo_symbol: the first NSE quote decides, with every
      ".NS" deleted from its symbol (so an NSE quote with an empty symbol gives "" and
      ends the search); no NSE quote gives "". */
  function SelectYahoo(quotes: seq<Quote>): (r: string)
    ensures r != "" ==> exists i :: 0 <= i < |quotes| && IsNseQuote(quotes[i])
  {
    if quotes == [] then ""
    else if IsNseQuote(quotes[0]) then RemoveAll(quotes[0].symbol, ".NS")
    else SelectYahoo(quotes[1..])
  }

  /** The selection loop returns the cleaned symbol of the first NSE quote. */
  lemma {:induction false} SelectYahooTakesFirstNseQuote(quotes: seq<Quote>)
    ensures SelectYahoo(quotes) ==
      match FirstNseQuote(quotes)
      case None => ""
      case Some(i) => RemoveAll(quotes[i].symbol, ".NS")
  {
    if quotes != [] && !IsNseQuote(quotes[0]) {
      SelectYahooTakesFirstNseQuote(quotes[1..]);
    }
  }

  /** search_yahoo_symbol: a failed request or an undecodable answer gives "". */
  function SearchYahoo(fetch: string -> Option<seq<Quote>>, query: string): (r: string)
    ensures fetch(query).None? ==> r == ""
  {
    match fetch(query)
    case None => ""
    case Some(quotes) => SelectYahoo(quotes)
  }

  /** The selection rule of search_screener_symbol over the symbols of the returned
      list: only the first entry is consulted, and it is upper-cased when non-empty. */
  function SelectScreener(symbols: seq<string>): (r: string)
    ensures r == "" <==> symbols == [] || symbols[0] == ""
    ensures r != "" ==> |r| == |symbols[0]|
    ensures r != "" ==> forall i :: 0 <= i < |r| ==> r[i] == UpperChar(symbols[0][i])
    ensures forall i :: 0 <= i < |r| ==> !IsLowerLetter(r[i])
  {
    if symbols != [] && symbols[0] != "" then Upper(symbols[0]) else ""
  }

  /** search_screener_symbol: a failed request or an answer that is not a list gives "". */
  function SearchScreener(fetch: string -> Option<seq<string>>, query: string): (r: string)
    ensures fetch(query).None? ==> r == ""
  {
    match fetch(query)
    case None => ""
    case Some(symbols) => SelectScreener(symbols)
  }

  /** One query through both searches: Yahoo first, then Screener when Yahoo gives "". */
  function Lookup(query: string, yahoo: string -> Option<seq<Quote>>,
                  screener: string -> Option<seq<string>>): string
  {
    if SearchYahoo(yahoo, query) != "" then SearchYahoo(yahoo, query) else SearchScreener(screener, query)
  }

  /** Step 3 of the chain: each word in turn goes through both searches, the first
      non-empty answer wins; "" when every lookup comes back empty. */
  function SearchTokens(tokens: seq<string>, yahoo: string -> Option<seq<Quote>>,
                        screener: string -> Option<seq<string>>): string
  {
    if tokens == [] then ""
    else if Lookup(tokens[0], yahoo, screener) != "" then Lookup(tokens[0], yahoo, screener)
    else SearchTokens(tokens[1..], yahoo, screener)
  }

  /** The word search answers exactly when one of its lookups does. */
  lemma {:induction false} SearchTokensEmpty(tokens: seq<string>, yahoo: string -> Option<seq<Quote>>,
                                             screener: string -> Option<seq<string>>)
    ensures SearchTokens(tokens, yahoo, screener) == "" <==>
      forall i :: 0 <= i < |tokens| ==> Lookup(tokens[i], yahoo, screener) == ""
  {
    if tokens != [] {
      SearchTokensEmpty(tokens[1..], yahoo, screener);
      assert forall i :: 1 <= i < |tokens| ==> tokens[i] == tokens[1..][i - 1];
    }
  }

  /** The answer of the word search is that of the first word, in order, for which one
      of the searches answers. */
  lemma {:induction false} SearchTokensFirstAnswer(tokens: seq<string>, yahoo: string -> Option<seq<Quote>>,
                                                   screener: string -> Option<seq<string>>, i: nat)
    requires i < |tokens| && Lookup(tokens[i], yahoo, screener) != ""
    requires forall j :: 0 <= j < i ==> Lookup(tokens[j], yahoo, screener) == ""
    ensures SearchTokens(tokens, yahoo, screener) == Lookup(tokens[i], yahoo, screener)
  {
    if i > 0 {
      var rest := tokens[1..];
      assert Lookup(tokens[0], yahoo, screener) == "";
      assert SearchTokens(tokens, yahoo, screener) == SearchTokens(rest, yahoo, screener);
      forall j | 0 <= j < i - 1 ensures Lookup(rest[j], yahoo, screener) == "" {
        assert rest[j] == tokens[j + 1];
      }
      assert rest[i - 1] == tokens[i];
      SearchTokensFirstAnswer(rest, yahoo, screener, i - 1);
    }
  }

  const EmptyNameError := "Company name cannot be empty"

  /** The chain for a trimmed, lower-cased name: the table, the searches on the whole
      name, the word search and the fallback; the first non-empty answer is the ticker. */
  function ResolveName(name: string, yahoo: string -> Option<seq<Quote>>,
                       screener: string -> Option<seq<string>>): string
  {
    if name in CommonPatterns then CommonPatterns[name]
    else if Lookup(name, yahoo, screener) != "" then Lookup(name, yahoo, screener)
    else if SearchTokens(Split(name), yahoo, screener) != "" then SearchTokens(Split(name), yahoo, screener)
    else GenerateSymbolFallback(name)
  }

  /** resolve_nse_symbol as a whole: blank input is an error; otherwise the trimmed,
      lower-cased name goes through the chain. */
  function Resolve(companyName: string, yahoo: string -> Option<seq<Quote>>,
                   screener: string -> Option<seq<string>>): Result<string, string>
  {
    if Strip(companyName) == "" then Failure(EmptyNameError)
    else Success(ResolveName(Lower(Strip(companyName)), yahoo, screener))
  }

  /** The resolver itself, performing the lookups one after another and returning as
      soon as one answers. */
  method ResolveNseSymbol(companyName: string, yahoo: string -> Option<seq<Quote>>,
                          screener: string -> Option<seq<string>>) returns (r: Result<string, string>)
    ensures r == Resolve(companyName, yahoo, screener)
  {
    if companyName == "" || Strip(companyName) == "" {
      return Failure(EmptyNameError);
    }
    var name := Lower(Strip(companyName));
    var symbol := ResolveNameSteps(name, yahoo, screener);
    r := Success(symbol);
  }

  /** The lookups of the resolver for a non-blank name. */
  method ResolveNameSteps(name: string, yahoo: string -> Option<seq<Quote>>,
                          screener: string -> Option<seq<string>>) returns (symbol: string)
    ensures symbol == ResolveName(name, yahoo, screener)
  {
    if name in CommonPatterns {
      return CommonPatterns[name];
    }
    symbol := SearchYahoo(yahoo, name);
    if symbol != "" {
      return;
    }
    symbol := SearchScreener(screener, name);
    if symbol != "" {
      return;
    }
    var tokens := Split(name);
    var i := 0;
    while i < |tokens|
      invariant 0 <= i <= |tokens|
      invariant SearchTokens(tokens, yahoo, screener) == SearchTokens(tokens[i..], yahoo, screener)
    {
      symbol := SearchYahoo(yahoo, tokens[i]);
      if symbol != "" {
        return;
      }
      symbol := SearchScreener(screener, tokens[i]);
      if symbol != "" {
        return;
      }
      SuffixStep(tokens, i);
      i := i + 1;
    }
    symbol := GenerateSymbolFallback(name);
  }

  /** Only a blank name is rejected. */
  lemma ResolveRejectsOnlyBlank(companyName: string, yahoo: string -> Option<seq<Quote>>,
                                screener: string -> Option<seq<string>>)
    ensures Resolve(companyName, yahoo, screener).Failure? <==> Strip(companyName) == ""
  {
  }

  /** A name of the fixed table resolves the same whatever the searches would answer. */
  lemma ResolveTableNeedsNoSearch(companyName: string,
                                  yahoo1: string -> Option<seq<Quote>>, screener1: string -> Option<seq<string>>,
                                  yahoo2: string -> Option<seq<Quote>>, screener2: string -> Option<seq<string>>)
    requires Lower(Strip(companyName)) in CommonPatterns
    ensures Resolve(companyName, yahoo1, screener1) == Resolve(companyName, yahoo2, screener2)
    ensures Resolve(companyName, yahoo1, screener1).Success?
  {
    CommonPatternsNonEmpty();
  }

  /** When every search comes back empty, the made-up ticker is the answer. */
  lemma ResolveFallsBackWhenSearchesFail(companyName: string, yahoo: string -> Option<seq<Quote>>,
                                         screener: string -> Option<seq<string>>)
    requires Strip(companyName) != "" && Lower(Strip(companyName)) !in CommonPatterns
    requires forall q :: yahoo(q).None? && screener(q).None?
    ensures Resolve(companyName, yahoo, screener) == Success(GenerateSymbolFallback(Lower(Strip(companyName))))
  {
    var tokens := Split(Lower(Strip(companyName)));
    forall i | 0 <= i < |tokens| ensures Lookup(tokens[i], yahoo, screener) == "" {
      assert yahoo(tokens[i]).None? && screener(tokens[i]).None?;
    }
    SearchTokensEmpty(tokens, yahoo, screener);
  }

  /** A letter of the input survives trimming and lower-casing as a letter. */
  lemma NormalizedNameKeepsLetters(companyName: string)
    ensures (exists i :: 0 <= i < |companyName| && IsLetter(companyName[i])) ==>
      exists k :: 0 <= k < |Lower(Strip(companyName))| && IsLetter(Lower(Strip(companyName))[k])
  {
    var stripped := Strip(companyName);
    StripKeepsNonSpace(companyName);
    if i :| 0 <= i < |companyName| && IsLetter(companyName[i]) {
      var k :| 0 <= k < |stripped| && stripped[k] == companyName[i];
      assert IsLetter(Lower(stripped)[k]);
    }
  }

  /** An empty ticker comes only from the fallback, for a name without letters. */
  lemma ResolveEmptyOnlyWithoutLetters(companyName: string, yahoo: string -> Option<seq<Quote>>,
                                       screener: string -> Option<seq<string>>)
    requires Resolve(companyName, yahoo, screener) == Success("")
    ensures forall i :: 0 <= i < |companyName| ==> !IsLetter(companyName[i])
  {
    var name := Lower(Strip(companyName));
    CommonPatternsNonEmpty();
    assert GenerateSymbolFallback(name) == "";
    FallbackEmptyIffNoLetters(name);
    NormalizedNameKeepsLetters(companyName);
  }

  lemma AmbujaNormalized()
    ensures Lower(Strip("Ambuja")) == "ambuja"
  {
    StripUntrimmable("Ambuja");
  }

  lemma TcsNormalized()
    ensures Lower(Strip(" TCS ")) == "tcs"
  {
    StripPaddedTcs();
    LowerTcs();
  }

  lemma LowerTcs()
    ensures Lower("TCS") == "tcs"
  {
    assert LowerChar('T') == 't' && LowerChar('C') == 'c' && LowerChar('S') == 's';
  }

  /** A name of the table resolves to the table's ticker. */
  lemma ResolveTableName(companyName: string, yahoo: string -> Option<seq<Quote>>,
                         screener: string -> Option<seq<string>>)
    requires Lower(Strip(companyName)) in CommonPatterns
    ensures Resolve(companyName, yahoo, screener) == Success(CommonPatterns[Lower(Strip(companyName))])
  {
    CommonPatternsNonEmpty();
    assert Strip(companyName) != "";
  }

  /** "Ambuja" and " TCS " are table names, whatever the searches answer. */
  lemma ResolveTableExamples(yahoo: string -> Option<seq<Quote>>, screener: string -> Option<seq<string>>)
    ensures Resolve("Ambuja", yahoo, screener) == Success("AMBUJACEM")
    ensures Resolve(" TCS ", yahoo, screener) == Success("TCS")
  {
    AmbujaNormalized();
    assert CommonPatterns["ambuja"] == "AMBUJACEM";
    ResolveTableName("Ambuja", yahoo, screener);
    TcsNormalized();
    assert CommonPatterns["tcs"] == "TCS";
    ResolveTableName(" TCS ", yahoo, screener);
  }

  lemma DigitsNormalized()
    ensures Lower(Strip("123")) == "123"
    ensures "123" !in CommonPatterns
  {
    StripUntrimmable("123");
    assert Lower("123") == "123";
  }

  lemma DigitsFallbackEmpty()
    ensures GenerateSymbolFallback("123") == ""
  {
    FallbackEmptyIffNoLetters("123");
  }

  /** With both searches failing, a name without letters resolves to the empty ticker. */
  lemma ResolveDigitsToEmpty(yahoo: string -> Option<seq<Quote>>, screener: string -> Option<seq<string>>)
    requires forall q :: yahoo(q).None? && screener(q).None?
    ensures Resolve("123", yahoo, screener) == Success("")
  {
    DigitsNormalized();
    DigitsFallbackEmpty();
    ResolveFallsBackWhenSearchesFail("123", yahoo, screener);
  }
}
