/** The company-news collector of modules/senti_analysyahoofinanc.py: the company table
    with its fallback, the relevance filter, and the two headline loops that keep at
    most a fixed number of relevant items. Feeds and pages arrive as decoded entries. */
module CompanyNews {
  import opened Wrappers
  import opened Sequences
  import opened Text

  /** A resolved company: display name, Yahoo ticker and the aliases news may use. */
  datatype Company = Company(name: string, ticker: string, aliases: seq<string>)

  /** company_map, keyed by the upper-cased, trimmed input. */
  const CompanyMap: map<string, Company> := map[
    "TCS" := Company("Tata Consultancy Services", "TCS.NS", ["tcs", "tata consultancy"]),
    "INFOSYS" := Company("Infosys", "INFY.NS", ["infosys"]),
    "RELIANCE" := Company("Reliance Industries", "RELIANCE.NS", ["reliance"]),
    "HDFC BANK" := Company("HDFC Bank", "HDFCBANK.NS", ["hdfc"]),
    "APPLE" := Company("Apple Inc", "AAPL", ["apple"]),
    "MICROSOFT" := Company("Microsoft", "MSFT", ["microsoft"]),
    "GOOGLE" := Company("Alphabet", "GOOGL", ["google", "alphabet"]),
    "AMAZON" := Company("Amazon", "AMZN", ["amazon"]),
    "TESLA" := Company("Tesla", "TSLA", ["tesla"])]

  /** resolve_company: a listed company by its key, otherwise the input itself as name
      and ticker, with its lower-cased form as the only alias. */
  function ResolveCompany(input: string): (c: Company)
    ensures Strip(Upper(input)) in CompanyMap ==> c == CompanyMap[Strip(Upper(input))]
    ensures Strip(Upper(input)) !in CompanyMap ==> c == Company(input, input, [Lower(input)])
  {
    var key := Strip(Upper(input));
    if key in CompanyMap then CompanyMap[key] else Company(input, input, [Lower(input)])
  }

  /** The alias loop of is_valid_company_news: some alias, as given, occurs in text. */
  predicate AnyAliasIn(aliases: seq<string>, text: string)
  {
    aliases != [] && (Contains(text, aliases[0]) || AnyAliasIn(aliases[1..], text))
  }

  /** is_valid_company_news: the lower-cased name, or else one of the aliases (not
      lower-cased), occurs in the lower-cased text. */
  predicate IsValidCompanyNews(text: string, name: string, aliases: seq<string>)
  {
    var t := Lower(text);
    Contains(t, Lower(name)) || AnyAliasIn(aliases, t)
  }

  lemma {:induction false} AnyAliasInExists(aliases: seq<string>, text: string)
    ensures AnyAliasIn(aliases, text) <==> exists a :: a in aliases && Contains(text, a)
  {
    if aliases != [] {
      AnyAliasInExists(aliases[1..], text);
      forall a | a in aliases && Contains(text, a)
        ensures Contains(text, aliases[0]) || exists b :: b in aliases[1..] && Contains(text, b)
      {
        if a != aliases[0] {
          assert a in aliases[1..];
        }
      }
      assert aliases[0] in aliases;
      assert forall b :: b in aliases[1..] ==> b in aliases;
    }
  }

  /** The filter accepts a text exactly when the lower-cased name or some alias occurs in
      the lower-cased text. */
  lemma IsValidCompanyNewsMeaning(text: string, name: string, aliases: seq<string>)
    ensures IsValidCompanyNews(text, name, aliases) <==>
      Contains(Lower(text), Lower(name)) || exists a :: a in aliases && Contains(Lower(text), a)
  {
    AnyAliasInExists(aliases, Lower(text));
  }

  /** More aliases never reject a text that was accepted. */
  lemma AliasesMonotonic(text: string, name: string, aliases: seq<string>, more: seq<string>)
    requires IsValidCompanyNews(text, name, aliases)
    ensures IsValidCompanyNews(text, name, aliases + more)
  {
    IsValidCompanyNewsMeaning(text, name, aliases);
    IsValidCompanyNewsMeaning(text, name, aliases + more);
  }

  /** For an unlisted company the test is whether the lower-cased input occurs in the
      lower-cased text. */
  lemma FallbackFilter(input: string, text: string)
    requires Strip(Upper(input)) !in CompanyMap
    ensures var c := ResolveCompany(input);
      IsValidCompanyNews(text, c.name, c.aliases) <==> Contains(Lower(text), Lower(input))
  {
    var c := ResolveCompany(input);
    assert c.name == input && c.aliases == [Lower(input)];
    assert c.aliases[1..] == [];
    assert AnyAliasIn(c.aliases, Lower(text)) <==> Contains(Lower(text), Lower(input));
  }

  lemma ContainsEmpty(s: string)
    ensures Contains(s, "")
  {
  }

  /** An empty company name accepts every text. */
  lemma EmptyNameAcceptsAll(text: string, aliases: seq<string>)
    ensures IsValidCompanyNews(text, "", aliases)
  {
    ContainsEmpty(Lower(text));
  }

  lemma ResolveTcs()
    ensures ResolveCompany(" tcs ") == Company("Tata Consultancy Services", "TCS.NS", ["tcs", "tata consultancy"])
  {
    var u := Upper(" tcs ");
    assert u[0] == ' ' && u[1] == 'T' && u[2] == 'C' && u[3] == 'S' && u[4] == ' ';
    assert u == " TCS ";
    StripPaddedTcs();
    assert "TCS" in CompanyMap;
  }

  // ---------------------------------------------------------------- headline loops

  /** A feed entry: its title, and its summary and publication date when it has them. */
  datatype FeedEntry = FeedEntry(title: string, summary: Option<string>, published: Option<string>)

  /** A collected item; the collection timestamp is not modelled. */
  datatype NewsItem = NewsItem(company: string, source: string, title: string, summary: string, published: string)

  const YahooSource := "Yahoo Finance"
  const SeekingAlphaSource := "Seeking Alpha"

  function OrEmpty(s: Option<string>): string
  {
    if s.Some? then s.value else ""
  }

  /** The item fetch_yahoo_news builds for an entry it keeps. */
  function YahooItem(company: string, e: FeedEntry): NewsItem
  {
    NewsItem(company, YahooSource, e.title, OrEmpty(e.summary), OrEmpty(e.published))
  }

  /** An entry is kept when its title, a blank and its summary pass the filter. */
  predicate YahooRelevant(e: FeedEntry, company: string, aliases: seq<string>)
  {
    IsValidCompanyNews(e.title + " " + OrEmpty(e.summary), company, aliases)
  }

  /** All relevant entries of the feed, as items, in feed order. */
  function YahooRelevantItems(entries: seq<FeedEntry>, company: string, aliases: seq<string>): seq<NewsItem>
  {
    if entries == [] then []
    else
      var rest := YahooRelevantItems(entries[..|entries| - 1], company, aliases);
      var e := entries[|entries| - 1];
      if YahooRelevant(e, company, aliases) then rest + [YahooItem(company, e)] else rest
  }

  /** The first limit elements of s (none for a limit below one). */
  function Take<T>(s: seq<T>, limit: int): (r: seq<T>)
    ensures limit <= 0 ==> r == []
    ensures 0 <= limit <= |s| ==> r == s[..limit]
    ensures limit >= |s| ==> r == s
  {
    if limit <= 0 then [] else if limit >= |s| then s else s[..limit]
  }

  lemma {:induction false} YahooRelevantItemsAppend(a: seq<FeedEntry>, b: seq<FeedEntry>, company: string,
                                                    aliases: seq<string>)
    ensures YahooRelevantItems(a + b, company, aliases) ==
      YahooRelevantItems(a, company, aliases) + YahooRelevantItems(b, company, aliases)
  {
    if b == [] {
      assert a + b == a;
    } else {
      var init := b[..|b| - 1];
      assert (a + b)[..|a + b| - 1] == a + init;
      assert (a + b)[|a + b| - 1] == b[|b| - 1];
      YahooRelevantItemsAppend(a, init, company, aliases);
    }
  }

  /** Every item fetch_yahoo_news keeps carries the company and the Yahoo source, comes
      from an entry whose text passes the filter, and has "" for a missing summary or
      date. */
  lemma {:induction false} YahooRelevantItemsShape(entries: seq<FeedEntry>, company: string,
                                                   aliases: seq<string>, k: nat)
    requires k < |YahooRelevantItems(entries, company, aliases)|
    ensures var item := YahooRelevantItems(entries, company, aliases)[k];
      item.company == company && item.source == YahooSource &&
      exists i :: 0 <= i < |entries| && YahooRelevant(entries[i], company, aliases) &&
        item == YahooItem(company, entries[i])
  {
    var init := entries[..|entries| - 1];
    var rest := YahooRelevantItems(init, company, aliases);
    var items := YahooRelevantItems(entries, company, aliases);
    if k < |rest| {
      YahooRelevantItemsShape(init, company, aliases, k);
      var i :| 0 <= i < |init| && YahooRelevant(init[i], company, aliases) && rest[k] == YahooItem(company, init[i]);
      assert items[k] == rest[k];
      assert entries[i] == init[i];
    } else {
      assert items[k] == YahooItem(company, entries[|entries| - 1]);
    }
  }

  /** fetch_yahoo_news: the feed is scanned in order, stopping once limit items are
      held; each relevant entry becomes an item. */
  method FetchYahooNews(company: string, aliases: seq<string>, entries: seq<FeedEntry>, limit: int)
    returns (news: seq<NewsItem>)
    ensures news == Take(YahooRelevantItems(entries, company, aliases), limit)
    ensures |news| <= if limit < 0 then 0 else limit
  {
    news := [];
    var i := 0;
    while i < |entries|
      invariant 0 <= i <= |entries|
      invariant news == Take(YahooRelevantItems(entries[..i], company, aliases), limit)
      invariant |news| < limit || news == Take(YahooRelevantItems(entries, company, aliases), limit)
    {
      if |news| >= limit {
        break;
      }
      var e := entries[i];
      var summary := if e.summary.Some? then e.summary.value else "";
      var fullText := e.title + " " + summary;
      PrefixStep(entries, i);
      if IsValidCompanyNews(fullText, company, aliases) {
        var published := if e.published.Some? then e.published.value else "";
        news := news + [NewsItem(company, YahooSource, e.title, summary, published)];
      }
      i := i + 1;
      if |news| >= limit {
        TakeOfPrefix(entries, i, company, aliases, limit);
      }
    }
    if i == |entries| {
      assert entries[..i] == entries;
    }
  }

  /** Once the items of a prefix reach the limit, the rest of the feed adds nothing. */
  lemma TakeOfPrefix(entries: seq<FeedEntry>, i: nat, company: string, aliases: seq<string>, limit: int)
    requires i <= |entries|
    requires |Take(YahooRelevantItems(entries[..i], company, aliases), limit)| >= limit
    ensures Take(YahooRelevantItems(entries[..i], company, aliases), limit) ==
      Take(YahooRelevantItems(entries, company, aliases), limit)
  {
    assert entries == entries[..i] + entries[i..];
    YahooRelevantItemsAppend(entries[..i], entries[i..], company, aliases);
  }

  /** The items fetch_seeking_alpha builds from the headlines whose title alone passes
      the filter, in page order. */
  function TitleItems(titles: seq<string>, company: string, aliases: seq<string>): seq<NewsItem>
  {
    if titles == [] then []
    else
      var rest := TitleItems(titles[..|titles| - 1], company, aliases);
      var t := titles[|titles| - 1];
      if IsValidCompanyNews(t, company, aliases)
      then rest + [NewsItem(company, SeekingAlphaSource, t, "", "")]
      else rest
  }

  lemma {:induction false} TitleItemsAppend(a: seq<string>, b: seq<string>, company: string, aliases: seq<string>)
    ensures TitleItems(a + b, company, aliases) == TitleItems(a, company, aliases) + TitleItems(b, company, aliases)
  {
    if b == [] {
      assert a + b == a;
    } else {
      var init := b[..|b| - 1];
      assert (a + b)[..|a + b| - 1] == a + init;
      assert (a + b)[|a + b| - 1] == b[|b| - 1];
      TitleItemsAppend(a, init, company, aliases);
    }
  }

  /** Every Seeking Alpha item is a relevant headline with empty summary and date. */
  lemma {:induction false} TitleItemsShape(titles: seq<string>, company: string, aliases: seq<string>, k: nat)
    requires k < |TitleItems(titles, company, aliases)|
    ensures var item := TitleItems(titles, company, aliases)[k];
      item.company == company && item.source == SeekingAlphaSource && item.summary == "" &&
      item.published == "" && item.title in titles && IsValidCompanyNews(item.title, company, aliases)
  {
    var init := titles[..|titles| - 1];
    var rest := TitleItems(init, company, aliases);
    if k < |rest| {
      TitleItemsShape(init, company, aliases, k);
      assert TitleItems(titles, company, aliases)[k] == rest[k];
    }
  }

  /** fetch_seeking_alpha: the headline titles of the search page, or none when the
      request failed; same scan-and-stop loop as the Yahoo one, on titles alone. */
  method FetchSeekingAlpha(company: string, aliases: seq<string>, page: Option<seq<string>>, limit: int)
    returns (news: seq<NewsItem>)
    ensures page.None? ==> news == []
    ensures page.Some? ==> news == Take(TitleItems(page.value, company, aliases), limit)
    ensures |news| <= if limit < 0 then 0 else limit
  {
    news := [];
    if page.None? {
      return;
    }
    var titles := page.value;
    var i := 0;
    while i < |titles|
      invariant 0 <= i <= |titles|
      invariant news == Take(TitleItems(titles[..i], company, aliases), limit)
      invariant |news| < limit || news == Take(TitleItems(titles, company, aliases), limit)
    {
      if |news| >= limit {
        break;
      }
      var title := titles[i];
      PrefixStep(titles, i);
      if IsValidCompanyNews(title, company, aliases) {
        news := news + [NewsItem(company, SeekingAlphaSource, title, "", "")];
      }
      i := i + 1;
      if |news| >= limit {
        assert titles == titles[..i] + titles[i..];
        TitleItemsAppend(titles[..i], titles[i..], company, aliases);
      }
    }
    if i == |titles| {
      assert titles[..i] == titles;
    }
  }

  const YahooLimit := 60
  const SeekingAlphaLimit := 30

  /** collect_finance_news without the CSV file: the company is resolved, then its
      Yahoo items (feed looked up by ticker, at most 60) come before its Seeking Alpha
      items (search by name, at most 30). */
  method CollectFinanceNews(input: string, yahooFeed: string -> seq<FeedEntry>,
                            seekingAlpha: string -> Option<seq<string>>)
    returns (data: seq<NewsItem>)
    ensures var c := ResolveCompany(input);
      data == Take(YahooRelevantItems(yahooFeed(c.ticker), c.name, c.aliases), YahooLimit)
        + (if seekingAlpha(c.name).Some?
           then Take(TitleItems(seekingAlpha(c.name).value, c.name, c.aliases), SeekingAlphaLimit)
           else [])
    ensures |data| <= YahooLimit + SeekingAlphaLimit
  {
    var c := ResolveCompany(input);
    var yahoo := FetchYahooNews(c.name, c.aliases, yahooFeed(c.ticker), YahooLimit);
    var alpha := FetchSeekingAlpha(c.name, c.aliases, seekingAlpha(c.name), SeekingAlphaLimit);
    assert |yahoo| <= YahooLimit && |alpha| <= SeekingAlphaLimit;
    data := yahoo + alpha;
  }
}
