# Finova symbol resolution and table normalisation, modelled in Dafny

This project models the deterministic core of the Finova scrapers:

- **`powerbi.py`** has five parts.
  - The cell cleaner `clean_numeric_value`. It returns `""` for an absent figure and never returns `"0"` for one.
  - The metric-name cleaner `clean_metric_name`.
  - The six-bucket unit classifier `infer_unit`. Its first matching keyword list wins.
  - The NSE ticker resolver `resolve_nse_symbol`. It tries a fixed table, then the Yahoo Finance search, then the Screener.in search, then each word of the name on its own, and finally a ticker made from the name's letters.
  - The Screener.in statement-table parser `parse_financial_table`, and the flattening `create_normalized_rows`. The flattening turns statement → section → metric → year → value into one long-format record per non-empty value of 2019–2025.
- **`modules/data_collector.py`** has four parts.
  - The dictionary resolver `find_best_symbol`. It tries an exact name, then an exact symbol, then a fuzzy name, then a fuzzy symbol.
  - The non-empty-row filter of `parse_table`.
  - The row state machine of `parse_growth_tables`.
  - The choice of a parser for each sub-navigation link in `scrape_screener_data`.
- **`modules/senti_analysyahoofinanc.py`** has three parts.
  - The company table `resolve_company`, with its fallback triple.
  - The relevance filter `is_valid_company_news`.
  - The scan-and-stop headline loops of `fetch_yahoo_news` and `fetch_seeking_alpha`, and their concatenation in `collect_finance_news`.

The files are organised as follows:

- `wrappers.dfy` defines `Option` and `Result`.
- `sequences.dfy` holds small list facts.
- `text.dfy` holds ASCII models of `strip`, `split`, `lower`/`upper`, `in`, `replace` and the `\s`/`\d` classes.
- `ordered_map.dfy` models a Python dict with insertion order as a list of key/value pairs.
- `cleaning.dfy`, `symbols.dfy`, `tables.dfy`, `normalize.dfy`, `data_collector.dfy` and `company_news.dfy` model the scrapers' own logic.
- `unit_examples.dfy` holds worked examples of the unit classifier.

Where the Python code updates state step by step, the model is a Dafny method with a loop. Each such method is proved equal to a specification function, and the properties are lemmas about that function. These loops are:

- the nested loops of `parse_financial_table` and `create_normalized_rows`;
- the row loop of `parse_growth_tables`;
- the filter loop of `parse_table`;
- the token loop of `resolve_nse_symbol`;
- the news loops.

The expression pipelines are Dafny functions.

Remote services are parameters:

- The Yahoo Finance search is a function from a query to an optional decoded list of quotes. `None` stands for a failed request or an undecodable answer.
- The Screener.in search is a function from a query to an optional list of `symbol` fields.
- `difflib.get_close_matches` is a function whose answers are members of the candidate list (`DataCollector.IsMatcher`).
- The RSS feed and the Seeking Alpha page are functions that return already-decoded entries or titles.
- The page's set of section ids is a predicate.

Some behaviours of the code are easy to miss. The model keeps them as written:

- `"Debt to Equity"` is classed as `INR Crores`, not `Ratio`. The monetary list is tried first and contains `"equity"`. The same shadowing makes `"current ratio"`, `"quick ratio"` and `"interest coverage"` unreachable in the ratio list (`Cleaning.RatioOnlyFromValuationWords`).
- The fallback ticker can be empty: `"123"` resolves to `""` when the searches fail. It keeps letters only and drops digits.
- `clean_numeric_value` is not idempotent on the output `"-"`.
- `clean_metric_name` deletes `+`, `*` and `#` anywhere in the name, not only at the end. Its result may end in a blank.
- `parse_financial_table` stores `""` for a year whose cell is missing, instead of leaving the year out. The flattening then drops that year anyway.
- `parse_financial_table` keeps the last six year labels but pairs them with the first six value cells.
- The flattening uses the fixed years 2019–2025, not the scraped axis.

## Model

| member | source | states |
|---|---|---|
| Cleaning.CleanNumericValue | powerbi.py:173-178 | an absent cell (`""` or a trimmed `-`, `NA`, `N/A`) gives `""`, never `"0"`; every other result holds only digits, `.` and `-` |
| Cleaning.CleanNumericValueIsFilter | powerbi.py:175-177 | for a present cell the four `replace` calls add nothing: the result is exactly the cell's digits, dots and minus signs, in order |
| Cleaning.CleanNumericValueKeepsNumericChars | powerbi.py:173-178 | the result is a subsequence of the input (cleaning only deletes) |
| Cleaning.CleanNumericValueIdempotent | powerbi.py:174-178 | cleaning a cleaned value returns it unchanged, unless it is `"-"` |
| Cleaning.CleanNumericValueDashNotIdempotent | powerbi.py:174-178 | the exception: `"-%"` cleans to `"-"`, which cleans to `""` |
| Cleaning.CleanNumericValueExample | powerbi.py:175-177 | `"1,200%"` cleans to `"1200"` |
| Cleaning.CleanMetricName | powerbi.py:180-184 | empty gives empty; no `+`, `*` or `#` anywhere in the result; whitespace only as single blanks, never two in a row |
| Cleaning.CleanMetricNameKeepsText | powerbi.py:180-184 | only whitespace and the three markers are lost: every other character survives, in order |
| Cleaning.CleanMetricNameFixesCleanText | powerbi.py:180-184 | a trimmed, marker-free, single-spaced name is returned unchanged |
| Cleaning.CleanMetricNameWords | powerbi.py:183-184 | the cleaned name has the same words (`str.split()`) as the name with every `+`, `*` and `#` deleted: trimming and collapsing change only the whitespace between words |
| Text.SplitCollapseWhitespace | powerbi.py:184 | collapsing whitespace runs to single blanks never changes the words of a text |
| UnitExamples.CleanMetricNameKeepsBlankBeforeMarker | powerbi.py:183-184 | `"Sales +"` cleans to `"Sales "`: the result is not trimmed |
| Cleaning.UnitForText | powerbi.py:188-201 | the classification always yields one of the six unit labels |
| Cleaning.InferUnit | powerbi.py:187-201 | the unit is always one of "INR Crores", "INR", "Percentage", "Ratio", "Days", "Number" |
| Cleaning.InferUnitIgnoresStatement | powerbi.py:187 | the statement argument never changes the unit |
| Cleaning.DebtToEquityIsInrCrores | powerbi.py:189 | any metric mentioning "debt to equity" is INR Crores, because the first list already matches "equity" |
| Cleaning.RatioOnlyFromValuationWords | powerbi.py:189-195 | "Ratio" is produced only for names containing "p/e", "p/b" or "ev/ebitda"; the other four ratio keywords are shadowed by earlier lists |
| Cleaning.NoneMentioned | powerbi.py:188-199 | a name in which some two adjacent characters of each keyword never occur side by side matches none of a list's keywords |
| UnitExamples.InferUnitNetSales | powerbi.py:189-190 | "Net Sales" is INR Crores |
| UnitExamples.InferUnitEpsInRs | powerbi.py:189-192 | "EPS in Rs" matches no monetary keyword and is INR |
| UnitExamples.InferUnitRoePercent | powerbi.py:189-194 | "ROE %" is Percentage |
| UnitExamples.InferUnitPriceToEarnings | powerbi.py:195-196 | "P/E" is Ratio |
| UnitExamples.InferUnitWorkingCapitalDays | powerbi.py:189-198 | "Working Capital Days" passes the first four lists (including "roa" and "ratio") and is Days |
| UnitExamples.InferUnitPrice | powerbi.py:199-200 | "Price" is INR, from the sixth list |
| UnitExamples.InferUnitUnknownMetric | powerbi.py:188-201 | "Unknown Metric" matches no list (not even "income", "roe" or "roce") and is Number |
| UnitExamples.InferUnitDebtToEquity | powerbi.py:189-190 | "Debt to Equity" itself is INR Crores, not Ratio |
| SymbolResolver.GenerateSymbolFallback | powerbi.py:125-128 | the name's letters in order, upper-cased, cut to the first seven: character i is the upper-cased i-th letter, and the length is seven or the number of letters |
| SymbolResolver.FallbackStartsWithFirstLetter | powerbi.py:127-128 | a name with a letter gives a fallback that starts with its first letter, upper-cased |
| SymbolResolver.FallbackEmptyIffNoLetters | powerbi.py:125-128 | the fallback is empty exactly when the name has no letter |
| SymbolResolver.FallbackIdempotent | powerbi.py:125-128 | the fallback of a fallback is itself |
| SymbolResolver.FirstNseQuote | powerbi.py:100-103 | finds the first quote whose symbol ends in ".NS" or whose exchange is "NSI", or reports that there is none |
| SymbolResolver.SelectYahoo | powerbi.py:100-104 | a non-empty answer comes from an NSE quote |
| SymbolResolver.SelectYahooTakesFirstNseQuote | powerbi.py:100-104 | the answer is the first NSE quote's symbol with ".NS" deleted, or `""` when there is none |
| SymbolResolver.SearchYahoo | powerbi.py:91-107 | a failed or undecodable request gives `""` |
| SymbolResolver.SelectScreener | powerbi.py:117-120 | `""` exactly when the list is empty or its first symbol is empty; otherwise the first symbol upper-cased, character by character and with its length |
| SymbolResolver.SearchScreener | powerbi.py:109-123 | a failed request gives `""` |
| SymbolResolver.CommonPatternsNonEmpty | powerbi.py:50-63 | no table name or ticker is empty |
| SymbolResolver.SearchTokensEmpty | powerbi.py:79-86 | the per-word retry answers `""` exactly when every word's Yahoo and Screener lookups do |
| SymbolResolver.SearchTokensFirstAnswer | powerbi.py:79-86 | the per-word retry returns the answer for the first word, in order, that gets one |
| SymbolResolver.ResolveNseSymbol | powerbi.py:42-89 | the imperative chain with early returns equals the specification `Resolve` |
| SymbolResolver.ResolveNameSteps | powerbi.py:65-89 | the table, the two searches, the token loop and the fallback, in that order, equal `ResolveName` |
| SymbolResolver.ResolveRejectsOnlyBlank | powerbi.py:43-44 | the error is returned exactly for empty or whitespace-only input |
| SymbolResolver.ResolveTableName | powerbi.py:46-66 | a trimmed, lower-cased table name resolves to its table ticker |
| SymbolResolver.ResolveTableNeedsNoSearch | powerbi.py:65-66 | a table name resolves the same whatever the searches answer |
| SymbolResolver.ResolveTableExamples | powerbi.py:50-66 | "Ambuja" resolves to AMBUJACEM and " TCS " to TCS with no lookups |
| SymbolResolver.ResolveFallsBackWhenSearchesFail | powerbi.py:68-89 | when every lookup fails the answer is the fallback of the normalised name |
| SymbolResolver.ResolveEmptyOnlyWithoutLetters | powerbi.py:88-128 | an empty ticker is returned only for input without letters |
| SymbolResolver.ResolveDigitsToEmpty | powerbi.py:88-128 | "123" with failing searches resolves to the empty ticker |
| FinancialTable.FindYear | powerbi.py:158 | a match is four characters `20dd` |
| FinancialTable.FindYearLeftmost | powerbi.py:158 | the search finds a match exactly when one exists, and then the leftmost |
| FinancialTable.YearsOf | powerbi.py:158 | at most one year per header, four characters each |
| FinancialTable.YearsOfOne | powerbi.py:158 | a single header contributes its leftmost `20dd` match, or nothing when it has none |
| FinancialTable.YearsOfAppend | powerbi.py:158 | the comprehension keeps header order: the years of `a + b` are those of `a` followed by those of `b` |
| FinancialTable.YearsOfCountsMatches | powerbi.py:158 | every header carrying a year contributes exactly one year; the rest are dropped |
| FinancialTable.YearAxis | powerbi.py:158-159 | the axis has at most six years, four characters each |
| FinancialTable.YearAxisIsLatest | powerbi.py:157-159 | the axis is the last min(6, n) of the n years found after the first header: exactly that suffix, and empty for no headers |
| FinancialTable.YearAxisSkipsFirstColumn | powerbi.py:158 | the first header never contributes a year |
| FinancialTable.YearAxisKeepsLatest | powerbi.py:158-159 | when the last headers already carry six years, the axis is exactly their years, whatever precedes them |
| FinancialTable.YearsOfMarchHeaders | powerbi.py:158 | headers "Mar yyyy" give back their years, in order |
| FinancialTable.YearAxisOfMarchHeaders | powerbi.py:157-159 | a header row "Mar yyyy" with six or more years keeps the last six; ten columns for March 2016 to 2025 give 2020 to 2025 |
| FinancialTable.YearValuesPairsPositions | powerbi.py:167-170 | axis year i holds the cleaned cell i (the first cells, not the last), or `""` when the row is too short |
| FinancialTable.YearValuesKeys | powerbi.py:167-170 | a row's year map has exactly the axis years as keys |
| FinancialTable.ParseRowValues | powerbi.py:168-170 | the inner year loop builds `YearValues` |
| FinancialTable.ParseFinancialTable | powerbi.py:153-171 | a missing table gives `{}`; otherwise the row loop builds `TableData` |
| FinancialTable.RowsDataKeys | powerbi.py:161-167 | the metrics are exactly the first cells of rows with at least two cells |
| FinancialTable.RowsDataLastRowWins | powerbi.py:166-170 | a metric repeated on several rows keeps its last row's values |
| Normalizer.YearValue | powerbi.py:206-218 | the year strings read as 2019 to 2025, in order |
| Normalizer.YearRecordsShape | powerbi.py:207-223 | each record of a metric carries the company, symbol, statement, section, cleaned name, unit and "Screener.in"; it has a non-empty value and a year within range |
| Normalizer.YearRecordsAscending | powerbi.py:209-210 | a metric's records are in strictly ascending year order |
| Normalizer.YearRecordsHasYear | powerbi.py:210-212 | a year with a non-empty value yields a record of that year holding the value |
| Normalizer.YearRecordsValueOfYear | powerbi.py:210-212 | a record of a year holds that year's value, which is non-empty |
| Normalizer.MetricWithoutValues | powerbi.py:211-212 | a metric without values in 2019–2025 yields no record |
| Normalizer.SectionRecordsShape | powerbi.py:208-223 | each record of a section carries its statement and section, and the cleaned name and inferred unit of one of its metrics |
| Normalizer.StatementRecordsShape | powerbi.py:207-223 | each record of a statement comes from one of its sections |
| Normalizer.NormalizedRecordsShape | powerbi.py:204-224 | every record has the given company and symbol, source "Screener.in", a non-empty value, a year from 2019 to 2025, a known unit and one of the given statements |
| Normalizer.NormalizedRecordsAppend | powerbi.py:207 | statements are flattened one after the other, in dict order |
| Normalizer.MissingTableYieldsNothing | powerbi.py:155-224 | a missing table contributes no records (this follows from the definitions alone) |
| Normalizer.AppendYearRows | powerbi.py:209-223 | the year loop appends the metric's records to the rows |
| Normalizer.AppendSectionRows | powerbi.py:208-223 | the metric loop appends the section's records |
| Normalizer.AppendStatementRows | powerbi.py:208-223 | the section loop appends the statement's records |
| Normalizer.CreateNormalizedRows | powerbi.py:204-224 | the four nested loops return `NormalizedRecords` |
| OrderedMap.Get | powerbi.py:211 | `d.get(k)` finds something exactly when k is a key, and then a stored value |
| OrderedMap.Put | powerbi.py:166-170 | `d[k] = v` keeps the keys distinct, stores v under k, changes no other key, and keeps a key's first position |
| DataCollector.SymbolMatch | modules/data_collector.py:27-30 | finds the first symbol equal to the input once upper-cased, or reports that none is |
| DataCollector.FindBestSymbol | modules/data_collector.py:19-43 | the result is a value of `company_symbols` or the upper-cased input |
| DataCollector.BestSymbol | modules/data_collector.py:23-43 | the name, symbol, fuzzy-name and fuzzy-symbol steps yield a table symbol, else the input |
| DataCollector.SymbolIsUpper | modules/data_collector.py:9-17 | every table symbol is upper case |
| DataCollector.FindBestSymbolIgnoresCase | modules/data_collector.py:21 | the casing of the input never matters |
| DataCollector.FindBestSymbolByName | modules/data_collector.py:23-25 | any casing of a company name gives its symbol |
| DataCollector.FindBestSymbolBySymbol | modules/data_collector.py:23-30 | any casing of a symbol gives that symbol |
| DataCollector.FindBestSymbolIdempotent | modules/data_collector.py:19-43 | resolving a result again gives the same result |
| DataCollector.FindBestSymbolHdfcBank | modules/data_collector.py:9-25 | "hdfc bank" gives HDFCBANK |
| DataCollector.FindBestSymbolAmazon | modules/data_collector.py:9-25 | "amazon" gives AMZN |
| DataCollector.FindBestSymbolInfy | modules/data_collector.py:9-30 | "infy" gives INFY |
| DataCollector.ParseTable | modules/data_collector.py:50-61 | a missing table gives `{}`; otherwise the first head row's cells and the body rows with some text, in order |
| DataCollector.TextRowsKeeps | modules/data_collector.py:56-60 | a row is kept exactly when it is in the body and some cell has text |
| DataCollector.TextRowsAppend | modules/data_collector.py:56-60 | filtering respects document order |
| DataCollector.TrimColons | modules/data_collector.py:128 | `rstrip(":")` removes exactly the trailing colons |
| DataCollector.GrowthStep | modules/data_collector.py:119-128 | one row keeps every dictionary's keys distinct, and the current heading is present |
| DataCollector.GrowthStepEffect | modules/data_collector.py:119-128 | a heading resets its map to empty and becomes current; a two-cell row under a heading stores label→value there and nothing else; every other row changes nothing |
| DataCollector.GrowthRowsSkipHeadless | modules/data_collector.py:117-127 | value rows before a table's first heading are dropped |
| DataCollector.TableStartsWithoutHeading | modules/data_collector.py:116-118 | each table starts with no heading: rows at its top never attach to the previous table's heading |
| DataCollector.ParseGrowthTables | modules/data_collector.py:115-130 | the table loop returns `GrowthTables` and keeps all keys distinct |
| DataCollector.ParseGrowthRows | modules/data_collector.py:117-128 | the row loop of one table returns `GrowthRows` from no heading |
| DataCollector.ParseGrowthRow | modules/data_collector.py:119-128 | the loop body performs one `GrowthStep` |
| DataCollector.LookupParser | modules/data_collector.py:171-190 | a parser exactly for keys mapped to one; "Chart" and unknown keys give none |
| DataCollector.ChooseParser | modules/data_collector.py:190 | the label is consulted first, the id only when the label gives no parser |
| DataCollector.ResultFor | modules/data_collector.py:190-191 | the chosen parser's output, or the info dict when there is no parser |
| DataCollector.TrimHashes | modules/data_collector.py:186 | `lstrip("#")` removes exactly the leading `#`s |
| DataCollector.SectionResults | modules/data_collector.py:181-191 | results keyed by label have distinct keys |
| DataCollector.SectionResultOf | modules/data_collector.py:190-191 | the parser choice and call equal `ResultFor` |
| DataCollector.DispatchSections | modules/data_collector.py:181-191 | the link loop builds `SectionResults` |
| DataCollector.SectionResultsKeys | modules/data_collector.py:182-191 | a label has a result exactly when some link with a `#` href to a present section carries it |
| DataCollector.SectionResultsLastLinkWins | modules/data_collector.py:190-191 | a label's result is that of its last used link |
| DataCollector.ChooseParserByLabel | modules/data_collector.py:171-190 | "Profit & Loss" and "Investors" choose by label |
| DataCollector.ChartFallsThrough | modules/data_collector.py:171-191 | "Chart" gives no parser and falls through to the id; an unknown id gives the info dict |
| CompanyNews.ResolveCompany | modules/senti_analysyahoofinanc.py:10-34 | a listed key (input upper-cased and trimmed) gives its triple; otherwise (input, input, [input lower-cased]) from the untrimmed input |
| CompanyNews.ResolveTcs | modules/senti_analysyahoofinanc.py:17-31 | " tcs " gives ("Tata Consultancy Services", "TCS.NS", ["tcs", "tata consultancy"]) |
| CompanyNews.IsValidCompanyNewsMeaning | modules/senti_analysyahoofinanc.py:40-51 | accepted exactly when the lower-cased name, or some alias as given, occurs in the lower-cased text |
| CompanyNews.AliasesMonotonic | modules/senti_analysyahoofinanc.py:47-51 | adding aliases never rejects an accepted text |
| CompanyNews.FallbackFilter | modules/senti_analysyahoofinanc.py:33-51 | for an unlisted company, acceptance is "the lower-cased input occurs in the lower-cased text" |
| CompanyNews.EmptyNameAcceptsAll | modules/senti_analysyahoofinanc.py:44-45 | an empty company name accepts every text |
| CompanyNews.Take | modules/senti_analysyahoofinanc.py:67-68 | the first `limit` items, none for a limit below one |
| CompanyNews.YahooRelevantItemsShape | modules/senti_analysyahoofinanc.py:72-84 | each item has the company and "Yahoo Finance", comes from an entry whose title, a blank and its summary pass the filter, and has `""` for a missing summary or date |
| CompanyNews.YahooRelevantItemsAppend | modules/senti_analysyahoofinanc.py:67-85 | the entries are filtered in feed order |
| CompanyNews.FetchYahooNews | modules/senti_analysyahoofinanc.py:57-87 | the first `limit` relevant items in feed order, at most `limit` |
| CompanyNews.TitleItemsShape | modules/senti_analysyahoofinanc.py:104-118 | each Seeking Alpha item is a relevant title with "Seeking Alpha", an empty summary and an empty date |
| CompanyNews.FetchSeekingAlpha | modules/senti_analysyahoofinanc.py:93-124 | a failed page gives nothing; otherwise the first `limit` relevant titles, at most `limit` |
| CompanyNews.CollectFinanceNews | modules/senti_analysyahoofinanc.py:130-137 | Yahoo items (at most 60) come before Seeking Alpha items (at most 30) |

## Left out

- The following are not modelled: HTTP requests, `feedparser.parse`, the commentary fetch with its static cookies and the `time.sleep` delays. Remote answers are parameters of the model.
- BeautifulSoup selection is not modelled. Tables arrive as header texts and body cell texts. Growth-table rows arrive as `Heading(text)` or `Cells(texts)`. Sub-navigation links arrive as (href, text) pairs. The page's section ids are a predicate.
- The similarity measure of `difflib.get_close_matches` and its 0.6 cutoff are not modelled. Only the fact that any answer is a candidate is used.
- The following are not modelled: building the pandas DataFrame, the sort and file writing in `export_to_csv`, CSV/JSON output, filename sanitising and console printing.
- Interactive input, `sys.argv`, CSV batch input, and the try/except and exit code of `run_financial_pipeline` are not modelled.
- `fetch_screener_data` is not modelled apart from its missing-table case. It only places four tables under a "Summary" section.
- The section parsers (summary, analysis, peers, the per-statement wrappers, documents) are not modelled. Each is named by a constructor of `DataCollector.Parser`.
- `modules/senti_analys.py` is not part of this model: Nitter, YouTube, Google News and HN scraping, the comment downloader and the VADER scores.
- The `collected_at` timestamp of news records is not modelled.
- Text is ASCII. `\s`, `\d`, `str.isspace`, `str.upper` and `str.lower` are modelled over ASCII only.
- Python's `None` passed to `clean_numeric_value` is not modelled. Every caller passes a string, and `""` takes the same branch.
- The currency literal that `clean_numeric_value` deletes is the rupee sign garbled into three characters. It is modelled as written.
- `SymbolResolver.SearchYahoo`: a quote entry without `symbol` or `exchange` is decoded as `""` by the caller of the model, which matches `q.get(..., "")`. A quote whose `symbol` is JSON `null` is not modelled: in the source `.endswith` then raises, and the `except` makes the whole search answer `""`, even when a later quote would match. The model has no null symbol.
- `DataCollector.DispatchSections`: a `#` href whose id is not a valid CSS identifier (a bare `"#"`, or `"#2024"`) makes `select_one(f"section#{section_id}")` raise in the source, which aborts the whole scrape. The model treats such an id like any other: it is looked up in the predicate of present sections and skipped when absent.
- `CompanyNews.FetchYahooNews`: a feed entry without a title raises `AttributeError` in the source. Nothing catches it, so `fetch_yahoo_news` and `collect_finance_news` fail as a whole. The model's entries always carry a title.
- `DataCollector.GrowthStep`: the source's `None` heading and an empty heading text are the same state in the model. Both make data rows be ignored.
