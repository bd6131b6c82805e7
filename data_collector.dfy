/** The Screener scraper of modules/data_collector.py: the company-to-symbol resolver,
    the non-empty-row filter of parse_table, the row-by-row state machine of
    parse_growth_tables and the choice of a parser for each sub-navigation link of
    scrape_screener_data. Pages arrive as already-extracted cell texts. */
module DataCollector {
  import opened Wrappers
  import opened Sequences
  import opened Text
  import opened OrderedMap

  // ---------------------------------------------------------------- find_best_symbol

  /** company_symbols, in its insertion order. */
  const CompanySymbols: Assoc<string> := [("TCS", "TCS"), ("INFOSYS", "INFY"), ("RELIANCE", "RELIANCE"),
    ("HDFC BANK", "HDFCBANK"), ("AMAZON", "AMZN"), ("GOOGLE", "GOOGL"), ("MICROSOFT", "MSFT")]

  /** company_symbols.values(), in order. */
  function Symbols(m: Assoc<string>): (vs: seq<string>)
    ensures |vs| == |m|
    ensures forall i :: 0 <= i < |m| ==> vs[i] == m[i].1
  {
    if m == [] then [] else Symbols(m[..|m| - 1]) + [m[|m| - 1].1]
  }

  /** The loop over company_symbols.items(): the first symbol that equals the input once
      upper-cased. */
  function SymbolMatch(entries: Assoc<string>, u: string): (r: Option<string>)
    ensures r.Some? ==> exists i :: 0 <= i < |entries| && entries[i].1 == r.value && Upper(r.value) == u
    ensures r.None? ==> forall i :: 0 <= i < |entries| ==> Upper(entries[i].1) != u
  {
    if entries == [] then None
    else if u == Upper(entries[0].1) then Some(entries[0].1)
    else
      var r := SymbolMatch(entries[1..], u);
      assert forall i :: 1 <= i < |entries| ==> entries[i] == entries[1..][i - 1];
      r
  }

  /** get_close_matches(word, candidates, n=1): whatever similarity it uses, every answer
      is one of the candidates. */
  ghost predicate IsMatcher(close: (string, seq<string>) -> seq<string>)
  {
    forall w, cands, x :: x in close(w, cands) ==> x in cands
  }

  /** find_best_symbol: the input is upper-cased, then matched. */
  function FindBestSymbol(close: (string, seq<string>) -> seq<string>, userInput: string): (r: string)
    requires IsMatcher(close)
    ensures r in Symbols(CompanySymbols) || r == Upper(userInput)
  {
    BestSymbol(close, Upper(userInput))
  }

  /** The matching of find_best_symbol on the upper-cased input u: exact company name,
      then exact symbol, then the closest name, then the closest symbol, then u itself. */
  function BestSymbol(close: (string, seq<string>) -> seq<string>, u: string): (r: string)
    requires IsMatcher(close)
    ensures r in Symbols(CompanySymbols) || r == u
  {
    match Get(CompanySymbols, u)
    case Some(s) =>
      var i :| 0 <= i < |CompanySymbols| && CompanySymbols[i] == (u, s);
      assert Symbols(CompanySymbols)[i] == s;
      s
    case None =>
      match SymbolMatch(CompanySymbols, u)
      case Some(s) =>
        var i :| 0 <= i < |CompanySymbols| && CompanySymbols[i].1 == s;
        assert Symbols(CompanySymbols)[i] == s;
        s
      case None =>
        var names := close(u, Keys(CompanySymbols));
        if names != [] then
          assert names[0] in names;
          var s := Get(CompanySymbols, names[0]).value;
          var i :| 0 <= i < |CompanySymbols| && CompanySymbols[i] == (names[0], s);
          assert Symbols(CompanySymbols)[i] == s;
          s
        else
          var symbols := close(u, Symbols(CompanySymbols));
          if symbols != [] then
            assert symbols[0] in symbols;
            symbols[0]
          else u
  }

  lemma CompanySymbolsDistinct()
    ensures DistinctKeys(CompanySymbols)
  {
  }

  lemma UpperOfCapitals(s: string)
    requires forall k :: 0 <= k < |s| ==> IsUpperLetter(s[k])
    ensures Upper(s) == s
  {
  }

  /** Every symbol of the table is written in capital letters only, so upper-casing
      leaves it alone. */
  lemma SymbolIsUpper(i: nat)
    requires i < |CompanySymbols|
    ensures Upper(CompanySymbols[i].1) == CompanySymbols[i].1
  {
    var v := CompanySymbols[i].1;
    assert forall k :: 0 <= k < |v| ==> IsUpperLetter(v[k]);
    UpperOfCapitals(v);
  }

  /** The two names that are also symbols, TCS and RELIANCE, map to themselves. */
  lemma NameThatIsSymbol(i: nat, j: nat)
    requires i < |CompanySymbols| && j < |CompanySymbols|
    requires CompanySymbols[j].0 == CompanySymbols[i].1
    ensures CompanySymbols[j].1 == CompanySymbols[i].1
  {
  }

  /** The input is upper-cased before anything else: its casing never matters. */
  lemma FindBestSymbolIgnoresCase(close: (string, seq<string>) -> seq<string>, userInput: string)
    requires IsMatcher(close)
    ensures FindBestSymbol(close, Upper(userInput)) == FindBestSymbol(close, userInput)
  {
    UpperIdempotent(userInput);
  }

  /** Any casing of a company name of the table gives that company's symbol. */
  lemma FindBestSymbolByName(close: (string, seq<string>) -> seq<string>, userInput: string, i: nat)
    requires IsMatcher(close)
    requires i < |CompanySymbols| && Upper(userInput) == CompanySymbols[i].0
    ensures FindBestSymbol(close, userInput) == CompanySymbols[i].1
  {
    CompanySymbolsDistinct();
    GetDistinct(CompanySymbols, i);
  }

  /** Any casing of a symbol of the table gives that symbol back. */
  lemma FindBestSymbolBySymbol(close: (string, seq<string>) -> seq<string>, userInput: string, i: nat)
    requires IsMatcher(close)
    requires i < |CompanySymbols| && Upper(userInput) == CompanySymbols[i].1
    ensures FindBestSymbol(close, userInput) == CompanySymbols[i].1
  {
    var u := Upper(userInput);
    match Get(CompanySymbols, u)
    case Some(s) =>
      var j :| 0 <= j < |CompanySymbols| && CompanySymbols[j] == (u, s);
      NameThatIsSymbol(i, j);
    case None =>
      SymbolIsUpper(i);
      match SymbolMatch(CompanySymbols, u)
      case Some(s) =>
        var j :| 0 <= j < |CompanySymbols| && CompanySymbols[j].1 == s && Upper(s) == u;
        SymbolIsUpper(j);
      case None =>
  }

  /** The result of a lookup, looked up again, is the same symbol. */
  lemma FindBestSymbolIdempotent(close: (string, seq<string>) -> seq<string>, userInput: string)
    requires IsMatcher(close)
    ensures FindBestSymbol(close, FindBestSymbol(close, userInput)) == FindBestSymbol(close, userInput)
  {
    var r := FindBestSymbol(close, userInput);
    if r in Symbols(CompanySymbols) {
      var i :| 0 <= i < |CompanySymbols| && Symbols(CompanySymbols)[i] == r;
      SymbolIsUpper(i);
      FindBestSymbolBySymbol(close, r, i);
    } else {
      FindBestSymbolIgnoresCase(close, userInput);
    }
  }

  lemma FindBestSymbolHdfcBank(close: (string, seq<string>) -> seq<string>)
    requires IsMatcher(close)
    ensures FindBestSymbol(close, "hdfc bank") == "HDFCBANK"
  {
    var u := Upper("hdfc bank");
    assert u[0] == 'H' && u[1] == 'D' && u[2] == 'F' && u[3] == 'C' && u[4] == ' ';
    assert u[5] == 'B' && u[6] == 'A' && u[7] == 'N' && u[8] == 'K';
    assert u == "HDFC BANK";
    FindBestSymbolByName(close, "hdfc bank", 3);
  }

  lemma FindBestSymbolAmazon(close: (string, seq<string>) -> seq<string>)
    requires IsMatcher(close)
    ensures FindBestSymbol(close, "amazon") == "AMZN"
  {
    var u := Upper("amazon");
    assert u[0] == 'A' && u[1] == 'M' && u[2] == 'A' && u[3] == 'Z' && u[4] == 'O' && u[5] == 'N';
    assert u == "AMAZON";
    FindBestSymbolByName(close, "amazon", 4);
  }

  lemma FindBestSymbolInfy(close: (string, seq<string>) -> seq<string>)
    requires IsMatcher(close)
    ensures FindBestSymbol(close, "infy") == "INFY"
  {
    var u := Upper("infy");
    assert u[0] == 'I' && u[1] == 'N' && u[2] == 'F' && u[3] == 'Y';
    assert u == "INFY";
    FindBestSymbolBySymbol(close, "infy", 1);
  }

  // ---------------------------------------------------------------- parse_table

  /** any(row_data): some cell has text. */
  predicate HasText(row: seq<string>)
  {
    exists k :: 0 <= k < |row| && row[k] != ""
  }

  /** The body rows parse_table keeps, in document order. */
  function TextRows(rows: seq<seq<string>>): seq<seq<string>>
  {
    if rows == [] then []
    else if HasText(rows[|rows| - 1]) then TextRows(rows[..|rows| - 1]) + [rows[|rows| - 1]]
    else TextRows(rows[..|rows| - 1])
  }

  /** A table element as parse_table sees it: the header cells of its first head row,
      if it has one, and the cells of each body row, if it has a body. */
  datatype TableTag = TableTag(headRow: Option<seq<string>>, body: Option<seq<seq<string>>>)

  /** parse_table's answer: {} for a missing table, else its headers and rows. */
  datatype ParsedTable = NoTable | Parsed(headers: seq<string>, rows: seq<seq<string>>)

  method ParseTable(tag: Option<TableTag>) returns (t: ParsedTable)
    ensures tag.None? ==> t == NoTable
    ensures tag.Some? ==> t == Parsed(if tag.value.headRow.Some? then tag.value.headRow.value else [],
                                      if tag.value.body.Some? then TextRows(tag.value.body.value) else [])
  {
    if tag.None? {
      return NoTable;
    }
    var headers := if tag.value.headRow.Some? then tag.value.headRow.value else [];
    var rows: seq<seq<string>> := [];
    if tag.value.body.Some? {
      var body := tag.value.body.value;
      var i := 0;
      while i < |body|
        invariant 0 <= i <= |body|
        invariant rows == TextRows(body[..i])
      {
        PrefixStep(body, i);
        if exists k :: 0 <= k < |body[i]| && body[i][k] != "" {
          rows := rows + [body[i]];
        }
        i := i + 1;
      }
      assert body[..i] == body;
    }
    return Parsed(headers, rows);
  }

  /** Rows are filtered one after the other: the kept rows of a concatenation are the
      kept rows of each part, in order. */
  lemma {:induction false} TextRowsAppend(a: seq<seq<string>>, b: seq<seq<string>>)
    ensures TextRows(a + b) == TextRows(a) + TextRows(b)
  {
    if b == [] {
      assert a + b == a;
    } else {
      var init := b[..|b| - 1];
      assert (a + b)[..|a + b| - 1] == a + init;
      assert (a + b)[|a + b| - 1] == b[|b| - 1];
      TextRowsAppend(a, init);
    }
  }

  /** A row is kept exactly when some cell has text. */
  lemma {:induction false} TextRowsKeeps(rows: seq<seq<string>>, row: seq<string>)
    ensures row in TextRows(rows) <==> row in rows && HasText(row)
  {
    if rows != [] {
      var init := rows[..|rows| - 1];
      TextRowsKeeps(init, row);
      assert rows == init + [rows[|rows| - 1]];
    }
  }

  lemma TextRowsBound(rows: seq<seq<string>>)
    ensures |TextRows(rows)| <= |rows|
  {
  }

  // ---------------------------------------------------------------- parse_growth_tables

  /** A row of a ranges table: a row with a header cell, read for that cell's text, or
      a row of data cells, read for their texts. */
  datatype GrowthRow = Heading(text: string) | Cells(cells: seq<string>)

  /** The growth tables collected so far and the current heading's text, "" when there
      is none yet in this table (None and "" both make the data rows be ignored). */
  datatype GrowthState = GrowthState(data: Assoc<Assoc<string>>, heading: string)

  /** Every dictionary, the outer one and the one under each heading, has distinct keys. */
  predicate GrowthValid(data: Assoc<Assoc<string>>)
  {
    DistinctKeys(data) && forall k :: k in Keys(data) ==> DistinctKeys(Get(data, k).value)
  }

  lemma PutValid(data: Assoc<Assoc<string>>, k: string, v: Assoc<string>)
    requires GrowthValid(data) && DistinctKeys(v)
    ensures GrowthValid(Put(data, k, v))
    ensures Keys(data) <= Keys(Put(data, k, v)) && k in Keys(Put(data, k, v))
  {
    var r := Put(data, k, v);
    forall k' | k' in Keys(r)
      ensures DistinctKeys(Get(r, k').value)
    {
      if k' != k {
        assert Get(r, k') == Get(data, k');
      }
    }
  }

  /** label.rstrip(":"). */
  function TrimColons(s: string): (r: string)
    ensures |r| <= |s| && r == s[..|r|]
    ensures r == [] || r[|r| - 1] != ':'
    ensures forall i :: |r| <= i < |s| ==> s[i] == ':'
  {
    if s == [] || s[|s| - 1] != ':' then s else TrimColons(s[..|s| - 1])
  }

  /** One row of parse_growth_tables' inner loop. A heading row starts a fresh, empty
      dictionary under its text and makes it current (data[heading_text] = {} with
      row_data aliasing it); a row of exactly two data cells under a non-empty heading
      stores label to value in the current dictionary; any other row changes nothing. */
  function GrowthStep(st: GrowthState, row: GrowthRow): (r: GrowthState)
    requires GrowthValid(st.data)
    requires st.heading != "" ==> st.heading in Keys(st.data)
    ensures GrowthValid(r.data)
    ensures r.heading != "" ==> r.heading in Keys(r.data)
  {
    match row
    case Heading(text) =>
      PutValid(st.data, text, []);
      GrowthState(Put(st.data, text, []), text)
    case Cells(cells) =>
      if |cells| == 2 && st.heading != "" then
        var current := Get(st.data, st.heading).value;
        PutValid(st.data, st.heading, Put(current, TrimColons(cells[0]), cells[1]));
        GrowthState(Put(st.data, st.heading, Put(current, TrimColons(cells[0]), cells[1])), st.heading)
      else st
  }

  /** The rows of one table, from the given state, first row first. */
  function GrowthRows(st: GrowthState, rows: seq<GrowthRow>): (r: GrowthState)
    requires GrowthValid(st.data)
    requires st.heading != "" ==> st.heading in Keys(st.data)
    ensures GrowthValid(r.data)
    ensures r.heading != "" ==> r.heading in Keys(r.data)
    decreases |rows|
  {
    if rows == [] then st else GrowthRows(GrowthStep(st, rows[0]), rows[1..])
  }

  lemma GrowthRowsStep(st: GrowthState, rows: seq<GrowthRow>, r: nat)
    requires GrowthValid(st.data)
    requires st.heading != "" ==> st.heading in Keys(st.data)
    requires r < |rows|
    ensures GrowthRows(st, rows[r..]) == GrowthRows(GrowthStep(st, rows[r]), rows[r + 1..])
  {
    SuffixStep(rows, r);
  }

  /** The tables, first table first; each starts with no current heading. */
  function GrowthTables(data: Assoc<Assoc<string>>, tables: seq<seq<GrowthRow>>): (r: Assoc<Assoc<string>>)
    requires GrowthValid(data)
    ensures GrowthValid(r)
    decreases |tables|
  {
    if tables == [] then data
    else GrowthTables(GrowthRows(GrowthState(data, ""), tables[0]).data, tables[1..])
  }

  /** What one row does. A heading row makes its text current and leaves an empty
      dictionary under it, the other headings untouched. A two-cell row under a
      current heading stores its value under its colon-trimmed label there and touches
      nothing else. Every other row changes nothing. */
  lemma GrowthStepEffect(st: GrowthState, row: GrowthRow)
    requires GrowthValid(st.data)
    requires st.heading != "" ==> st.heading in Keys(st.data)
    ensures var r := GrowthStep(st, row);
      (row.Heading? ==>
        r.heading == row.text && Get(r.data, row.text) == Some([]) &&
        forall k :: k != row.text ==> Get(r.data, k) == Get(st.data, k)) &&
      (row.Cells? && |row.cells| == 2 && st.heading != "" ==>
        r.heading == st.heading &&
        Get(Get(r.data, st.heading).value, TrimColons(row.cells[0])) == Some(row.cells[1]) &&
        (forall k :: k != TrimColons(row.cells[0]) ==>
          Get(Get(r.data, st.heading).value, k) == Get(Get(st.data, st.heading).value, k)) &&
        (forall k :: k != st.heading ==> Get(r.data, k) == Get(st.data, k))) &&
      (row.Cells? && (|row.cells| != 2 || st.heading == "") ==> r == st)
  {
  }

  /** Data rows met while there is no current heading are dropped. */
  lemma {:induction false} GrowthRowsSkipHeadless(data: Assoc<Assoc<string>>, rows: seq<GrowthRow>, k: nat)
    requires GrowthValid(data)
    requires k <= |rows| && forall i :: 0 <= i < k ==> rows[i].Cells?
    ensures GrowthRows(GrowthState(data, ""), rows) == GrowthRows(GrowthState(data, ""), rows[k..])
  {
    if k > 0 {
      assert GrowthStep(GrowthState(data, ""), rows[0]) == GrowthState(data, "");
      GrowthRowsSkipHeadless(data, rows[1..], k - 1);
      assert rows[1..][k - 1..] == rows[k..];
    }
  }

  /** Each table starts with no current heading: the data rows at the top of a table
      are dropped, even when the table before it ended under a heading. */
  lemma TableStartsWithoutHeading(data: Assoc<Assoc<string>>, first: seq<GrowthRow>,
                                  headless: seq<GrowthRow>, rest: seq<GrowthRow>)
    requires GrowthValid(data)
    requires forall i :: 0 <= i < |headless| ==> headless[i].Cells?
    ensures GrowthTables(data, [first, headless + rest]) == GrowthTables(data, [first, rest])
  {
    var mid := GrowthRows(GrowthState(data, ""), first).data;
    GrowthRowsSkipHeadless(mid, headless + rest, |headless|);
    assert (headless + rest)[|headless|..] == rest;
    TwoTables(data, first, headless + rest);
    TwoTables(data, first, rest);
  }

  lemma TwoTables(data: Assoc<Assoc<string>>, first: seq<GrowthRow>, second: seq<GrowthRow>)
    requires GrowthValid(data)
    ensures GrowthTables(data, [first, second]) ==
      GrowthRows(GrowthState(GrowthRows(GrowthState(data, ""), first).data, ""), second).data
  {
    var mid := GrowthRows(GrowthState(data, ""), first).data;
    assert [first, second][1..] == [second];
    assert GrowthTables(data, [first, second]) == GrowthTables(mid, [second]);
    assert [second][1..] == [];
  }

  /** parse_growth_tables: every ranges table in turn, each starting with no heading. */
  method ParseGrowthTables(tables: seq<seq<GrowthRow>>) returns (data: Assoc<Assoc<string>>)
    ensures GrowthValid(data)
    ensures data == GrowthTables([], tables)
  {
    data := [];
    var t := 0;
    while t < |tables|
      invariant 0 <= t <= |tables|
      invariant GrowthValid(data)
      invariant GrowthTables(data, tables[t..]) == GrowthTables([], tables)
    {
      SuffixStep(tables, t);
      data := ParseGrowthRows(data, tables[t]);
      t := t + 1;
    }
  }

  /** The row loop of parse_growth_tables over one table. */
  method ParseGrowthRows(data0: Assoc<Assoc<string>>, rows: seq<GrowthRow>) returns (data: Assoc<Assoc<string>>)
    requires GrowthValid(data0)
    ensures GrowthValid(data)
    ensures data == GrowthRows(GrowthState(data0, ""), rows).data
  {
    data := data0;
    var heading := "";
    var r := 0;
    while r < |rows|
      invariant 0 <= r <= |rows|
      invariant GrowthValid(data)
      invariant heading != "" ==> heading in Keys(data)
      invariant GrowthRows(GrowthState(data, heading), rows[r..]) == GrowthRows(GrowthState(data0, ""), rows)
    {
      GrowthRowsStep(GrowthState(data, heading), rows, r);
      data, heading := ParseGrowthRow(data, heading, rows[r]);
      r := r + 1;
    }
  }

  /** The body of the row loop: one row against the dictionary and the current heading. */
  method ParseGrowthRow(data0: Assoc<Assoc<string>>, heading0: string, row: GrowthRow)
    returns (data: Assoc<Assoc<string>>, heading: string)
    requires GrowthValid(data0)
    requires heading0 != "" ==> heading0 in Keys(data0)
    ensures GrowthState(data, heading) == GrowthStep(GrowthState(data0, heading0), row)
  {
    data, heading := data0, heading0;
    match row {
      case Heading(text) =>
        PutValid(data, text, []);
        data := Put(data, text, []);
        heading := text;
      case Cells(cells) =>
        if |cells| == 2 && heading != "" {
          var name := TrimColons(cells[0]);
          var current := Get(data, heading).value;
          PutValid(data, heading, Put(current, name, cells[1]));
          data := Put(data, heading, Put(current, name, cells[1]));
        }
    }
  }

  // ---------------------------------------------------------------- scrape_screener_data

  /** The section parsers of the scraper; what each extracts is not part of this model. */
  datatype Parser = SummaryParser | AnalysisParser | PeersParser | QuartersParser | ProfitLossParser
    | BalanceSheetParser | CashFlowParser | RatiosParser | ShareholdingParser | DocumentsParser

  /** parser_map: link labels and section ids to parsers; "Chart" is mapped to None.
      Only looked up, so its order plays no part. */
  const ParserMap: map<string, Option<Parser>> := map[
    "Summary" := Some(SummaryParser), "top" := Some(SummaryParser), "Chart" := None,
    "analysis" := Some(AnalysisParser), "Analysis" := Some(AnalysisParser),
    "peers" := Some(PeersParser), "Peers" := Some(PeersParser),
    "quarters" := Some(QuartersParser), "Quarters" := Some(QuartersParser),
    "profit-loss" := Some(ProfitLossParser), "Profit & Loss" := Some(ProfitLossParser),
    "balance-sheet" := Some(BalanceSheetParser), "Balance Sheet" := Some(BalanceSheetParser),
    "cash-flow" := Some(CashFlowParser), "Cash Flow" := Some(CashFlowParser),
    "ratios" := Some(RatiosParser), "Ratios" := Some(RatiosParser),
    "shareholding" := Some(ShareholdingParser), "investors" := Some(ShareholdingParser),
    "Investors" := Some(ShareholdingParser),
    "documents" := Some(DocumentsParser), "Documents" := Some(DocumentsParser)]

  /** parser_map.get(key), read for its truth: an absent key and a key mapped to None
      both give nothing. */
  function LookupParser(key: string): (p: Option<Parser>)
    ensures p.Some? <==> key in ParserMap && ParserMap[key].Some?
    ensures p.Some? ==> ParserMap[key] == p
  {
    if key in ParserMap && ParserMap[key].Some? then ParserMap[key] else None
  }

  /** parser_map.get(link_label) or parser_map.get(section_id). */
  function ChooseParser(linkLabel: string, id: string): (p: Option<Parser>)
    ensures LookupParser(linkLabel).Some? ==> p == LookupParser(linkLabel)
    ensures LookupParser(linkLabel).None? ==> p == LookupParser(id)
  {
    match LookupParser(linkLabel)
    case Some(p) => Some(p)
    case None => LookupParser(id)
  }

  const NoParserInfo := "No specialized parser for this section."

  /** What results[link_label] receives: the output of the chosen parser, or the info
      dictionary when there is none. */
  datatype SectionResult = ParsedBy(parser: Parser) | Info(message: string)

  function ResultFor(linkLabel: string, id: string): (r: SectionResult)
    ensures r.ParsedBy? <==> ChooseParser(linkLabel, id).Some?
    ensures r.ParsedBy? ==> r.parser == ChooseParser(linkLabel, id).value
    ensures r.Info? ==> r.message == NoParserInfo
  {
    match ChooseParser(linkLabel, id)
    case Some(p) => ParsedBy(p)
    case None => Info(NoParserInfo)
  }

  /** A sub-navigation anchor: its href and its stripped text. */
  datatype Link = Link(href: string, text: string)

  /** href.lstrip("#"). */
  function TrimHashes(s: string): (r: string)
    ensures |r| <= |s| && r == s[|s| - |r|..]
    ensures r == [] || r[0] != '#'
    ensures forall i :: 0 <= i < |s| - |r| ==> s[i] == '#'
  {
    if s == [] || s[0] != '#' then s else TrimHashes(s[1..])
  }

  /** link_label: the link's text, or the section id when the text is empty. */
  function LinkLabel(link: Link): string
  {
    var id := TrimHashes(link.href);
    if link.text != "" then link.text else id
  }

  /** A link is used when its href starts with '#' and the page has a section or div
      with that id. */
  predicate LinkUsed(link: Link, present: string -> bool)
  {
    StartsWith(link.href, "#") && present(TrimHashes(link.href))
  }

  /** The results of the sub-navigation loop, in insertion order; a later link with the
      same label overwrites the earlier result in place. */
  function SectionResults(links: seq<Link>, present: string -> bool): (r: Assoc<SectionResult>)
    ensures DistinctKeys(r)
  {
    if links == [] then []
    else
      var prev := SectionResults(links[..|links| - 1], present);
      var link := links[|links| - 1];
      if LinkUsed(link, present) then
        Put(prev, LinkLabel(link), ResultFor(LinkLabel(link), TrimHashes(link.href)))
      else prev
  }

  lemma SectionResultsStep(links: seq<Link>, present: string -> bool, i: nat)
    requires i < |links|
    ensures SectionResults(links[..i + 1], present) ==
      var link := links[i];
      if LinkUsed(link, present) then
        Put(SectionResults(links[..i], present), LinkLabel(link), ResultFor(LinkLabel(link), TrimHashes(link.href)))
      else SectionResults(links[..i], present)
  {
    PrefixStep(links, i);
  }

  /** The parser choice and call for one section present on the page. */
  method SectionResultOf(linkLabel: string, sectionId: string) returns (result: SectionResult)
    ensures result == ResultFor(linkLabel, sectionId)
  {
    var parser := LookupParser(linkLabel);
    if parser.None? {
      parser := LookupParser(sectionId);
    }
    result := if parser.Some? then ParsedBy(parser.value) else Info(NoParserInfo);
  }

  method DispatchSections(links: seq<Link>, present: string -> bool) returns (results: Assoc<SectionResult>)
    ensures results == SectionResults(links, present)
  {
    results := [];
    var i := 0;
    while i < |links|
      invariant 0 <= i <= |links|
      invariant results == SectionResults(links[..i], present)
    {
      var link := links[i];
      SectionResultsStep(links, present, i);
      if !StartsWith(link.href, "#") {
        i := i + 1;
        continue;
      }
      var sectionId := TrimHashes(link.href);
      var linkLabel := if link.text != "" then link.text else sectionId;
      assert linkLabel == LinkLabel(link);
      if present(sectionId) {
        var result := SectionResultOf(linkLabel, sectionId);
        results := Put(results, linkLabel, result);
      }
      i := i + 1;
    }
    assert links[..i] == links;
  }

  /** A label has a result exactly when some used link carries it, and the result is
      the one of the last such link. */
  lemma {:induction false} SectionResultsLastLinkWins(links: seq<Link>, present: string -> bool, i: nat)
    requires i < |links| && LinkUsed(links[i], present)
    requires forall j :: i < j < |links| && LinkUsed(links[j], present) ==>
      LinkLabel(links[j]) != LinkLabel(links[i])
    ensures Get(SectionResults(links, present), LinkLabel(links[i])) ==
      Some(ResultFor(LinkLabel(links[i]), TrimHashes(links[i].href)))
  {
    var n := |links| - 1;
    var init := links[..n];
    var wanted := LinkLabel(links[i]);
    SectionResultsStep(links, present, n);
    assert links[..n + 1] == links;
    if i < n {
      forall j | i < j < |init| && LinkUsed(init[j], present)
        ensures LinkLabel(init[j]) != wanted
      {
        assert init[j] == links[j];
      }
      assert init[i] == links[i];
      SectionResultsLastLinkWins(init, present, i);
      if LinkUsed(links[n], present) {
        assert LinkLabel(links[n]) != wanted;
      }
    }
  }

  lemma {:induction false} SectionResultsKeys(links: seq<Link>, present: string -> bool, key: string)
    ensures key in Keys(SectionResults(links, present)) <==>
      exists i :: 0 <= i < |links| && LinkUsed(links[i], present) && LinkLabel(links[i]) == key
  {
    if links != [] {
      var n := |links| - 1;
      var init := links[..n];
      var last := links[n];
      var prev := SectionResults(init, present);
      var r := SectionResults(links, present);
      SectionResultsKeys(init, present, key);
      if LinkUsed(last, present) {
        var value := ResultFor(LinkLabel(last), TrimHashes(last.href));
        assert r == Put(prev, LinkLabel(last), value);
        PutKeys(prev, LinkLabel(last), value, key);
      } else {
        assert r == prev;
      }
      if key in Keys(r) {
        if key in Keys(prev) {
          var i :| 0 <= i < |init| && LinkUsed(init[i], present) && LinkLabel(init[i]) == key;
          assert links[i] == init[i];
          assert LinkUsed(links[i], present) && LinkLabel(links[i]) == key;
        } else {
          assert LinkUsed(links[n], present) && LinkLabel(links[n]) == key;
        }
      } else {
        forall i | 0 <= i < |links| ensures !(LinkUsed(links[i], present) && LinkLabel(links[i]) == key) {
          if i < n {
            assert links[i] == init[i];
          }
        }
      }
    }
  }

  /** The label is consulted before the id. */
  lemma ChooseParserByLabel()
    ensures ChooseParser("Profit & Loss", "profit-loss") == Some(ProfitLossParser)
    ensures ChooseParser("Investors", "shareholding") == Some(ShareholdingParser)
  {
  }

  /** "Chart" is mapped to None, which counts as no parser: a Chart link falls through
      to its id, and with an unknown id it gets the info dictionary. */
  lemma ChartFallsThrough()
    ensures LookupParser("Chart") == None
    ensures ChooseParser("Chart", "chart") == None
    ensures ChooseParser("Chart", "top") == Some(SummaryParser)
    ensures ResultFor("Chart", "chart") == Info(NoParserInfo)
  {
    assert "chart" !in ParserMap;
  }
}
