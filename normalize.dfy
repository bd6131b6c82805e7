/** create_normalized_rows (powerbi.py): the nested statement -> section -> metric ->
    year -> value dictionaries become one long-format record per non-empty value of the
    years 2019 to 2025. Each section holds a metric table as parse_financial_table builds it. */
module Normalizer {
  import opened Wrappers
  import opened Sequences
  import opened Text
  import opened Cleaning
  import opened OrderedMap
  import opened FinancialTable

  /** Config.SOURCE. */
  const Source := "Screener.in"

  /** The years the records cover, as the dictionaries spell them. */
  const AllYears: seq<string> := ["2019", "2020", "2021", "2022", "2023", "2024", "2025"]

  /** One output row. */
  datatype Record = Record(company: string, symbol: string, statement: string, section: string,
                           metric: string, year: int, value: string, unit: string, source: string)

  type Metrics = Assoc<Assoc<string>>
  type Sections = Assoc<Metrics>
  type Statements = Assoc<Sections>

  /** int(s), read digit by digit; the year strings are all decimal digits. */
  function DigitsValue(s: string): int
  {
    if s == [] then 0
    else DigitsValue(s[..|s| - 1]) * 10 + (s[|s| - 1] as int - '0' as int)
  }

  lemma DigitsOfYear(c: char, d: char)
    requires IsDigit(c) && IsDigit(d)
    ensures DigitsValue(['2', '0', c, d]) == 2000 + (c as int - '0' as int) * 10 + (d as int - '0' as int)
  {
    var s := ['2', '0', c, d];
    assert ['2'][..0] == [];
    assert DigitsValue(['2']) == 2;
    assert ['2', '0'][..1] == ['2'];
    assert DigitsValue(['2', '0']) == 20;
    assert ['2', '0', c][..2] == ['2', '0'];
    assert DigitsValue(['2', '0', c]) == 200 + (c as int - '0' as int);
    assert s[..3] == ['2', '0', c];
  }

  /** The year strings read as the numbers 2019 to 2025, in order. */
  lemma YearValue(i: nat)
    requires i < |AllYears|
    ensures DigitsValue(AllYears[i]) == 2019 + i
  {
    if i == 0 { DigitsOfYear('1', '9'); }
    else if i == 1 { DigitsOfYear('2', '0'); }
    else if i == 2 { DigitsOfYear('2', '1'); }
    else if i == 3 { DigitsOfYear('2', '2'); }
    else if i == 4 { DigitsOfYear('2', '3'); }
    else if i == 5 { DigitsOfYear('2', '4'); }
    else { DigitsOfYear('2', '5'); }
  }

  /** year_values.get(year, ""). */
  function ValueFor(yearValues: Assoc<string>, year: string): string
  {
    match Get(yearValues, year)
    case None => ""
    case Some(v) => v
  }

  /** The records of one metric, under its cleaned name and inferred unit, for the
      first n years of AllYears: one per year whose value is not empty. */
  function YearRecords(company: string, symbol: string, statement: string, section: string,
                       name: string, unit: string, yearValues: Assoc<string>, n: nat): seq<Record>
    requires n <= |AllYears|
  {
    if n == 0 then []
    else
      var rest := YearRecords(company, symbol, statement, section, name, unit, yearValues, n - 1);
      var value := ValueFor(yearValues, AllYears[n - 1]);
      if value == "" then rest
      else
        rest + [Record(company, symbol, statement, section, name, DigitsValue(AllYears[n - 1]), value, unit, Source)]
  }

  /** The records of one metric. */
  function MetricRecords(company: string, symbol: string, statement: string, section: string,
                         metric: string, yearValues: Assoc<string>): seq<Record>
  {
    YearRecords(company, symbol, statement, section, CleanMetricName(metric), InferUnit(metric, statement),
                yearValues, |AllYears|)
  }

  function SectionRecords(company: string, symbol: string, statement: string, section: string,
                          metrics: Metrics): seq<Record>
  {
    if metrics == [] then []
    else
      var last := metrics[|metrics| - 1];
      SectionRecords(company, symbol, statement, section, metrics[..|metrics| - 1])
        + MetricRecords(company, symbol, statement, section, last.0, last.1)
  }

  function StatementRecords(company: string, symbol: string, statement: string,
                            sections: Sections): seq<Record>
  {
    if sections == [] then []
    else
      var last := sections[|sections| - 1];
      StatementRecords(company, symbol, statement, sections[..|sections| - 1])
        + SectionRecords(company, symbol, statement, last.0, last.1)
  }

  /** The records create_normalized_rows returns, statement by statement, section by
      section, metric by metric, year by year. */
  function NormalizedRecords(company: string, symbol: string, tables: Statements): seq<Record>
  {
    if tables == [] then []
    else
      var last := tables[|tables| - 1];
      NormalizedRecords(company, symbol, tables[..|tables| - 1])
        + StatementRecords(company, symbol, last.0, last.1)
  }

  lemma SectionRecordsStep(company: string, symbol: string, statement: string, section: string,
                           metrics: Metrics, m: nat)
    requires m < |metrics|
    ensures SectionRecords(company, symbol, statement, section, metrics[..m + 1]) ==
      SectionRecords(company, symbol, statement, section, metrics[..m])
      + MetricRecords(company, symbol, statement, section, metrics[m].0, metrics[m].1)
  {
    PrefixStep(metrics, m);
  }

  lemma StatementRecordsStep(company: string, symbol: string, statement: string, sections: Sections, s: nat)
    requires s < |sections|
    ensures StatementRecords(company, symbol, statement, sections[..s + 1]) ==
      StatementRecords(company, symbol, statement, sections[..s])
      + SectionRecords(company, symbol, statement, sections[s].0, sections[s].1)
  {
    PrefixStep(sections, s);
  }

  lemma NormalizedRecordsStep(company: string, symbol: string, tables: Statements, t: nat)
    requires t < |tables|
    ensures NormalizedRecords(company, symbol, tables[..t + 1]) ==
      NormalizedRecords(company, symbol, tables[..t]) + StatementRecords(company, symbol, tables[t].0, tables[t].1)
  {
    PrefixStep(tables, t);
  }

  /** A record as create_normalized_rows builds it for the given company and symbol:
      the source tag, a non-empty value, a year from 2019 to 2025 and a known unit. */
  predicate Emitted(r: Record, company: string, symbol: string)
  {
    r.company == company && r.symbol == symbol && r.source == Source && r.value != ""
    && 2019 <= r.year <= 2025 && r.unit in Units
  }

  /** One more year: its record, with the year read as a number, is appended when its
      value is not empty. */
  lemma YearRecordsStep(company: string, symbol: string, statement: string, section: string,
                        name: string, unit: string, yearValues: Assoc<string>, n: nat)
    requires 0 < n <= |AllYears|
    ensures var rest := YearRecords(company, symbol, statement, section, name, unit, yearValues, n - 1);
      var value := ValueFor(yearValues, AllYears[n - 1]);
      YearRecords(company, symbol, statement, section, name, unit, yearValues, n) ==
        if value == "" then rest
        else rest + [Record(company, symbol, statement, section, name, 2019 + (n - 1), value, unit, Source)]
  {
    YearValue(n - 1);
  }

  /** The records of one metric carry its statement, section, name and unit, have
      non-empty values, and their years are among the first n. */
  lemma {:induction false} YearRecordsShape(company: string, symbol: string, statement: string, section: string,
                                            name: string, unit: string, yearValues: Assoc<string>, n: nat)
    requires n <= |AllYears|
    ensures var rs := YearRecords(company, symbol, statement, section, name, unit, yearValues, n);
      |rs| <= n &&
      forall k :: 0 <= k < |rs| ==>
        rs[k].company == company && rs[k].symbol == symbol && rs[k].statement == statement &&
        rs[k].section == section && rs[k].metric == name && rs[k].unit == unit &&
        rs[k].source == Source && rs[k].value != "" && 2019 <= rs[k].year < 2019 + n
  {
    if n > 0 {
      YearRecordsShape(company, symbol, statement, section, name, unit, yearValues, n - 1);
      YearRecordsStep(company, symbol, statement, section, name, unit, yearValues, n);
    }
  }

  /** The records of one metric are in strictly ascending year order. */
  lemma {:induction false} YearRecordsAscending(company: string, symbol: string, statement: string,
                                                section: string, name: string, unit: string,
                                                yearValues: Assoc<string>, n: nat)
    requires n <= |AllYears|
    ensures var rs := YearRecords(company, symbol, statement, section, name, unit, yearValues, n);
      forall j, k :: 0 <= j < k < |rs| ==> rs[j].year < rs[k].year
  {
    if n > 0 {
      var rest := YearRecords(company, symbol, statement, section, name, unit, yearValues, n - 1);
      var rs := YearRecords(company, symbol, statement, section, name, unit, yearValues, n);
      YearRecordsAscending(company, symbol, statement, section, name, unit, yearValues, n - 1);
      YearRecordsShape(company, symbol, statement, section, name, unit, yearValues, n - 1);
      YearRecordsStep(company, symbol, statement, section, name, unit, yearValues, n);
      forall j, k | 0 <= j < k < |rs| ensures rs[j].year < rs[k].year {
        assert rs[j] == rest[j];
        if k < |rest| {
          assert rs[k] == rest[k];
        } else {
          assert rs[k].year == 2019 + (n - 1);
        }
      }
    }
  }

  /** A year with a non-empty value yields a record, at index k, of that year holding
      the value. */
  lemma {:induction false} YearRecordsHasYear(company: string, symbol: string, statement: string, section: string,
                                              name: string, unit: string, yearValues: Assoc<string>, n: nat, i: nat)
    returns (k: nat)
    requires i < n <= |AllYears|
    requires ValueFor(yearValues, AllYears[i]) != ""
    ensures k < |YearRecords(company, symbol, statement, section, name, unit, yearValues, n)|
    ensures YearRecords(company, symbol, statement, section, name, unit, yearValues, n)[k].year == 2019 + i
    ensures YearRecords(company, symbol, statement, section, name, unit, yearValues, n)[k].value
      == ValueFor(yearValues, AllYears[i])
  {
    var rs := YearRecords(company, symbol, statement, section, name, unit, yearValues, n);
    var rest := YearRecords(company, symbol, statement, section, name, unit, yearValues, n - 1);
    YearRecordsStep(company, symbol, statement, section, name, unit, yearValues, n);
    if i < n - 1 {
      k := YearRecordsHasYear(company, symbol, statement, section, name, unit, yearValues, n - 1, i);
      assert rs[k] == rest[k];
    } else {
      k := |rest|;
      assert rs[k] == Record(company, symbol, statement, section, name, 2019 + i,
                             ValueFor(yearValues, AllYears[i]), unit, Source);
    }
  }

  /** Every record of a year holds that year's value: no record is invented for a year,
      and together with YearRecordsHasYear a year has a record exactly when it has a
      non-empty value. */
  lemma {:induction false} YearRecordsValueOfYear(company: string, symbol: string, statement: string,
                                                  section: string, name: string, unit: string,
                                                  yearValues: Assoc<string>, n: nat, i: nat, k: nat)
    requires n <= |AllYears| && i < |AllYears|
    requires k < |YearRecords(company, symbol, statement, section, name, unit, yearValues, n)|
    requires YearRecords(company, symbol, statement, section, name, unit, yearValues, n)[k].year == 2019 + i
    ensures YearRecords(company, symbol, statement, section, name, unit, yearValues, n)[k].value
      == ValueFor(yearValues, AllYears[i]) != ""
  {
    var rs := YearRecords(company, symbol, statement, section, name, unit, yearValues, n);
    var rest := YearRecords(company, symbol, statement, section, name, unit, yearValues, n - 1);
    YearRecordsStep(company, symbol, statement, section, name, unit, yearValues, n);
    if k < |rest| {
      assert rs[k] == rest[k];
      YearRecordsValueOfYear(company, symbol, statement, section, name, unit, yearValues, n - 1, i, k);
    } else {
      assert rs[k].year == 2019 + (n - 1) && i == n - 1;
    }
  }

  /** A metric whose years 2019 to 2025 all lack a value yields no record. */
  lemma MetricWithoutValues(company: string, symbol: string, statement: string, section: string,
                            metric: string, yearValues: Assoc<string>)
    requires forall i :: 0 <= i < |AllYears| ==> ValueFor(yearValues, AllYears[i]) == ""
    ensures MetricRecords(company, symbol, statement, section, metric, yearValues) == []
  {
    var rs := MetricRecords(company, symbol, statement, section, metric, yearValues);
    if rs != [] {
      YearRecordsShape(company, symbol, statement, section, CleanMetricName(metric),
                       InferUnit(metric, statement), yearValues, |AllYears|);
      var i := rs[0].year - 2019;
      YearRecordsValueOfYear(company, symbol, statement, section, CleanMetricName(metric),
                             InferUnit(metric, statement), yearValues, |AllYears|, i, 0);
      assert false;
    }
  }

  /** Every record of a section is emitted under that statement and section, with the
      cleaned name and inferred unit of one of the section's metrics. */
  lemma {:induction false} SectionRecordsShape(company: string, symbol: string, statement: string, section: string,
                                               metrics: Metrics, r: Record)
    requires r in SectionRecords(company, symbol, statement, section, metrics)
    ensures Emitted(r, company, symbol) && r.statement == statement && r.section == section
    ensures exists m :: m in Keys(metrics) && r.metric == CleanMetricName(m) && r.unit == InferUnit(m, statement)
  {
    var last := metrics[|metrics| - 1];
    var init := metrics[..|metrics| - 1];
    if r in SectionRecords(company, symbol, statement, section, init) {
      SectionRecordsShape(company, symbol, statement, section, init, r);
      var m :| m in Keys(init) && r.metric == CleanMetricName(m) && r.unit == InferUnit(m, statement);
      assert Keys(metrics) == Keys(init) + [last.0];
    } else {
      var rs := MetricRecords(company, symbol, statement, section, last.0, last.1);
      YearRecordsShape(company, symbol, statement, section, CleanMetricName(last.0),
                       InferUnit(last.0, statement), last.1, |AllYears|);
      var k :| 0 <= k < |rs| && rs[k] == r;
      assert Keys(metrics) == Keys(init) + [last.0];
    }
  }

  lemma {:induction false} StatementRecordsShape(company: string, symbol: string, statement: string,
                                                 sections: Sections, r: Record)
    requires r in StatementRecords(company, symbol, statement, sections)
    ensures Emitted(r, company, symbol) && r.statement == statement && r.section in Keys(sections)
  {
    var last := sections[|sections| - 1];
    var init := sections[..|sections| - 1];
    assert Keys(sections) == Keys(init) + [last.0];
    if r in StatementRecords(company, symbol, statement, init) {
      StatementRecordsShape(company, symbol, statement, init, r);
    } else {
      SectionRecordsShape(company, symbol, statement, last.0, last.1, r);
    }
  }

  /** Every record carries the company, symbol and source it was asked for, a non-empty
      value, a year from 2019 to 2025, a known unit, and one of the given statements. */
  lemma {:induction false} NormalizedRecordsShape(company: string, symbol: string, tables: Statements, r: Record)
    requires r in NormalizedRecords(company, symbol, tables)
    ensures Emitted(r, company, symbol) && r.statement in Keys(tables)
  {
    var last := tables[|tables| - 1];
    var init := tables[..|tables| - 1];
    assert Keys(tables) == Keys(init) + [last.0];
    if r in NormalizedRecords(company, symbol, init) {
      NormalizedRecordsShape(company, symbol, init, r);
    } else {
      StatementRecordsShape(company, symbol, last.0, last.1, r);
    }
  }

  /** Statements are flattened one after the other: the records of a concatenation are
      the concatenation of the records. */
  lemma {:induction false} NormalizedRecordsAppend(company: string, symbol: string, t1: Statements, t2: Statements)
    ensures NormalizedRecords(company, symbol, t1 + t2) ==
      NormalizedRecords(company, symbol, t1) + NormalizedRecords(company, symbol, t2)
  {
    if t2 == [] {
      assert t1 + t2 == t1;
    } else {
      var init := t2[..|t2| - 1];
      var last := t2[|t2| - 1];
      assert (t1 + t2)[..|t1 + t2| - 1] == t1 + init;
      assert (t1 + t2)[|t1 + t2| - 1] == last;
      NormalizedRecordsAppend(company, symbol, t1, init);
      var added := StatementRecords(company, symbol, last.0, last.1);
      calc {
        NormalizedRecords(company, symbol, t1 + t2);
        NormalizedRecords(company, symbol, t1 + init) + added;
        (NormalizedRecords(company, symbol, t1) + NormalizedRecords(company, symbol, init)) + added;
        NormalizedRecords(company, symbol, t1) + (NormalizedRecords(company, symbol, init) + added);
        NormalizedRecords(company, symbol, t1) + NormalizedRecords(company, symbol, t2);
      }
    }
  }

  /** A section whose table was missing contributes nothing. This holds by the
      definitions alone: parse_financial_table gives {} for a missing table, and the
      metric loop has nothing to visit. */
  lemma MissingTableYieldsNothing(company: string, symbol: string, statement: string, section: string)
    ensures SectionRecords(company, symbol, statement, section, TableData(None)) == []
  {
  }

  /** The innermost loop of create_normalized_rows: the years of one metric, whose
      cleaned name and unit the caller supplies. */
  method AppendYearRows(rows0: seq<Record>, company: string, symbol: string, statement: string,
                        section: string, name: string, unit: string, yearValues: Assoc<string>)
    returns (rows: seq<Record>)
    ensures rows == rows0 + YearRecords(company, symbol, statement, section, name, unit, yearValues, |AllYears|)
  {
    rows := rows0;
    var y := 0;
    while y < |AllYears|
      invariant 0 <= y <= |AllYears|
      invariant rows == rows0 + YearRecords(company, symbol, statement, section, name, unit, yearValues, y)
    {
      var value := ValueFor(yearValues, AllYears[y]);
      YearValue(y);
      YearRecordsStep(company, symbol, statement, section, name, unit, yearValues, y + 1);
      if value != "" {
        var record := Record(company, symbol, statement, section, name, DigitsValue(AllYears[y]), value, unit, Source);
        AppendAssoc(rows0, YearRecords(company, symbol, statement, section, name, unit, yearValues, y), [record]);
        rows := rows + [record];
      }
      y := y + 1;
    }
  }

  /** The metric loop: every metric of one section. */
  method AppendSectionRows(rows0: seq<Record>, company: string, symbol: string, statement: string,
                           section: string, metrics: Metrics) returns (rows: seq<Record>)
    ensures rows == rows0 + SectionRecords(company, symbol, statement, section, metrics)
  {
    rows := rows0;
    var m := 0;
    while m < |metrics|
      invariant 0 <= m <= |metrics|
      invariant rows == rows0 + SectionRecords(company, symbol, statement, section, metrics[..m])
    {
      SectionRecordsStep(company, symbol, statement, section, metrics, m);
      ghost var done := SectionRecords(company, symbol, statement, section, metrics[..m]);
      ghost var added := MetricRecords(company, symbol, statement, section, metrics[m].0, metrics[m].1);
      var metric := metrics[m].0;
      rows := AppendYearRows(rows, company, symbol, statement, section, CleanMetricName(metric),
                             InferUnit(metric, statement), metrics[m].1);
      AppendAssoc(rows0, done, added);
      m := m + 1;
    }
    assert metrics[..m] == metrics;
  }

  /** The section loop: every section of one statement. */
  method AppendStatementRows(rows0: seq<Record>, company: string, symbol: string, statement: string,
                             sections: Sections) returns (rows: seq<Record>)
    ensures rows == rows0 + StatementRecords(company, symbol, statement, sections)
  {
    rows := rows0;
    var s := 0;
    while s < |sections|
      invariant 0 <= s <= |sections|
      invariant rows == rows0 + StatementRecords(company, symbol, statement, sections[..s])
    {
      StatementRecordsStep(company, symbol, statement, sections, s);
      ghost var done := StatementRecords(company, symbol, statement, sections[..s]);
      ghost var added := SectionRecords(company, symbol, statement, sections[s].0, sections[s].1);
      rows := AppendSectionRows(rows, company, symbol, statement, sections[s].0, sections[s].1);
      AppendAssoc(rows0, done, added);
      s := s + 1;
    }
    assert sections[..s] == sections;
  }

  /** create_normalized_rows: the statement loop, starting from no rows. */
  method CreateNormalizedRows(company: string, symbol: string, tables: Statements) returns (rows: seq<Record>)
    ensures rows == NormalizedRecords(company, symbol, tables)
  {
    rows := [];
    var t := 0;
    while t < |tables|
      invariant 0 <= t <= |tables|
      invariant rows == NormalizedRecords(company, symbol, tables[..t])
    {
      NormalizedRecordsStep(company, symbol, tables, t);
      rows := AppendStatementRows(rows, company, symbol, tables[t].0, tables[t].1);
      t := t + 1;
    }
    assert tables[..t] == tables;
  }
}
