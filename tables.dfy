/** parse_financial_table (powerbi.py): one Screener.in statement table, as the text of
    its header cells and of the cells of each body row, becomes a dictionary
    metric -> (year -> cleaned value), both levels in insertion order. */
module FinancialTable {
  import opened Wrappers
  import opened Sequences
  import opened Text
  import opened Cleaning
  import opened OrderedMap

  /** Config.MAX_YEARS: how many year columns are kept. */
  const MaxYears := 6

  /** The regex (20\d{2}) matches at position i of h. */
  predicate IsYearAt(h: string, i: int) {
    0 <= i && i + 4 <= |h| && h[i] == '2' && h[i + 1] == '0' && IsDigit(h[i + 2]) && IsDigit(h[i + 3])
  }

  /** re.search(r"(20\d{2})", h).group(1): the leftmost match, if there is one. */
  function FindYear(h: string): (y: Option<string>)
    ensures y.Some? ==> |y.value| == 4 && y.value[0] == '2' && y.value[1] == '0'
    ensures y.Some? ==> IsDigit(y.value[2]) && IsDigit(y.value[3])
    decreases |h|
  {
    if |h| < 4 then None
    else if IsYearAt(h, 0) then Some(h[..4])
    else FindYear(h[1..])
  }

  /** The search finds a match exactly when there is one, and then the leftmost. */
  lemma {:induction false} FindYearLeftmost(h: string)
    ensures FindYear(h).None? <==> forall i :: 0 <= i < |h| ==> !IsYearAt(h, i)
    ensures FindYear(h).Some? ==> exists i :: IsYearAt(h, i) && FindYear(h).value == h[i..i + 4] &&
                                           forall j :: 0 <= j < i ==> !IsYearAt(h, j)
    decreases |h|
  {
    if |h| >= 4 && !IsYearAt(h, 0) {
      FindYearLeftmost(h[1..]);
      assert forall i :: 1 <= i < |h| ==> (IsYearAt(h, i) <==> IsYearAt(h[1..], i - 1));
      if FindYear(h).Some? {
        var k :| IsYearAt(h[1..], k) && FindYear(h[1..]).value == h[1..][k..k + 4] &&
          forall j :: 0 <= j < k ==> !IsYearAt(h[1..], j);
        assert h[1..][k..k + 4] == h[k + 1..k + 5];
        assert IsYearAt(h, k + 1);
      }
    }
  }

  /** The year of each header that has one, in header order. */
  function YearsOf(headers: seq<string>): (ys: seq<string>)
    ensures |ys| <= |headers|
    ensures forall i :: 0 <= i < |ys| ==> |ys[i]| == 4
  {
    if headers == [] then []
    else
      var rest := YearsOf(headers[..|headers| - 1]);
      match FindYear(headers[|headers| - 1])
      case None => rest
      case Some(y) => rest + [y]
  }

  /** The years of one header: its leftmost match, or none. */
  lemma YearsOfOne(h: string)
    ensures YearsOf([h]) == if FindYear(h).Some? then [FindYear(h).value] else []
  {
    assert [h][..0] == [];
  }

  /** The years of consecutive header runs are the years of each run, in header order. */
  lemma {:induction false} YearsOfAppend(a: seq<string>, b: seq<string>)
    ensures YearsOf(a + b) == YearsOf(a) + YearsOf(b)
    decreases |b|
  {
    if b == [] {
      assert a + b == a;
    } else {
      var n := |b| - 1;
      assert (a + b)[..|a + b| - 1] == a + b[..n];
      assert (a + b)[|a + b| - 1] == b[n];
      YearsOfAppend(a, b[..n]);
    }
  }

  /** The year axis: the years of the headers after the first column, at most the last
      MaxYears of them. */
  function YearAxis(headers: seq<string>): (years: seq<string>)
    ensures |years| <= MaxYears
    ensures forall i :: 0 <= i < |years| ==> |years[i]| == 4
  {
    var ys := YearsOf(if headers == [] then [] else headers[1..]);
    if |ys| <= MaxYears then ys else ys[|ys| - MaxYears..]
  }

  /** Only the oldest years are dropped: the axis holds min(MaxYears, n) years, where n
      is the number of years after the first column, and it is the end of that list. */
  lemma YearAxisIsLatest(headers: seq<string>)
    ensures headers == [] ==> YearAxis(headers) == []
    ensures headers != [] ==> |YearAxis(headers)| == MaxYears || |YearAxis(headers)| == |YearsOf(headers[1..])|
    ensures headers != [] ==> |YearAxis(headers)| <= |YearsOf(headers[1..])|
    ensures headers != [] ==>
      YearAxis(headers) == YearsOf(headers[1..])[|YearsOf(headers[1..])| - |YearAxis(headers)|..]
  {
  }

  /** The first column is the metric column: its header never gives a year. */
  lemma YearAxisSkipsFirstColumn(first: string, other: string, rest: seq<string>)
    ensures YearAxis([first] + rest) == YearAxis([other] + rest)
  {
    assert ([first] + rest)[1..] == rest == ([other] + rest)[1..];
  }

  /** A header made of a caption without the digit 2 and then a year gives that year. */
  lemma {:induction false} FindYearAfterLabel(caption: string, y: string)
    requires '2' !in caption && |y| == 4 && IsYearAt(y, 0)
    ensures FindYear(caption + y) == Some(y)
    decreases |caption|
  {
    if caption == [] {
      assert caption + y == y && y[..4] == y;
    } else {
      assert (caption + y)[0] == caption[0] && (caption + y)[1..] == caption[1..] + y;
      FindYearAfterLabel(caption[1..], y);
    }
  }

  /** When the columns after the first carry more than MaxYears years, the axis is the
      years of the last columns that carry MaxYears of them. */
  lemma YearAxisKeepsLatest(first: string, older: seq<string>, latest: seq<string>)
    requires |YearsOf(latest)| == MaxYears
    ensures YearAxis([first] + older + latest) == YearsOf(latest)
  {
    var headers := [first] + older + latest;
    assert headers[1..] == older + latest;
    YearsOfAppend(older, latest);
    YearAxisIsLatest(headers);
    var ys := YearsOf(older + latest);
    assert ys[|ys| - MaxYears..] == YearsOf(latest);
  }

  /** The header row "Mar <y>" for each year y, as Screener.in labels annual columns. */
  function MarchHeaders(ys: seq<string>): (hs: seq<string>)
    ensures |hs| == |ys|
  {
    seq(|ys|, i requires 0 <= i < |ys| => "Mar " + ys[i])
  }

  /** Headers "Mar <year>" give their years, in order. */
  lemma {:induction false} YearsOfMarchHeaders(ys: seq<string>)
    requires forall i :: 0 <= i < |ys| ==> |ys[i]| == 4 && IsYearAt(ys[i], 0)
    ensures YearsOf(MarchHeaders(ys)) == ys
    decreases |ys|
  {
    if ys != [] {
      var n := |ys| - 1;
      assert MarchHeaders(ys)[..n] == MarchHeaders(ys[..n]);
      YearsOfMarchHeaders(ys[..n]);
      FindYearAfterLabel("Mar ", ys[n]);
      assert ys == ys[..n] + [ys[n]];
    }
  }

  /** A statement with more annual columns than MaxYears (ten, say, March 2016 to March
      2025) keeps the most recent MaxYears of them (March 2020 to March 2025). */
  lemma YearAxisOfMarchHeaders(first: string, ys: seq<string>)
    requires |ys| >= MaxYears
    requires forall i :: 0 <= i < |ys| ==> |ys[i]| == 4 && IsYearAt(ys[i], 0)
    ensures YearAxis([first] + MarchHeaders(ys)) == ys[|ys| - MaxYears..]
  {
    assert ([first] + MarchHeaders(ys))[1..] == MarchHeaders(ys);
    YearsOfMarchHeaders(ys);
    YearAxisIsLatest([first] + MarchHeaders(ys));
  }

  /** The positions of the headers that carry a year. */
  function YearColumns(headers: seq<string>): set<nat>
  {
    set i: nat | i < |headers| && FindYear(headers[i]).Some?
  }

  /** Every header that carries a year contributes exactly one year: no column is
      dropped or counted twice before the axis is cut to MaxYears. */
  lemma {:induction false} YearsOfCountsMatches(headers: seq<string>)
    ensures |YearsOf(headers)| == |YearColumns(headers)|
  {
    if headers != [] {
      var init := headers[..|headers| - 1];
      YearsOfCountsMatches(init);
      var all := YearColumns(headers);
      var before := YearColumns(init);
      var n := |headers| - 1;
      assert forall i :: 0 <= i < n ==> init[i] == headers[i];
      assert n !in before;
      assert forall i :: i in all <==> i in before || (i == n && FindYear(headers[n]).Some?);
      if FindYear(headers[n]).Some? {
        assert all == before + {n};
        assert |all| == |before| + 1;
        assert |YearsOf(headers)| == |YearsOf(init)| + 1;
      } else {
        assert all == before;
      }
    }
  }

  /** The values of one metric row: year i of the axis takes the cleaned cell i, or ""
      when the row has fewer cells than the axis has years. */
  function YearValues(years: seq<string>, values: seq<string>): (m: Assoc<string>)
    ensures DistinctKeys(m)
  {
    if years == [] then []
    else
      var i := |years| - 1;
      Put(YearValues(years[..i], values), years[i], if i < |values| then CleanNumericValue(values[i]) else "")
  }

  /** Year i of the axis holds cell i, unless the same year appears again later on the
      axis, where a later cell then overwrites it: the last six years are paired with the
      first cells, whatever columns those came from. */
  lemma {:induction false} YearValuesPairsPositions(years: seq<string>, values: seq<string>, i: nat)
    requires i < |years|
    requires forall j :: i < j < |years| ==> years[j] != years[i]
    ensures Get(YearValues(years, values), years[i]) ==
      Some(if i < |values| then CleanNumericValue(values[i]) else "")
    decreases |years|
  {
    if i < |years| - 1 {
      YearValuesPairsPositions(years[..|years| - 1], values, i);
    }
  }

  /** The keys of a row's values are exactly the axis years, each once, in first-seen
      order. */
  lemma {:induction false} YearValuesKeys(years: seq<string>, values: seq<string>, y: string)
    ensures y in Keys(YearValues(years, values)) <==> y in years
    decreases |years|
  {
    if years != [] {
      var i := |years| - 1;
      var m0 := YearValues(years[..i], values);
      assert Keys(YearValues(years, values)) == if years[i] in Keys(m0) then Keys(m0) else Keys(m0) + [years[i]];
      YearValuesKeys(years[..i], values, y);
      InFrontOrLast(years, y);
    }
  }

  /** The body of a table: the header texts and the cell texts of each body row. */
  datatype Table = Table(headers: seq<string>, rows: seq<seq<string>>)

  /** Whether a body row is read: it needs a metric cell and at least one value cell. */
  predicate IsMetricRow(row: seq<string>) { |row| >= 2 }

  /** The dictionary after the given rows: each metric row (re)sets its metric's entry. */
  function RowsData(years: seq<string>, rows: seq<seq<string>>): (d: Assoc<Assoc<string>>)
    ensures DistinctKeys(d)
  {
    if rows == [] then []
    else
      var d := RowsData(years, rows[..|rows| - 1]);
      var row := rows[|rows| - 1];
      if IsMetricRow(row) then Put(d, row[0], YearValues(years, row[1..])) else d
  }

  /** The dictionary parse_financial_table returns; a missing table gives {}. */
  function TableData(table: Option<Table>): Assoc<Assoc<string>>
  {
    match table
    case None => []
    case Some(t) => RowsData(YearAxis(t.headers), t.rows)
  }

  /** The inner loop of the parser: one row's cells spread over the year axis. */
  method ParseRowValues(years: seq<string>, values: seq<string>) returns (yearValues: Assoc<string>)
    ensures yearValues == YearValues(years, values)
  {
    yearValues := [];
    var i := 0;
    while i < |years|
      invariant 0 <= i <= |years|
      invariant yearValues == YearValues(years[..i], values)
    {
      PrefixStep(years, i);
      yearValues := Put(yearValues, years[i], if i < |values| then CleanNumericValue(values[i]) else "");
      i := i + 1;
    }
    assert years[..i] == years;
  }

  /** The parser: the year axis first, then one pass over the body rows, filling each
      metric's year dictionary. */
  method ParseFinancialTable(table: Option<Table>) returns (data: Assoc<Assoc<string>>)
    ensures data == TableData(table)
  {
    if table.None? {
      return [];
    }
    var headers := table.value.headers;
    var rows := table.value.rows;
    var years := YearAxis(headers);
    data := [];
    var r := 0;
    while r < |rows|
      invariant 0 <= r <= |rows|
      invariant data == RowsData(years, rows[..r])
    {
      var cols := rows[r];
      PrefixStep(rows, r);
      if |cols| < 2 {
        r := r + 1;
        continue;
      }
      var yearValues := ParseRowValues(years, cols[1..]);
      data := Put(data, cols[0], yearValues);
      r := r + 1;
    }
    assert rows[..r] == rows;
  }

  /** The metrics of the dictionary are exactly the first cells of the metric rows. */
  lemma {:induction false} RowsDataKeys(years: seq<string>, rows: seq<seq<string>>, m: string)
    ensures m in Keys(RowsData(years, rows)) <==>
      exists r :: 0 <= r < |rows| && IsMetricRow(rows[r]) && rows[r][0] == m
    decreases |rows|
  {
    if rows != [] {
      var init := rows[..|rows| - 1];
      RowsDataKeys(years, init, m);
      assert forall r :: 0 <= r < |init| ==> init[r] == rows[r];
    }
  }

  /** A metric that appears on several rows keeps the values of its last row. */
  lemma {:induction false} RowsDataLastRowWins(years: seq<string>, rows: seq<seq<string>>, r: nat)
    requires r < |rows| && IsMetricRow(rows[r])
    requires forall s :: r < s < |rows| && IsMetricRow(rows[s]) ==> rows[s][0] != rows[r][0]
    ensures Get(RowsData(years, rows), rows[r][0]) == Some(YearValues(years, rows[r][1..]))
    decreases |rows|
  {
    if r < |rows| - 1 {
      RowsDataLastRowWins(years, rows[..|rows| - 1], r);
    }
  }
}
