/** The result and payout collector (`BoatRaceScraper`,
    scripts/collect/data_collector.py): fetch a race's result page with
    retries, classify each table of the page by its column labels, turn
    the rows of the result table and of the payout tables into records,
    and collect the records of every race of every venue of the day. */
module ResultCollector {
  import opened Wrappers
  import opened PyText
  import opened PyNumbers
  import opened Pages
  import Retry
  import Venues

  /** One finishing boat of a race. */
  datatype ResultRecord = ResultRecord(
    date: string, stadiumCode: string, stadiumName: string, raceNo: int,
    rank: int, boatNo: int, racerName: string, time: string)

  /** One line of a race's payout table. */
  datatype PayoutRecord = PayoutRecord(
    date: string, stadiumCode: string, stadiumName: string, raceNo: int,
    betType: string, combination: string, payout: int, popularity: Option<int>)

  /** The record fields every record of a page takes from its query. */
  predicate ResultFromQuery(r: ResultRecord, q: RaceQuery)
  {
    r.date == q.date && r.stadiumCode == q.stadiumCode
    && r.stadiumName == Venues.StadiumName(q.stadiumCode) && r.raceNo == q.raceNo
  }

  predicate PayoutFromQuery(r: PayoutRecord, q: RaceQuery)
  {
    r.date == q.date && r.stadiumCode == q.stadiumCode
    && r.stadiumName == Venues.StadiumName(q.stadiumCode) && r.raceNo == q.raceNo
  }

  // ---------------------------------------------------------------------
  // Table classification

  /** `''.join(map(str, c))`: a multi-level column label flattened by
      concatenating its levels. */
  function Flatten(levels: seq<string>): string
  {
    if levels == [] then [] else Flatten(levels[..|levels| - 1]) + levels[|levels| - 1]
  }

  /** The column labels the classifier matches against. */
  function ResultColumns(h: Header): (cols: seq<string>)
    ensures h.Flat? ==> cols == h.labels
    ensures h.Levels? ==> |cols| == |h.columns|
    ensures h.Levels? ==> forall i :: 0 <= i < |h.columns| ==> cols[i] == Flatten(h.columns[i])
  {
    match h
    case Flat(labels) => labels
    case Levels(columns) => seq(|columns|, i requires 0 <= i < |columns| => Flatten(columns[i]))
  }

  /** Flattening keeps every match inside a single level, so a
      multi-level header is recognised by any of its levels. */
  lemma {:induction false} FlattenKeepsLevel(levels: seq<string>, k: nat, needle: string)
    requires k < |levels| && Contains(levels[k], needle)
    ensures Contains(Flatten(levels), needle)
  {
    var init := levels[..|levels| - 1];
    if k == |levels| - 1 {
      ContainsConcat(Flatten(init), levels[k], needle);
    } else {
      assert init[k] == levels[k];
      FlattenKeepsLevel(init, k, needle);
      ContainsConcat(Flatten(init), levels[|levels| - 1], needle);
    }
  }

  lemma LevelsHeader(columns: seq<seq<string>>, i: nat, k: nat, needle: string)
    requires i < |columns| && k < |columns[i]| && Contains(columns[i][k], needle)
    ensures HasHeader(ResultColumns(Levels(columns)), needle)
  {
    FlattenKeepsLevel(columns[i], k, needle);
  }

  /** `needed_cols`: the labels a result table must carry. */
  const ResultSignature: seq<string> := ["着", "枠", "ボートレーサー", "レースタイム"]

  /** Every label of the result signature occurs within some column label. */
  predicate HasResultLabels(cols: seq<string>)
  {
    forall n :: n in ResultSignature ==> HasHeader(cols, n)
  }

  /** Some column label mentions the bet type and some the payout. */
  predicate HasPayoutLabels(cols: seq<string>)
  {
    HasHeader(cols, "勝式") && HasHeader(cols, "払戻金")
  }

  datatype TableKind = ResultTable | PayoutTable | OtherTable

  /** Which branch of the page loop a table takes. A result-shaped table
      counts as the result table only while no result row has been
      collected; otherwise it falls through to the payout test. */
  function Classify(cols: seq<string>, noResultsYet: bool): TableKind
  {
    if HasResultLabels(cols) && noResultsYet then ResultTable
    else if HasPayoutLabels(cols) then PayoutTable
    else OtherTable
  }

  /** Classification depends only on which labels a table has: not on
      their order, repetitions or extra labels beside the signature. */
  lemma ClassifyByLabelSet(cols: seq<string>, cols': seq<string>, noResultsYet: bool)
    requires forall c :: c in cols <==> c in cols'
    ensures Classify(cols, noResultsYet) == Classify(cols', noResultsYet)
  {
    forall n ensures HasHeader(cols, n) <==> HasHeader(cols', n) {
      if HasHeader(cols, n) {
        HasHeaderMonotone(cols, cols', n);
      }
      if HasHeader(cols', n) {
        HasHeaderMonotone(cols', cols, n);
      }
    }
  }

  // ---------------------------------------------------------------------
  // Result rows

  /** The rank test: `rank_str.isdigit()` (ASCII or full-width digits), or
      a single full-width digit. */
  predicate IsRank(s: string)
  {
    (|s| >= 1 && IsDigits(s)) || (|s| == 1 && IsFullWidthDigit(s[0]))
  }

  /** `int(rank_str)` for a cell that passed the rank test: its decimal
      value. None: the rank test failed. */
  function RankValue(rank: string): (v: Option<int>)
    ensures v.Some? <==> IsRank(rank)
    ensures v.Some? ==> IsDigits(rank) && v.value == DigitsValue(rank) as int
  {
    if !IsRank(rank) then None
    else
      ParseIntDigits(rank);
      ParseInt(rank)
  }

  /** A row of the result table as a record, or None when the row is
      skipped: fewer than four cells, a rank that is not digits, or a boat
      cell that `int()` rejects. */
  function ResultRow(q: RaceQuery, row: Row): Option<ResultRecord>
  {
    if |row| < 4 then None
    else
      match (RankValue(Strip(row[0])), ParseInt(Strip(row[1])))
      case (Some(rank), Some(boat)) =>
        Some(ResultRecord(q.date, q.stadiumCode, Venues.StadiumName(q.stadiumCode), q.raceNo,
                          rank, boat, Strip(row[2]), Strip(row[3])))
      case _ => None
  }

  /** The second half of the rank test adds nothing: a single full-width
      digit already passes `isdigit()`. */
  lemma RankIsDigitString(s: string)
    ensures IsRank(s) <==> |s| >= 1 && IsDigits(s)
  {
  }

  /** A row gives a record exactly when it has four cells, a digit-string
      rank and an integer boat number. */
  lemma ResultRowKept(q: RaceQuery, row: Row)
    ensures ResultRow(q, row).Some? <==>
      |row| >= 4 && IsRank(Strip(row[0])) && ParseInt(Strip(row[1])).Some?
  {
  }

  /** A record holds the rank's decimal value, the parsed boat number,
      the trimmed name and time, and the page's query. */
  lemma ResultRowFields(q: RaceQuery, row: Row)
    requires ResultRow(q, row).Some?
    ensures |row| >= 4 && IsDigits(Strip(row[0]))
    ensures var r := ResultRow(q, row).value;
      && r.rank == DigitsValue(Strip(row[0])) as int
      && r.boatNo == ParseInt(Strip(row[1])).value
      && r.racerName == Strip(row[2]) && r.time == Strip(row[3])
      && ResultFromQuery(r, q)
  {
  }

  /** A full-width digit `０`..`９` passes the rank test and reads as 0..9. */
  lemma FullWidthRankValue(k: nat)
    requires k < 10
    ensures RankValue([FullWidthDigit(k)]) == Some(k)
  {
    var rank := [FullWidthDigit(k)];
    FullWidthDigitValues();
    assert IsRank(rank);
    assert DigitsValue(rank) == k by {
      assert rank[..0] == [];
    }
  }

  /** A row whose rank cell is a full-width digit (with any surrounding
      whitespace) and whose boat cell is an integer gives a record ranked
      0..9. */
  lemma FullWidthRank(q: RaceQuery, row: Row, k: nat)
    requires |row| >= 4 && k < 10 && Strip(row[0]) == [FullWidthDigit(k)]
    requires ParseInt(Strip(row[1])).Some?
    ensures ResultRow(q, row).Some? && ResultRow(q, row).value.rank == k
  {
    FullWidthRankValue(k);
    var rank, boat := RankValue(Strip(row[0])), ParseInt(Strip(row[1]));
    assert rank == Some(k) && boat.Some?;
    assert ResultRow(q, row) ==
      Some(ResultRecord(q.date, q.stadiumCode, Venues.StadiumName(q.stadiumCode), q.raceNo,
                        k, boat.value, Strip(row[2]), Strip(row[3])));
  }

  /** The result records of a table, in row order, bad rows left out:
      never more records than rows, each carrying the page's query. */
  function ResultRows(q: RaceQuery, rows: seq<Row>): (out: seq<ResultRecord>)
    ensures |out| <= |rows|
    ensures forall r :: r in out ==> ResultFromQuery(r, q)
  {
    if rows == [] then []
    else
      ResultRows(q, rows[..|rows| - 1])
      + Kept(ResultRow(q, rows[|rows| - 1]))
  }

  /** Rows are handled one at a time: the records of two stretches of rows
      are the records of each, so a bad row costs only itself. */
  lemma {:induction false} ResultRowsConcat(q: RaceQuery, a: seq<Row>, b: seq<Row>)
    ensures ResultRows(q, a + b) == ResultRows(q, a) + ResultRows(q, b)
    decreases |b|
  {
    if b == [] {
      assert a + b == a;
    } else {
      var b' := b[..|b| - 1];
      assert (a + b)[..|a + b| - 1] == a + b';
      assert (a + b)[|a + b| - 1] == b[|b| - 1];
      ResultRowsConcat(q, a, b');
    }
  }

  // ---------------------------------------------------------------------
  // Payout rows

  /** The payout cell: with a `¥`, every `¥` and `,` removed and the rest
      read by `int()` (None: the row is skipped); without a `¥`, 0. */
  function PayoutAmount(s: string): Option<int>
  {
    if '¥' in s then ParseInt(RemoveAll(RemoveAll(s, '¥'), ',')) else Some(0)
  }

  /** The popularity cell: absent when empty or `nan`, otherwise
      `int(float(s))`; the outer None is a failed conversion, which skips
      the row. */
  function Popularity(s: string): Option<Option<int>>
  {
    if s == "" || s == "nan" then Some(None)
    else
      match ParseFloat(s)
      case Some(Finite(d)) => Some(Some(Truncate(d)))
      case _ => None
  }

  /** A row of a payout table as a record, or None when the row is
      skipped: fewer than three cells, an empty or `nan` bet type, or a
      payout or popularity that does not convert. A missing fourth cell is
      an empty popularity. */
  function PayoutRow(q: RaceQuery, row: Row): Option<PayoutRecord>
  {
    if |row| < 3 then None
    else
      var betType := Strip(row[0]);
      var combination := Strip(row[1]);
      var payout := Strip(row[2]);
      var popularity := if |row| > 3 then Strip(row[3]) else "";
      if betType == "" || betType == "nan" then None
      else
        match (PayoutAmount(payout), Popularity(popularity))
        case (Some(amount), Some(pop)) =>
          Some(PayoutRecord(q.date, q.stadiumCode, Venues.StadiumName(q.stadiumCode), q.raceNo,
                            betType, combination, amount, pop))
        case _ => None
  }

  /** A payout row gives a record exactly when it has three cells, a bet
      type that is neither empty nor `nan`, and a payout and popularity
      that convert; the record carries the page's query. */
  lemma PayoutRowSpec(q: RaceQuery, row: Row)
    ensures PayoutRow(q, row).Some? <==>
      && |row| >= 3
      && Strip(row[0]) != "" && Strip(row[0]) != "nan"
      && PayoutAmount(Strip(row[2])).Some?
      && Popularity(if |row| > 3 then Strip(row[3]) else "").Some?
    ensures PayoutRow(q, row).Some? ==>
      var r := PayoutRow(q, row).value;
      && r.betType == Strip(row[0]) && r.combination == Strip(row[1])
      && Some(r.payout) == PayoutAmount(Strip(row[2]))
      && Some(r.popularity) == Popularity(if |row| > 3 then Strip(row[3]) else "")
      && PayoutFromQuery(r, q)
  {
  }

  /** How the site prints an amount after the `¥`: digits grouped by
      three with commas (`1,230`). */
  function Thousands(n: nat): (s: string)
    ensures forall k :: 0 <= k < |s| ==> IsDigit(s[k]) || s[k] == ','
  {
    if n < 1000 then NatDigits(n)
    else Thousands(n / 1000) + "," + PadZeros(NatDigits(n % 1000), 3)
  }

  /** A three-digit group: the zero-padded digits of `m` < 1000. */
  lemma GroupDigits(m: nat) returns (group: string)
    requires m < 1000
    ensures group == PadZeros(NatDigits(m), 3)
    ensures |group| == 3 && IsDigits(group) && DigitsValue(group) == m
    ensures RemoveAll(group, ',') == group
  {
    assert Pow10(3) == 1000;
    NatDigitsLength(m, 3);
    NatDigitsValue(m);
    group := PadZeros(NatDigits(m), 3);
    assert !IsDigit(',');
    assert ',' !in group;
    RemoveAllAbsent(group, ',');
  }

  lemma {:induction false} ThousandsDigits(n: nat)
    ensures var ds := RemoveAll(Thousands(n), ',');
      |ds| >= 1 && IsDigits(ds) && DigitsValue(ds) == n
  {
    if n < 1000 {
      var ds := NatDigits(n);
      assert !IsDigit(',') && ',' !in ds;
      RemoveAllAbsent(ds, ',');
      NatDigitsValue(n);
    } else {
      ThousandsDigits(n / 1000);
      var group := GroupDigits(n % 1000);
      var high := Thousands(n / 1000);
      assert Thousands(n) == high + "," + group;
      RemoveSeparator(high, group, ',');
      DigitsValueConcat(RemoveAll(high, ','), group);
      assert Pow10(3) == 1000;
    }
  }

  /** A printed amount reads back as itself: `¥` followed by the
      comma-grouped digits of `n` gives `n`. */
  lemma PayoutRoundTrip(n: nat)
    ensures PayoutAmount("¥" + Thousands(n)) == Some(n)
  {
    var t := Thousands(n);
    assert '¥' !in t;
    RemoveAllConcat("¥", t, '¥');
    assert RemoveAll("¥", '¥') == [];
    RemoveAllAbsent(t, '¥');
    assert RemoveAll("¥" + t, '¥') == t;
    ThousandsDigits(n);
    ParseIntDigits(RemoveAll(t, ','));
  }

  /** Without a `¥` the payout is 0, whatever the cell says. */
  lemma PayoutWithoutYen(s: string)
    requires '¥' !in s
    ensures PayoutAmount(s) == Some(0)
  {
  }

  /** The text `str(n)` of a whole number gives popularity `n`. */
  lemma PopularityInt(n: int)
    ensures Popularity(IntString(n)) == Some(Some(n))
  {
    var d := Decimal(n, 0);
    IntStringIsFormat(n);
    PopularityValues(d);
    TruncateWhole(n);
  }

  lemma IntStringIsFormat(n: int)
    ensures IntString(n) == FormatDecimal(Decimal(n, 0))
  {
  }

  lemma TruncateWhole(n: int)
    ensures Truncate(Decimal(n, 0)) == n
  {
    assert Pow10(0) == 1;
  }

  /** An empty or `nan` popularity is absent; the text of a number gives
      that number truncated toward zero. */
  lemma PopularityValues(d: Decimal)
    ensures Popularity("") == Some(None) && Popularity("nan") == Some(None)
    ensures Popularity(FormatDecimal(d)) == Some(Some(Truncate(d)))
  {
    ParseFloatRoundTrip(d);
    TruncateNormalize(d);
    var s := FormatDecimal(d);
    FormatDecimalHead(d);
    assert s != "nan" by {
      assert "nan"[0] == 'n';
    }
  }

  /** The payout records of a table, in row order, bad rows left out:
      never more records than rows, each carrying the page's query. */
  function PayoutRows(q: RaceQuery, rows: seq<Row>): (out: seq<PayoutRecord>)
    ensures |out| <= |rows|
    ensures forall r :: r in out ==> PayoutFromQuery(r, q)
  {
    if rows == [] then []
    else
      PayoutRows(q, rows[..|rows| - 1])
      + Kept(PayoutRow(q, rows[|rows| - 1]))
  }

  // ---------------------------------------------------------------------
  // One race page

  /** The records gathered from one race: result rows and payout rows. */
  datatype Harvest = Harvest(results: seq<ResultRecord>, payouts: seq<PayoutRecord>)

  const NoRecords := Harvest([], [])

  /** Appending the records of a later race (`extend`). */
  function Append(a: Harvest, b: Harvest): Harvest
  {
    Harvest(a.results + b.results, a.payouts + b.payouts)
  }

  /** Every record of a harvest carries the query `q`. */
  predicate FromQuery(h: Harvest, q: RaceQuery)
  {
    (forall r :: r in h.results ==> ResultFromQuery(r, q))
    && (forall r :: r in h.payouts ==> PayoutFromQuery(r, q))
  }

  /** The page loop over the tables read from a race page, in order: the
      rows of the result table go to the results, the rows of every
      payout table to the payouts, other tables are ignored. */
  function PageRecords(q: RaceQuery, tables: seq<Table>): Harvest
  {
    if tables == [] then NoRecords
    else PageStep(q, PageRecords(q, tables[..|tables| - 1]), tables[|tables| - 1])
  }

  /** The body of the page loop: what one table adds to the records
      gathered so far. */
  function PageStep(q: RaceQuery, h: Harvest, t: Table): (h': Harvest)
    ensures h'.results == if h.results == [] && IsResultShaped(t) then ResultRows(q, t.rows) else h.results
    ensures h'.payouts ==
      if HasPayoutLabels(ResultColumns(t.header)) && !(h.results == [] && IsResultShaped(t))
      then h.payouts + PayoutRows(q, t.rows)
      else h.payouts
    ensures FromQuery(h, q) ==> FromQuery(h', q)
  {
    match Classify(ResultColumns(t.header), h.results == [])
    case ResultTable => Harvest(h.results + ResultRows(q, t.rows), h.payouts)
    case PayoutTable => Harvest(h.results, h.payouts + PayoutRows(q, t.rows))
    case OtherTable => h
  }

  /** Every record of a page carries the page's query. */
  lemma {:induction false} PageFromQuery(q: RaceQuery, tables: seq<Table>)
    ensures FromQuery(PageRecords(q, tables), q)
  {
    if tables != [] {
      PageFromQuery(q, tables[..|tables| - 1]);
    }
  }

  /** A table that carries all four result labels. */
  predicate IsResultShaped(t: Table)
  {
    HasResultLabels(ResultColumns(t.header))
  }

  /** An independent reading of which result rows a page yields: those of
      the first result-shaped table that yields any. */
  function FirstResults(q: RaceQuery, tables: seq<Table>): seq<ResultRecord>
  {
    if tables == [] then []
    else if IsResultShaped(tables[0]) && ResultRows(q, tables[0].rows) != [] then
      ResultRows(q, tables[0].rows)
    else FirstResults(q, tables[1..])
  }

  /** Looking one table further extends the first-results reading only
      when nothing was found before it. */
  lemma {:induction false} FirstResultsLast(q: RaceQuery, tables: seq<Table>)
    requires tables != []
    ensures var prior := FirstResults(q, tables[..|tables| - 1]);
      var t := tables[|tables| - 1];
      FirstResults(q, tables) ==
        if prior == [] && IsResultShaped(t) then ResultRows(q, t.rows) else prior
    decreases |tables|
  {
    var init := tables[..|tables| - 1];
    if |tables| == 1 {
      assert init == [] && tables[1..] == [];
    } else {
      var rest := tables[1..];
      FirstResultsLast(q, rest);
      assert init[0] == tables[0];
      assert init[1..] == rest[..|rest| - 1];
      assert rest[|rest| - 1] == tables[|tables| - 1];
    }
  }

  /** Only one table's rows ever become results: the first result-shaped
      table with at least one good row. A result-shaped table met after
      that is treated as a payout table or ignored. */
  lemma {:induction false} PageResults(q: RaceQuery, tables: seq<Table>)
    ensures PageRecords(q, tables).results == FirstResults(q, tables)
  {
    if tables != [] {
      var init := tables[..|tables| - 1];
      var t := tables[|tables| - 1];
      PageResults(q, init);
      FirstResultsLast(q, tables);
    }
  }

  /** An independent reading of which payout rows a page yields: in page
      order, the rows of every table labelled both `勝式` and `払戻金`,
      except a table that carries the result labels and comes before any
      table that yielded results (that one is read as the result table). */
  function AllPayouts(q: RaceQuery, tables: seq<Table>): seq<PayoutRecord>
  {
    if tables == [] then []
    else
      var init, t := tables[..|tables| - 1], tables[|tables| - 1];
      AllPayouts(q, init) +
        if HasPayoutLabels(ResultColumns(t.header)) && !(IsResultShaped(t) && FirstResults(q, init) == [])
        then PayoutRows(q, t.rows)
        else []
  }

  /** The payouts of a page are those of the independent reading. */
  lemma {:induction false} PagePayouts(q: RaceQuery, tables: seq<Table>)
    ensures PageRecords(q, tables).payouts == AllPayouts(q, tables)
  {
    if tables != [] {
      var init := tables[..|tables| - 1];
      PagePayouts(q, init);
      PageResults(q, init);
    }
  }

  /** Whether a page yields payouts: a page without a table labelled both
      `勝式` and `払戻金` yields none. */
  lemma {:induction false} NoPayoutLabelsNoPayouts(q: RaceQuery, tables: seq<Table>)
    requires forall k :: 0 <= k < |tables| ==>
      !HasPayoutLabels(ResultColumns(tables[k].header))
    ensures PageRecords(q, tables).payouts == []
  {
    if tables != [] {
      NoPayoutLabelsNoPayouts(q, tables[..|tables| - 1]);
    }
  }

  /** The records `scrape_race` returns for a race, given the outcomes of
      its successive fetch attempts: nothing when every attempt failed or
      the page could not be read as tables. */
  function RaceRecords(q: RaceQuery, outcomes: seq<Outcome>): Harvest
    requires |outcomes| >= Retry.MaxRetries
  {
    match Retry.FirstSuccess(outcomes, 0)
    case None => NoRecords
    case Some(i) =>
      match outcomes[i].page
      case Unreadable => NoRecords
      case Tables(tables) => PageRecords(q, tables)
  }

  /** One more row adds that row's record, if it has one. */
  lemma ResultRowsStep(q: RaceQuery, rows: seq<Row>, j: nat)
    requires j < |rows|
    ensures ResultRows(q, rows[..j + 1]) == ResultRows(q, rows[..j]) + Kept(ResultRow(q, rows[j]))
  {
    assert rows[..j + 1][..j] == rows[..j];
  }

  lemma PayoutRowsStep(q: RaceQuery, rows: seq<Row>, j: nat)
    requires j < |rows|
    ensures PayoutRows(q, rows[..j + 1]) == PayoutRows(q, rows[..j]) + Kept(PayoutRow(q, rows[j]))
  {
    assert rows[..j + 1][..j] == rows[..j];
  }

  /** The row loop over the result table: the rows' records, in order. */
  method CollectResults(q: RaceQuery, rows: seq<Row>) returns (results: seq<ResultRecord>)
    ensures results == ResultRows(q, rows)
  {
    results := [];
    for j := 0 to |rows|
      invariant results == ResultRows(q, rows[..j])
    {
      ResultRowsStep(q, rows, j);
      var r := ResultRow(q, rows[j]);
      if r.Some? {
        results := results + [r.value];
      }
    }
    assert rows[..|rows|] == rows;
  }

  /** The row loop over a payout table: the rows' records, in order. */
  method CollectPayouts(q: RaceQuery, rows: seq<Row>) returns (payouts: seq<PayoutRecord>)
    ensures payouts == PayoutRows(q, rows)
  {
    payouts := [];
    for j := 0 to |rows|
      invariant payouts == PayoutRows(q, rows[..j])
    {
      PayoutRowsStep(q, rows, j);
      var r := PayoutRow(q, rows[j]);
      if r.Some? {
        payouts := payouts + [r.value];
      }
    }
    assert rows[..|rows|] == rows;
  }

  /** One pass of the page loop: a result table fills the results while
      there are none, a payout table extends the payouts, and any other
      table is skipped. */
  method ApplyTable(q: RaceQuery, results: seq<ResultRecord>, payouts: seq<PayoutRecord>, t: Table)
    returns (results': seq<ResultRecord>, payouts': seq<PayoutRecord>)
    ensures Harvest(results', payouts') == PageStep(q, Harvest(results, payouts), t)
  {
    results', payouts' := results, payouts;
    var kind := Classify(ResultColumns(t.header), results == []);
    if kind == ResultTable {
      var more := CollectResults(q, t.rows);
      results' := results + more;
    } else if kind == PayoutTable {
      var more := CollectPayouts(q, t.rows);
      payouts' := payouts + more;
    }
  }

  /** `scrape_race`: fetch the page with retries, then walk its tables,
      appending records as the page loop does. */
  method ScrapeRace(q: RaceQuery, outcomes: seq<Outcome>) returns (results: seq<ResultRecord>, payouts: seq<PayoutRecord>)
    requires |outcomes| >= Retry.MaxRetries
    ensures Harvest(results, payouts) == RaceRecords(q, outcomes)
  {
    var page, attempts := Retry.Fetch(outcomes);
    results, payouts := [], [];
    if page.None? || page.value.Unreadable? {
      return;
    }
    var tables := page.value.tables;
    for i := 0 to |tables|
      invariant Harvest(results, payouts) == PageRecords(q, tables[..i])
    {
      assert tables[..i + 1][..i] == tables[..i] && tables[..i + 1][i] == tables[i];
      results, payouts := ApplyTable(q, results, payouts, tables[i]);
    }
    assert tables[..|tables|] == tables;
  }

  /** Every record `scrape_race` returns carries the race's query. */
  lemma RaceFromQuery(q: RaceQuery, outcomes: seq<Outcome>)
    requires |outcomes| >= Retry.MaxRetries
    ensures FromQuery(RaceRecords(q, outcomes), q)
  {
    var i := Retry.FirstSuccess(outcomes, 0);
    if i.Some? && outcomes[i.value].page.Tables? {
      PageFromQuery(q, outcomes[i.value].page.tables);
    }
  }

  // ---------------------------------------------------------------------
  // A whole day

  /** The network as seen by the collector: the outcomes of the attempts
      to fetch the result page of a venue's race, in order. */
  type Site = (string, int) -> seq<Outcome>

  /** Enough simulated attempts for the retry loop of every race. */
  ghost predicate Retriable(site: Site)
  {
    forall code, raceNo :: |site(code, raceNo)| >= Retry.MaxRetries
  }

  /** The records of races 1..n of one venue, in race order. */
  function VenueRecords(date: string, code: string, site: Site, n: nat): Harvest
    requires Retriable(site)
  {
    if n == 0 then NoRecords
    else Append(VenueRecords(date, code, site, n - 1),
                RaceRecords(RaceQuery(date, code, n), site(code, n)))
  }

  /** The records of every race of the given venues, venue by venue. */
  function DayRecords(date: string, codes: seq<string>, site: Site): Harvest
    requires Retriable(site)
  {
    if codes == [] then NoRecords
    else Append(DayRecords(date, codes[..|codes| - 1], site),
                VenueRecords(date, codes[|codes| - 1], site, RaceCount))
  }

  /** Where a day's record can come from: the collector's date, one of the
      visited venues with its name from the table, and a race number
      between 1 and 12. */
  predicate ResultOrigin(r: ResultRecord, date: string, codes: seq<string>)
  {
    r.date == date && r.stadiumCode in codes && r.stadiumName == Venues.StadiumName(r.stadiumCode)
    && 1 <= r.raceNo <= RaceCount
  }

  predicate PayoutOrigin(r: PayoutRecord, date: string, codes: seq<string>)
  {
    r.date == date && r.stadiumCode in codes && r.stadiumName == Venues.StadiumName(r.stadiumCode)
    && 1 <= r.raceNo <= RaceCount
  }

  lemma {:induction false} VenueOrigin(date: string, code: string, site: Site, n: nat)
    requires Retriable(site) && 1 <= n <= RaceCount
    ensures forall r :: r in VenueRecords(date, code, site, n).results ==> ResultOrigin(r, date, [code])
    ensures forall r :: r in VenueRecords(date, code, site, n).payouts ==> PayoutOrigin(r, date, [code])
  {
    RaceFromQuery(RaceQuery(date, code, n), site(code, n));
    if n > 1 {
      VenueOrigin(date, code, site, n - 1);
    }
  }

  /** Every record of a day comes from the collector's date, a visited
      venue and a race 1..12. */
  lemma {:induction false} DayOrigin(date: string, codes: seq<string>, site: Site)
    requires Retriable(site)
    ensures forall r :: r in DayRecords(date, codes, site).results ==> ResultOrigin(r, date, codes)
    ensures forall r :: r in DayRecords(date, codes, site).payouts ==> PayoutOrigin(r, date, codes)
  {
    if codes != [] {
      var init := codes[..|codes| - 1];
      DayOrigin(date, init, site);
      VenueOrigin(date, codes[|codes| - 1], site, RaceCount);
      assert forall c :: c in init ==> c in codes;
    }
  }

  /** The race loop of `run` for one venue: races 1..12 in order. */
  method ScrapeVenue(date: string, code: string, site: Site)
    returns (results: seq<ResultRecord>, payouts: seq<PayoutRecord>)
    requires Retriable(site)
    ensures Harvest(results, payouts) == VenueRecords(date, code, site, RaceCount)
  {
    results, payouts := [], [];
    for rno := 1 to RaceCount + 1
      invariant Harvest(results, payouts) == VenueRecords(date, code, site, rno - 1)
    {
      var raceData, payoutData := ScrapeRace(RaceQuery(date, code, rno), site(code, rno));
      results := results + raceData;
      payouts := payouts + payoutData;
    }
  }

  /** `run`: discover the day's venues, then scrape races 1..12 of each,
      appending their records in order. Writing the records to a sheet is
      not modelled. */
  method Run(date: string, index: Venues.IndexFetch, site: Site)
    returns (stadiums: seq<string>, allResults: seq<ResultRecord>, allPayouts: seq<PayoutRecord>)
    requires Retriable(site)
    ensures Venues.StrictlySorted(stadiums)
    ensures forall c :: c in stadiums <==> c in Venues.Discovered(index)
    ensures Harvest(allResults, allPayouts) == DayRecords(date, stadiums, site)
  {
    stadiums := Venues.ActiveStadiums(index);
    allResults, allPayouts := [], [];
    for i := 0 to |stadiums|
      invariant Harvest(allResults, allPayouts) == DayRecords(date, stadiums[..i], site)
    {
      assert stadiums[..i + 1][..i] == stadiums[..i];
      var results, payouts := ScrapeVenue(date, stadiums[i], site);
      allResults := allResults + results;
      allPayouts := allPayouts + payouts;
    }
    assert stadiums[..|stadiums|] == stadiums;
  }
}
