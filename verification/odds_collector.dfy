/** The odds collector (`OddsCollector`, scripts/collect/odds_collector.py):
    fetch a race's odds page once, pick its win-odds and place-odds
    tables by their column labels, pair their rows by position and turn
    each pair into an odds record, for every race of every venue of the
    day. */
module OddsCollector {
  import opened Wrappers
  import opened PyText
  import opened PyNumbers
  import opened Pages
  import Venues

  /** One boat's odds in one race. */
  datatype OddsRecord = OddsRecord(
    date: string, stadiumCode: string, raceNo: int, boatNo: int, racerName: string,
    winOdds: PyFloat, placeMin: PyFloat, placeMax: PyFloat)

  predicate OddsFromQuery(r: OddsRecord, q: RaceQuery)
  {
    r.date == q.date && r.stadiumCode == q.stadiumCode && r.raceNo == q.raceNo
  }

  // ---------------------------------------------------------------------
  // Table selection

  /** `repr` of one level label inside a tuple (labels holding quotes or
      backslashes are not escaped here). */
  function Quoted(name: string): string
  {
    "'" + name + "'"
  }

  /** The comma-separated items of a tuple's `repr`. */
  function ReprItems(levels: seq<string>): string
  {
    if levels == [] then ""
    else if |levels| == 1 then Quoted(levels[0])
    else ReprItems(levels[..|levels| - 1]) + ", " + Quoted(levels[|levels| - 1])
  }

  /** `str(c)` of a multi-level column label: the tuple's `repr`, with the
      trailing comma of a one-element tuple. */
  function TupleRepr(levels: seq<string>): string
  {
    "(" + ReprItems(levels) + (if |levels| == 1 then "," else "") + ")"
  }

  /** The column labels the odds tables are matched against: `str(c)`
      for every column. */
  function OddsColumns(h: Header): (cols: seq<string>)
    ensures h.Flat? ==> cols == h.labels
    ensures h.Levels? ==> |cols| == |h.columns|
    ensures h.Levels? ==> forall i :: 0 <= i < |h.columns| ==> cols[i] == TupleRepr(h.columns[i])
  {
    match h
    case Flat(labels) => labels
    case Levels(columns) => seq(|columns|, i requires 0 <= i < |columns| => TupleRepr(columns[i]))
  }

  lemma {:induction false} ReprItemsKeepLevel(levels: seq<string>, k: nat, needle: string)
    requires k < |levels| && Contains(levels[k], needle)
    ensures Contains(ReprItems(levels), needle)
  {
    var last := levels[|levels| - 1];
    if k == |levels| - 1 {
      ContainsConcat("'", last, needle);
      ContainsConcat("'" + last, "'", needle);
      if |levels| > 1 {
        ContainsConcat(ReprItems(levels[..|levels| - 1]) + ", ", Quoted(last), needle);
      }
    } else {
      var init := levels[..|levels| - 1];
      assert init[k] == levels[k];
      ReprItemsKeepLevel(init, k, needle);
      ContainsConcat(ReprItems(init), ", ", needle);
      ContainsConcat(ReprItems(init) + ", ", Quoted(last), needle);
    }
  }

  /** A multi-level label mentions whatever any of its levels mentions,
      so a two-row header is recognised by either row. */
  lemma TupleReprKeepsLevel(levels: seq<string>, k: nat, needle: string)
    requires k < |levels| && Contains(levels[k], needle)
    ensures Contains(TupleRepr(levels), needle)
  {
    ReprItemsKeepLevel(levels, k, needle);
    var tail := (if |levels| == 1 then "," else "") + ")";
    ContainsConcat("(", ReprItems(levels), needle);
    ContainsConcat("(" + ReprItems(levels), tail, needle);
    assert TupleRepr(levels) == "(" + ReprItems(levels) + tail;
  }

  /** A table labelled with the win odds and the racer. */
  predicate IsWinTable(t: Table)
  {
    HasHeader(OddsColumns(t.header), "単勝オッズ") && HasHeader(OddsColumns(t.header), "ボートレーサー")
  }

  /** A table labelled with the place odds and the racer. */
  predicate IsPlaceTable(t: Table)
  {
    HasHeader(OddsColumns(t.header), "複勝オッズ") && HasHeader(OddsColumns(t.header), "ボートレーサー")
  }

  /** The tables picked so far: the win-odds and the place-odds table. */
  datatype OddsTables = OddsTables(win: Option<Table>, place: Option<Table>)

  /** The selection loop over the page's tables, in order, for a given
      pair of label tests: a later match replaces an earlier one, and a
      table passing both tests counts as a win table only. */
  function SelectBy(tables: seq<Table>, isWin: Table -> bool, isPlace: Table -> bool): OddsTables
  {
    if tables == [] then OddsTables(None, None)
    else
      var s := SelectBy(tables[..|tables| - 1], isWin, isPlace);
      var t := tables[|tables| - 1];
      if isWin(t) then OddsTables(Some(t), s.place)
      else if isPlace(t) then OddsTables(s.win, Some(t))
      else s
  }

  /** The collector's selection: win and place tables by their labels. */
  function SelectOdds(tables: seq<Table>): OddsTables
  {
    SelectBy(tables, IsWinTable, IsPlaceTable)
  }

  /** `k` is the last table of the page that passes `test`. */
  predicate IsLast(tables: seq<Table>, k: int, test: Table -> bool)
  {
    0 <= k < |tables| && test(tables[k]) && forall j :: k < j < |tables| ==> !test(tables[j])
  }

  /** `k` is the last table that passes the place test and not the win test. */
  predicate IsLastPlaceOnly(tables: seq<Table>, k: int, isWin: Table -> bool, isPlace: Table -> bool)
  {
    0 <= k < |tables| && isPlace(tables[k]) && !isWin(tables[k])
    && forall j :: k < j < |tables| ==> !(isPlace(tables[j]) && !isWin(tables[j]))
  }

  lemma {:induction false} SelectByWinNone(tables: seq<Table>, isWin: Table -> bool, isPlace: Table -> bool)
    ensures SelectBy(tables, isWin, isPlace).win.None? <==> forall j :: 0 <= j < |tables| ==> !isWin(tables[j])
  {
    if tables != [] {
      var init := tables[..|tables| - 1];
      SelectByWinNone(init, isWin, isPlace);
      assert forall j :: 0 <= j < |init| ==> init[j] == tables[j];
    }
  }

  lemma {:induction false} SelectByWinLast(tables: seq<Table>, k: int, isWin: Table -> bool, isPlace: Table -> bool)
    requires IsLast(tables, k, isWin)
    ensures SelectBy(tables, isWin, isPlace).win == Some(tables[k])
  {
    var n := |tables| - 1;
    if k < n {
      var init := tables[..n];
      assert init[k] == tables[k];
      SelectByWinLast(init, k, isWin, isPlace);
    }
  }

  lemma {:induction false} SelectByPlaceNone(tables: seq<Table>, isWin: Table -> bool, isPlace: Table -> bool)
    ensures SelectBy(tables, isWin, isPlace).place.None? <==>
      forall j :: 0 <= j < |tables| ==> !(isPlace(tables[j]) && !isWin(tables[j]))
  {
    if tables != [] {
      var init := tables[..|tables| - 1];
      SelectByPlaceNone(init, isWin, isPlace);
      assert forall j :: 0 <= j < |init| ==> init[j] == tables[j];
    }
  }

  lemma {:induction false} SelectByPlaceLast(tables: seq<Table>, k: int, isWin: Table -> bool, isPlace: Table -> bool)
    requires IsLastPlaceOnly(tables, k, isWin, isPlace)
    ensures SelectBy(tables, isWin, isPlace).place == Some(tables[k])
  {
    var n := |tables| - 1;
    if k < n {
      var init := tables[..n];
      assert init[k] == tables[k];
      SelectByPlaceLast(init, k, isWin, isPlace);
    }
  }

  /** The win table picked is the last win-labelled table of the page,
      and none is picked exactly when there is none. */
  lemma SelectWin(tables: seq<Table>, k: int)
    requires IsLast(tables, k, IsWinTable)
    ensures SelectOdds(tables).win == Some(tables[k])
  {
    SelectByWinLast(tables, k, IsWinTable, IsPlaceTable);
  }

  lemma SelectWinNone(tables: seq<Table>)
    ensures SelectOdds(tables).win.None? <==> forall j :: 0 <= j < |tables| ==> !IsWinTable(tables[j])
  {
    SelectByWinNone(tables, IsWinTable, IsPlaceTable);
  }

  /** The place table picked is the last place-labelled table that is not
      also win-labelled, and none is picked exactly when there is none. */
  lemma SelectPlace(tables: seq<Table>, k: int)
    requires IsLastPlaceOnly(tables, k, IsWinTable, IsPlaceTable)
    ensures SelectOdds(tables).place == Some(tables[k])
  {
    SelectByPlaceLast(tables, k, IsWinTable, IsPlaceTable);
  }

  lemma SelectPlaceNone(tables: seq<Table>)
    ensures SelectOdds(tables).place.None? <==>
      forall j :: 0 <= j < |tables| ==> !(IsPlaceTable(tables[j]) && !IsWinTable(tables[j]))
  {
    SelectByPlaceNone(tables, IsWinTable, IsPlaceTable);
  }

  // ---------------------------------------------------------------------
  // Odds values

  /** The cell texts that stand for "no odds": a dash, a scratched boat,
      a special refund. */
  const Sentinels: seq<string> := ["-", "欠場", "特払い"]

  /** The win odds of a stripped cell: 0.0 for a sentinel or for a text
      `float()` rejects; otherwise `float()` of it (which may be an
      infinity or NaN). */
  function WinOdds(raw: string): PyFloat
  {
    if raw in Sentinels then Zero
    else
      match ParseFloat(raw)
      case Some(f) => f
      case None => Zero
  }

  /** The place odds of a stripped cell, as (minimum, maximum): (0.0, 0.0)
      for a sentinel; a range `a-b` split at the dashes into its first two
      pieces; a single number as both ends; (0.0, 0.0) whenever a piece
      does not convert. */
  function PlaceOdds(s: string): (PyFloat, PyFloat)
  {
    if s in Sentinels then (Zero, Zero)
    else if '-' in s then
      SplitAtSeparator(s, '-');
      var parts := Split(s, '-');
      match (ParseFloat(parts[0]), ParseFloat(parts[1]))
      case (Some(lo), Some(hi)) => (lo, hi)
      case _ => (Zero, Zero)
    else
      match ParseFloat(s)
      case Some(v) => (v, v)
      case None => (Zero, Zero)
  }

  /** A text that is not a lone dash and starts with neither `欠` nor `特`
      is none of the sentinels. */
  lemma NotSentinel(s: string)
    requires |s| >= 1 && s[0] != '欠' && s[0] != '特' && (s[0] == '-' ==> |s| >= 2)
    ensures s !in Sentinels
  {
    assert "欠場"[0] == '欠' && "特払い"[0] == '特' && |"-"| == 1;
  }

  /** A sentinel reads as 0.0. */
  lemma WinOddsSentinel(s: string)
    requires s in Sentinels
    ensures WinOdds(s) == Zero
  {
  }

  /** A cell that is no sentinel and that `float()` rejects reads as 0.0:
      the odds degrade and the row is kept. */
  lemma WinOddsFailure(s: string)
    requires s !in Sentinels && ParseFloat(s).None?
    ensures WinOdds(s) == Zero
  {
  }

  /** Any other cell reads as its `float()` value, whatever form it takes
      (`inf`, `1e1`, `04.5`, `+4`). */
  lemma WinOddsParsed(s: string, f: PyFloat)
    requires s !in Sentinels && ParseFloat(s) == Some(f)
    ensures WinOdds(s) == f
  {
  }

  /** The text of a number reads as that number (in its canonical form, so
      `4` and `4.0` give the same odds). */
  lemma WinOddsRoundTrip(d: Decimal)
    ensures WinOdds(FormatDecimal(d)) == Finite(Normalize(d))
  {
    ParseFloatRoundTrip(d);
    FormatDecimalHead(d);
    NotSentinel(FormatDecimal(d));
  }

  /** A cell reading `nan` is taken at face value: the win odds are NaN,
      not the 0.0 used for unreadable cells. */
  lemma WinOddsNaN()
    ensures WinOdds("nan") == NaN
  {
    ParseFloatNaN();
    NotSentinel("nan");
  }

  /** A canonical non-negative number contains no dash. */
  lemma NoDash(d: Decimal)
    requires d.mantissa >= 0
    ensures '-' !in FormatDecimal(d)
  {
    var w, f := PaddedDigits(Abs(d.mantissa), d.scale);
    assert !IsDigit('-') && !IsDigit('.');
    var s := FormatDecimal(d);
    forall k | 0 <= k < |s| ensures s[k] != '-' {
      assert s == PointedDigits(Abs(d.mantissa), d.scale);
    }
  }

  /** The two ends of a printed range `a-b` of non-negative odds read back
      as `a` and `b`. */
  lemma PlaceRangeRoundTrip(a: Decimal, b: Decimal)
    requires a.mantissa >= 0 && b.mantissa >= 0
    ensures PlaceOdds(FormatDecimal(a) + "-" + FormatDecimal(b)) == (Finite(Normalize(a)), Finite(Normalize(b)))
  {
    var x, y := FormatDecimal(a), FormatDecimal(b);
    var s := x + "-" + y;
    NoDash(a);
    NoDash(b);
    SplitPair(x, y, '-');
    ParseFloatRoundTrip(a);
    ParseFloatRoundTrip(b);
    FormatDecimalHead(a);
    assert s[0] == x[0] && s[|x|] == '-';
    NotSentinel(s);
    PlaceRange(s, Finite(Normalize(a)), Finite(Normalize(b)));
  }

  /** A range cell whose two pieces convert reads as those two values. */
  lemma PlaceRange(s: string, lo: PyFloat, hi: PyFloat)
    requires s !in Sentinels && '-' in s
    requires |Split(s, '-')| >= 2
    requires ParseFloat(Split(s, '-')[0]) == Some(lo) && ParseFloat(Split(s, '-')[1]) == Some(hi)
    ensures PlaceOdds(s) == (lo, hi)
  {
  }

  /** An undashed cell that `float()` reads as v gives v as both ends. */
  lemma PlaceSingle(s: string, v: PyFloat)
    requires s !in Sentinels && '-' !in s && ParseFloat(s) == Some(v)
    ensures PlaceOdds(s) == (v, v)
  {
  }

  /** A single non-negative number is both ends of the place range. */
  lemma PlaceSingleRoundTrip(d: Decimal)
    requires d.mantissa >= 0
    ensures PlaceOdds(FormatDecimal(d)) == (Finite(Normalize(d)), Finite(Normalize(d)))
  {
    NoDash(d);
    ParseFloatRoundTrip(d);
    FormatDecimalHead(d);
    NotSentinel(FormatDecimal(d));
  }

  /** A negative number printed alone is not read as place odds: the
      leading minus sign is taken for the range dash, the empty piece
      before it does not convert, and the place odds become (0.0, 0.0). */
  lemma NegativePlaceOdds(d: Decimal)
    requires d.mantissa < 0
    ensures PlaceOdds(FormatDecimal(d)) == (Zero, Zero)
  {
    var s := FormatDecimal(d);
    FormatDecimalHead(d);
    assert s[0] == '-';
    NotSentinel(s);
    SplitAtSeparator(s, '-');
    assert Split(s, '-')[0] == [];
    ParseFloatEmpty();
    PlaceOddsFailure(s);
  }

  /** A sentinel reads as (0.0, 0.0). */
  lemma PlaceOddsSentinel(s: string)
    requires s in Sentinels
    ensures PlaceOdds(s) == (Zero, Zero)
  {
  }

  /** A cell with a piece that `float()` rejects reads as (0.0, 0.0): either
      of the first two pieces of a range, or the whole of a single value. */
  lemma PlaceOddsFailure(s: string)
    requires s !in Sentinels
    requires '-' in s ==>
      |Split(s, '-')| >= 2 && (ParseFloat(Split(s, '-')[0]).None? || ParseFloat(Split(s, '-')[1]).None?)
    requires '-' !in s ==> ParseFloat(s).None?
    ensures PlaceOdds(s) == (Zero, Zero)
  {
  }

  // ---------------------------------------------------------------------
  // Rows

  /** One row pair as a record, or None when the row is skipped: a row
      with fewer than three cells, or a boat cell that `int()` rejects.
      Unreadable odds do not skip the row; they read as 0.0. */
  function OddsRow(q: RaceQuery, win: Row, place: Row): Option<OddsRecord>
  {
    if |win| < 3 || |place| < 3 then None
    else
      match ParseInt(win[0])
      case None => None
      case Some(boat) =>
        var (lo, hi) := PlaceOdds(Strip(place[2]));
        Some(OddsRecord(q.date, q.stadiumCode, q.raceNo, boat, Strip(win[1]),
                        WinOdds(Strip(win[2])), lo, hi))
  }

  /** A pair of rows gives a record exactly when both have three cells and
      the boat cell is an integer; the record holds that integer, the
      trimmed name, the odds read from the trimmed odds cells, and the
      page's query. */
  lemma OddsRowSpec(q: RaceQuery, win: Row, place: Row)
    ensures OddsRow(q, win, place).Some? <==> |win| >= 3 && |place| >= 3 && ParseInt(win[0]).Some?
    ensures OddsRow(q, win, place).Some? ==>
      var r := OddsRow(q, win, place).value;
      && r.boatNo == ParseInt(win[0]).value && r.racerName == Strip(win[1])
      && r.winOdds == WinOdds(Strip(win[2]))
      && (r.placeMin, r.placeMax) == PlaceOdds(Strip(place[2]))
      && OddsFromQuery(r, q)
  {
  }

  /** The row loop: rows paired by position, the first `n` pairs, in
      order, skipped rows left out. Never more records than pairs, exactly
      as many when no pair is skipped, each carrying the page's query. */
  function PairedOdds(q: RaceQuery, win: seq<Row>, place: seq<Row>, n: nat): (out: seq<OddsRecord>)
    requires n <= |win| && n <= |place|
    ensures |out| <= n
    ensures |out| == n <==> forall i :: 0 <= i < n ==> OddsRow(q, win[i], place[i]).Some?
    ensures forall r :: r in out ==> OddsFromQuery(r, q)
  {
    if n == 0 then []
    else PairedOdds(q, win, place, n - 1) + Kept(OddsRow(q, win[n - 1], place[n - 1]))
  }

  function Min(a: nat, b: nat): nat
  {
    if a <= b then a else b
  }

  /** The odds `scrape_odds` returns for a race, given the outcome of its
      single fetch: nothing for an exception, a status other than 200, an
      unreadable page, or a page lacking either odds table. */
  function OddsRecords(q: RaceQuery, outcome: Outcome): seq<OddsRecord>
  {
    match outcome
    case Raised => []
    case Response(status, page) =>
      if status != 200 || page.Unreadable? then []
      else
        var picked := SelectOdds(page.tables);
        if picked.win.None? || picked.place.None? then []
        else
          var win, place := picked.win.value.rows, picked.place.value.rows;
          PairedOdds(q, win, place, Min(|win|, |place|))
  }

  /** Odds come only from a page fetched with status 200 that holds both a
      win table and a place table, and there are never more records than
      the shorter table has rows. */
  lemma OddsNeedBothTables(q: RaceQuery, outcome: Outcome)
    ensures OddsRecords(q, outcome) != [] ==>
      && outcome.Response? && outcome.status == 200 && outcome.page.Tables?
      && SelectOdds(outcome.page.tables).win.Some?
      && SelectOdds(outcome.page.tables).place.Some?
    ensures OddsRecords(q, outcome) != [] ==>
      var picked := SelectOdds(outcome.page.tables);
      |OddsRecords(q, outcome)| <= Min(|picked.win.value.rows|, |picked.place.value.rows|)
  {
  }

  /** The selection loop of `scrape_odds`: each table is tested as a win
      table first, then as a place table; a later match replaces an
      earlier one. */
  method PickTables(tables: seq<Table>) returns (win: Option<Table>, place: Option<Table>)
    ensures OddsTables(win, place) == SelectOdds(tables)
  {
    win, place := None, None;
    for i := 0 to |tables|
      invariant OddsTables(win, place) == SelectOdds(tables[..i])
    {
      assert tables[..i + 1][..i] == tables[..i];
      if IsWinTable(tables[i]) {
        win := Some(tables[i]);
      } else if IsPlaceTable(tables[i]) {
        place := Some(tables[i]);
      }
    }
    assert tables[..|tables|] == tables;
  }

  /** The row loop of `scrape_odds` over the first `n` row pairs. */
  method PairRows(q: RaceQuery, win: seq<Row>, place: seq<Row>, n: nat) returns (odds: seq<OddsRecord>)
    requires n <= |win| && n <= |place|
    ensures odds == PairedOdds(q, win, place, n)
  {
    odds := [];
    for idx := 0 to n
      invariant odds == PairedOdds(q, win, place, idx)
    {
      var r := OddsRow(q, win[idx], place[idx]);
      if r.Some? {
        odds := odds + [r.value];
      }
    }
  }

  /** `scrape_odds`: one fetch, the selection loop over the tables, then
      the row loop over the paired rows. */
  method ScrapeOdds(q: RaceQuery, outcome: Outcome) returns (odds: seq<OddsRecord>)
    ensures odds == OddsRecords(q, outcome)
  {
    odds := [];
    if outcome.Raised? || outcome.status != 200 || outcome.page.Unreadable? {
      return;
    }
    var win, place := PickTables(outcome.page.tables);
    if win.Some? && place.Some? {
      var w, p := win.value.rows, place.value.rows;
      odds := PairRows(q, w, p, Min(|w|, |p|));
    }
  }

  // ---------------------------------------------------------------------
  // A whole day

  /** The network as seen by the odds collector: the outcome of the single
      fetch of a venue's race odds page. */
  type OddsSite = (string, int) -> Outcome

  /** The odds of races 1..n of one venue, in race order. */
  function VenueOdds(date: string, code: string, site: OddsSite, n: nat): seq<OddsRecord>
  {
    if n == 0 then []
    else VenueOdds(date, code, site, n - 1) + OddsRecords(RaceQuery(date, code, n), site(code, n))
  }

  /** The odds of every race of the given venues, venue by venue. */
  function DayOdds(date: string, codes: seq<string>, site: OddsSite): seq<OddsRecord>
  {
    if codes == [] then []
    else DayOdds(date, codes[..|codes| - 1], site) + VenueOdds(date, codes[|codes| - 1], site, RaceCount)
  }

  /** Where a day's odds record can come from. */
  predicate OddsOrigin(r: OddsRecord, date: string, codes: seq<string>)
  {
    r.date == date && r.stadiumCode in codes && 1 <= r.raceNo <= RaceCount
  }

  lemma {:induction false} RaceOddsFromQuery(q: RaceQuery, outcome: Outcome)
    ensures forall r :: r in OddsRecords(q, outcome) ==> OddsFromQuery(r, q)
  {
  }

  lemma VenueOddsOrigin(date: string, code: string, site: OddsSite, n: nat)
    requires n <= RaceCount
    ensures forall r :: r in VenueOdds(date, code, site, n) ==> OddsOrigin(r, date, [code])
  {
    forall r | r in VenueOdds(date, code, site, n)
      ensures OddsOrigin(r, date, [code])
    {
      VenueOddsRecordOrigin(date, code, site, n, r);
    }
  }

  /** One record of a venue's odds, traced back to the race it came from. */
  lemma {:induction false} VenueOddsRecordOrigin(date: string, code: string, site: OddsSite, n: nat, r: OddsRecord)
    requires n <= RaceCount && r in VenueOdds(date, code, site, n)
    ensures OddsOrigin(r, date, [code])
  {
    var q := RaceQuery(date, code, n);
    if r in VenueOdds(date, code, site, n - 1) {
      VenueOddsRecordOrigin(date, code, site, n - 1, r);
    } else {
      RaceOddsFromQuery(q, site(code, n));
    }
  }

  /** Every odds record of a day comes from the collector's date, a
      visited venue and a race 1..12. */
  lemma {:induction false} DayOddsOrigin(date: string, codes: seq<string>, site: OddsSite)
    ensures forall r :: r in DayOdds(date, codes, site) ==> OddsOrigin(r, date, codes)
  {
    if codes != [] {
      var init := codes[..|codes| - 1];
      DayOddsOrigin(date, init, site);
      VenueOddsOrigin(date, codes[|codes| - 1], site, RaceCount);
      assert forall c :: c in init ==> c in codes;
    }
  }

  /** The race loop of `run` for one venue: races 1..12 in order. */
  method ScrapeVenueOdds(date: string, code: string, site: OddsSite) returns (odds: seq<OddsRecord>)
    ensures odds == VenueOdds(date, code, site, RaceCount)
  {
    odds := [];
    for rno := 1 to RaceCount + 1
      invariant odds == VenueOdds(date, code, site, rno - 1)
    {
      var raceOdds := ScrapeOdds(RaceQuery(date, code, rno), site(code, rno));
      odds := odds + raceOdds;
    }
  }

  /** `run`: discover the day's venues, then scrape the odds of races
      1..12 of each, appending them in order. Writing them to a sheet is
      not modelled. */
  method Run(date: string, index: Venues.IndexFetch, site: OddsSite)
    returns (stadiums: seq<string>, allOdds: seq<OddsRecord>)
    ensures Venues.StrictlySorted(stadiums)
    ensures forall c :: c in stadiums <==> c in Venues.Discovered(index)
    ensures allOdds == DayOdds(date, stadiums, site)
  {
    stadiums := Venues.ActiveStadiums(index);
    allOdds := [];
    for i := 0 to |stadiums|
      invariant allOdds == DayOdds(date, stadiums[..i], site)
    {
      assert stadiums[..i + 1][..i] == stadiums[..i];
      var odds := ScrapeVenueOdds(date, stadiums[i], site);
      allOdds := allOdds + odds;
    }
    assert stadiums[..|stadiums|] == stadiums;
  }
}
