# Boat race collectors, modelled in Dafny

A model of the two collectors of a boat race scraper:

- `BoatRaceScraper` in scripts/collect/data_collector.py gathers race results and payouts.
- `OddsCollector` in scripts/collect/odds_collector.py gathers win odds and place odds.

For a date, each collector does three things:

1. It reads the date's index page and discovers the venues (stadiums) that hold races. Each venue is a `jcd` code taken from the page's links.
2. It fetches the page of races 1 to 12 of every venue.
3. It picks the page's tables by their column labels and turns their rows into records.

The model keeps the collectors' control flow as loops with invariants. Each loop is proved against a recursive specification function, and the properties are lemmas about those functions. The modules are:

- `Wrappers`: `Option` and `Kept`, a dropped row as an empty sequence.
- `PyText`: the Python `str` operations the code relies on (`strip`, `in`, `startswith`, `split`, `replace`, string order).
- `PyNumbers`: `int(str)` and `float(str)` as partial parsers.
- `Pages`: what arrives from the network and from `pd.read_html`: an outcome per fetch attempt, a page as its tables, each table a header plus rows of cell texts.
- `Retry`: the three-attempt fetch loop of `scrape_race`.
- `Venues`: the venue name table and `get_active_stadiums`, which is identical in both files.
- `ResultCollector`: `scrape_race` and `run` of the result collector.
- `OddsCollector`: `scrape_odds` and `run` of the odds collector.

The network, the clock and pandas are parameters:

- The index page fetch is an `IndexFetch`: it raised, or it gave a status and the links' `href` values.
- A race fetch is a sequence of `Outcome`s, one per attempt.
- A parsed page is `Unreadable` (`read_html` raised) or its `Tables`.

Python's own numbers stay exact:

- An integer is unbounded, as in Python.
- A float is an exact decimal, an infinity or NaN. A decimal is kept without trailing zeros after the point, so `float('4')` and `float('4.0')` are the same value.

Some values pass through unchecked, in the code and in the model alike:

- Ranks are not range-checked: a rank cell `0` gives rank 0.
- Boat numbers are not checked to lie in 1..6, and odds are not checked to be non-negative. `float()` gives NaN for a cell reading `nan`, and an infinity for `inf`.
- `scrape_odds` fetches the odds page once, with no retry. Any status other than 200 gives no odds.

## Model

| member | source | states |
|---|---|---|
| `Venues.StadiumName` | scripts/collect/data_collector.py:113 | `STADIUM_NAMES.get(jcd, '不明')`; no contract of its own, specified by `Venues.StadiumTable` |
| `Venues.StadiumTable` | scripts/collect/data_collector.py:20-27 | the name table knows exactly the codes `01`..`24`, and the fallback name `不明` is given exactly to the codes outside it |
| `Venues.JcdValue` | scripts/collect/data_collector.py:62-63 | the code of a `jcd=` parameter is the text after `jcd=` up to the next `=` (empty for a bare `jcd=`) |
| `Venues.SplitJcd` | scripts/collect/data_collector.py:63 | splitting a `jcd=` parameter at `=` gives `jcd` followed by the pieces of the rest |
| `Venues.ParamCodesMembers` | scripts/collect/data_collector.py:60-64 | a code is among a link's parameter codes iff some parameter starting with `jcd=` carries it |
| `Venues.LinkCodesMembers` | scripts/collect/data_collector.py:54-64 | a code is discovered iff some link of the page contributes it |
| `Venues.LinkCodesWitness` | scripts/collect/data_collector.py:54-64 | every discovered code comes from some link |
| `Venues.LinkCodesFrom` | scripts/collect/data_collector.py:54-64 | every code of every link is discovered |
| `Venues.HrefCodes` | scripts/collect/data_collector.py:56-64 | the codes one link contributes: none without `jcd=` or `?`, else the `jcd=` parameters' codes in order; no contract of its own, specified by `Venues.ParamCodesMembers` and `Venues.NoQueryNoCodes` |
| `Venues.NoQueryNoCodes` | scripts/collect/data_collector.py:58-59 | a link without `?` contributes no code |
| `Venues.Discovered` | scripts/collect/data_collector.py:49-66 | the codes of all links of the index page, none when the fetch raised or failed; no contract of its own, specified by `Venues.LinkCodesMembers` and `Venues.ActiveStadiums` |
| `Venues.AddLinkCodes` | scripts/collect/data_collector.py:55-64 | after one link the gathered set is the old set plus exactly that link's codes |
| `Venues.Least` | scripts/collect/data_collector.py:67 | returns a member of the set that is below every other member in Python's string order |
| `Venues.SortCodes` | scripts/collect/data_collector.py:67 | `sorted(list(s))` lists exactly the set's members, ascending, without repetition |
| `Venues.SortedUnique` | scripts/collect/data_collector.py:67 | two strictly ascending listings of the same codes are equal, so the returned listing is determined by the discovered codes |
| `Venues.ActiveStadiums` | scripts/collect/data_collector.py:46-72 | returns the codes discovered on the index page, strictly ascending, each once; none when the fetch raised or the status is 4xx/5xx (the same function is odds_collector.py lines 34-57) |
| `Retry.FirstSuccess` | scripts/collect/data_collector.py:76-81 | finds the first status-200 attempt among the first three, and finds none exactly when all three fail |
| `Retry.Fetch` | scripts/collect/data_collector.py:74-86 | makes 1 to 3 attempts and stops at the first status-200 response, returning its page; after three failures it returns no page; a raised exception counts as a failed attempt |
| `Pages.HasHeaderMonotone` | scripts/collect/data_collector.py:100 | a label found among a table's column labels is still found when labels are reordered or added |
| `ResultCollector.ResultColumns` | scripts/collect/data_collector.py:94-97 | a flat header's labels are used as they are; a multi-level header gives, for column i, the concatenation of its levels (`''.join`) |
| `ResultCollector.FlattenKeepsLevel` | scripts/collect/data_collector.py:95 | joining a multi-level label keeps any text found in one of its levels |
| `ResultCollector.LevelsHeader` | scripts/collect/data_collector.py:94-95 | a multi-level header carries a label if any level of any column contains it |
| `ResultCollector.Classify` | scripts/collect/data_collector.py:99-100 | the result test (all four result labels and no results yet) is tried before the payout test (`勝式` and `払戻金`); no contract of its own, specified by `ResultCollector.ClassifyByLabelSet`, `ResultCollector.PageResults` and `ResultCollector.PagePayouts` |
| `ResultCollector.ClassifyByLabelSet` | scripts/collect/data_collector.py:99-123 | whether a table is taken as the result table, a payout table or neither depends only on which labels it has, not on their order or repetition |
| `ResultCollector.RankValue` | scripts/collect/data_collector.py:108-115 | the rank test passes iff the trimmed cell is a non-empty string of ASCII or full-width digits (or one full-width digit); the rank is then the digits' decimal value |
| `ResultCollector.RankIsDigitString` | scripts/collect/data_collector.py:109 | the single-full-width-digit alternative of the rank test adds nothing to `isdigit()` |
| `ResultCollector.FullWidthRankValue` | scripts/collect/data_collector.py:109 | each full-width digit `０`..`９` passes the rank test and reads as 0..9 |
| `ResultCollector.FullWidthRank` | scripts/collect/data_collector.py:103-120 | a row whose rank cell is a full-width digit and whose boat cell is an integer becomes a record ranked by that digit |
| `ResultCollector.ResultRow` | scripts/collect/data_collector.py:103-120 | one result row as a record or nothing; no contract of its own, specified by `ResultCollector.ResultRowKept` and `ResultCollector.ResultRowFields` |
| `ResultCollector.ResultRowKept` | scripts/collect/data_collector.py:101-121 | a result row gives a record iff it has four cells, a digit-string rank and an integer boat cell |
| `ResultCollector.ResultRowFields` | scripts/collect/data_collector.py:110-120 | a kept row's record holds the rank's value, the boat number, the trimmed name and time, and the page's date, venue code, venue name and race number |
| `ResultCollector.ResultRows` | scripts/collect/data_collector.py:101-121 | a table yields at most one record per row, each carrying the page's query |
| `ResultCollector.ResultRowsConcat` | scripts/collect/data_collector.py:101-121 | rows are handled one at a time: the records of two stretches of rows are the records of each, concatenated |
| `ResultCollector.PayoutRow` | scripts/collect/data_collector.py:126-140 | one payout row as a record or nothing; no contract of its own, specified by `ResultCollector.PayoutRowSpec` |
| `ResultCollector.PayoutRowSpec` | scripts/collect/data_collector.py:124-141 | a payout row gives a record iff it has three cells, a bet type that is neither empty nor `nan`, and a payout and popularity that convert; the record holds the trimmed bet type and combination and the converted amounts |
| `ResultCollector.PayoutAmount` | scripts/collect/data_collector.py:138 | `int()` of the cell without `¥` and commas when it has a `¥`, else 0; no contract of its own, specified by `ResultCollector.PayoutRoundTrip` and `ResultCollector.PayoutWithoutYen` |
| `ResultCollector.Thousands` | scripts/collect/data_collector.py:138 | the site's comma-grouped amount text holds only digits and commas |
| `ResultCollector.GroupDigits` | scripts/collect/data_collector.py:138 | a three-digit group is all digits, has no comma, and reads as its value |
| `ResultCollector.ThousandsDigits` | scripts/collect/data_collector.py:138 | removing the commas from a grouped amount leaves digits that read as the amount |
| `ResultCollector.PayoutRoundTrip` | scripts/collect/data_collector.py:138 | `¥` followed by the comma-grouped digits of `n` gives the payout `n` |
| `ResultCollector.PayoutWithoutYen` | scripts/collect/data_collector.py:138 | a payout cell without `¥` gives 0 |
| `ResultCollector.Popularity` | scripts/collect/data_collector.py:139 | absent for an empty or `nan` cell, else `int(float(s))`; no contract of its own, specified by `ResultCollector.PopularityValues` and `ResultCollector.PopularityInt` |
| `ResultCollector.PopularityValues` | scripts/collect/data_collector.py:129-139 | an empty or `nan` popularity is absent; the text of a number gives the number truncated toward zero, whatever trailing zeros it is written with |
| `ResultCollector.PopularityInt` | scripts/collect/data_collector.py:139 | the text `str(n)` of an integer gives popularity `n` |
| `ResultCollector.PayoutRows` | scripts/collect/data_collector.py:124-141 | a table yields at most one payout record per row, each carrying the page's query |
| `ResultCollector.PageRecords` | scripts/collect/data_collector.py:93-141 | the records gathered over a page's tables in order; no contract of its own, specified by `ResultCollector.PageResults`, `ResultCollector.PagePayouts` and `ResultCollector.PageFromQuery` |
| `ResultCollector.PageStep` | scripts/collect/data_collector.py:93-141 | one table sets the results to its rows' records when none were gathered and it has the four result labels, and leaves them alone otherwise; it appends its rows' payouts exactly when it carries `勝式` and `払戻金` and was not just taken as the result table; records keep carrying the query |
| `ResultCollector.PageFromQuery` | scripts/collect/data_collector.py:93-142 | every record of a page carries the page's date, venue and race number |
| `ResultCollector.FirstResultsLast` | scripts/collect/data_collector.py:100 | looking at one more table changes the first-results reading only when nothing was found before it |
| `ResultCollector.PageResults` | scripts/collect/data_collector.py:99-121 | a page's results are the rows of exactly one table: the first table with the four result labels that yields a record |
| `ResultCollector.PagePayouts` | scripts/collect/data_collector.py:99-141 | a page's payouts are those of `AllPayouts`: in page order, the rows of every table labelled `勝式` and `払戻金`, except a table with the result labels that comes before any table that yielded results |
| `ResultCollector.NoPayoutLabelsNoPayouts` | scripts/collect/data_collector.py:123 | a page without a table labelled both `勝式` and `払戻金` yields no payouts |
| `ResultCollector.ResultRowsStep` | scripts/collect/data_collector.py:101-121 | one more result row adds that row's record, if it has one |
| `ResultCollector.PayoutRowsStep` | scripts/collect/data_collector.py:124-141 | one more payout row adds that row's record, if it has one |
| `ResultCollector.CollectResults` | scripts/collect/data_collector.py:101-121 | the result row loop returns the rows' records in row order, bad rows left out |
| `ResultCollector.CollectPayouts` | scripts/collect/data_collector.py:124-141 | the payout row loop returns the rows' records in row order, bad rows left out |
| `ResultCollector.ApplyTable` | scripts/collect/data_collector.py:94-141 | one pass of the table loop gives exactly `PageStep`: a result-labelled table fills the results while they are empty, else a payout-labelled table extends the payouts, else nothing changes |
| `ResultCollector.RaceRecords` | scripts/collect/data_collector.py:74-145 | the records of one race given its attempts' outcomes; no contract of its own, specified by `ResultCollector.ScrapeRace` and `ResultCollector.RaceFromQuery` |
| `ResultCollector.ScrapeRace` | scripts/collect/data_collector.py:74-145 | returns the records of the page of the first successful attempt; nothing after three failures or when the page has no readable tables |
| `ResultCollector.RaceFromQuery` | scripts/collect/data_collector.py:110-135 | every record `scrape_race` returns carries the race's query |
| `ResultCollector.VenueOrigin` | scripts/collect/data_collector.py:157-162 | every record of a venue's races carries the date, that venue with its table name, and a race number 1..12 |
| `ResultCollector.DayOrigin` | scripts/collect/data_collector.py:147-162 | every record of the day carries the date, a visited venue with its table name, and a race number 1..12 |
| `ResultCollector.ScrapeVenue` | scripts/collect/data_collector.py:155-163 | the race loop returns the records of races 1..12, in race order |
| `ResultCollector.Run` | scripts/collect/data_collector.py:147-163 | visits exactly the discovered venues, ascending, and returns the records of races 1..12 of each, venue by venue |
| `OddsCollector.OddsColumns` | scripts/collect/odds_collector.py:74 | the odds tables are matched against `str(c)` of every column: a flat header's labels, or for column i the tuple text of its levels |
| `OddsCollector.ReprItemsKeepLevel` | scripts/collect/odds_collector.py:74 | the items of a tuple's text keep any text found in one of its levels |
| `OddsCollector.TupleReprKeepsLevel` | scripts/collect/odds_collector.py:74-77 | a multi-level label's text contains whatever any of its levels contains, so a two-row header is recognised by either row |
| `OddsCollector.SelectOdds` | scripts/collect/odds_collector.py:73-78 | the win and place tables a page's tables give; no contract of its own, specified by `OddsCollector.SelectWin`, `OddsCollector.SelectWinNone`, `OddsCollector.SelectPlace` and `OddsCollector.SelectPlaceNone` |
| `OddsCollector.SelectByWinNone` | scripts/collect/odds_collector.py:73-76 | the selection loop picks no win table iff no table passes the win test |
| `OddsCollector.SelectByWinLast` | scripts/collect/odds_collector.py:73-76 | the picked win table is the last table that passes the win test |
| `OddsCollector.SelectByPlaceNone` | scripts/collect/odds_collector.py:73-78 | the selection loop picks no place table iff no table passes the place test without passing the win test |
| `OddsCollector.SelectByPlaceLast` | scripts/collect/odds_collector.py:73-78 | the picked place table is the last table that passes the place test but not the win test |
| `OddsCollector.SelectWin` | scripts/collect/odds_collector.py:73-76 | the win table picked is the page's last table labelled `単勝オッズ` and `ボートレーサー` |
| `OddsCollector.SelectWinNone` | scripts/collect/odds_collector.py:73-80 | no win table is picked iff no table carries both win labels |
| `OddsCollector.SelectPlace` | scripts/collect/odds_collector.py:77-78 | the place table picked is the page's last table labelled `複勝オッズ` and `ボートレーサー` that is not also a win table |
| `OddsCollector.SelectPlaceNone` | scripts/collect/odds_collector.py:77-80 | no place table is picked iff every table carrying the place labels also carries the win labels |
| `OddsCollector.NotSentinel` | scripts/collect/odds_collector.py:89 | a text that is not a lone dash and starts with neither `欠` nor `特` is none of `-`, `欠場`, `特払い` |
| `OddsCollector.WinOdds` | scripts/collect/odds_collector.py:87-95 | win odds of a trimmed cell: 0.0 for a sentinel or a failed `float()`; no contract of its own, specified by `OddsCollector.WinOddsSentinel`, `OddsCollector.WinOddsFailure`, `OddsCollector.WinOddsParsed`, `OddsCollector.WinOddsRoundTrip` and `OddsCollector.WinOddsNaN` |
| `OddsCollector.WinOddsSentinel` | scripts/collect/odds_collector.py:89-90 | a sentinel cell gives win odds 0.0 |
| `OddsCollector.WinOddsFailure` | scripts/collect/odds_collector.py:88-95 | a non-sentinel cell that `float()` rejects gives win odds 0.0, and the row is kept |
| `OddsCollector.WinOddsParsed` | scripts/collect/odds_collector.py:89-92 | a non-sentinel cell that `float()` reads as f gives win odds f, whatever its form (`inf`, `1e1`, `04.5`, `+4`) |
| `OddsCollector.WinOddsRoundTrip` | scripts/collect/odds_collector.py:87-92 | the text of a number gives that number as win odds (`4` and `4.0` alike) |
| `OddsCollector.WinOddsNaN` | scripts/collect/odds_collector.py:92 | a cell reading `nan` gives NaN win odds, not 0.0 |
| `OddsCollector.NoDash` | scripts/collect/odds_collector.py:102 | the text of a non-negative number contains no dash, so it is not taken for a range |
| `OddsCollector.PlaceOdds` | scripts/collect/odds_collector.py:98-109 | place odds of a trimmed cell; no contract of its own, specified by `OddsCollector.PlaceOddsSentinel`, `OddsCollector.PlaceRange`, `OddsCollector.PlaceOddsFailure`, `OddsCollector.PlaceSingle` and the round trips below |
| `OddsCollector.PlaceOddsSentinel` | scripts/collect/odds_collector.py:100-101 | a sentinel cell gives place odds (0.0, 0.0) |
| `OddsCollector.PlaceRange` | scripts/collect/odds_collector.py:102-105 | a non-sentinel cell with a dash whose first two pieces convert gives those two values |
| `OddsCollector.PlaceRangeRoundTrip` | scripts/collect/odds_collector.py:98-105 | the text `a-b` of two non-negative numbers gives place odds (a, b) |
| `OddsCollector.PlaceSingle` | scripts/collect/odds_collector.py:106-107 | a non-sentinel cell without a dash that `float()` reads as v gives (v, v) |
| `OddsCollector.PlaceSingleRoundTrip` | scripts/collect/odds_collector.py:106-107 | the text of a single non-negative number gives it as both place-odds ends |
| `OddsCollector.PlaceOddsFailure` | scripts/collect/odds_collector.py:100-109 | a non-sentinel cell gives place odds (0.0, 0.0) when `float()` rejects the first or second piece of a dashed cell, or the whole of an undashed one |
| `OddsCollector.NegativePlaceOdds` | scripts/collect/odds_collector.py:102-109 | the text of a negative number is read as a range with an empty first piece and gives (0.0, 0.0) |
| `OddsCollector.OddsRow` | scripts/collect/odds_collector.py:83-121 | one row pair as a record or nothing; no contract of its own, specified by `OddsCollector.OddsRowSpec` |
| `OddsCollector.OddsRowSpec` | scripts/collect/odds_collector.py:82-121 | a row pair gives a record iff both rows have three cells and the boat cell is an integer; the record holds that integer, the trimmed name, the win odds and the place odds of the trimmed cells, and the query |
| `OddsCollector.PairedOdds` | scripts/collect/odds_collector.py:81-121 | the first `n` row pairs give at most `n` records, exactly `n` iff no pair is skipped, each carrying the query |
| `OddsCollector.OddsRecords` | scripts/collect/odds_collector.py:59-126 | the odds of one fetch outcome; no contract of its own, specified by `OddsCollector.OddsNeedBothTables` and `OddsCollector.ScrapeOdds` |
| `OddsCollector.OddsNeedBothTables` | scripts/collect/odds_collector.py:59-81 | odds come only from a status-200 readable page with both a win and a place table, and never outnumber the shorter table's rows |
| `OddsCollector.PickTables` | scripts/collect/odds_collector.py:73-78 | the selection loop ends with the tables the selection function picks |
| `OddsCollector.PairRows` | scripts/collect/odds_collector.py:81-121 | the row loop returns the records of the first `n` row pairs, in order |
| `OddsCollector.ScrapeOdds` | scripts/collect/odds_collector.py:59-126 | returns the odds of the single fetch: nothing for an exception, a status other than 200, an unreadable page or a missing table, otherwise the paired rows' records |
| `OddsCollector.RaceOddsFromQuery` | scripts/collect/odds_collector.py:111-120 | every odds record of a race carries the race's date, venue and race number |
| `OddsCollector.VenueOddsOrigin` | scripts/collect/odds_collector.py:136-139 | every odds record of a venue carries the date, that venue and a race number 1..12 |
| `OddsCollector.DayOddsOrigin` | scripts/collect/odds_collector.py:128-139 | every odds record of the day carries the date, a visited venue and a race number 1..12 |
| `OddsCollector.ScrapeVenueOdds` | scripts/collect/odds_collector.py:136-140 | the race loop returns the odds of races 1..12, in race order |
| `OddsCollector.Run` | scripts/collect/odds_collector.py:128-140 | visits exactly the discovered venues, ascending, and returns the odds of races 1..12 of each, venue by venue |
| `PyText.TrimStart` | scripts/collect/data_collector.py:108 | `lstrip()` returns a suffix that does not start with whitespace, and everything it drops is whitespace |
| `PyText.TrimEnd` | scripts/collect/data_collector.py:108 | `rstrip()` returns a prefix that does not end with whitespace, and everything it drops is whitespace |
| `PyText.Strip` | scripts/collect/data_collector.py:108 | `str.strip()`; no contract of its own, specified by `PyText.StripKeeps`, `PyText.StripEnds`, `PyText.StripShape` and `PyText.StripIdempotent` |
| `PyText.StripKeeps` | scripts/collect/data_collector.py:108 | `strip()` leaves a string without surrounding whitespace unchanged |
| `PyText.StripEnds` | scripts/collect/data_collector.py:108 | what `strip()` returns neither begins nor ends with whitespace |
| `PyText.StripShape` | scripts/collect/data_collector.py:108 | `strip()` returns a slice of its argument and cuts off only whitespace |
| `PyText.StripIdempotent` | scripts/collect/data_collector.py:108 | stripping twice is stripping once |
| `PyText.ContainsAt` | scripts/collect/data_collector.py:56 | an occurrence at any position makes `sub in s` true |
| `PyText.ContainsWitness` | scripts/collect/data_collector.py:56 | `sub in s` gives a position where `sub` occurs |
| `PyText.ContainsConcat` | scripts/collect/data_collector.py:100 | text added around a string never hides an occurrence |
| `PyText.Split` | scripts/collect/data_collector.py:58 | `split(sep)` gives at least one piece, and no piece contains the separator |
| `PyText.JoinSplit` | scripts/collect/data_collector.py:58 | joining the pieces of `split(sep)` with `sep` gives back the string |
| `PyText.SplitJoin` | scripts/collect/data_collector.py:58 | splitting separator-free pieces joined by `sep` gives back the pieces |
| `PyText.SplitPair` | scripts/collect/odds_collector.py:103 | `x-y` with dash-free `x` and `y` splits into exactly `x` and `y` |
| `PyText.SplitAtSeparator` | scripts/collect/odds_collector.py:102-105 | a string containing the separator splits into at least two pieces, so `parts[1]` exists |
| `PyText.RemoveAll` | scripts/collect/data_collector.py:138 | `replace(c, '')` leaves no `c`, does not lengthen the string, and keeps every other character |
| `PyText.RemoveAllConcat` | scripts/collect/data_collector.py:138 | removing a character from two joined strings removes it from each |
| `PyText.RemoveSeparator` | scripts/collect/data_collector.py:138 | removing a separator joins the pieces on either side of it |
| `PyText.RemoveAllAbsent` | scripts/collect/data_collector.py:138 | removing a character the string lacks changes nothing |
| `PyText.LexIrreflexive` | scripts/collect/data_collector.py:67 | no string sorts before itself |
| `PyText.LexTransitive` | scripts/collect/data_collector.py:67 | string order is transitive |
| `PyText.LexTotal` | scripts/collect/data_collector.py:67 | of two different strings, one sorts before the other |
| `PyText.LowerAscii` | scripts/collect/odds_collector.py:92 | lower-casing for the words of `float()` keeps the length, maps each of `A`..`Z` to its lower-case letter and changes nothing else |
| `PyNumbers.FullWidthDigitValues` | scripts/collect/data_collector.py:109 | the full-width digits `０`..`９` have the values 0..9, one each |
| `PyNumbers.ParseInt` | scripts/collect/data_collector.py:115-116 | `int(s)` of a string, ignoring only the whitespace `int()` ignores (`PyNumbers.NumberStrip`); no contract of its own, specified by `PyNumbers.ParseIntDigits`, `PyNumbers.ParseIntRoundTrip`, `PyNumbers.ParseIntRejects` and `PyNumbers.SeparatorNotSkipped` |
| `PyNumbers.NumberStripAgrees` | scripts/collect/data_collector.py:116 | the whitespace `int()` and `float()` ignore around a number is what `str.strip()` removes, except U+001C..U+001F: on a text without those the two strips agree |
| `PyNumbers.SeparatorNotSkipped` | scripts/collect/odds_collector.py:83 | `'\x1c1'.strip()` is `'1'`, but `int('\x1c1')` and `float('\x1c2.3')` raise |
| `PyNumbers.ParseIntRejects` | scripts/collect/odds_collector.py:83 | a text that begins with no sign, digit or number whitespace and does not end in number whitespace is rejected by `int()` |
| `PyNumbers.ParseIntDigits` | scripts/collect/data_collector.py:115 | `int()` of a digit string is its decimal value |
| `PyNumbers.ParseIntRoundTrip` | scripts/collect/data_collector.py:116 | `int(str(n)) == n` for every integer |
| `PyNumbers.IntStringShape` | scripts/collect/data_collector.py:116 | `str(n)` is an optional minus sign and the digits of the magnitude |
| `PyNumbers.ParseFloat` | scripts/collect/odds_collector.py:92 | `float(s)` of a string, ignoring only the whitespace `float()` ignores; every finite value it gives is canonical (no trailing zero after the point) |
| `PyNumbers.ParseFloatRejects` | scripts/collect/odds_collector.py:104-105 | a text that begins with no sign, digit, point, letter or number whitespace and does not end in number whitespace is rejected by `float()` |
| `PyNumbers.ParseFloatRoundTrip` | scripts/collect/odds_collector.py:92 | `float()` of a number's text gives back exactly that number, in canonical form |
| `PyNumbers.ParseFloatByValue` | scripts/collect/odds_collector.py:92 | texts of the same number (`4`, `4.0`, `4.00`) give the same float |
| `PyNumbers.Normalize` | scripts/collect/odds_collector.py:92 | drops trailing zeros after the point: the result is canonical, and a canonical decimal is left as it is |
| `PyNumbers.NormalizeSameValue` | scripts/collect/odds_collector.py:92 | normalizing keeps the number |
| `PyNumbers.CanonicalUnique` | scripts/collect/odds_collector.py:92 | two canonical decimals of the same number are equal, so equal floats are equal values of the model |
| `PyNumbers.NormalizeByValue` | scripts/collect/odds_collector.py:92 | decimals of the same number normalize to the same decimal |
| `PyNumbers.NormalizeNegate` | scripts/collect/odds_collector.py:92 | negation commutes with normalizing |
| `PyNumbers.TruncateNormalize` | scripts/collect/data_collector.py:139 | `int()` of a float does not depend on the trailing zeros it was written with |
| `PyNumbers.ParseFloatEmpty` | scripts/collect/odds_collector.py:104 | `float('')` raises |
| `PyNumbers.ParseFloatNaN` | scripts/collect/odds_collector.py:92 | `float('nan')` is NaN |
| `PyNumbers.PadZeros` | scripts/collect/data_collector.py:138 | zero-padding keeps a digit string's value and reaches the requested width |
| `PyNumbers.NatDigitsValue` | scripts/collect/data_collector.py:116 | the digits of `n` read back as `n` |
| `PyNumbers.DigitsValueConcat` | scripts/collect/data_collector.py:138 | the value of two digit strings joined is the first value shifted left plus the second |

## Left out

- HTTP: requests, headers, timeouts and the pauses (`time.sleep`, `random.uniform`) are not modelled. Each fetch is given as its outcome.
- HTML: BeautifulSoup and `pd.read_html` are not modelled. A page is given as its tables of cell texts, and an index page as its links' `href` values.
- Google Sheets: `GoogleSheetsClient`, the writes to it and the console messages are not modelled. scripts/utils/google_sheets.py is not part of this model.
- Command line: argparse and the `__main__` blocks are not modelled.
- Cell types: pandas cells are modelled as their `str()` text. A cell that pandas types as a number is not modelled (`int(1.0)` of a float cell, for one). A missing cell is the text `nan`.
- Floats: IEEE double rounding, signed zero, and the range beyond which `float()` overflows are not modelled. A float is an exact decimal, an infinity or NaN.
- Numerals: `int()` and `float()` accept ASCII and full-width digits here. They also reject underscores (`1_000`) and digits of other scripts, which Python would accept.
- `ResultCollector.RankValue`: only ASCII and full-width digits count as digits here. `str.isdigit()` and `int()` also accept the decimal digits of other scripts, such as Arabic-Indic `٣`. The code keeps a row ranked `٣` with rank 3, and the model drops it. Characters that `isdigit()` accepts and `int()` rejects, such as superscript digits, make both drop the row.
- Tuple labels: `OddsCollector.OddsColumns` quotes every level with single quotes. It does not model how `repr` writes labels containing quotes, backslashes or non-printable characters (double quotes around a label with a single quote in it, or `\u200b` for a zero-width space).
- Index fetch: `raise_for_status` raises for 4xx and 5xx. Redirects and the remaining statuses are treated as success, with the page's links read.
- Exceptions: the model assumes every exception other than `RequestException` is caught where the code catches it. A non-`RequestException` error raised by `requests.get` inside `scrape_race`'s retry loop, which would escape `run`, is not modelled.
- Run's early return: `run` returning early when no venue is found is modelled as a day with no records.
- `ResultCollector.RaceRecords` requires at least three simulated attempts per race. The code never makes more than three.
