/** What the collectors receive from the network and from `pd.read_html`.
    HTML parsing is outside the model: a page is given as the sequence of
    tables pandas would return, each with its column labels and its rows of
    cell texts (a cell pandas reads as missing is the text `nan`). */
module Pages {
  import opened PyText

  /** A table's column labels: one label per column, or, for a multi-level
      header (a pandas `MultiIndex`), the tuple of level labels per column. */
  datatype Header = Flat(labels: seq<string>) | Levels(columns: seq<seq<string>>)

  /** The cell texts of one table row, left to right. */
  type Row = seq<string>

  datatype Table = Table(header: Header, rows: seq<Row>)

  /** What `pd.read_html` makes of a response body: the tables in document
      order, or an exception (no table found, unparsable markup). */
  datatype Page = Unreadable | Tables(tables: seq<Table>)

  /** The page a record comes from: the date string, the venue code and
      the race number the collector was asked for. */
  datatype RaceQuery = RaceQuery(date: string, stadiumCode: string, raceNo: int)

  /** Both collectors visit races 1..RaceCount of every venue
      (`range(1, 13)`). */
  const RaceCount: nat := 12

  /** One `requests.get` attempt: it raised, or a response arrived with a
      status code and a body. */
  datatype Outcome = Raised | Response(status: int, page: Page)

  /** `any(needle in c for c in cols)`. */
  predicate HasHeader(cols: seq<string>, needle: string)
  {
    exists i :: 0 <= i < |cols| && Contains(cols[i], needle)
  }

  /** Whether a table carries a header is decided by which labels it has,
      not by their order or by extra labels: every label of `cols` also in
      `cols'` keeps every match. */
  lemma HasHeaderMonotone(cols: seq<string>, cols': seq<string>, needle: string)
    requires forall c :: c in cols ==> c in cols'
    requires HasHeader(cols, needle)
    ensures HasHeader(cols', needle)
  {
    var i :| 0 <= i < |cols| && Contains(cols[i], needle);
    assert cols[i] in cols';
    var j :| 0 <= j < |cols'| && cols'[j] == cols[i];
  }
}
