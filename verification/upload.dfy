/** The frame preparation of `upload_csv_to_db`: a season column derived from
    `match_date` when the CSV has none, then, when appending to a table that
    already exists and the operator answers `y`, the rows of matches already
    stored are dropped. Reading the CSV, the SQL statements and the prompt
    are not modelled: the operator's answer and the stored URLs are
    parameters. */
module Upload {
  import opened Wrappers
  import opened Text
  import opened Calendar
  import Scrape

  /** A CSV cell as `pandas.read_csv` hands it over: missing (`NaN`), text or
      a number. */
  datatype Cell = Blank | Str(s: string) | Num(n: int)

  /** A row maps column names to cells; a name the row lacks reads as `NaN`. */
  type Row = map<string, Cell>

  datatype Frame = Frame(columns: seq<string>, rows: seq<Row>)

  function CellAt(row: Row, column: string): Cell {
    if column in row then row[column] else Blank
  }

  // ---------------------------------------------------------------------
  // The season column

  /** `get_season(date_str)`: `None` for a missing value and for anything
      `strptime(date_str, '%Y-%m-%d')` rejects (a number included, whose
      `TypeError` the bare `except` swallows); otherwise the season whose
      August-to-July span holds the date's month. */
  function GetSeason(c: Cell): (r: Option<int>)
    ensures r.Some? <==> c.Str? && ParseIsoDate(c.s).Some?
    ensures r.Some? ==>
      var d := ParseIsoDate(c.s).value;
      MonthIndex(r.value, 8) <= MonthIndex(d.year, d.month) < MonthIndex(r.value + 1, 8)
  {
    match c
    case Str(s) =>
      (match ParseIsoDate(s)
       case Some(d) => Some(SeasonOf(d.year, d.month))
       case None => None)
    case _ => None
  }

  /** A date written as `YYYY-MM-DD` is in the season of its own year from
      August on, and of the year before until July. */
  lemma GetSeasonOfFormatted(d: Date)
    requires ValidDate(d)
    ensures GetSeason(Str(FormatIsoDate(d))) == Some(if d.month >= 8 then d.year else d.year - 1)
  {
    ParseFormatRoundTrip(d);
    SeasonUnique(d.year, d.month, GetSeason(Str(FormatIsoDate(d))).value);
  }

  /** The upload script and the scraper agree on every non-empty date: both
      accept the same strings and give them the same season; the scraper
      raises where `get_season` gives `None`. */
  lemma GetSeasonAgreesWithScrape(s: string, seasonLabel: string)
    requires s != ""
    ensures Scrape.ScrapeSeason(Some(s), seasonLabel).Success? <==> GetSeason(Str(s)).Some?
    ensures GetSeason(Str(s)).Some? ==> Scrape.ScrapeSeason(Some(s), seasonLabel).value == GetSeason(Str(s))
  {
    match ParseIsoDate(s)
    case None =>
    case Some(d) =>
      SeasonUnique(d.year, d.month, Scrape.ScrapeSeason(Some(s), seasonLabel).value.value);
      SeasonUnique(d.year, d.month, GetSeason(Str(s)).value);
  }

  /** `df['match_date']` on a frame without that column raises `KeyError`,
      which the outer `except` turns into a failed upload. */
  datatype UploadError = MissingMatchDateColumn

  function SeasonCell(season: Option<int>): Cell {
    match season
    case Some(y) => Num(y)
    case None => Blank
  }

  /** Lines 36-53: a frame that already has a season column is left as it is;
      otherwise every row gets the season of its `match_date`, and every
      other cell is kept. */
  function AddSeasonColumn(f: Frame): (r: Result<Frame, UploadError>)
    ensures "season" in f.columns ==> r == Success(f)
    ensures "season" !in f.columns ==> (r.Failure? <==> "match_date" !in f.columns)
    ensures r.Success? ==> "season" in r.value.columns && |r.value.rows| == |f.rows|
    ensures r.Success? && "season" !in f.columns ==>
      && r.value.columns == f.columns + ["season"]
      && forall i :: 0 <= i < |f.rows| ==>
           && CellAt(r.value.rows[i], "season") == SeasonCell(GetSeason(CellAt(f.rows[i], "match_date")))
           && forall c :: c != "season" ==> CellAt(r.value.rows[i], c) == CellAt(f.rows[i], c)
  {
    if "season" in f.columns then Success(f)
    else if "match_date" !in f.columns then Failure(MissingMatchDateColumn)
    else
      var rows := seq(|f.rows|, i requires 0 <= i < |f.rows| =>
                        f.rows[i]["season" := SeasonCell(GetSeason(CellAt(f.rows[i], "match_date")))]);
      Success(Frame(f.columns + ["season"], rows))
  }

  /** Adding the season column a second time changes nothing. */
  lemma AddSeasonColumnIdempotent(f: Frame)
    requires AddSeasonColumn(f).Success?
    ensures AddSeasonColumn(AddSeasonColumn(f).value) == AddSeasonColumn(f)
  {
  }

  // ---------------------------------------------------------------------
  // The duplicate filter

  /** Duplicates are checked only when appending to an existing table, the
      operator answered `y` (in any case), and the frame has the
      `match_url`, `Minute` and `Player` columns. */
  predicate ChecksDuplicates(tableExists: bool, answer: string, columns: seq<string>) {
    && tableExists && Lower(answer) == "y"
    && "match_url" in columns && "Minute" in columns && "Player" in columns
  }

  predicate Stored(row: Row, stored: set<Cell>) {
    CellAt(row, "match_url") in stored
  }

  /** `df[~df['match_url'].isin(existing_urls)]`: the rows of matches not yet
      stored, in their original order. */
  function DropStored(rows: seq<Row>, stored: set<Cell>): (r: seq<Row>)
    ensures |r| <= |rows|
  {
    if |rows| == 0 then []
    else
      var k := |rows| - 1;
      var rest := DropStored(rows[..k], stored);
      if Stored(rows[k], stored) then rest else rest + [rows[k]]
  }

  /** The kept rows are exactly the rows whose match is not stored. */
  lemma {:induction false} DropStoredMembers(rows: seq<Row>, stored: set<Cell>)
    ensures forall row :: row in DropStored(rows, stored) <==> row in rows && !Stored(row, stored)
    decreases |rows|
  {
    if |rows| > 0 {
      var k := |rows| - 1;
      DropStoredMembers(rows[..k], stored);
      assert rows == rows[..k] + [rows[k]];
    }
  }

  /** The number of rows whose match is already stored. */
  function CountStored(rows: seq<Row>, stored: set<Cell>): nat {
    if |rows| == 0 then 0
    else CountStored(rows[1..], stored) + (if Stored(rows[0], stored) then 1 else 0)
  }

  /** The filter works row by row: filtering a concatenation is
      concatenating the filtered parts, so the kept rows keep their order. */
  lemma {:induction false} DropStoredAppend(a: seq<Row>, b: seq<Row>, stored: set<Cell>)
    ensures DropStored(a + b, stored) == DropStored(a, stored) + DropStored(b, stored)
    decreases |b|
  {
    if |b| > 0 {
      var k := |b| - 1;
      assert (a + b)[..|a + b| - 1] == a + b[..k];
      DropStoredAppend(a, b[..k], stored);
      assert DropStored(a + b, stored)
          == DropStored(a + b[..k], stored) + (if Stored(b[k], stored) then [] else [b[k]]) by {
        assert (a + b)[|a + b| - 1] == b[k];
      }
    } else {
      assert a + b == a;
    }
  }

  /** What the filter removes is exactly the stored rows:
      `filtered_count = original_len - len(df)` counts them. */
  lemma {:induction false} DropStoredCount(rows: seq<Row>, stored: set<Cell>)
    ensures |rows| - |DropStored(rows, stored)| == CountStored(rows, stored)
    decreases |rows|
  {
    if |rows| > 0 {
      DropStoredCount(rows[1..], stored);
      DropStoredAppend([rows[0]], rows[1..], stored);
      assert [rows[0]] + rows[1..] == rows;
      assert DropStored([rows[0]], stored) == (if Stored(rows[0], stored) then [] else [rows[0]]) by {
        assert [rows[0]][..0] == [];
      }
    }
  }

  /** Filtering an already filtered frame drops nothing more. */
  lemma DropStoredIdempotent(rows: seq<Row>, stored: set<Cell>)
    ensures DropStored(DropStored(rows, stored), stored) == DropStored(rows, stored)
  {
    var kept := DropStored(rows, stored);
    DropStoredMembers(rows, stored);
    DropStoredCount(kept, stored);
    NoneStoredCountsZero(kept, stored);
    DropStoredOfNoneStored(kept, stored);
  }

  lemma {:induction false} NoneStoredCountsZero(rows: seq<Row>, stored: set<Cell>)
    requires forall row :: row in rows ==> !Stored(row, stored)
    ensures CountStored(rows, stored) == 0
    decreases |rows|
  {
    if |rows| > 0 {
      assert rows[0] in rows;
      assert forall row :: row in rows[1..] ==> row in rows;
      NoneStoredCountsZero(rows[1..], stored);
    }
  }

  lemma {:induction false} DropStoredOfNoneStored(rows: seq<Row>, stored: set<Cell>)
    requires forall row :: row in rows ==> !Stored(row, stored)
    ensures DropStored(rows, stored) == rows
    decreases |rows|
  {
    if |rows| > 0 {
      var k := |rows| - 1;
      assert rows[k] in rows;
      assert forall row :: row in rows[..k] ==> row in rows;
      DropStoredOfNoneStored(rows[..k], stored);
      assert rows == rows[..k] + [rows[k]];
    }
  }

  /** The frame that goes to `to_sql`, and `filtered_count` when the
      duplicate check ran. */
  datatype Prepared = Prepared(frame: Frame, filteredCount: Option<nat>)

  /** `upload_csv_to_db` from the season column to the insert. When the
      duplicate check runs, no uploaded row belongs to a stored match, every
      row of a new match is uploaded, and the count is the number of rows
      dropped; otherwise the frame goes up as the season step left it. */
  function PrepareUpload(f: Frame, tableExists: bool, answer: string, stored: set<Cell>): (r: Result<Prepared, UploadError>)
    ensures r.Failure? <==> AddSeasonColumn(f).Failure?
    ensures r.Success? ==>
      var g := AddSeasonColumn(f).value;
      && r.value.frame.columns == g.columns
      && (ChecksDuplicates(tableExists, answer, g.columns) ==>
            && r.value.frame.rows == DropStored(g.rows, stored)
            && (forall row :: row in r.value.frame.rows <==> row in g.rows && !Stored(row, stored))
            && r.value.filteredCount == Some(CountStored(g.rows, stored)))
      && (!ChecksDuplicates(tableExists, answer, g.columns) ==> r.value == Prepared(g, None))
  {
    match AddSeasonColumn(f)
    case Failure(e) => Failure(e)
    case Success(g) =>
      if ChecksDuplicates(tableExists, answer, g.columns) then
        var kept := DropStored(g.rows, stored);
        DropStoredCount(g.rows, stored);
        DropStoredMembers(g.rows, stored);
        Success(Prepared(Frame(g.columns, kept), Some(|g.rows| - |kept|)))
      else Success(Prepared(g, None))
  }

  /** Without the `match_url`, `Minute` and `Player` columns every row is
      uploaded, whatever the operator answered. */
  lemma NoFilterWithoutColumns(f: Frame, tableExists: bool, answer: string, stored: set<Cell>)
    requires AddSeasonColumn(f).Success?
    requires "match_url" !in f.columns || "Minute" !in f.columns || "Player" !in f.columns
    ensures PrepareUpload(f, tableExists, answer, stored) == Success(Prepared(AddSeasonColumn(f).value, None))
  {
  }
}
