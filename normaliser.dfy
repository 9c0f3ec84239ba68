/** The positional row normaliser of `ler_dados_google_sheets`: sheet column
    k feeds a canonical column only when the sheet has more than k columns
    (A reception, B timestamp, C e-mail (ignored), D service rating,
    E recommendation rating, F comment); timestamps and ratings are coerced,
    failures becoming missing values; year, month and "YYYY-MM" are derived. */
module Normaliser {
  import opened Wrappers
  import opened Survey

  const ReceptionColumn: nat := 0
  const TimestampColumn: nat := 1
  const ServiceColumn: nat := 3
  const RecommendationColumn: nat := 4
  const CommentColumn: nat := 5

  /** What `fillna` puts in a missing reception. */
  const NotInformed := "Não informado"

  /** `pd.to_datetime(..., errors='coerce')` and `pd.to_numeric(...,
      errors='coerce')` on one cell: a blank cell is missing, a filled one
      gets whatever the (opaque) parser makes of its text, a failure being
      missing (NaT or NaN) without dropping the row. */
  function Coerce<T>(parse: string -> Option<T>, c: Cell): (r: Option<T>)
    ensures c.Empty? ==> r.None?
    ensures c.Filled? ==> r == parse(c.text)
  {
    match c
    case Empty => None
    case Filled(t) => parse(t)
  }

  /** Column `k` of row `row`, or the column's default when the sheet has no
      column `k`. */
  function CellOr(width: nat, row: seq<Cell>, k: nat, default: Cell): (c: Cell)
    requires |row| == width
    ensures width > k ==> c == row[k]
    ensures width <= k ==> c == default
  {
    if width > k then row[k] else default
  }

  /** The normalised form of one sheet row. */
  function RecordOf(width: nat, row: seq<Cell>,
                    parseTime: string -> Option<DateTime>,
                    parseNumber: string -> Option<real>): (r: Record)
    requires |row| == width
    ensures WellFormed(r)
    ensures r.reception == (if width > ReceptionColumn && row[ReceptionColumn].Filled?
                            then row[ReceptionColumn].text else NotInformed)
    ensures width <= TimestampColumn ==> r.timestamp.None?
    ensures width <= ServiceColumn ==> r.service.None?
    ensures width <= RecommendationColumn ==> r.recommendation.None?
    ensures width > TimestampColumn ==>
              r.timestamp == (if row[TimestampColumn].Filled? then parseTime(row[TimestampColumn].text) else None)
    ensures width > ServiceColumn ==>
              r.service == (if row[ServiceColumn].Filled? then parseNumber(row[ServiceColumn].text) else None)
    ensures width > RecommendationColumn ==>
              r.recommendation == (if row[RecommendationColumn].Filled? then parseNumber(row[RecommendationColumn].text) else None)
    ensures r.comment == (if width > CommentColumn then row[CommentColumn] else Filled(""))
  {
    var reception := match CellOr(width, row, ReceptionColumn, Empty)
                     case Empty => NotInformed
                     case Filled(t) => t;
    var timestamp := Coerce(parseTime, CellOr(width, row, TimestampColumn, Empty));
    Record(reception,
           timestamp,
           Coerce(parseNumber, CellOr(width, row, ServiceColumn, Empty)),
           Coerce(parseNumber, CellOr(width, row, RecommendationColumn, Empty)),
           CellOr(width, row, CommentColumn, Filled("")),
           YearOf(timestamp),
           MonthOf(timestamp),
           KeyOfTimestamp(timestamp))
  }

  /** Builds the frame column by column, as the source does, then coerces
      the timestamp and rating columns and derives the calendar columns. */
  method Normalise(sheet: Sheet,
                   parseTime: string -> Option<DateTime>,
                   parseNumber: string -> Option<real>)
    returns (records: seq<Record>)
    requires sheet.Rectangular()
    ensures |records| == |sheet.rows|
    ensures forall i :: 0 <= i < |records| ==>
              records[i] == RecordOf(sheet.width, sheet.rows[i], parseTime, parseNumber)
    ensures AllWellFormed(records)
  {
    var n, w := |sheet.rows|, sheet.width;
    var rows: seq<seq<Cell>> := sheet.rows;
    var reception: seq<string>;
    if w > ReceptionColumn {
      reception := seq(n, i requires 0 <= i < n => if rows[i][ReceptionColumn].Filled? then rows[i][ReceptionColumn].text else NotInformed);
    } else {
      reception := seq(n, i => NotInformed);
    }
    var timestamp: seq<Cell> := seq(n, i requires 0 <= i < n => CellOr(w, rows[i], TimestampColumn, Empty));
    var service: seq<Cell> := seq(n, i requires 0 <= i < n => CellOr(w, rows[i], ServiceColumn, Empty));
    var recommendation: seq<Cell> := seq(n, i requires 0 <= i < n => CellOr(w, rows[i], RecommendationColumn, Empty));
    var comment: seq<Cell> := seq(n, i requires 0 <= i < n => CellOr(w, rows[i], CommentColumn, Filled("")));

    var parsedTimestamp := seq(n, i requires 0 <= i < n => Coerce(parseTime, timestamp[i]));
    var parsedService := seq(n, i requires 0 <= i < n => Coerce(parseNumber, service[i]));
    var parsedRecommendation := seq(n, i requires 0 <= i < n => Coerce(parseNumber, recommendation[i]));

    records := seq(n, i requires 0 <= i < n =>
                 Record(reception[i], parsedTimestamp[i], parsedService[i], parsedRecommendation[i], comment[i],
                        YearOf(parsedTimestamp[i]), MonthOf(parsedTimestamp[i]), KeyOfTimestamp(parsedTimestamp[i])));
    forall i | 0 <= i < n
      ensures records[i] == RecordOf(w, rows[i], parseTime, parseNumber)
    {
      var _ := RecordOf(w, rows[i], parseTime, parseNumber);
    }
  }

  /** The outcome of `conn.read()`: an exception or a sheet. */
  datatype ReadOutcome = ReadFailed | ReadOk(sheet: Sheet)

  /** `ler_dados_google_sheets` after the read: an empty sheet or a failed
      read gives the empty frame, otherwise one record per sheet row. */
  method LoadSurvey(outcome: ReadOutcome,
                    parseTime: string -> Option<DateTime>,
                    parseNumber: string -> Option<real>)
    returns (records: seq<Record>)
    requires outcome.ReadOk? ==> outcome.sheet.Rectangular()
    ensures outcome.ReadFailed? ==> records == []
    ensures outcome.ReadOk? && outcome.sheet.IsEmpty() ==> records == []
    ensures outcome.ReadOk? && !outcome.sheet.IsEmpty() ==>
              |records| == |outcome.sheet.rows| &&
              forall i :: 0 <= i < |records| ==>
                records[i] == RecordOf(outcome.sheet.width, outcome.sheet.rows[i], parseTime, parseNumber)
    ensures AllWellFormed(records)
  {
    match outcome
    case ReadFailed =>
      records := [];
    case ReadOk(sheet) =>
      if sheet.IsEmpty() {
        records := [];
      } else {
        records := Normalise(sheet, parseTime, parseNumber);
      }
  }

  /** The derived columns are missing exactly when the timestamp is, and the
      period key is the zero-padded year and month of the timestamp. */
  lemma DerivedColumns(r: Record)
    requires WellFormed(r)
    ensures r.timestamp.None? <==> r.year.None?
    ensures r.timestamp.None? <==> r.month.None?
    ensures r.timestamp.None? <==> r.yearMonth.None?
    ensures r.timestamp.Some? ==>
              r.yearMonth == Some(Text.Pad4(r.timestamp.value.year) + "-" + Text.Pad2(r.timestamp.value.month))
  {
  }
}
