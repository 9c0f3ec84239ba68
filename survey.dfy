/** The survey data: the spreadsheet as read, the normalised evaluation rows
    the dashboard works on, and row selection by a boolean mask (pandas'
    `df[mask]`), which keeps the selected rows in their original order. */
module Survey {
  import opened Wrappers
  import opened Text

  /** Years of four digits; pandas timestamps (1677 to 2262) all have one. */
  type Year = y: int | 1000 <= y <= 9999 witness 2000
  type Month = m: int | 1 <= m <= 12 witness 1
  type Day = d: int | 1 <= d <= 31 witness 1
  type Hour = h: int | 0 <= h < 24 witness 0
  type Minute = m: int | 0 <= m < 60 witness 0

  /** A parsed timestamp (`pd.Timestamp` / `datetime.datetime`). */
  datatype DateTime = DateTime(year: Year, month: Month, day: Day, hour: Hour, minute: Minute, second: Minute)

  /** A spreadsheet cell as returned by the read: missing (NaN/None) or a value,
      kept as its text; pandas' parsers decide what the text means. */
  datatype Cell = Empty | Filled(text: string)

  /** The sheet as read: `width` columns, each row one survey answer. */
  datatype Sheet = Sheet(width: nat, rows: seq<seq<Cell>>) {

    /** A data frame is rectangular: every row has a cell in every column. */
    predicate Rectangular() {
      forall i :: 0 <= i < |rows| ==> |rows[i]| == width
    }

    /** `DataFrame.empty`: no rows or no columns. */
    predicate IsEmpty() {
      |rows| == 0 || width == 0
    }
  }

  /** One normalised evaluation, with the columns the dashboard adds:
      `recepcao`, `timestamp`, `atendimento`, `recomendacao`, `comentario`,
      and the derived `ano`, `mes` and `ano_mes`. */
  datatype Record = Record(
    reception: string,
    timestamp: Option<DateTime>,
    service: Option<real>,
    recommendation: Option<real>,
    comment: Cell,
    year: Option<int>,
    month: Option<int>,
    yearMonth: Option<string>)

  /** `strftime('%Y-%m')`: the period key "YYYY-MM". */
  function KeyOf(year: Year, month: Month): (k: string)
    ensures |k| == 7 && k[4] == '-' && k[..4] == Pad4(year) && k[5..] == Pad2(month)
  {
    Pad4(year) + "-" + Pad2(month)
  }

  /** The year, month and period key of a timestamp, all missing with it. */
  function YearOf(t: Option<DateTime>): Option<int> {
    match t
    case None => None
    case Some(d) => Some(d.year as int)
  }

  function MonthOf(t: Option<DateTime>): Option<int> {
    match t
    case None => None
    case Some(d) => Some(d.month as int)
  }

  function KeyOfTimestamp(t: Option<DateTime>): Option<string> {
    match t
    case None => None
    case Some(d) => Some(KeyOf(d.year, d.month))
  }

  /** The derived columns agree with the timestamp they come from. */
  predicate WellFormed(r: Record) {
    && r.year == YearOf(r.timestamp)
    && r.month == MonthOf(r.timestamp)
    && r.yearMonth == KeyOfTimestamp(r.timestamp)
  }

  predicate AllWellFormed(records: seq<Record>) {
    forall i :: 0 <= i < |records| ==> WellFormed(records[i])
  }

  /** The two rating columns. */
  datatype Column = Service | Recommendation

  function Rating(r: Record, col: Column): Option<real> {
    match col
    case Service => r.service
    case Recommendation => r.recommendation
  }

  /** A rating column of the frame, missing values included. */
  function Ratings(records: seq<Record>, col: Column): (xs: seq<Option<real>>)
    ensures |xs| == |records|
    ensures forall i :: 0 <= i < |records| ==> xs[i] == Rating(records[i], col)
  {
    seq(|records|, i requires 0 <= i < |records| => Rating(records[i], col))
  }

  /** `[n for n in notas if not pd.isna(n)]`. */
  function Present(xs: seq<Option<real>>): (ys: seq<real>)
    ensures |ys| <= |xs|
    ensures forall y :: y in ys <==> Some(y) in xs
  {
    if |xs| == 0 then []
    else
      match xs[0]
      case None => Present(xs[1..])
      case Some(x) => [x] + Present(xs[1..])
  }

  /** Each present value is kept as many times as it occurs. */
  lemma {:induction false} PresentKeepsMultiplicity(xs: seq<Option<real>>)
    ensures forall y :: multiset(Present(xs))[y] == multiset(xs)[Some(y)]
  {
    if |xs| > 0 {
      PresentKeepsMultiplicity(xs[1..]);
      assert xs == [xs[0]] + xs[1..];
      assert multiset(xs) == multiset([xs[0]]) + multiset(xs[1..]);
      match xs[0]
      case None =>
      case Some(v) =>
        assert multiset(Present(xs)) == multiset([v]) + multiset(Present(xs[1..]));
    }
  }

  /** The boolean masks the dashboard selects rows with. */
  datatype Criterion =
    | InMonth(month: int, year: int)   // (df['mes'] == mes) & (df['ano'] == ano)
    | InPeriod(key: string)            // df['ano_mes'] == key
    | AtReception(name: string)        // df['recepcao'] == name
    | AtHour(hour: int)                // the rows of one hour bucket
    | RatingIs(col: Column, value: real)  // df[col] == value

  predicate Matches(r: Record, c: Criterion) {
    match c
    case InMonth(m, y) => r.month == Some(m) && r.year == Some(y)
    case InPeriod(k) => r.yearMonth == Some(k)
    case AtReception(name) => r.reception == name
    case AtHour(h) => r.timestamp.Some? && r.timestamp.value.hour == h
    case RatingIs(col, v) => Rating(r, col) == Some(v)
  }

  /** `a` is `b` with some rows removed and the rest in the same order. */
  predicate IsSubsequence(a: seq<Record>, b: seq<Record>)
    decreases |b|
  {
    if |a| == 0 then true
    else if |b| == 0 then false
    else (a[0] == b[0] && IsSubsequence(a[1..], b[1..])) || IsSubsequence(a, b[1..])
  }

  /** `df[mask]`: the rows that match, in their original order. */
  function Where(records: seq<Record>, c: Criterion): (r: seq<Record>)
    ensures |r| <= |records|
    ensures forall x :: x in r <==> x in records && Matches(x, c)
    ensures IsSubsequence(r, records)
  {
    if |records| == 0 then []
    else if Matches(records[0], c) then [records[0]] + Where(records[1..], c)
    else Where(records[1..], c)
  }

  /** A selection keeps every row that passes as many times as it occurs,
      and no other row. */
  lemma {:induction false} WhereKeepsMultiplicity(records: seq<Record>, c: Criterion)
    ensures forall x :: multiset(Where(records, c))[x] == if Matches(x, c) then multiset(records)[x] else 0
  {
    if |records| > 0 {
      WhereKeepsMultiplicity(records[1..], c);
      assert records == [records[0]] + records[1..];
    }
  }

  /** Masks that agree on every row select the same rows. */
  lemma {:induction false} WhereAgrees(records: seq<Record>, c: Criterion, d: Criterion)
    requires forall x :: x in records ==> (Matches(x, c) <==> Matches(x, d))
    ensures Where(records, c) == Where(records, d)
  {
    if |records| > 0 {
      WhereAgrees(records[1..], c, d);
    }
  }

  lemma {:induction false} SubsequenceReflexive(a: seq<Record>)
    ensures IsSubsequence(a, a)
  {
    if |a| > 0 {
      SubsequenceReflexive(a[1..]);
    }
  }

  /** Selecting from a selection is a selection. */
  lemma {:induction false} SubsequenceTransitive(a: seq<Record>, b: seq<Record>, c: seq<Record>)
    requires IsSubsequence(a, b) && IsSubsequence(b, c)
    ensures IsSubsequence(a, c)
    decreases |c|
  {
    if |a| > 0 && |b| > 0 && |c| > 0 {
      if IsSubsequence(b, c[1..]) {
        SubsequenceTransitive(a, b, c[1..]);
      } else if a[0] == b[0] && IsSubsequence(a[1..], b[1..]) {
        SubsequenceTransitive(a[1..], b[1..], c[1..]);
      } else {
        SubsequenceTransitive(a, b[1..], c[1..]);
      }
    }
  }
}
