/** The averaged views of the dashboard: the headline means with their
    fallback to 0, `calcular_tendencia_diaria` (mean ratings per hour of the
    day) and the monthly evolution chart (mean ratings per `ano_mes`). */
module Trends {
  import opened Wrappers
  import opened Text
  import opened Survey
  import opened Periods
  import opened Catalogue

  function Sum(xs: seq<real>): real {
    if |xs| == 0 then 0.0 else xs[0] + Sum(xs[1..])
  }

  /** `Series.mean()`: the mean of the present values, missing when there
      is none. */
  function Mean(xs: seq<Option<real>>): (m: Option<real>)
    ensures m.None? <==> |Present(xs)| == 0
  {
    var ys := Present(xs);
    if |ys| == 0 then None else Some(Sum(ys) / |ys| as real)
  }

  lemma {:induction false} SumBounds(ys: seq<real>, lo: real, hi: real)
    requires forall y :: y in ys ==> lo <= y <= hi
    ensures lo * |ys| as real <= Sum(ys) <= hi * |ys| as real
  {
    if |ys| > 0 {
      assert ys[0] in ys;
      assert forall y :: y in ys[1..] ==> y in ys;
      SumBounds(ys[1..], lo, hi);
      var n := |ys[1..]| as real;
      assert |ys| as real == n + 1.0;
      Distribute(lo, n);
      Distribute(hi, n);
      assert lo * |ys| as real == lo * n + lo && hi * |ys| as real == hi * n + hi;
    }
  }

  lemma Distribute(a: real, n: real)
    ensures a * (n + 1.0) == a * n + a
  {
  }

  /** The mean lies between any bounds of the present values. */
  lemma MeanBounds(xs: seq<Option<real>>, lo: real, hi: real)
    requires forall x :: x in Present(xs) ==> lo <= x <= hi
    ensures Mean(xs).Some? ==> lo <= Mean(xs).value <= hi
  {
    var ys := Present(xs);
    if |ys| > 0 {
      AverageBounds(ys, lo, hi);
    }
  }

  lemma AverageBounds(ys: seq<real>, lo: real, hi: real)
    requires |ys| > 0
    requires forall y :: y in ys ==> lo <= y <= hi
    ensures lo <= Sum(ys) / |ys| as real <= hi
  {
    SumBounds(ys, lo, hi);
    DivideBounds(Sum(ys), |ys| as real, lo, hi);
  }

  lemma DivideBounds(s: real, n: real, lo: real, hi: real)
    requires n > 0.0 && lo * n <= s <= hi * n
    ensures lo <= s / n <= hi
  {
    assert (s / n) * n == s;
  }

  /** Dropping the missing values commutes with concatenation. */
  lemma {:induction false} PresentOfConcat(a: seq<Option<real>>, b: seq<Option<real>>)
    ensures Present(a + b) == Present(a) + Present(b)
  {
    if |a| == 0 {
      assert a + b == b;
    } else {
      assert (a + b)[1..] == a[1..] + b;
      PresentOfConcat(a[1..], b);
    }
  }

  /** A missing value inserted anywhere in a column changes nothing in its
      present values, hence nothing in its mean. */
  lemma PresentIgnoresMissing(xs: seq<Option<real>>, i: int)
    requires 0 <= i <= |xs|
    ensures Present(xs[..i] + [None] + xs[i..]) == Present(xs)
  {
    var before, after := xs[..i], xs[i..];
    PresentOfConcat(before + [None], after);
    var missing: seq<Option<real>> := [None];
    PresentOfConcat(before, missing);
    assert missing[1..] == [];
    assert Present(missing) == [];
    assert Present(before + [None]) == Present(before);
    PresentOfConcat(before, after);
    assert before + after == xs;
  }

  lemma MeanIgnoresMissing(xs: seq<Option<real>>, i: int)
    requires 0 <= i <= |xs|
    ensures Mean(xs[..i] + [None] + xs[i..]) == Mean(xs)
  {
    PresentIgnoresMissing(xs, i);
  }

  /** `media_atendimento` / `media_recomendacao`: the mean, or 0 when it is
      NaN because no rating is present. */
  function HeadlineMean(xs: seq<Option<real>>): (m: real)
    ensures |Present(xs)| == 0 ==> m == 0.0
    ensures |Present(xs)| > 0 ==> Some(m) == Mean(xs)
  {
    match Mean(xs)
    case None => 0.0
    case Some(v) => v
  }

  /** With ratings on the 0..10 scale, the headline mean is on it too. */
  lemma HeadlineMeanInScale(xs: seq<Option<real>>)
    requires forall x :: x in Present(xs) ==> 0.0 <= x <= 10.0
    ensures 0.0 <= HeadlineMean(xs) <= 10.0
  {
    MeanBounds(xs, 0.0, 10.0);
  }

  // ---- hourly trend ----

  /** `strftime('%H:00')`. */
  function HourLabel(h: Hour): (s: string)
    ensures |s| == 5 && s[2..] == ":00"
  {
    Pad2(h) + ":00"
  }

  /** `astype(int)` on a string of digits. */
  function DigitsValue(s: string): int {
    if |s| == 0 then 0 else 10 * DigitsValue(s[..|s| - 1]) + DigitValue(s[|s| - 1])
  }

  /** `hora_num`: `str.split(':').str[0].astype(int)`. */
  function HourNumber(shown: string): int {
    DigitsValue(Split(shown, ':')[0])
  }

  /** The hour number read back from a label is the hour it was made from. */
  lemma HourNumberOfLabel(h: Hour)
    ensures HourNumber(HourLabel(h)) == h
  {
    var d := Pad2(h);
    assert HourLabel(h) == d + [':'] + "00";
    SplitInTwo(d, ':', "00");
    assert d[..|d| - 1] == [d[0]];
    assert [d[0]][..0] == [];
    assert DigitsValue([d[0]]) == DigitValue(d[0]);
  }

  /** Some row's timestamp falls in hour `h`. */
  predicate HasHour(records: seq<Record>, h: int) {
    exists i :: 0 <= i < |records| && Matches(records[i], AtHour(h))
  }

  /** The hours from `h` to 23 that some timestamp falls in, ascending. */
  function HoursFrom(records: seq<Record>, h: int): (hs: seq<Hour>)
    requires 0 <= h <= 24
    ensures forall i, j :: 0 <= i < j < |hs| ==> hs[i] < hs[j]
    ensures forall i :: 0 <= i < |hs| ==> h <= hs[i]
    ensures forall x: Hour :: x in hs <==> h <= x && HasHour(records, x)
    decreases 24 - h
  {
    if h == 24 then []
    else if HasHour(records, h) then [h as Hour] + HoursFrom(records, h + 1)
    else HoursFrom(records, h + 1)
  }

  /** One row of the hourly trend: `periodo`, `atendimento`, `recomendacao`. */
  datatype HourRow = HourRow(shown: string, service: Option<real>, recommendation: Option<real>)

  /** The bucket of hour `h`: the label and the mean of each rating column
      over the rows of that hour. */
  function BucketOf(records: seq<Record>, h: Hour): (b: HourRow)
    ensures HourNumber(b.shown) == h
    ensures b.service.None? <==> forall x :: x in records && Matches(x, AtHour(h)) ==> x.service.None?
    ensures b.recommendation.None? <==>
              forall x :: x in records && Matches(x, AtHour(h)) ==> x.recommendation.None?
  {
    var rows := Where(records, AtHour(h));
    HourNumberOfLabel(h);
    UnratedHasNoMean(rows, Service);
    UnratedHasNoMean(rows, Recommendation);
    HourRow(HourLabel(h), Mean(Ratings(rows, Service)), Mean(Ratings(rows, Recommendation)))
  }

  /** A column has no mean exactly when none of its rows carries a rating. */
  lemma UnratedHasNoMean(rows: seq<Record>, col: Column)
    ensures Mean(Ratings(rows, col)).None? <==> forall x :: x in rows ==> Rating(x, col).None?
  {
    var xs := Ratings(rows, col);
    if Mean(xs).Some? {
      var y := Present(xs)[0];
      assert Some(y) in xs;
      var i :| 0 <= i < |xs| && xs[i] == Some(y);
      assert rows[i] in rows;
    } else {
      forall x | x in rows
        ensures Rating(x, col).None?
      {
        var i :| 0 <= i < |rows| && rows[i] == x;
        assert xs[i] == Rating(x, col) && xs[i] in xs;
      }
    }
  }

  /** `calcular_tendencia_diaria`: no rows for an empty frame or one without
      a single timestamp; otherwise one bucket per hour that some timestamp
      falls in, ordered by hour number. */
  function HourlyTrend(records: seq<Record>): (rows: seq<HourRow>)
    ensures |records| == 0 ==> rows == []
    ensures (forall i :: 0 <= i < |records| ==> records[i].timestamp.None?) ==> rows == []
    ensures forall i, j :: 0 <= i < j < |rows| ==> HourNumber(rows[i].shown) < HourNumber(rows[j].shown)
    ensures forall h: Hour :: HasHour(records, h) <==> exists i :: 0 <= i < |rows| && rows[i] == BucketOf(records, h)
    ensures forall i :: 0 <= i < |rows| ==> exists h: Hour :: HasHour(records, h) && rows[i] == BucketOf(records, h)
  {
    if |records| == 0 then []
    else if forall i | 0 <= i < |records| :: records[i].timestamp.None? then
      NoTimestampNoHours(records);
      []
    else
      var hours := HoursFrom(records, 0);
      var rows := seq(|hours|, i requires 0 <= i < |hours| => BucketOf(records, hours[i]));
      HourlyTrendFacts(records, hours, rows);
      rows
  }

  lemma NoTimestampNoHours(records: seq<Record>)
    requires forall i :: 0 <= i < |records| ==> records[i].timestamp.None?
    ensures forall h: Hour :: !HasHour(records, h)
  {
  }

  lemma HourlyTrendFacts(records: seq<Record>, hours: seq<Hour>, rows: seq<HourRow>)
    requires hours == HoursFrom(records, 0)
    requires |rows| == |hours| && forall i :: 0 <= i < |rows| ==> rows[i] == BucketOf(records, hours[i])
    ensures forall i, j :: 0 <= i < j < |rows| ==> HourNumber(rows[i].shown) < HourNumber(rows[j].shown)
    ensures forall h: Hour :: HasHour(records, h) <==> exists i :: 0 <= i < |rows| && rows[i] == BucketOf(records, h)
    ensures forall i :: 0 <= i < |rows| ==> exists h: Hour :: HasHour(records, h) && rows[i] == BucketOf(records, h)
  {
    forall i | 0 <= i < |rows|
      ensures HourNumber(rows[i].shown) == hours[i]
      ensures exists h: Hour :: HasHour(records, h) && rows[i] == BucketOf(records, h)
    {
      var h := hours[i];
      assert h in hours;
      assert HasHour(records, h) && rows[i] == BucketOf(records, h);
    }
    forall h: Hour
      ensures HasHour(records, h) <==> exists i :: 0 <= i < |rows| && rows[i] == BucketOf(records, h)
    {
      if HasHour(records, h) {
        var i :| 0 <= i < |hours| && hours[i] == h;
        assert rows[i] == BucketOf(records, h);
      }
      if exists i :: 0 <= i < |rows| && rows[i] == BucketOf(records, h) {
        var i :| 0 <= i < |rows| && rows[i] == BucketOf(records, h);
        HourNumberOfLabel(h);
        HourNumberOfLabel(hours[i]);
        assert hours[i] == h;
        assert hours[i] in hours;
      }
    }
  }

  // ---- monthly evolution ----

  /** One point of the evolution chart: `ano_mes`, the two means and
      `periodo_formatado`. */
  datatype MonthRow = MonthRow(key: string, service: Option<real>, recommendation: Option<real>, shown: string)

  function MonthRowOf(records: seq<Record>, k: string): MonthRow
    requires IsKey(k)
  {
    SplitKey(k);
    var rows := Where(records, InPeriod(k));
    MonthRow(k, Mean(Ratings(rows, Service)), Mean(Ratings(rows, Recommendation)), ShortLabel(k))
  }

  function MonthKeys(rows: seq<MonthRow>): (keys: seq<string>)
    ensures |keys| == |rows|
  {
    seq(|rows|, i requires 0 <= i < |rows| => rows[i].key)
  }

  /** The monthly evolution of `main`, over the unfiltered frame: nothing
      when no timestamp is present, otherwise one point per `ano_mes` present
      in the data, in ascending key order (`groupby` leaves out the missing
      key), each with the means of its rows and its short label. */
  method MonthlyEvolution(records: seq<Record>) returns (rows: seq<MonthRow>)
    requires AllWellFormed(records)
    ensures (forall i :: 0 <= i < |records| ==> records[i].timestamp.None?) ==> rows == []
    ensures StrictlySorted(MonthKeys(rows), false)
    ensures forall k :: k in MonthKeys(rows) <==> HasPeriod(records, k)
    ensures forall i :: 0 <= i < |rows| ==> IsKey(rows[i].key) && rows[i] == MonthRowOf(records, rows[i].key)
  {
    if |records| == 0 || forall i | 0 <= i < |records| :: records[i].timestamp.None? {
      NoTimestampNoPeriod(records);
      return [];
    }
    var unique, _ := UniqueKeys(records);
    var keys := SortedKeys(unique, false);
    PeriodKeysAreKeys(records, keys);
    rows := EvolutionRows(records, keys);
  }

  /** One point per key, in the keys' order. */
  function EvolutionRows(records: seq<Record>, keys: seq<string>): (rows: seq<MonthRow>)
    requires AllKeys(keys)
    ensures MonthKeys(rows) == keys
    ensures forall i :: 0 <= i < |rows| ==> IsKey(rows[i].key) && rows[i] == MonthRowOf(records, rows[i].key)
  {
    var rows := seq(|keys|, i requires 0 <= i < |keys| => MonthRowOf(records, keys[i]));
    assert MonthKeys(rows) == keys;
    rows
  }

  lemma NoTimestampNoPeriod(records: seq<Record>)
    requires AllWellFormed(records)
    requires forall i :: 0 <= i < |records| ==> records[i].timestamp.None?
    ensures forall k :: !HasPeriod(records, k)
  {
    forall r | r in records
      ensures r.yearMonth.None?
    {
      var i :| 0 <= i < |records| && records[i] == r;
    }
  }
}
