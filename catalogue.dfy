/** `obter_periodos_disponiveis`: the entries of the period selector. The
    distinct `ano_mes` values are sorted newest first and shown as
    "<month name>/<year>", the current month's label is put in front when the
    data has no row for it, and "Atual", "Todos" lead the list. */
module Catalogue {
  import opened Wrappers
  import opened Text
  import opened Survey
  import opened Periods
  import Normaliser

  predicate Distinct(s: seq<string>) {
    forall p, q :: 0 <= p < q < |s| ==> s[p] != s[q]
  }

  /** Some row has period key `k`. */
  predicate HasPeriod(records: seq<Record>, k: string) {
    exists r :: r in records && r.yearMonth == Some(k)
  }

  /** Some row has a missing period key (an unparseable timestamp). */
  predicate HasMissingPeriod(records: seq<Record>) {
    exists r :: r in records && r.yearMonth.None?
  }

  predicate HasAnyPeriod(records: seq<Record>) {
    exists r :: r in records && r.yearMonth.Some?
  }

  /** `df['ano_mes'].unique()`: the distinct present keys, and whether a
      missing key (NaN) was among the values. */
  method UniqueKeys(records: seq<Record>) returns (keys: seq<string>, sawMissing: bool)
    ensures Distinct(keys)
    ensures forall k :: k in keys <==> HasPeriod(records, k)
    ensures sawMissing <==> HasMissingPeriod(records)
    ensures |keys| > 0 <==> HasAnyPeriod(records)
  {
    keys, sawMissing := [], false;
    for i := 0 to |records|
      invariant Distinct(keys)
      invariant forall k :: k in keys <==> HasPeriod(records[..i], k)
      invariant sawMissing <==> HasMissingPeriod(records[..i])
      invariant |keys| > 0 <==> HasAnyPeriod(records[..i])
    {
      assert records[..i + 1] == records[..i] + [records[i]];
      match records[i].yearMonth
      case None =>
        sawMissing := true;
      case Some(k) =>
        if k !in keys {
          keys := keys + [k];
        }
    }
    assert records[..|records|] == records;
  }

  /** The order `sort` arranges strings in: ascending, or descending with
      `reverse`. */
  predicate Precedes(x: string, y: string, reverse: bool) {
    if reverse then LexLess(y, x) else LexLess(x, y)
  }

  predicate Sorted(s: seq<string>, reverse: bool) {
    forall p, q :: 0 <= p < q < |s| ==> !Precedes(s[q], s[p], reverse)
  }

  predicate StrictlySorted(s: seq<string>, reverse: bool) {
    forall p, q :: 0 <= p < q < |s| ==> Precedes(s[p], s[q], reverse)
  }

  lemma NotLessTransitive(a: string, b: string, c: string)
    requires !LexLess(b, a) && !LexLess(c, b)
    ensures !LexLess(c, a)
  {
    if LexLess(c, a) && a != b && b != c {
      LexLessTotal(a, b);
      LexLessTotal(b, c);
      LexLessTransitive(a, b, c);
      LexLessAsymmetric(a, c);
    }
  }

  lemma NotPrecedesTransitive(x: string, y: string, z: string, reverse: bool)
    requires !Precedes(y, x, reverse) && !Precedes(z, y, reverse)
    ensures !Precedes(z, x, reverse)
  {
    if reverse {
      NotLessTransitive(z, y, x);
    } else {
      NotLessTransitive(x, y, z);
    }
  }

  /** `s[..n]` is in order. */
  predicate SortedUpTo(s: seq<string>, n: int, reverse: bool)
    requires 0 <= n <= |s|
  {
    forall p, q :: 0 <= p < q < n ==> !Precedes(s[q], s[p], reverse)
  }

  /** In-place insertion sort of the keys (`list.sort`, `sort_values`). */
  method SortKeys(a: array<string>, reverse: bool)
    modifies a
    ensures Sorted(a[..], reverse)
    ensures multiset(a[..]) == multiset(old(a[..]))
  {
    if a.Length < 2 {
      return;
    }
    var i := 1;
    while i < a.Length
      invariant 1 <= i <= a.Length
      invariant SortedUpTo(a[..], i, reverse)
      invariant multiset(a[..]) == multiset(old(a[..]))
    {
      InsertAt(a, i, reverse);
      i := i + 1;
    }
  }

  /** While `a[j]` moves left: `a[..i + 1]` is in order apart from position
      `j`, and everything right of `j` comes after `a[j]`. */
  predicate Inserting(s: seq<string>, i: int, j: int, reverse: bool)
    requires 0 <= j <= i < |s|
  {
    && (forall p, q :: 0 <= p < q <= i && p != j && q != j ==> !Precedes(s[q], s[p], reverse))
    && (forall q :: j < q <= i ==> !Precedes(s[q], s[j], reverse))
  }

  lemma InsertStep(s: seq<string>, i: int, j: int, reverse: bool)
    requires 0 < j <= i < |s|
    requires Inserting(s, i, j, reverse) && Precedes(s[j], s[j - 1], reverse)
    ensures Inserting(s[j - 1 := s[j]][j := s[j - 1]], i, j - 1, reverse)
  {
    if reverse {
      LexLessAsymmetric(s[j - 1], s[j]);
    } else {
      LexLessAsymmetric(s[j], s[j - 1]);
    }
  }

  lemma InsertDone(s: seq<string>, i: int, j: int, reverse: bool)
    requires 0 <= j <= i < |s|
    requires Inserting(s, i, j, reverse)
    requires j > 0 ==> !Precedes(s[j], s[j - 1], reverse)
    ensures SortedUpTo(s, i + 1, reverse)
  {
    forall p, q | 0 <= p < q <= i
      ensures !Precedes(s[q], s[p], reverse)
    {
      if q == j && p < j - 1 {
        NotPrecedesTransitive(s[p], s[j - 1], s[j], reverse);
      }
    }
  }

  /** Moves `a[i]` left until `a[..i + 1]` is in order. */
  method InsertAt(a: array<string>, i: int, reverse: bool)
    requires 0 < i < a.Length
    requires SortedUpTo(a[..], i, reverse)
    modifies a
    ensures SortedUpTo(a[..], i + 1, reverse)
    ensures multiset(a[..]) == multiset(old(a[..]))
  {
    var j := i;
    while j > 0 && Precedes(a[j], a[j - 1], reverse)
      invariant 0 <= j <= i
      invariant multiset(a[..]) == multiset(old(a[..]))
      invariant Inserting(a[..], i, j, reverse)
    {
      ghost var before := a[..];
      a[j - 1], a[j] := a[j], a[j - 1];
      assert a[..] == before[j - 1 := before[j]][j := before[j - 1]];
      SwapKeepsMultiset(before, j);
      InsertStep(before, i, j, reverse);
      j := j - 1;
    }
    InsertDone(a[..], i, j, reverse);
  }

  lemma SwapKeepsMultiset(s: seq<string>, j: int)
    requires 0 < j < |s|
    ensures multiset(s[j - 1 := s[j]][j := s[j - 1]]) == multiset(s)
  {
    var t := s[j - 1 := s[j]][j := s[j - 1]];
    var before, after := s[..j - 1], s[j + 1..];
    assert s == before + [s[j - 1], s[j]] + after;
    assert t == before + [s[j], s[j - 1]] + after;
    assert multiset([s[j - 1], s[j]]) == multiset([s[j], s[j - 1]]);
  }

  lemma {:induction false} DistinctCounts(s: seq<string>)
    requires Distinct(s)
    ensures forall x :: multiset(s)[x] <= 1
  {
    if |s| > 0 {
      assert s == [s[0]] + s[1..];
      assert Distinct(s[1..]);
      DistinctCounts(s[1..]);
      assert s[0] !in s[1..];
    }
  }

  /** A rearrangement of distinct keys has distinct keys. */
  lemma DistinctPermutation(a: seq<string>, b: seq<string>)
    requires multiset(a) == multiset(b) && Distinct(a)
    ensures Distinct(b)
  {
    DistinctCounts(a);
    forall p, q | 0 <= p < q < |b|
      ensures b[p] != b[q]
    {
      if b[p] == b[q] {
        RepeatedCount(b, p, q);
      }
    }
  }

  lemma RepeatedCount(b: seq<string>, p: int, q: int)
    requires 0 <= p < q < |b| && b[p] == b[q]
    ensures multiset(b)[b[q]] >= 2
  {
    assert b == b[..q] + [b[q]] + b[q + 1..];
    assert b[p] in b[..q];
    assert multiset(b) == multiset(b[..q]) + multiset([b[q]]) + multiset(b[q + 1..]);
  }

  lemma SortedDistinctIsStrict(s: seq<string>, reverse: bool)
    requires Sorted(s, reverse) && Distinct(s)
    ensures StrictlySorted(s, reverse)
  {
    forall p, q | 0 <= p < q < |s|
      ensures Precedes(s[p], s[q], reverse)
    {
      LexLessTotal(s[p], s[q]);
    }
  }

  /** The distinct keys in sorted order, as a new list. */
  method SortedKeys(keys: seq<string>, reverse: bool) returns (sorted: seq<string>)
    requires Distinct(keys)
    ensures StrictlySorted(sorted, reverse)
    ensures multiset(sorted) == multiset(keys)
    ensures Distinct(sorted)
    ensures forall k :: k in sorted <==> k in keys
  {
    var a := new string[|keys|](i requires 0 <= i < |keys| => keys[i]);
    assert a[..] == keys;
    SortKeys(a, reverse);
    sorted := a[..];
    DistinctPermutation(keys, sorted);
    SortedDistinctIsStrict(sorted, reverse);
    assert forall k :: k in sorted <==> k in multiset(sorted);
  }

  predicate AllSplitInTwo(keys: seq<string>) {
    forall i :: 0 <= i < |keys| ==> |Split(keys[i], '-')| == 2
  }

  predicate AllKeys(keys: seq<string>) {
    forall i :: 0 <= i < |keys| ==> IsKey(keys[i])
  }

  lemma KeysSplitInTwo(keys: seq<string>)
    requires AllKeys(keys)
    ensures AllSplitInTwo(keys)
  {
    forall i | 0 <= i < |keys|
      ensures |Split(keys[i], '-')| == 2
    {
      KeyRoundTrip(keys[i]);
    }
  }

  /** The labels of the keys, in the keys' order. */
  function Labels(keys: seq<string>): (labels: seq<string>)
    requires AllSplitInTwo(keys)
    ensures |labels| == |keys|
  {
    seq(|keys|, i requires 0 <= i < |keys| => LabelOfKey(keys[i]))
  }

  /** The current month's label goes first unless it is already listed. */
  function WithCurrent(labels: seq<string>, current: string): seq<string> {
    if current in labels then labels else [current] + labels
  }

  /** The selector's entries for sorted data keys and the clock `now`. */
  function CatalogueOf(keys: seq<string>, now: DateTime): (c: seq<string>)
    requires AllSplitInTwo(keys)
    ensures |keys| + 2 <= |c| <= |keys| + 3 && c[0] == Current && c[1] == All
    ensures CurrentLabel(now) in c[2..]
    ensures forall i :: 0 <= i < |keys| ==> LabelOfKey(keys[i]) in c[2..]
  {
    var labels := Labels(keys);
    var tail := WithCurrent(labels, CurrentLabel(now));
    assert forall i :: 0 <= i < |keys| ==> labels[i] == LabelOfKey(keys[i]) && labels[i] in tail;
    assert ([Current, All] + tail)[2..] == tail;
    [Current, All] + tail
  }

  /** The loop that formats each key, then the insertion of the current
      month's label and of the two sentinels. */
  method BuildCatalogue(keys: seq<string>, now: DateTime) returns (periods: seq<string>)
    requires AllSplitInTwo(keys)
    ensures periods == CatalogueOf(keys, now)
  {
    var formatted: seq<string> := [];
    for i := 0 to |keys|
      invariant |formatted| == i
      invariant forall j :: 0 <= j < i ==> formatted[j] == LabelOfKey(keys[j])
    {
      formatted := formatted + [LabelOfKey(keys[i])];
    }
    assert formatted == Labels(keys);
    var current := CurrentLabel(now);
    if current !in formatted {
      formatted := [current] + formatted;
    }
    periods := [Current, All] + formatted;
  }

  /** Labels of distinct keys are distinct and never a sentinel. */
  lemma LabelsOfDistinctKeys(keys: seq<string>)
    requires AllKeys(keys) && Distinct(keys)
    ensures AllSplitInTwo(keys)
    ensures Distinct(Labels(keys))
    ensures Current !in Labels(keys) && All !in Labels(keys)
  {
    KeysSplitInTwo(keys);
    var labels := Labels(keys);
    forall p, q | 0 <= p < q < |labels|
      ensures labels[p] != labels[q]
    {
      LabelsDistinct(keys[p], keys[q]);
    }
    forall i | 0 <= i < |labels|
      ensures labels[i] != Current && labels[i] != All
    {
      LabelIsNotSentinel(keys[i]);
    }
  }

  lemma PrependDistinct(x: string, s: seq<string>)
    requires Distinct(s) && x !in s
    ensures Distinct([x] + s)
  {
    var t := [x] + s;
    forall p, q | 0 <= p < q < |t|
      ensures t[p] != t[q]
    {
      assert t[q] == s[q - 1];
      if p > 0 {
        assert t[p] == s[p - 1];
      }
    }
  }

  /** The entries after the sentinels: the data's labels, with the current
      month's label in front when the data has none for it. */
  lemma CatalogueTail(keys: seq<string>, now: DateTime)
    requires AllKeys(keys) && Distinct(keys)
    ensures AllSplitInTwo(keys)
    ensures var tail := WithCurrent(Labels(keys), CurrentLabel(now));
            && Distinct(tail)
            && Current !in tail && All !in tail
            && CurrentLabel(now) in tail
            && tail[|tail| - |keys|..] == Labels(keys)
  {
    LabelsOfDistinctKeys(keys);
    CurrentLabelOfKey(now);
    LabelIsNotSentinel(KeyOf(now.year, now.month));
    var labels := Labels(keys);
    if CurrentLabel(now) !in labels {
      PrependDistinct(CurrentLabel(now), labels);
      assert ([CurrentLabel(now)] + labels)[1..] == labels;
    }
  }

  /** Every entry after the sentinels converts back to the current month's
      key or to one of the data's keys. */
  lemma CatalogueTailConverts(keys: seq<string>, now: DateTime, e: string)
    requires AllKeys(keys)
    requires AllSplitInTwo(keys)
    requires e in WithCurrent(Labels(keys), CurrentLabel(now))
    ensures ConvertLabel(e).Some?
    ensures ConvertLabel(e).value == KeyOf(now.year, now.month) || ConvertLabel(e).value in keys
  {
    CurrentLabelOfKey(now);
    if e != CurrentLabel(now) {
      var labels := Labels(keys);
      assert e in labels;
      var j :| 0 <= j < |labels| && labels[j] == e;
      KeyRoundTrip(keys[j]);
    }
  }

  /** What the selector offers: "Atual" and "Todos" first, no entry twice,
      the current month's label always present, the data's labels last in
      the keys' order, and every entry after the sentinels converting back
      to the current month's key or to a data key. */
  lemma CatalogueSpec(keys: seq<string>, now: DateTime)
    requires AllKeys(keys) && Distinct(keys)
    ensures AllSplitInTwo(keys)
    ensures var c := CatalogueOf(keys, now);
            && |c| >= 3 && c[0] == Current && c[1] == All
            && Distinct(c)
            && CurrentLabel(now) in c[2..]
            && c[|c| - |keys|..] == Labels(keys)
            && forall i :: 2 <= i < |c| ==>
                 ConvertLabel(c[i]).Some? &&
                 (ConvertLabel(c[i]).value == KeyOf(now.year, now.month) || ConvertLabel(c[i]).value in keys)
  {
    CatalogueTail(keys, now);
    var tail := WithCurrent(Labels(keys), CurrentLabel(now));
    WithSentinels(tail);
    var c := CatalogueOf(keys, now);
    assert c[|c| - |keys|..] == tail[|tail| - |keys|..];
    CatalogueConverts(keys, now);
  }

  /** The sentinels in front of distinct entries that are no sentinel. */
  lemma WithSentinels(tail: seq<string>)
    requires Distinct(tail) && Current !in tail && All !in tail
    ensures var c := [Current, All] + tail;
            |c| == |tail| + 2 && c[0] == Current && c[1] == All && c[2..] == tail && Distinct(c)
  {
    PrependDistinct(All, tail);
    PrependDistinct(Current, [All] + tail);
    assert [Current, All] + tail == [Current] + ([All] + tail);
  }

  lemma CatalogueConverts(keys: seq<string>, now: DateTime)
    requires AllKeys(keys)
    requires AllSplitInTwo(keys)
    ensures var c := CatalogueOf(keys, now);
            forall i :: 2 <= i < |c| ==>
              ConvertLabel(c[i]).Some? &&
              (ConvertLabel(c[i]).value == KeyOf(now.year, now.month) || ConvertLabel(c[i]).value in keys)
  {
    var tail := WithCurrent(Labels(keys), CurrentLabel(now));
    var c := CatalogueOf(keys, now);
    forall i | 2 <= i < |c|
      ensures ConvertLabel(c[i]).Some?
      ensures ConvertLabel(c[i]).value == KeyOf(now.year, now.month) || ConvertLabel(c[i]).value in keys
    {
      assert c[i] == tail[i - 2];
      CatalogueTailConverts(keys, now, c[i]);
    }
  }


  /** `list.sort` raised `TypeError`: a period key was compared with NaN. */
  datatype CatalogueError = SortTypeError

  /** `obter_periodos_disponiveis` as written. When the sheet has rows with a
      parseable timestamp and rows without one, the distinct `ano_mes` values
      mix strings with NaN and the sort raises before the NaN guard is
      reached. */
  method AvailablePeriods(records: seq<Record>, now: DateTime)
    returns (r: Result<seq<string>, CatalogueError>, ghost keys: seq<string>)
    requires AllWellFormed(records)
    ensures |records| == 0 ==> r == Success([All])
    ensures |records| > 0 ==> (r.Failure? <==> HasMissingPeriod(records) && HasAnyPeriod(records))
    ensures |records| > 0 && r.Success? ==>
              && StrictlySorted(keys, true)
              && (forall k :: k in keys <==> HasPeriod(records, k))
              && AllKeys(keys) && AllSplitInTwo(keys)
              && r.value == CatalogueOf(keys, now)
  {
    keys := [];
    if |records| == 0 {
      return Success([All]), keys;
    }
    var unique, sawMissing := UniqueKeys(records);
    if sawMissing && |unique| > 0 {
      return Failure(SortTypeError), keys;
    }
    var sorted := SortedKeys(unique, true);
    keys := sorted;
    PeriodKeysAreKeys(records, keys);
    var periods := BuildCatalogue(sorted, now);
    r := Success(periods);
  }

  /** The evidently intended catalogue: missing keys are left out before the
      sort, so a sheet with some unparseable timestamps still gets its
      periods. */
  method AvailablePeriodsCorrected(records: seq<Record>, now: DateTime)
    returns (periods: seq<string>, ghost keys: seq<string>)
    requires AllWellFormed(records)
    ensures |records| == 0 ==> periods == [All]
    ensures |records| > 0 ==>
              && StrictlySorted(keys, true)
              && (forall k :: k in keys <==> HasPeriod(records, k))
              && AllKeys(keys) && Distinct(keys) && AllSplitInTwo(keys)
              && periods == CatalogueOf(keys, now)
  {
    keys := [];
    if |records| == 0 {
      return [All], keys;
    }
    var unique, _ := UniqueKeys(records);
    var sorted := SortedKeys(unique, true);
    keys := sorted;
    PeriodKeysAreKeys(records, keys);
    periods := BuildCatalogue(sorted, now);
  }

  /** The keys the data holds are keys `strftime` wrote. */
  lemma PeriodKeysAreKeys(records: seq<Record>, keys: seq<string>)
    requires AllWellFormed(records)
    requires forall k :: k in keys ==> HasPeriod(records, k)
    ensures AllKeys(keys) && AllSplitInTwo(keys)
  {
    forall i | 0 <= i < |keys|
      ensures IsKey(keys[i])
    {
      assert keys[i] in keys;
      var r :| r in records && r.yearMonth == Some(keys[i]);
      var t := r.timestamp.value;
      KeyOfIsKey(t.year, t.month);
    }
    KeysSplitInTwo(keys);
  }

  /** A sheet of two answers, one with a parseable timestamp `t` and one
      whose timestamp could not be parsed. */
  function MixedSheet(t: DateTime): (records: seq<Record>)
    ensures |records| == 2 && AllWellFormed(records)
    ensures HasMissingPeriod(records) && HasAnyPeriod(records)
  {
    [Record(Normaliser.NotInformed, Some(t), None, None, Filled(""), Some(t.year as int), Some(t.month as int), Some(KeyOf(t.year, t.month))),
     Record(Normaliser.NotInformed, None, None, None, Filled(""), None, None, None)]
  }

  lemma MixedSheetPeriods(t: DateTime, k: string)
    ensures HasPeriod(MixedSheet(t), k) <==> k == KeyOf(t.year, t.month)
  {
    var records := MixedSheet(t);
    assert records[0] in records;
    assert forall r :: r in records && r.yearMonth.Some? ==> r.yearMonth == Some(KeyOf(t.year, t.month));
  }

  /** Any list holding exactly the periods of the mixed sheet ends with the
      period of `t`. */
  lemma MixedSheetKeys(t: DateTime, keys: seq<string>)
    requires forall k :: k in keys <==> HasPeriod(MixedSheet(t), k)
    ensures |keys| > 0 && keys[|keys| - 1] == KeyOf(t.year, t.month)
  {
    var k := KeyOf(t.year, t.month);
    MixedSheetPeriods(t, k);
    assert k in keys;
    var last := keys[|keys| - 1];
    assert last in keys;
    MixedSheetPeriods(t, last);
  }

  /** The selector's last entry converts back to the last data key. */
  lemma CatalogueLastEntry(keys: seq<string>, now: DateTime)
    requires AllKeys(keys) && Distinct(keys) && |keys| > 0
    ensures AllSplitInTwo(keys)
    ensures var c := CatalogueOf(keys, now);
            |c| >= 3 && c[0] == Current && c[1] == All &&
            ConvertLabel(c[|c| - 1]) == Some(keys[|keys| - 1])
  {
    KeysSplitInTwo(keys);
    var last := keys[|keys| - 1];
    var labels := Labels(keys);
    assert labels[|keys| - 1] == LabelOfKey(last);
    var c := CatalogueOf(keys, now);
    LastEntry(labels, CurrentLabel(now), c);
    KeyRoundTrip(last);
  }

  /** The sentinels and the current month's label go in front, so the last
      entry is the last data label. */
  lemma LastEntry(labels: seq<string>, current: string, c: seq<string>)
    requires |labels| > 0 && c == [Current, All] + WithCurrent(labels, current)
    ensures c[|c| - 1] == labels[|labels| - 1]
  {
  }

  /** The sort failure on a mixed sheet: as written the selector cannot be
      built, while the corrected catalogue ends with the label of `t`'s
      month, which converts back to its key. */
  method MixedSheetCatalogue(t: DateTime, now: DateTime)
    returns (asWritten: Result<seq<string>, CatalogueError>, corrected: seq<string>)
    ensures asWritten == Failure(SortTypeError)
    ensures |corrected| >= 3 && corrected[0] == Current && corrected[1] == All
    ensures ConvertLabel(corrected[|corrected| - 1]) == Some(KeyOf(t.year, t.month))
  {
    var records := MixedSheet(t);
    ghost var failedKeys;
    asWritten, failedKeys := AvailablePeriods(records, now);
    assert asWritten.Failure? && asWritten.error.SortTypeError?;
    ghost var keys;
    corrected, keys := AvailablePeriodsCorrected(records, now);
    MixedSheetKeys(t, keys);
    CatalogueLastEntry(keys, now);
  }
}
