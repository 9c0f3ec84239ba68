/** Row selection of the dashboard: `filtrar_por_periodo`, the reception
    filter inline in `main`, and the two applied in turn to the entry the
    user picked in the period selector. */
module Filters {
  import opened Wrappers
  import opened Survey
  import opened Periods
  import opened Catalogue

  /** The reception selector's entry that means every reception. */
  const AllReceptions := "Todas"

  /** Whether the period filter keeps a row: always for no period, "" and
      "Todos"; for "Atual" when the row falls in the month and year of `now`;
      otherwise when its `ano_mes` equals the period. */
  predicate KeptByPeriod(x: Record, period: Option<string>, now: DateTime)
  {
    if period.None? || period.value == "" || period.value == All then true
    else if period.value == Current then x.month == Some(now.month as int) && x.year == Some(now.year as int)
    else x.yearMonth == Some(period.value)
  }

  /** Whether the reception filter keeps a row. */
  predicate KeptByReception(x: Record, selected: string)
  {
    selected == AllReceptions || x.reception == selected
  }

  /** `filtrar_por_periodo`, with the clock reading `now` passed in: no
      period, "" or "Todos" keep every row; "Atual" keeps the rows of the
      month and year of `now`; any other value keeps the rows whose `ano_mes`
      equals it. */
  function FilterByPeriod(records: seq<Record>, period: Option<string>, now: DateTime): (r: seq<Record>)
    ensures IsSubsequence(r, records)
    ensures period == None || period == Some("") || period == Some(All) ==> r == records
    ensures period == Some(Current) ==>
              forall x :: x in r <==> x in records && x.month == Some(now.month as int) && x.year == Some(now.year as int)
    ensures period.Some? && period.value !in {"", All, Current} ==>
              forall x :: x in r <==> x in records && x.yearMonth == Some(period.value)
    ensures forall x :: multiset(r)[x] == if KeptByPeriod(x, period, now) then multiset(records)[x] else 0
  {
    if period.None? || period.value == "" || period.value == All then
      SubsequenceReflexive(records);
      records
    else if period.value == Current then
      WhereKeepsMultiplicity(records, InMonth(now.month, now.year));
      Where(records, InMonth(now.month, now.year))
    else
      WhereKeepsMultiplicity(records, InPeriod(period.value));
      Where(records, InPeriod(period.value))
  }

  /** The reception filter: every row for "Todas", otherwise the rows of
      exactly that reception. */
  function FilterByReception(records: seq<Record>, selected: string): (r: seq<Record>)
    ensures IsSubsequence(r, records)
    ensures selected == AllReceptions ==> r == records
    ensures selected != AllReceptions ==> forall x :: x in r <==> x in records && x.reception == selected
    ensures forall x :: multiset(r)[x] == if KeptByReception(x, selected) then multiset(records)[x] else 0
  {
    if selected == AllReceptions then
      SubsequenceReflexive(records);
      records
    else
      WhereKeepsMultiplicity(records, AtReception(selected));
      Where(records, AtReception(selected))
  }

  /** `df_filtrado` of `main`: the selector's entry converted to a key, the
      period filter, then the reception filter. */
  function SelectRows(records: seq<Record>, periodEntry: string, reception: string, now: DateTime): (r: seq<Record>)
    ensures IsSubsequence(r, records)
    ensures forall x :: x in r <==>
              x in records && KeptByPeriod(x, ConvertLabel(periodEntry), now) && KeptByReception(x, reception)
    ensures forall x :: multiset(r)[x] ==
              if KeptByPeriod(x, ConvertLabel(periodEntry), now) && KeptByReception(x, reception)
              then multiset(records)[x] else 0
  {
    var byPeriod := FilterByPeriod(records, ConvertLabel(periodEntry), now);
    SubsequenceTransitive(FilterByReception(byPeriod, reception), byPeriod, records);
    FilterByReception(byPeriod, reception)
  }

  /** Rows without a timestamp are never kept by a period other than "all". */
  lemma PeriodFilterNeedsTimestamp(records: seq<Record>, period: string, now: DateTime)
    requires AllWellFormed(records)
    requires period !in {"", All}
    ensures forall x :: x in FilterByPeriod(records, Some(period), now) ==> x.timestamp.Some?
  {
    forall x | x in FilterByPeriod(records, Some(period), now)
      ensures x.timestamp.Some?
    {
      var i :| 0 <= i < |records| && records[i] == x;
    }
  }

  /** Picking the current month's label selects the same rows, in the same
      order, as picking "Atual". */
  lemma CurrentLabelSelectsCurrentMonth(records: seq<Record>, now: DateTime)
    requires AllWellFormed(records)
    ensures FilterByPeriod(records, ConvertLabel(CurrentLabel(now)), now) == FilterByPeriod(records, Some(Current), now)
  {
    CurrentLabelOfKey(now);
    var k := KeyOf(now.year, now.month);
    assert k !in {"", All, Current} by {
      assert |k| == 7 && |All| == 5 && |Current| == 5;
    }
    forall x | x in records
      ensures Matches(x, InPeriod(k)) <==> Matches(x, InMonth(now.month, now.year))
    {
      var i :| 0 <= i < |records| && records[i] == x;
      if x.timestamp.Some? && x.yearMonth == Some(k) {
        KeyOfInjective(x.timestamp.value.year, x.timestamp.value.month, now.year, now.month);
      }
    }
    WhereAgrees(records, InPeriod(k), InMonth(now.month, now.year));
  }

  /** Picking a data period from the selector, with every reception, keeps
      exactly the rows of that period, in order and with their repetitions. */
  lemma CatalogueEntrySelects(records: seq<Record>, keys: seq<string>, now: DateTime, i: int)
    requires AllKeys(keys) && Distinct(keys)
    requires AllSplitInTwo(keys)
    requires 2 <= i < |CatalogueOf(keys, now)|
    ensures ConvertLabel(CatalogueOf(keys, now)[i]).Some?
    ensures var k := ConvertLabel(CatalogueOf(keys, now)[i]).value;
            IsKey(k) &&
            SelectRows(records, CatalogueOf(keys, now)[i], AllReceptions, now) == Where(records, InPeriod(k))
  {
    CatalogueSpec(keys, now);
    CurrentLabelOfKey(now);
    var k := ConvertLabel(CatalogueOf(keys, now)[i]).value;
    assert IsKey(k);
    assert k !in {"", All, Current} by {
      assert |k| == 7 && |All| == 5 && |Current| == 5;
    }
  }

  /** Picking "Todos" with every reception keeps every row. */
  lemma AllEntriesSelectEverything(records: seq<Record>, now: DateTime)
    ensures SelectRows(records, All, AllReceptions, now) == records
  {
  }

  /** An entry that is not "<month>/<year>" converts to no key, and the
      period filter then keeps every row. */
  lemma MalformedEntrySelectsEverything(records: seq<Record>, entry: string, now: DateTime)
    requires entry != All && entry != Current
    requires |Text.Split(entry, '/')| != 2
    ensures FilterByPeriod(records, ConvertLabel(entry), now) == records
  {
  }
}
