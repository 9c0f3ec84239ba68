/** Period keys ("YYYY-MM") and their display labels: the long Portuguese
    labels of the period selector ("Março/2024", built by
    `obter_periodos_disponiveis` and read back by
    `converter_periodo_para_formato`) and the short labels of the monthly
    evolution chart ("Mar/24"). */
module Periods {
  import opened Wrappers
  import opened Text
  import opened Survey

  /** `meses_pt` of `obter_periodos_disponiveis`. */
  const MonthNames: map<string, string> := map[
    "01" := "Janeiro", "02" := "Fevereiro", "03" := "Março",
    "04" := "Abril", "05" := "Maio", "06" := "Junho",
    "07" := "Julho", "08" := "Agosto", "09" := "Setembro",
    "10" := "Outubro", "11" := "Novembro", "12" := "Dezembro"]

  /** `meses_pt_inverso` of `converter_periodo_para_formato`. */
  const MonthNumbers: map<string, string> := map[
    "Janeiro" := "01", "Fevereiro" := "02", "Março" := "03",
    "Abril" := "04", "Maio" := "05", "Junho" := "06",
    "Julho" := "07", "Agosto" := "08", "Setembro" := "09",
    "Outubro" := "10", "Novembro" := "11", "Dezembro" := "12"]

  /** `meses_pt` of the monthly evolution chart. */
  const ShortMonthNames: map<string, string> := map[
    "01" := "Jan", "02" := "Fev", "03" := "Mar",
    "04" := "Abr", "05" := "Mai", "06" := "Jun",
    "07" := "Jul", "08" := "Ago", "09" := "Set",
    "10" := "Out", "11" := "Nov", "12" := "Dez"]

  /** The two sentinel entries of the period selector. */
  const Current := "Atual"
  const All := "Todos"

  /** `d.get(k, k)`: the table entry, or the key itself when absent. */
  function GetOr(m: map<string, string>, k: string): string {
    if k in m then m[k] else k
  }

  /** The inverse table undoes the forward one, and no month name contains
      the separators '/' and '-'. */
  lemma MonthTables(code: string)
    requires code in MonthNames
    ensures MonthNames[code] in MonthNumbers && MonthNumbers[MonthNames[code]] == code
    ensures '/' !in MonthNames[code] && '-' !in MonthNames[code] && '-' !in code && '/' !in code
  {
    MonthNameSeparators(code);
  }

  lemma MonthNameSeparators(code: string)
    requires code in MonthNames
    ensures '/' !in MonthNames[code] && '-' !in MonthNames[code]
  {
  }

  /** A period key as `strftime('%Y-%m')` writes it. */
  predicate IsKey(k: string) {
    && |k| == 7
    && (forall i :: 0 <= i < 4 ==> IsDigit(k[i]))
    && k[4] == '-'
    && k[5..] in MonthNames
  }

  lemma MonthCode(m: Month)
    ensures Pad2(m) in MonthNames
  {
    var c := Pad2(m);
    assert c == [c[0], c[1]];
    assert m < 10 ==> c[0] == '0';
    assert 10 <= m ==> c[0] == '1';
    if m < 10 {
      assert c[1] == Digit(m);
    } else {
      assert c[1] == Digit(m - 10);
    }
    match m
    case 1 => assert c == "01";
    case 2 => assert c == "02";
    case 3 => assert c == "03";
    case 4 => assert c == "04";
    case 5 => assert c == "05";
    case 6 => assert c == "06";
    case 7 => assert c == "07";
    case 8 => assert c == "08";
    case 9 => assert c == "09";
    case 10 => assert c == "10";
    case 11 => assert c == "11";
    case 12 => assert c == "12";
  }

  /** Every key the normaliser derives is a well-formed period key. */
  lemma KeyOfIsKey(year: Year, month: Month)
    ensures IsKey(KeyOf(year, month))
  {
    MonthCode(month);
  }

  /** A well-formed key splits on '-' into its year and month parts. */
  lemma SplitKey(k: string)
    requires IsKey(k)
    ensures Split(k, '-') == [k[..4], k[5..]]
    ensures '/' !in k[..4] && '-' !in k[..4]
  {
    MonthTables(k[5..]);
    assert k == k[..4] + ['-'] + k[5..];
    SplitInTwo(k[..4], '-', k[5..]);
  }

  lemma SplitWellFormedKey(k: string)
    ensures IsKey(k) ==> Split(k, '-') == [k[..4], k[5..]] && k[5..] in ShortMonthNames
  {
    if IsKey(k) {
      SplitKey(k);
      ShortMonthCode(k[5..]);
    }
  }

  /** The label `obter_periodos_disponiveis` shows for a key: `periodo.split('-')`
      into year and month, then "<month name>/<year>". The source unpacks
      exactly two parts, so a key must split into two. */
  function LabelOfKey(key: string): (shown: string)
    requires |Split(key, '-')| == 2
    ensures IsKey(key) ==> shown == MonthNames[key[5..]] + "/" + key[..4]
  {
    SplitWellFormedKey(key);
    var parts := Split(key, '-');
    GetOr(MonthNames, parts[1]) + "/" + parts[0]
  }

  /** `converter_periodo_para_formato`: the sentinels unchanged, otherwise
      "<month name>/<year>" back to "<year>-<month number>"; a label that does
      not split into exactly two parts on '/' has no key (`None`). */
  function ConvertLabel(shown: string): (r: Option<string>)
    ensures shown == All || shown == Current ==> r == Some(shown)
    ensures shown != All && shown != Current ==> (r.None? <==> |Split(shown, '/')| != 2)
  {
    if shown == All || shown == Current then Some(shown)
    else
      var parts := Split(shown, '/');
      if |parts| != 2 then None
      else Some(parts[1] + "-" + GetOr(MonthNumbers, parts[0]))
  }

  /** Round trip: the selector's label of a key converts back to that key.
      It holds for any year text free of '-' and '/', not only four digits. */
  lemma RoundTrip(year: string, code: string)
    requires code in MonthNames && '-' !in year && '/' !in year
    ensures |Split(year + "-" + code, '-')| == 2
    ensures ConvertLabel(LabelOfKey(year + "-" + code)) == Some(year + "-" + code)
  {
    MonthTables(code);
    SplitInTwo(year, '-', code);
    var shown := LabelOfKey(year + "-" + code);
    assert shown == MonthNames[code] + ['/'] + year;
    SplitInTwo(MonthNames[code], '/', year);
    assert shown != All && shown != Current by {
      assert shown[|shown| - |year| - 1] == '/';
      assert '/' !in All && '/' !in Current;
    }
  }

  lemma KeyRoundTrip(k: string)
    requires IsKey(k)
    ensures |Split(k, '-')| == 2
    ensures ConvertLabel(LabelOfKey(k)) == Some(k)
  {
    SplitKey(k);
    assert k == k[..4] + "-" + k[5..];
    RoundTrip(k[..4], k[5..]);
  }

  /** Different keys have different labels, and no label is a sentinel. */
  lemma LabelsDistinct(k1: string, k2: string)
    requires IsKey(k1) && IsKey(k2) && k1 != k2
    ensures |Split(k1, '-')| == 2 && |Split(k2, '-')| == 2
    ensures LabelOfKey(k1) != LabelOfKey(k2)
  {
    KeyRoundTrip(k1);
    KeyRoundTrip(k2);
  }

  lemma LabelIsNotSentinel(k: string)
    requires IsKey(k)
    ensures |Split(k, '-')| == 2
    ensures LabelOfKey(k) != All && LabelOfKey(k) != Current
  {
    KeyRoundTrip(k);
    assert ConvertLabel(LabelOfKey(k)) != Some(All) && ConvertLabel(LabelOfKey(k)) != Some(Current);
  }

  /** `mes_atual_str`: the label of the month of `now`, built from the month
      number and `str` of the year. */
  function CurrentLabel(now: DateTime): (shown: string)
    ensures |Split(KeyOf(now.year, now.month), '-')| == 2
    ensures shown == LabelOfKey(KeyOf(now.year, now.month))
  {
    KeyOfIsKey(now.year, now.month);
    DecimalOfFourDigits(now.year);
    SplitKey(KeyOf(now.year, now.month));
    MonthCode(now.month);
    MonthNames[Pad2(now.month)] + "/" + Decimal(now.year)
  }

  /** The current month's label is the label of the current month's key. */
  lemma CurrentLabelOfKey(now: DateTime)
    ensures IsKey(KeyOf(now.year, now.month))
    ensures |Split(KeyOf(now.year, now.month), '-')| == 2
    ensures CurrentLabel(now) == LabelOfKey(KeyOf(now.year, now.month))
    ensures ConvertLabel(CurrentLabel(now)) == Some(KeyOf(now.year, now.month))
  {
    KeyOfIsKey(now.year, now.month);
    DecimalOfFourDigits(now.year);
    SplitKey(KeyOf(now.year, now.month));
    KeyRoundTrip(KeyOf(now.year, now.month));
  }

  /** The chart label of a key: `x.split('-')[1]` through the short table,
      '/', and `x.split('-')[0][2:4]` (Python slicing clamps to the length). */
  function ShortLabel(key: string): (shown: string)
    requires |Split(key, '-')| >= 2
    ensures IsKey(key) ==> key[5..] in ShortMonthNames && shown == ShortMonthNames[key[5..]] + "/" + key[2..4]
  {
    SplitWellFormedKey(key);
    var parts := Split(key, '-');
    var year := parts[0];
    var lo := if |year| < 2 then |year| else 2;
    var hi := if |year| < 4 then |year| else 4;
    GetOr(ShortMonthNames, parts[1]) + "/" + year[lo..hi]
  }

  /** For a derived key the chart label is the short month name and the last
      two digits of the year ("Mar/24"). */
  lemma ShortLabelOfKey(year: Year, month: Month)
    ensures |Split(KeyOf(year, month), '-')| == 2
    ensures ShortLabel(KeyOf(year, month)) == ShortMonthNames[Pad2(month)] + "/" + Pad2(year % 100)
  {
    var k := KeyOf(year, month);
    KeyOfIsKey(year, month);
    SplitKey(k);
    assert Split(k, '-') == [Pad4(year), Pad2(month)];
    LastTwoDigits(year);
    ShortMonthCode(Pad2(month));
  }

  /** `[2:4]` of a four-digit year is the year modulo 100, zero-padded. */
  lemma LastTwoDigits(year: Year)
    ensures Pad4(year)[2..4] == Pad2(year % 100)
  {
    TensAndUnits(year);
    assert Pad4(year)[2..4] == [Digit((year / 10) % 10), Digit(year % 10)];
  }

  /** The tens and units digits of a number are those of its last two digits. */
  lemma TensAndUnits(n: nat)
    ensures (n / 10) % 10 == (n % 100) / 10 && n % 10 == (n % 100) % 10
  {
    var r := n % 100;
    var q := n / 100;
    assert n == 100 * q + r && 0 <= r < 100;
    assert n / 10 == 10 * q + r / 10;
  }

  lemma ShortMonthCode(code: string)
    requires code in MonthNames
    ensures code in ShortMonthNames
  {
  }


  /** Equal keys come from the same year and month. */
  lemma KeyOfInjective(y1: Year, m1: Month, y2: Year, m2: Month)
    requires KeyOf(y1, m1) == KeyOf(y2, m2)
    ensures y1 == y2 && m1 == m2
  {
    var k := KeyOf(y1, m1);
    assert Pad4(y1) == k[..4] == Pad4(y2);
    assert Pad2(m1) == k[5..] == Pad2(m2);
  }
}
