/** `calcular_distribuicao_notas`: for each grade 0..10, how many rows have
    exactly that service rating and how many exactly that recommendation
    rating. A missing, fractional or out-of-range rating is in no row. */
module Distribution {
  import opened Wrappers
  import opened Survey

  /** One row of the histogram: `nota`, `atendimento`, `recomendacao`. */
  datatype GradeCount = GradeCount(grade: int, service: nat, recommendation: nat)

  const Grades := 11

  /** `len(df[df[col] == i])`. */
  function CountGrade(records: seq<Record>, col: Column, g: int): (n: nat)
    ensures n <= |records|
  {
    |Where(records, RatingIs(col, g as real))|
  }

  function RowOf(records: seq<Record>, g: int): GradeCount {
    GradeCount(g, CountGrade(records, Service, g), CountGrade(records, Recommendation, g))
  }

  /** The histogram the loop builds, grade by grade. */
  function Histogram(records: seq<Record>): (rows: seq<GradeCount>)
    ensures |rows| == Grades
    ensures forall g :: 0 <= g < Grades ==>
              rows[g].grade == g && rows[g].service <= |records| && rows[g].recommendation <= |records|
  {
    seq(Grades, g requires 0 <= g < Grades => RowOf(records, g))
  }

  method GradeDistribution(records: seq<Record>) returns (rows: seq<GradeCount>)
    ensures rows == Histogram(records)
    ensures forall g :: 0 <= g < |rows| ==> rows[g].grade == g
  {
    rows := [];
    for i := 0 to Grades
      invariant |rows| == i
      invariant forall g :: 0 <= g < i ==> rows[g] == RowOf(records, g)
    {
      var serviceCount := |Where(records, RatingIs(Service, i as real))|;
      var recommendationCount := |Where(records, RatingIs(Recommendation, i as real))|;
      rows := rows + [GradeCount(i, serviceCount, recommendationCount)];
    }
  }

  function Pick(row: GradeCount, col: Column): nat {
    match col
    case Service => row.service
    case Recommendation => row.recommendation
  }

  /** The sum of one column of the histogram. */
  function ColumnTotal(rows: seq<GradeCount>, col: Column): nat {
    if |rows| == 0 then 0 else ColumnTotal(rows[..|rows| - 1], col) + Pick(rows[|rows| - 1], col)
  }

  /** The rating of `r` in `col` is a whole number in 0..n-1. */
  predicate GradedBelow(r: Record, col: Column, n: int) {
    && Rating(r, col).Some?
    && Rating(r, col).value.Floor as real == Rating(r, col).value
    && 0 <= Rating(r, col).value.Floor < n
  }

  /** How many rows carry a whole-number rating in 0..n-1 in `col`. */
  function CountGraded(records: seq<Record>, col: Column, n: int): (k: nat)
    ensures k <= |records|
  {
    if |records| == 0 then 0
    else (if GradedBelow(records[0], col, n) then 1 else 0) + CountGraded(records[1..], col, n)
  }

  /** `CountGrade` summed over the grades 0..n-1. */
  function SumGrades(records: seq<Record>, col: Column, n: nat): nat {
    if n == 0 then 0 else SumGrades(records, col, n - 1) + CountGrade(records, col, n - 1)
  }

  /** The first row contributes to the sum over grades exactly when its
      rating is one of those grades. */
  lemma {:induction false} SumGradesFirst(records: seq<Record>, col: Column, n: nat)
    requires |records| > 0
    ensures SumGrades(records, col, n) ==
            SumGrades(records[1..], col, n) + (if GradedBelow(records[0], col, n) then 1 else 0)
  {
    if n > 0 {
      SumGradesFirst(records, col, n - 1);
      GradeStep(records[0], col, n);
      CountGradeFirst(records, col, n - 1);
      assert SumGrades(records, col, n) == SumGrades(records, col, n - 1) + CountGrade(records, col, n - 1);
      assert SumGrades(records[1..], col, n) ==
             SumGrades(records[1..], col, n - 1) + CountGrade(records[1..], col, n - 1);
    }
  }

  /** A rating is graded below n exactly when it is graded below n-1 or
      equals grade n-1, and never both. */
  lemma GradeStep(r: Record, col: Column, n: nat)
    requires n > 0
    ensures (if GradedBelow(r, col, n) then 1 else 0) ==
            (if GradedBelow(r, col, n - 1) then 1 else 0) + (if Matches(r, RatingIs(col, (n - 1) as real)) then 1 else 0)
  {
    assert Matches(r, RatingIs(col, (n - 1) as real)) <==> (GradedBelow(r, col, n) && !GradedBelow(r, col, n - 1));
  }

  lemma CountGradeFirst(records: seq<Record>, col: Column, g: int)
    requires |records| > 0
    ensures CountGrade(records, col, g) ==
            CountGrade(records[1..], col, g) + (if Matches(records[0], RatingIs(col, g as real)) then 1 else 0)
  {
  }

  lemma {:induction false} SumGradesCountsGraded(records: seq<Record>, col: Column, n: nat)
    ensures SumGrades(records, col, n) == CountGraded(records, col, n)
  {
    if |records| == 0 {
      SumGradesEmpty(col, n);
    } else {
      SumGradesFirst(records, col, n);
      SumGradesCountsGraded(records[1..], col, n);
    }
  }

  lemma {:induction false} SumGradesEmpty(col: Column, n: nat)
    ensures SumGrades([], col, n) == 0
  {
    if n > 0 {
      SumGradesEmpty(col, n - 1);
    }
  }

  lemma {:induction false} HistogramPrefix(records: seq<Record>, col: Column, n: nat)
    requires n <= Grades
    ensures ColumnTotal(Histogram(records)[..n], col) == SumGrades(records, col, n)
  {
    if n > 0 {
      HistogramPrefix(records, col, n - 1);
      assert Histogram(records)[..n][..n - 1] == Histogram(records)[..n - 1];
    }
  }

  /** Each column of the histogram adds up to the number of rows whose rating
      in that column is a whole number from 0 to 10, so never to more than
      the number of rows. */
  lemma HistogramTotal(records: seq<Record>, col: Column)
    ensures ColumnTotal(Histogram(records), col) == CountGraded(records, col, Grades)
    ensures ColumnTotal(Histogram(records), col) <= |records|
  {
    HistogramPrefix(records, col, Grades);
    assert Histogram(records)[..Grades] == Histogram(records);
    SumGradesCountsGraded(records, col, Grades);
  }

  /** A half-grade rating such as 6.5 is in no row of the histogram. */
  lemma HalfGradeNotCounted(r: Record, col: Column)
    requires Rating(r, col) == Some(6.5)
    ensures forall g :: 0 <= g < Grades ==> CountGrade([r], col, g) == 0
  {
    forall g | 0 <= g < Grades
      ensures CountGrade([r], col, g) == 0
    {
      assert !Matches(r, RatingIs(col, g as real));
      assert [r][1..] == [];
    }
  }
}
