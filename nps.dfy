/** The Net Promoter Score arithmetic: `calcular_nps`, the three
    `calcular_percentual_*` functions and `categoria_de_nps`. Ratings are
    exact reals; a missing rating is dropped before anything is counted. */
module Nps {
  import opened Wrappers
  import opened Survey

  /** The three bands of a 0..10 recommendation rating. A rating strictly
      between 6 and 7, or between 8 and 9, is in none of them. */
  datatype Band = Promoter | Neutral | Detractor

  predicate InBand(x: real, b: Band) {
    match b
    case Promoter => x >= 9.0          // nota >= 9
    case Neutral => 7.0 <= x <= 8.0    // 7 <= nota <= 8
    case Detractor => x <= 6.0         // nota <= 6
  }

  /** `sum(<band test> for nota in notas)`. */
  function Count(xs: seq<real>, b: Band): (n: nat)
    ensures n <= |xs|
    ensures (forall i :: 0 <= i < |xs| ==> InBand(xs[i], b)) ==> n == |xs|
    ensures (forall i :: 0 <= i < |xs| ==> !InBand(xs[i], b)) ==> n == 0
  {
    if |xs| == 0 then 0
    else (if InBand(xs[0], b) then 1 else 0) + Count(xs[1..], b)
  }

  /** `calcular_percentual_promotores/neutros/detratores`: the share of the
      present ratings in band `b`, as a percentage; 0 when none is present. */
  function Percent(notas: seq<Option<real>>, b: Band): (p: real)
    ensures |Present(notas)| == 0 ==> p == 0.0
    ensures 0.0 <= p <= 100.0
    ensures |Present(notas)| > 0 && (forall x :: x in Present(notas) ==> InBand(x, b)) ==> p == 100.0
    ensures (forall x :: x in Present(notas) ==> !InBand(x, b)) ==> p == 0.0
  {
    var xs := Present(notas);
    if |xs| == 0 then 0.0
    else
      Fraction(Count(xs, b), |xs|);
      (Count(xs, b) as real / |xs| as real) * 100.0
  }

  function PercentPromoters(notas: seq<Option<real>>): (p: real)
    ensures 0.0 <= p <= 100.0
    ensures |Present(notas)| == 0 ==> p == 0.0
    ensures |Present(notas)| > 0 && (forall x :: x in Present(notas) ==> x >= 9.0) ==> p == 100.0
    ensures (forall x :: x in Present(notas) ==> x < 9.0) ==> p == 0.0
  {
    Percent(notas, Promoter)
  }

  function PercentNeutral(notas: seq<Option<real>>): (p: real)
    ensures 0.0 <= p <= 100.0
    ensures |Present(notas)| == 0 ==> p == 0.0
    ensures |Present(notas)| > 0 && (forall x :: x in Present(notas) ==> 7.0 <= x <= 8.0) ==> p == 100.0
    ensures (forall x :: x in Present(notas) ==> x < 7.0 || x > 8.0) ==> p == 0.0
  {
    Percent(notas, Neutral)
  }

  function PercentDetractors(notas: seq<Option<real>>): (p: real)
    ensures 0.0 <= p <= 100.0
    ensures |Present(notas)| == 0 ==> p == 0.0
    ensures |Present(notas)| > 0 && (forall x :: x in Present(notas) ==> x <= 6.0) ==> p == 100.0
    ensures (forall x :: x in Present(notas) ==> x > 6.0) ==> p == 0.0
  {
    Percent(notas, Detractor)
  }

  /** A count out of a total is a fraction between 0 and 1. */
  lemma Fraction(k: nat, n: nat)
    requires 0 < n && k <= n
    ensures 0.0 <= k as real / n as real <= 1.0
    ensures k == n ==> k as real / n as real == 1.0
    ensures k == 0 ==> k as real / n as real == 0.0
  {
    var q := k as real / n as real;
    assert q * n as real == k as real;
  }

  /** `calcular_nps`: (promoters - detractors) / n * 100 over the present
      ratings, 0 when none is present; always within [-100, 100]. */
  function NpsOf(notas: seq<Option<real>>): (score: real)
    ensures |Present(notas)| == 0 ==> score == 0.0
    ensures -100.0 <= score <= 100.0
  {
    var xs := Present(notas);
    if |xs| == 0 then 0.0
    else
      Fraction(Count(xs, Promoter), |xs|);
      Fraction(Count(xs, Detractor), |xs|);
      ((Count(xs, Promoter) as real / |xs| as real) - (Count(xs, Detractor) as real / |xs| as real)) * 100.0
  }

  /** The score is the promoters' share minus the detractors' share. */
  lemma NpsIsDifference(notas: seq<Option<real>>)
    ensures NpsOf(notas) == PercentPromoters(notas) - PercentDetractors(notas)
  {
    var xs := Present(notas);
    if |xs| > 0 {
      var p := Count(xs, Promoter) as real / |xs| as real;
      var d := Count(xs, Detractor) as real / |xs| as real;
      assert (p - d) * 100.0 == p * 100.0 - d * 100.0;
    }
  }

  /** A whole-number rating is in exactly one band. */
  predicate Whole(x: real) {
    x.Floor as real == x
  }

  lemma {:induction false} BandsPartition(xs: seq<real>)
    requires forall i :: 0 <= i < |xs| ==> Whole(xs[i])
    ensures Count(xs, Promoter) + Count(xs, Neutral) + Count(xs, Detractor) == |xs|
  {
    if |xs| > 0 {
      BandsPartition(xs[1..]);
      var x := xs[0];
      assert Whole(x);
      if x.Floor <= 6 {
      } else if x.Floor <= 8 {
      } else {
      }
    }
  }

  /** The bands never overlap, so their counts never exceed the total. */
  lemma {:induction false} BandsDisjoint(xs: seq<real>)
    ensures Count(xs, Promoter) + Count(xs, Neutral) + Count(xs, Detractor) <= |xs|
  {
    if |xs| > 0 {
      BandsDisjoint(xs[1..]);
    }
  }

  /** Shares of one total add up as their counts do: to at most 100 when
      the counts do not exceed the total, to exactly 100 when they make it up. */
  lemma SharesAdd(p: nat, q: nat, d: nat, n: nat)
    requires 0 < n && p + q + d <= n
    ensures (p as real / n as real) * 100.0 + (q as real / n as real) * 100.0 + (d as real / n as real) * 100.0
            <= 100.0
    ensures p + q + d == n ==>
            (p as real / n as real) * 100.0 + (q as real / n as real) * 100.0 + (d as real / n as real) * 100.0
            == 100.0
  {
    SharesDistribute(p, q, d, n);
    Fraction(p + q + d, n);
  }

  lemma SharesDistribute(p: nat, q: nat, d: nat, n: nat)
    requires 0 < n
    ensures (p as real / n as real) * 100.0 + (q as real / n as real) * 100.0 + (d as real / n as real) * 100.0
            == ((p + q + d) as real / n as real) * 100.0
  {
  }

  /** The three band shares of a non-empty list of ratings add up to at
      most 100, and to exactly 100 when every rating is a whole number. */
  lemma SharesOfBands(xs: seq<real>)
    requires |xs| > 0
    ensures var n := |xs| as real;
            (Count(xs, Promoter) as real / n) * 100.0 + (Count(xs, Neutral) as real / n) * 100.0
            + (Count(xs, Detractor) as real / n) * 100.0 <= 100.0
    ensures (forall x :: x in xs ==> Whole(x)) ==>
            var n := |xs| as real;
            (Count(xs, Promoter) as real / n) * 100.0 + (Count(xs, Neutral) as real / n) * 100.0
            + (Count(xs, Detractor) as real / n) * 100.0 == 100.0
  {
    BandsDisjoint(xs);
    if forall x :: x in xs ==> Whole(x) {
      BandsPartition(xs);
    }
    SharesAdd(Count(xs, Promoter), Count(xs, Neutral), Count(xs, Detractor), |xs|);
  }

  /** For whole-number ratings the three percentages of the pie chart add up
      to 100; in general they add up to at most 100. */
  lemma PercentagesSum(notas: seq<Option<real>>)
    ensures |Present(notas)| > 0 && (forall x :: x in Present(notas) ==> Whole(x)) ==>
              PercentPromoters(notas) + PercentNeutral(notas) + PercentDetractors(notas) == 100.0
    ensures PercentPromoters(notas) + PercentNeutral(notas) + PercentDetractors(notas) <= 100.0
  {
    var xs := Present(notas);
    if |xs| > 0 {
      SharesOfBands(xs);
    }
  }

  /** A half-grade rating such as 6.5 is counted in the total of every
      percentage but in no band: it pulls the score towards 0. */
  lemma HalfGradeInNoBand()
    ensures Percent([Some(6.5)], Promoter) == 0.0
    ensures Percent([Some(6.5)], Neutral) == 0.0
    ensures Percent([Some(6.5)], Detractor) == 0.0
    ensures NpsOf([Some(10.0), Some(6.5)]) == 50.0
  {
    assert Present([Some(6.5)]) == [6.5];
    var two := [Some(10.0), Some(6.5)];
    assert Present(two) == [10.0, 6.5] by {
      assert two[1..] == [Some(6.5)];
    }
  }

  /** The NPS reading of `categoria_de_nps`, with its name and colour. */
  datatype Category = Excellent | Good | Regular | Critical {
    function Name(): string {
      match this
      case Excellent => "Excelente"
      case Good => "Bom"
      case Regular => "Regular"
      case Critical => "Crítico"
    }

    function Color(): string {
      match this
      case Excellent => "#22c55e"
      case Good => "#3b82f6"
      case Regular => "#eab308"
      case Critical => "#ef4444"
    }

    /** Worst first. */
    function Rank(): nat {
      match this
      case Critical => 0
      case Regular => 1
      case Good => 2
      case Excellent => 3
    }
  }

  /** `categoria_de_nps`: the score's band, tested from the top down. */
  function CategoryOf(score: real): (c: Category)
    ensures c == Excellent <==> score >= 75.0
    ensures c == Good <==> 50.0 <= score < 75.0
    ensures c == Regular <==> 0.0 <= score < 50.0
    ensures c == Critical <==> score < 0.0
  {
    if score >= 75.0 then Excellent
    else if score >= 50.0 then Good
    else if score >= 0.0 then Regular
    else Critical
  }

  /** A higher score never gets a worse category. */
  lemma CategoryMonotone(s: real, t: real)
    requires s <= t
    ensures CategoryOf(s).Rank() <= CategoryOf(t).Rank()
  {
  }

  /** The extreme and middle scores: only promoters give 100, only
      detractors give -100, only neutral ratings give 0. */
  lemma NpsOfOneBand(notas: seq<Option<real>>)
    ensures |Present(notas)| > 0 && (forall x :: x in Present(notas) ==> x >= 9.0) ==> NpsOf(notas) == 100.0
    ensures |Present(notas)| > 0 && (forall x :: x in Present(notas) ==> x <= 6.0) ==> NpsOf(notas) == -100.0
    ensures (forall x :: x in Present(notas) ==> 7.0 <= x <= 8.0) ==> NpsOf(notas) == 0.0
  {
    var xs := Present(notas);
    if |xs| > 0 {
      var n := |xs|;
      var p, d := Count(xs, Promoter), Count(xs, Detractor);
      Fraction(p, n);
      Fraction(d, n);
      if forall x :: x in xs ==> x >= 9.0 {
        assert forall i :: 0 <= i < n ==> xs[i] in xs;
        assert p == n && d == 0;
      }
      if forall x :: x in xs ==> x <= 6.0 {
        assert forall i :: 0 <= i < n ==> xs[i] in xs;
        assert p == 0 && d == n;
      }
      if forall x :: x in xs ==> 7.0 <= x <= 8.0 {
        assert forall i :: 0 <= i < n ==> xs[i] in xs;
        assert p == 0 && d == 0;
      }
    }
  }
}
