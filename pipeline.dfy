/** The prediction run: score the field, rank it, recommend the fixed bet. */
module Pipeline {
  import opened Settings
  import opened Standardizer
  import opened Scoring
  import opened Ranking
  import opened Betting

  /** The ranking of a field under the given conditions. */
  function RankField(riders: seq<Rider>, cond: Conditions, sqrt: real -> real): (ranked: seq<Ranked>)
    requires PositiveOnPositive(sqrt)
    ensures |ranked| == |riders|
  {
    RankAndMarks(ScoreTable(riders, cond, sqrt))
  }

  /** Every ranked line is the number and score of some rider of the field. */
  lemma RankedLineFromField(riders: seq<Rider>, cond: Conditions, sqrt: real -> real, p: int)
    returns (k: int)
    requires PositiveOnPositive(sqrt)
    requires 0 <= p < |riders|
    ensures 0 <= k < |riders|
    ensures RankField(riders, cond, sqrt)[p].no == riders[k].no
    ensures RankField(riders, cond, sqrt)[p].score == RiderScore(riders, cond, sqrt, k)
  {
    var table := ScoreTable(riders, cond, sqrt);
    var ranked := RankAndMarks(table);
    var e := Entries(ranked);
    assert e[p] in multiset(e);
    assert e[p] in multiset(table);
    k :| 0 <= k < |table| && table[k] == e[p];
  }

  /** The anchor of a non-empty field is a rider whose score no other rider
      of the field beats. */
  lemma AnchorIsTopScorer(riders: seq<Rider>, cond: Conditions, sqrt: real -> real, partnersWant: int)
    returns (k: int)
    requires PositiveOnPositive(sqrt)
    requires |riders| > 0
    ensures 0 <= k < |riders|
    ensures RecommendFixedBet(RankField(riders, cond, sqrt), partnersWant).anchor == Some(riders[k].no)
    ensures forall j :: 0 <= j < |riders| ==>
      RiderScore(riders, cond, sqrt, j) <= RiderScore(riders, cond, sqrt, k)
  {
    var table := ScoreTable(riders, cond, sqrt);
    k := RankedLineFromField(riders, cond, sqrt, 0);
    forall j | 0 <= j < |riders|
      ensures RiderScore(riders, cond, sqrt, j) <= RiderScore(riders, cond, sqrt, k)
    {
      TopIsMaximal(table, j);
    }
  }

  /** A field of at least two riders with distinct positive numbers always
      yields the wheel bet, with min(P, n - 1) partners none of which is
      the anchor. */
  lemma FieldOfTwoGetsWheel(riders: seq<Rider>, cond: Conditions, sqrt: real -> real, partnersWant: int)
    requires PositiveOnPositive(sqrt)
    requires UniqueNumbers(riders)
    requires forall i :: 0 <= i < |riders| ==> riders[i].no >= 1
    requires |riders| >= 2
    requires partnersWant >= 1
    ensures var rec := RecommendFixedBet(RankField(riders, cond, sqrt), partnersWant);
      && FixedBet(rec).Wheel?
      && |rec.partners| == Min(partnersWant, |riders| - 1)
      && rec.anchor.value !in rec.partners
  {
    var table := ScoreTable(riders, cond, sqrt);
    var ranked := RankField(riders, cond, sqrt);
    assert DistinctNumbers(table) by {
      forall i, j | 0 <= i < j < |table| ensures table[i].0 != table[j].0 {
        assert table[i].0 == riders[i].no && table[j].0 == riders[j].no;
      }
    }
    RankingKeepsNumbersDistinct(table);
    forall p | 0 <= p < |ranked| ensures ranked[p].no >= 1 {
      var k := RankedLineFromField(riders, cond, sqrt, p);
    }
    WheelIffTwoRiders(ranked, partnersWant);
    AnchorNotAPartner(ranked, partnersWant);
  }
}
