/** The fixed bet: the top-ranked rider as anchor, the next ones as
    partners in both remaining places, or "insufficient field". */
module Betting {
  import opened Settings
  import opened Ranking

  datatype Option<T> = None | Some(value: T)

  /** A slice bound normalised as Python does for step 1: a negative bound
      counts from the end, then the bound is clamped to [0, n]. */
  function SliceIndex(i: int, n: nat): (k: nat)
    ensures k <= n
    ensures 0 <= i <= n ==> k == i
    ensures i > n ==> k == n
    ensures -(n as int) <= i < 0 ==> k == i + n
    ensures i < -(n as int) ==> k == 0
  {
    var j := if i < 0 then i + n else i;
    if j < 0 then 0 else if j > n then n else j
  }

  /** Python's s[start:stop]. */
  function Slice<T>(s: seq<T>, start: int, stop: int): (r: seq<T>)
    ensures |r| <= |s|
  {
    var a := SliceIndex(start, |s|);
    var b := SliceIndex(stop, |s|);
    if a < b then s[a..b] else []
  }

  datatype Recommendation = Recommendation(anchor: Option<int>, partners: seq<int>)

  /** The anchor is the top-ranked number (none for an empty ranking); the
      partners are the numbers of ranked[1:1+partnersWant]. */
  function RecommendFixedBet(ranked: seq<Ranked>, partnersWant: int): (rec: Recommendation)
    ensures |ranked| > 0 <==> rec.anchor.Some?
    ensures |ranked| > 0 ==> rec.anchor.value == ranked[0].no
    ensures partnersWant >= 0 ==> |rec.partners| == Min(partnersWant, if |ranked| > 0 then |ranked| - 1 else 0)
    ensures partnersWant >= 0 ==> forall k :: 0 <= k < |rec.partners| ==> rec.partners[k] == ranked[k + 1].no
  {
    var anchor := if |ranked| > 0 then Some(ranked[0].no) else None;
    var window := Slice(ranked, 1, 1 + partnersWant);
    Recommendation(anchor, seq(|window|, i requires 0 <= i < |window| => window[i].no))
  }

  function Min(a: int, b: int): int
  {
    if a <= b then a else b
  }

  /** The printed outcome: anchor-[partners]-[partners], or a shortage. */
  datatype Ticket = Wheel(anchor: int, second: seq<int>, third: seq<int>) | Insufficient

  /** Python truthiness of the anchor: None and 0 both read as missing. */
  predicate Present(anchor: Option<int>)
  {
    anchor.Some? && anchor.value != 0
  }

  /** The ticket is a wheel exactly when the anchor is present and there is
      at least one partner; the partners fill both remaining places. A
      printed wheel is always well formed: a non-zero anchor and the same
      non-empty partner list in second and third place. */
  function FixedBet(rec: Recommendation): (t: Ticket)
    ensures t.Wheel? <==> Present(rec.anchor) && |rec.partners| > 0
    ensures t.Wheel? ==> t.anchor != 0 && |t.second| > 0 && t.second == t.third
    ensures t.Wheel? ==> rec.anchor == Some(t.anchor) && t.second == rec.partners
  {
    if Present(rec.anchor) && |rec.partners| > 0 then
      Wheel(rec.anchor.value, rec.partners, rec.partners)
    else Insufficient
  }

  /** Partners never include the anchor when the ranked numbers are
      distinct, whatever partner count is asked for. */
  lemma AnchorNotAPartner(ranked: seq<Ranked>, partnersWant: int)
    requires forall i, j :: 0 <= i < j < |ranked| ==> ranked[i].no != ranked[j].no
    ensures RecommendFixedBet(ranked, partnersWant).anchor.Some? ==>
      RecommendFixedBet(ranked, partnersWant).anchor.value !in RecommendFixedBet(ranked, partnersWant).partners
  {
    var rec := RecommendFixedBet(ranked, partnersWant);
    if partnersWant < 0 {
      NegativeCountCutsFromEnd(ranked, partnersWant);
    }
    if rec.anchor.Some? {
      forall k | 0 <= k < |rec.partners| ensures rec.partners[k] != rec.anchor.value {
        assert rec.partners[k] == ranked[k + 1].no;
      }
    }
  }

  /** Fewer than two ranked riders always give the insufficient outcome,
      whatever partner count is asked for. */
  lemma SmallFieldInsufficient(ranked: seq<Ranked>, partnersWant: int)
    requires |ranked| < 2
    ensures FixedBet(RecommendFixedBet(ranked, partnersWant)) == Insufficient
  {
  }

  /** With positive rider numbers and at least one partner wanted, the bet
      is printed exactly when at least two riders are ranked. */
  lemma WheelIffTwoRiders(ranked: seq<Ranked>, partnersWant: int)
    requires forall i :: 0 <= i < |ranked| ==> ranked[i].no >= 1
    requires partnersWant >= 1
    ensures FixedBet(RecommendFixedBet(ranked, partnersWant)).Wheel? <==> |ranked| >= 2
  {
    var rec := RecommendFixedBet(ranked, partnersWant);
    if |ranked| >= 2 {
      assert |rec.partners| >= 1;
    } else {
      SmallFieldInsufficient(ranked, partnersWant);
    }
  }

  /** A partner count of -1 asks for nothing; one of -2 or less makes the
      slice stop count from the end, dropping that many riders from the
      tail of the ranking after the anchor. */
  lemma NegativeCountCutsFromEnd(ranked: seq<Ranked>, partnersWant: int)
    requires partnersWant < 0
    ensures partnersWant == -1 ==> RecommendFixedBet(ranked, partnersWant).partners == []
    ensures partnersWant <= -2 ==>
      |RecommendFixedBet(ranked, partnersWant).partners| == (if |ranked| + partnersWant > 0 then |ranked| + partnersWant else 0)
    ensures forall k :: 0 <= k < |RecommendFixedBet(ranked, partnersWant).partners| ==>
      RecommendFixedBet(ranked, partnersWant).partners[k] == ranked[k + 1].no
  {
    var window := Slice(ranked, 1, 1 + partnersWant);
    var a := SliceIndex(1, |ranked|);
    var b := SliceIndex(1 + partnersWant, |ranked|);
    if a < b {
      assert window == ranked[a..b];
      assert a == 1;
    }
  }

  /** Five ranked riders A..E and the default four partners give the wheel
      A-[B,C,D,E]-[B,C,D,E]. */
  lemma FiveRiderWheel(ranked: seq<Ranked>)
    requires |ranked| == 5
    requires forall i :: 0 <= i < |ranked| ==> ranked[i].no >= 1
    ensures FixedBet(RecommendFixedBet(ranked, DEFAULT_PARTNERS)) ==
      Wheel(ranked[0].no,
            [ranked[1].no, ranked[2].no, ranked[3].no, ranked[4].no],
            [ranked[1].no, ranked[2].no, ranked[3].no, ranked[4].no])
  {
    var rec := RecommendFixedBet(ranked, DEFAULT_PARTNERS);
    assert |rec.partners| == 4;
    assert rec.partners == [ranked[1].no, ranked[2].no, ranked[3].no, ranked[4].no];
  }
}
