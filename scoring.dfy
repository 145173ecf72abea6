/** Composite scores: five standardised components weighted by the base
    weights and the venue/weather multipliers, plus the home bonus. */
module Scoring {
  import opened Settings
  import opened Standardizer

  /** The profile of a venue, or the neutral one for an unknown venue. */
  function Profile(venue: string): (p: VenueProfile)
    ensures p.wetBoost > 0.0 && p.stBoost > 0.0 && p.nightWetExtra >= 0.0
    ensures venue !in VENUE ==> p == VenueProfile(1.0, 1.0, 0.0)
  {
    if venue in VENUE then
      VenueTablePositive(venue);
      VENUE[venue]
    else NEUTRAL
  }

  /** Wet multiplier in force: the venue's, raised by its night increment
      on a wet night. */
  function WetMultiplier(cond: Conditions): (m: real)
    ensures m > 0.0 && m >= Profile(cond.venue).wetBoost
  {
    var p := Profile(cond.venue);
    p.wetBoost + (if cond.isNight && IsWet(cond.track) then p.nightWetExtra else 0.0)
  }

  /** Weight of the start-timing component. */
  function StWeight(cond: Conditions): (w: real)
    ensures w > 0.0
  {
    W.st * Profile(cond.venue).stBoost
  }

  /** Weight of the surface-aptitude component; the wet multiplier applies
      only on a wet track. */
  function CondWeight(cond: Conditions): (w: real)
    ensures w > 0.0
  {
    W.cond * (if IsWet(cond.track) then WetMultiplier(cond) else 1.0)
  }

  /** The five components, each oriented so that larger is better. */
  datatype Factor = Handicap | StartTiming | RaceTime | Recent | Surface

  /** One rider's value of a component before standardising. */
  function Oriented(r: Rider, f: Factor, cond: Conditions): real
  {
    match f
    case Handicap => -(r.handicapM as real)
    case StartTiming => -r.avgSt
    case RaceTime => -r.avgRaceT
    case Recent => r.top2Of10
    case Surface => if IsWet(cond.track) then r.wet2 else r.good2
  }

  /** A component across the whole field, in rider order. */
  function Column(riders: seq<Rider>, f: Factor, cond: Conditions): (col: seq<real>)
    ensures |col| == |riders|
  {
    seq(|riders|, i requires 0 <= i < |riders| => Oriented(riders[i], f, cond))
  }

  /** One rider's five standard scores. */
  datatype Components = Components(hand: real, st: real, time: real, recent: real, surface: real)

  function Get(h: Components, f: Factor): real
  {
    match f
    case Handicap => h.hand
    case StartTiming => h.st
    case RaceTime => h.time
    case Recent => h.recent
    case Surface => h.surface
  }

  /** The five weights in force under the given conditions, held in a
      Components value so that each weight sits beside its component. */
  function WeightVector(cond: Conditions): (w: Components)
    ensures forall f: Factor :: Get(w, f) > 0.0
  {
    Components(W.handicap, StWeight(cond), W.raceT, W.recent2, CondWeight(cond))
  }

  /** Sum of the componentwise products. */
  function Dot(w: Components, h: Components): real
  {
    w.hand * h.hand + w.st * h.st + w.time * h.time + w.recent * h.recent + w.surface * h.surface
  }

  /** The weighted sum of the five standard scores. */
  function Weighted(h: Components, cond: Conditions): real
  {
    Dot(WeightVector(cond), h)
  }

  /** The home bonus in score points. */
  function HomeBonus(): (b: real)
    ensures b == 2.0
  {
    W.home * HOME_BONUS_HEN
  }

  /** A rider's score: the weighted sum, plus the home bonus at home. */
  function Composite(h: Components, atHome: bool, cond: Conditions): real
  {
    Weighted(h, cond) + (if atHome then HomeBonus() else 0.0)
  }

  function Standardised(riders: seq<Rider>, cond: Conditions, sqrt: real -> real, i: int): Components
    requires PositiveOnPositive(sqrt)
    requires 0 <= i < |riders|
  {
    Components(
      Hensachi(Column(riders, Handicap, cond), sqrt)[i],
      Hensachi(Column(riders, StartTiming, cond), sqrt)[i],
      Hensachi(Column(riders, RaceTime, cond), sqrt)[i],
      Hensachi(Column(riders, Recent, cond), sqrt)[i],
      Hensachi(Column(riders, Surface, cond), sqrt)[i])
  }

  /** The score of the rider at position i of the field. */
  function RiderScore(riders: seq<Rider>, cond: Conditions, sqrt: real -> real, i: int): real
    requires PositiveOnPositive(sqrt)
    requires 0 <= i < |riders|
  {
    Composite(Standardised(riders, cond, sqrt, i), riders[i].home == cond.venue, cond)
  }

  predicate UniqueNumbers(riders: seq<Rider>)
  {
    forall i, j :: 0 <= i < j < |riders| ==> riders[i].no != riders[j].no
  }

  /** The score table: (number, score) in rider order. */
  function ScoreTable(riders: seq<Rider>, cond: Conditions, sqrt: real -> real): (t: seq<(int, real)>)
    requires PositiveOnPositive(sqrt)
    ensures |t| == |riders|
  {
    seq(|riders|, i requires 0 <= i < |riders| => (riders[i].no, RiderScore(riders, cond, sqrt, i)))
  }

  /** The score expression of the source for one rider's five standard
      scores, given the two venue-dependent weights and the home flag. */
  function ScoreExpr(hand: real, st: real, time: real, recent: real, surface: real,
                     stWeight: real, condWeight: real, atHome: bool): real
  {
    W.handicap * hand + stWeight * st + W.raceT * time + W.recent2 * recent
      + condWeight * surface + (if atHome then W.home * HOME_BONUS_HEN else 0.0)
  }

  /** The composite score is the source's score expression with the
      weights in force. */
  lemma CompositeExpanded(h: Components, atHome: bool, cond: Conditions)
    ensures Composite(h, atHome, cond) ==
      ScoreExpr(h.hand, h.st, h.time, h.recent, h.surface, StWeight(cond), CondWeight(cond), atHome)
  {
  }

  /** A table built from the five columns by the score expression is the
      score table. */
  lemma TableFromColumns(riders: seq<Rider>, cond: Conditions, sqrt: real -> real,
                         hHand: seq<real>, hSt: seq<real>, hTime: seq<real>, hRec: seq<real>, hCond: seq<real>,
                         scores: seq<(int, real)>)
    requires PositiveOnPositive(sqrt)
    requires hHand == Hensachi(Column(riders, Handicap, cond), sqrt)
    requires hSt == Hensachi(Column(riders, StartTiming, cond), sqrt)
    requires hTime == Hensachi(Column(riders, RaceTime, cond), sqrt)
    requires hRec == Hensachi(Column(riders, Recent, cond), sqrt)
    requires hCond == Hensachi(Column(riders, Surface, cond), sqrt)
    requires |scores| == |riders|
    requires forall k :: 0 <= k < |riders| ==>
      scores[k] == (riders[k].no, ScoreExpr(hHand[k], hSt[k], hTime[k], hRec[k], hCond[k],
                                            StWeight(cond), CondWeight(cond), riders[k].home == cond.venue))
    ensures scores == ScoreTable(riders, cond, sqrt)
  {
    var t := ScoreTable(riders, cond, sqrt);
    forall k | 0 <= k < |riders| ensures scores[k] == t[k] {
      var h := Components(hHand[k], hSt[k], hTime[k], hRec[k], hCond[k]);
      assert Standardised(riders, cond, sqrt, k) == h;
      CompositeExpanded(h, riders[k].home == cond.venue, cond);
    }
  }

  /** The loop of the scorer: each rider's five standard scores weighed by
      the source's expression, plus the home bonus when the rider's home is
      the venue, appended in rider order. */
  method WeighField(riders: seq<Rider>, venue: string,
                    hHand: seq<real>, hSt: seq<real>, hTime: seq<real>, hRec: seq<real>, hCond: seq<real>,
                    stWeight: real, condWeight: real)
    returns (scores: seq<(int, real)>)
    requires |hHand| == |riders| && |hSt| == |riders| && |hTime| == |riders|
    requires |hRec| == |riders| && |hCond| == |riders|
    ensures |scores| == |riders|
    ensures forall k :: 0 <= k < |riders| ==>
      scores[k] == (riders[k].no, ScoreExpr(hHand[k], hSt[k], hTime[k], hRec[k], hCond[k],
                                            stWeight, condWeight, riders[k].home == venue))
  {
    scores := [];
    var i := 0;
    while i < |riders|
      invariant 0 <= i <= |riders|
      invariant |scores| == i
      invariant forall k :: 0 <= k < i ==>
        scores[k] == (riders[k].no, ScoreExpr(hHand[k], hSt[k], hTime[k], hRec[k], hCond[k],
                                              stWeight, condWeight, riders[k].home == venue))
    {
      var r := riders[i];
      var s := W.handicap * hHand[i] + stWeight * hSt[i] + W.raceT * hTime[i]
        + W.recent2 * hRec[i] + condWeight * hCond[i];
      if r.home == venue {
        s := s + W.home * HOME_BONUS_HEN;
      }
      assert s == ScoreExpr(hHand[i], hSt[i], hTime[i], hRec[i], hCond[i], stWeight, condWeight, r.home == venue);
      scores := scores + [(r.no, s)];
      i := i + 1;
    }
  }

  /** Scores every rider of the field; the pairs come out in rider order,
      each carrying the rider's number and composite score. */
  method ScoreRiders(riders: seq<Rider>, cond: Conditions, sqrt: real -> real)
    returns (scores: seq<(int, real)>)
    requires PositiveOnPositive(sqrt)
    requires UniqueNumbers(riders)
    ensures scores == ScoreTable(riders, cond, sqrt)
  {
    var p := Profile(cond.venue);
    var wetMul := p.wetBoost;
    var stMul := p.stBoost;
    var wet := IsWet(cond.track);
    if cond.isNight && wet {
      wetMul := wetMul + p.nightWetExtra;
    }

    var hHand := Hensachi(Column(riders, Handicap, cond), sqrt);
    var hSt := Hensachi(Column(riders, StartTiming, cond), sqrt);
    var hTime := Hensachi(Column(riders, RaceTime, cond), sqrt);
    var hRec := Hensachi(Column(riders, Recent, cond), sqrt);
    var hCond := Hensachi(Column(riders, Surface, cond), sqrt);

    var stWeight := W.st * stMul;
    var condWeight := W.cond * (if wet then wetMul else 1.0);
    assert wetMul == WetMultiplier(cond);
    assert stWeight == StWeight(cond) && condWeight == CondWeight(cond);

    scores := WeighField(riders, cond.venue, hHand, hSt, hTime, hRec, hCond, stWeight, condWeight);
    TableFromColumns(riders, cond, sqrt, hHand, hSt, hTime, hRec, hCond, scores);
  }

  // ---------------------------------------------------------------------
  // Properties of the weights

  /** An unknown venue gives neutral multipliers: the start-timing and
      surface weights are the base weights, by day or night. */
  lemma UnknownVenueNeutral(cond: Conditions)
    requires cond.venue !in VENUE
    ensures WetMultiplier(cond) == 1.0
    ensures StWeight(cond) == W.st
    ensures CondWeight(cond) == W.cond
  {
  }

  /** The night increment reaches the wet multiplier only on a wet track:
      at night on a wet track it is added once, otherwise night and day agree. */
  lemma NightIncrementOnlyWhenWet(track: string, venue: string)
    ensures IsWet(track) ==>
      WetMultiplier(Conditions(track, venue, true))
        == WetMultiplier(Conditions(track, venue, false)) + Profile(venue).nightWetExtra
    ensures !IsWet(track) ==>
      WetMultiplier(Conditions(track, venue, true)) == WetMultiplier(Conditions(track, venue, false))
    ensures WetMultiplier(Conditions(track, venue, false)) == Profile(venue).wetBoost
  {
  }

  /** On a dry track the surface component reads the dry rate and carries
      the base weight, whatever the venue and session; on a wet track it
      reads the wet rate and is scaled by the wet multiplier. */
  lemma SurfaceFollowsTrack(r: Rider, cond: Conditions)
    ensures !IsWet(cond.track) ==> Oriented(r, Surface, cond) == r.good2 && CondWeight(cond) == W.cond
    ensures IsWet(cond.track) ==>
      Oriented(r, Surface, cond) == r.wet2 && CondWeight(cond) == W.cond * WetMultiplier(cond)
  {
  }

  /** At a venue whose wet multiplier exceeds 1, the surface weight on a
      wet track is strictly larger than on a dry one. */
  lemma WetOutweighsDry(venue: string, isNight: bool, wetTrack: string, dryTrack: string)
    requires Profile(venue).wetBoost > 1.0
    requires IsWet(wetTrack) && !IsWet(dryTrack)
    ensures CondWeight(Conditions(wetTrack, venue, isNight)) > CondWeight(Conditions(dryTrack, venue, isNight))
  {
    var m := WetMultiplier(Conditions(wetTrack, venue, isNight));
    assert m > 1.0;
    assert W.cond * m > W.cond * 1.0;
  }

  // ---------------------------------------------------------------------
  // Properties of the composite score

  /** A rider at home scores exactly the home bonus (2 points) more than
      the same components away; nothing else changes. */
  lemma HomeBonusExact(h: Components, cond: Conditions)
    ensures Composite(h, true, cond) == Composite(h, false, cond) + W.home * HOME_BONUS_HEN
    ensures Composite(h, true, cond) - Composite(h, false, cond) == 2.0
  {
  }

  predicate OnlyDiffersAt(h: Components, h': Components, f: Factor)
  {
    forall g: Factor :: g != f ==> Get(h', g) == Get(h, g)
  }

  lemma MulMonotone(w: real, x: real, y: real)
    requires w > 0.0
    ensures x <= y ==> w * x <= w * y
    ensures x < y ==> w * x < w * y
  {
    if x < y {
      assert w * (y - x) > 0.0;
    }
  }

  /** With positive weights, raising one component and keeping the others
      raises the dot product, strictly when the raise is strict. */
  lemma DotMonotone(w: Components, h: Components, h': Components, f: Factor)
    requires forall g: Factor :: Get(w, g) > 0.0
    requires OnlyDiffersAt(h, h', f)
    ensures Get(h, f) <= Get(h', f) ==> Dot(w, h) <= Dot(w, h')
    ensures Get(h, f) < Get(h', f) ==> Dot(w, h) < Dot(w, h')
  {
    assert Get(w, f) > 0.0;
    MulMonotone(Get(w, f), Get(h, f), Get(h', f));
    assert Get(h', Handicap) == h'.hand && Get(h', StartTiming) == h'.st && Get(h', RaceTime) == h'.time;
    assert Get(h', Recent) == h'.recent && Get(h', Surface) == h'.surface;
    match f
    case Handicap =>
      assert h' == h.(hand := h'.hand);
    case StartTiming =>
      assert h' == h.(st := h'.st);
    case RaceTime =>
      assert h' == h.(time := h'.time);
    case Recent =>
      assert h' == h.(recent := h'.recent);
    case Surface =>
      assert h' == h.(surface := h'.surface);
  }

  /** Raising one standard score while the others stay fixed never lowers
      the composite, and raising it strictly raises the composite strictly,
      because every weight is positive. */
  lemma CompositeMonotone(h: Components, h': Components, f: Factor, atHome: bool, cond: Conditions)
    requires OnlyDiffersAt(h, h', f)
    ensures Get(h, f) <= Get(h', f) ==> Composite(h, atHome, cond) <= Composite(h', atHome, cond)
    ensures Get(h, f) < Get(h', f) ==> Composite(h, atHome, cond) < Composite(h', atHome, cond)
  {
    DotMonotone(WeightVector(cond), h, h', f);
  }

  /** Rider i dominates rider j when every oriented raw value of i is at
      least j's. */
  predicate Dominates(ri: Rider, rj: Rider, cond: Conditions)
  {
    forall f: Factor :: Oriented(rj, f, cond) <= Oriented(ri, f, cond)
  }

  /** Standardising each column keeps a dominating rider ahead on every
      standard score. */
  lemma StandardisedDominates(riders: seq<Rider>, cond: Conditions, sqrt: real -> real, i: int, j: int)
    requires PositiveOnPositive(sqrt)
    requires 0 <= i < |riders| && 0 <= j < |riders|
    requires Dominates(riders[i], riders[j], cond)
    ensures forall f: Factor ::
      Get(Standardised(riders, cond, sqrt, j), f) <= Get(Standardised(riders, cond, sqrt, i), f)
  {
    forall f: Factor
      ensures Get(Standardised(riders, cond, sqrt, j), f) <= Get(Standardised(riders, cond, sqrt, i), f)
    {
      var col := Column(riders, f, cond);
      assert col[i] == Oriented(riders[i], f, cond) && col[j] == Oriented(riders[j], f, cond);
      HensachiOrder(col, sqrt, j, i);
      assert Get(Standardised(riders, cond, sqrt, i), f) == Hensachi(col, sqrt)[i];
      assert Get(Standardised(riders, cond, sqrt, j), f) == Hensachi(col, sqrt)[j];
    }
  }

  /** A composite no lower on every component, at home whenever the other
      is, scores at least as much. */
  lemma ComponentwiseMonotone(lo: Components, hi: Components, homeLo: bool, homeHi: bool, cond: Conditions)
    requires forall f: Factor :: Get(lo, f) <= Get(hi, f)
    requires homeLo ==> homeHi
    ensures Composite(lo, homeLo, cond) <= Composite(hi, homeHi, cond)
  {
    var h1 := Components(hi.hand, lo.st, lo.time, lo.recent, lo.surface);
    var h2 := Components(hi.hand, hi.st, lo.time, lo.recent, lo.surface);
    var h3 := Components(hi.hand, hi.st, hi.time, lo.recent, lo.surface);
    var h4 := Components(hi.hand, hi.st, hi.time, hi.recent, lo.surface);
    assert Get(lo, Handicap) <= Get(hi, Handicap) && Get(lo, StartTiming) <= Get(hi, StartTiming);
    assert Get(lo, RaceTime) <= Get(hi, RaceTime) && Get(lo, Recent) <= Get(hi, Recent);
    assert Get(lo, Surface) <= Get(hi, Surface);
    CompositeMonotone(lo, h1, Handicap, homeLo, cond);
    CompositeMonotone(h1, h2, StartTiming, homeLo, cond);
    CompositeMonotone(h2, h3, RaceTime, homeLo, cond);
    CompositeMonotone(h3, h4, Recent, homeLo, cond);
    CompositeMonotone(h4, hi, Surface, homeLo, cond);
    HomeBonusExact(hi, cond);
  }

  /** Within one field, a rider who is at least as good on every raw
      component, and at home whenever the other is, scores at least as much. */
  lemma DominantRiderScoresHigher(riders: seq<Rider>, cond: Conditions, sqrt: real -> real, i: int, j: int)
    requires PositiveOnPositive(sqrt)
    requires 0 <= i < |riders| && 0 <= j < |riders|
    requires Dominates(riders[i], riders[j], cond)
    requires riders[j].home == cond.venue ==> riders[i].home == cond.venue
    ensures RiderScore(riders, cond, sqrt, j) <= RiderScore(riders, cond, sqrt, i)
  {
    StandardisedDominates(riders, cond, sqrt, i, j);
    ComponentwiseMonotone(Standardised(riders, cond, sqrt, j), Standardised(riders, cond, sqrt, i),
                          riders[j].home == cond.venue, riders[i].home == cond.venue, cond);
  }

  /** Replacing rider i by one at least as good on every raw component
      moves each column of that rider up while the rest of the field stays
      fixed; no standard score of the rider drops. */
  lemma RaisedRiderStandardised(riders: seq<Rider>, cond: Conditions, sqrt: real -> real, i: int, r: Rider)
    requires IsSquareRoot(sqrt)
    requires 0 <= i < |riders|
    requires Dominates(r, riders[i], cond)
    ensures PositiveOnPositive(sqrt)
    ensures forall f: Factor ::
      Get(Standardised(riders, cond, sqrt, i), f) <= Get(Standardised(riders[i := r], cond, sqrt, i), f)
  {
    var raised := riders[i := r];
    forall f: Factor
      ensures Get(Standardised(riders, cond, sqrt, i), f) <= Get(Standardised(raised, cond, sqrt, i), f)
    {
      var col := Column(riders, f, cond);
      var x := Oriented(r, f, cond);
      assert Column(raised, f, cond) == col[i := x];
      assert col[i] == Oriented(riders[i], f, cond);
      HensachiRaiseOne(col, sqrt, i, x);
      assert Get(Standardised(riders, cond, sqrt, i), f) == Hensachi(col, sqrt)[i];
      assert Get(Standardised(raised, cond, sqrt, i), f) == Hensachi(col[i := x], sqrt)[i];
    }
  }

  /** A rider who improves on every raw component, with the rest of the
      field unchanged and the home venue the same, never scores less,
      although every column is standardised afresh around the new value. */
  lemma RaisedRiderScoresNoLess(riders: seq<Rider>, cond: Conditions, sqrt: real -> real, i: int, r: Rider)
    requires IsSquareRoot(sqrt)
    requires 0 <= i < |riders|
    requires Dominates(r, riders[i], cond)
    requires r.home == riders[i].home
    ensures PositiveOnPositive(sqrt)
    ensures RiderScore(riders, cond, sqrt, i) <= RiderScore(riders[i := r], cond, sqrt, i)
  {
    RaisedRiderStandardised(riders, cond, sqrt, i, r);
    ComponentwiseMonotone(Standardised(riders, cond, sqrt, i), Standardised(riders[i := r], cond, sqrt, i),
                          riders[i].home == cond.venue, r.home == cond.venue, cond);
  }
}
