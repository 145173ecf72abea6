/** Constant tables of the predictor and the two input records. */
module Settings {

  /** The ranking marks, best first. */
  const MARKS: seq<string> := ["◎", "〇", "▲", "△", "×", "α", "β", "γ"]

  /** How a venue bends the weights: wet-aptitude multiplier, start-timing
      multiplier, and the extra wet multiplier added on a wet night. */
  datatype VenueProfile = VenueProfile(wetBoost: real, stBoost: real, nightWetExtra: real)

  const VENUE: map<string, VenueProfile> := map[
    "川口" := VenueProfile(1.20, 1.00, 0.05),
    "飯塚" := VenueProfile(1.20, 1.00, 0.05),
    "伊勢崎" := VenueProfile(0.85, 1.00, 0.00),
    "山陽" := VenueProfile(1.00, 1.10, 0.00),
    "浜松" := VenueProfile(0.95, 1.05, 0.00)
  ]

  /** The profile used for a venue missing from VENUE. */
  const NEUTRAL := VenueProfile(1.0, 1.0, 0.0)

  /** Base weights of the five components and of the home bonus. */
  datatype Weights = Weights(handicap: real, st: real, raceT: real, recent2: real, cond: real, home: real)

  const W := Weights(0.90, 1.10, 1.10, 0.90, 0.90, 1.00)

  /** Home bonus in standard-score points. */
  const HOME_BONUS_HEN: real := 2.0

  /** Number of partners wanted by default. */
  const DEFAULT_PARTNERS: int := 4

  /** One entrant: number, name, home track, handicap in metres, average
      start timing, average race time, and the three top-two rates. */
  datatype Rider = Rider(
    no: int,
    name: string,
    home: string,
    handicapM: int,
    avgSt: real,
    avgRaceT: real,
    top2Of10: real,
    good2: real,
    wet2: real)

  /** Race conditions: track surface as typed, venue name, night session. */
  datatype Conditions = Conditions(track: string, venue: string, isNight: bool)

  /** ASCII lower-casing. Only the comparison with "wet" uses it, and no
      character outside ASCII lower-cases to 'w', 'e' or 't'. */
  function Lower(s: string): (r: string)
    ensures |r| == |s|
    ensures forall i :: 0 <= i < |s| ==> ('A' <= s[i] <= 'Z' ==> r[i] == s[i] - 'A' + 'a')
    ensures forall i :: 0 <= i < |s| ==> (!('A' <= s[i] <= 'Z') ==> r[i] == s[i])
  {
    if |s| == 0 then []
    else [if 'A' <= s[0] <= 'Z' then s[0] - 'A' + 'a' else s[0]] + Lower(s[1..])
  }

  /** The track counts as wet when it reads "wet" in any letter case. */
  predicate IsWet(track: string)
  {
    Lower(track) == "wet"
  }

  /** Every venue in the table has positive multipliers and a non-negative
      night increment. */
  lemma VenueTablePositive(v: string)
    requires v in VENUE
    ensures VENUE[v].wetBoost > 0.0 && VENUE[v].stBoost > 0.0 && VENUE[v].nightWetExtra >= 0.0
  {
  }

  lemma WetSpellings()
    ensures IsWet("wet") && IsWet("WET") && IsWet("Wet")
    ensures !IsWet("dry") && !IsWet("") && !IsWet("wet ")
  {
    assert Lower("WET") == "wet";
    assert Lower("Wet") == "wet";
  }
}
