# Velobi Auto pre-race predictor — scoring and bet recommendation

This project models the prediction core of the Velobi Auto pre-race app
(`7ktapp.py`), an auto-race (オートレース) helper. For one race the app
works in four steps:

- It reads each rider's handicap, start timing, race time, recent top-two
  rate and surface aptitudes.
- It turns every factor into a standard score (偏差値: 50 + 10·z, using
  the sample variance and a spread of 1 when the variance is 0).
- It combines the five standard scores with weights. The start-timing
  weight is bent by the venue. The surface weight is bent by the venue and
  by the weather, with an extra boost on a wet night. Riders at their home
  track get a fixed bonus.
- It ranks the riders by a stable descending sort and hands out the marks
  ◎〇▲△×αβγ. It then recommends the fixed bet: the top rider as anchor
  and the next P riders in both remaining places, or reports that the
  field is too small.

Modules, one file each:

- `Settings` (`settings.dfy`) holds the constant tables (`MARKS`, `VENUE`,
  `W`, `HOME_BONUS_HEN`, `DEFAULT_PARTNERS`), the rider and condition
  records, and the case-insensitive "wet" test.
- `Standardizer` (`standardizer.dfy`) holds `_z` and `_hensachi`, with the
  mean, variance, fallback-spread, order and flat-input facts.
- `Scoring` (`scoring.dfy`) holds `score_riders` as imperative code. The
  method `ScoreRiders` raises the wet multiplier in place on a wet night
  and standardises the five columns. Its loop over the riders is the
  method `WeighField`. Both are proved against the specification function
  `ScoreTable`. Lemmas cover the multipliers, the home bonus and
  monotonicity.
- `Ranking` (`ranking.dfy`) holds `rank_and_marks`. The stable sort is an
  insertion sort proved to permute, to order and to keep ties in table
  order.
- `Betting` (`betting.dfy`) holds `recommend_fixed_bet`, with Python slice
  semantics for `ranked[1:1+P]`, and the bet-or-shortage decision of
  `format_text_output`, with Python truthiness for `anchor and partners`.
- `Pipeline` (`pipeline.dfy`) chains score, rank and recommend as the app's
  main flow does.

Numbers are Dafny `real`. The square root is a parameter `sqrt` of the
standardising functions. It is required only to be positive on positive
input, and the unit-spread lemma also requires it to be an exact square
root.

## Model

| member | source | states |
|---|---|---|
| `Settings.Lower` | 7ktapp.py:91 | `str.lower()` on ASCII: same length; upper-case letters map to their lower-case letters, every other character is kept |
| `Settings.WetSpellings` | 7ktapp.py:91 | "wet", "WET" and "Wet" count as wet; "dry", "" and "wet " do not |
| `Settings.VenueTablePositive` | 7ktapp.py:30-36 | every venue in the table has positive wet and start-timing multipliers and a non-negative night increment |
| `Standardizer.SumSq` | 7ktapp.py:77 | the sum of squared deviations is never negative |
| `Standardizer.Variance` | 7ktapp.py:77 | the sample variance (n − 1 denominator, 0 for n ≤ 1) is never negative |
| `Standardizer.Spread` | 7ktapp.py:78 | the spread is always positive: sqrt of the variance when that is positive, else the fallback 1.0 |
| `Standardizer.Z` | 7ktapp.py:74-79 | `_z` returns one z-score per input value |
| `Standardizer.Hensachi` | 7ktapp.py:81-82 | `_hensachi` returns one standard score per input value |
| `Standardizer.ZAffine` | 7ktapp.py:74-79 | z-score i depends only on input i: it is (1/s)·x_i − m/s for the mean m and spread s of the whole list |
| `Standardizer.HensachiAt` | 7ktapp.py:81-82 | standard score i is 50 + 10 times z-score i |
| `Standardizer.ZMeanZero` | 7ktapp.py:74-79 | z-scores sum to 0 and have mean 0 |
| `Standardizer.HensachiMean` | 7ktapp.py:74-82 | standard scores of a non-empty list have mean exactly 50 |
| `Standardizer.HensachiUnitSpread` | 7ktapp.py:74-82 | with an exact square root and positive variance, z-scores have sample variance 1 and standard scores sample variance 100 |
| `Standardizer.HensachiFlat` | 7ktapp.py:76-79 | a list of at most one value, or of equal values, has variance 0, spread 1.0, and every standard score exactly 50 |
| `Standardizer.ZOrder` | 7ktapp.py:74-79 | z-scores keep the order of their inputs both ways, and ties stay ties |
| `Standardizer.HensachiOrder` | 7ktapp.py:74-82 | standardising keeps order both ways: input i ≤ input j iff output i ≤ output j, and likewise for equality |
| `Standardizer.CentredVariance` | 7ktapp.py:76-77 | for n ≥ 2 and u the distance of value i from the mean of the others, n·(x_i − mean) = (n − 1)·u and n·variance = n·A + u², where A depends on the other values only |
| `Standardizer.SpareNonNegative` | 7ktapp.py:76-77 | that share A of the other values is never negative |
| `Standardizer.RatioOrder` | 7ktapp.py:77-79 | for n·V = n·A + u² with A ≥ 0 and s a square root of V (the fallback 1 when V is 0), u/s never decreases as u grows |
| `Standardizer.ZRaiseOne` | 7ktapp.py:74-79 | with an exact square root, raising value i while the others stay fixed never lowers z-score i, although the mean and spread move with it |
| `Standardizer.HensachiRaiseOne` | 7ktapp.py:74-82 | with an exact square root, raising value i while the others stay fixed never lowers standard score i |
| `Scoring.Profile` | 7ktapp.py:88-90 | a venue's multipliers are positive and its night increment non-negative; an unknown venue gets (1.0, 1.0, 0.0) |
| `Scoring.WetMultiplier` | 7ktapp.py:89-92 | the wet multiplier in force is positive and at least the venue's wet boost |
| `Scoring.StWeight` | 7ktapp.py:109 | the start-timing weight is positive |
| `Scoring.CondWeight` | 7ktapp.py:110 | the surface weight is positive |
| `Scoring.WeightVector` | 7ktapp.py:39-46 | all five weights in force are positive, under any conditions |
| `Scoring.HomeBonus` | 7ktapp.py:45-47 | the home bonus is 2.0 score points |
| `Scoring.Column` | 7ktapp.py:95-99 | each oriented input column has one value per rider |
| `Scoring.ScoreTable` | 7ktapp.py:112-124 | the score table has one entry per rider |
| `Scoring.CompositeExpanded` | 7ktapp.py:109-122 | a rider's composite score is the source's expression: handicap, start-timing, race-time, recent and surface standard scores times their weights in force, plus the home bonus at home |
| `Scoring.WeighField` | 7ktapp.py:112-123 | the scoring loop yields one pair per rider, in rider order: the rider's number and the weighted sum of its five standard scores, plus 2 points when its home is the venue |
| `Scoring.TableFromColumns` | 7ktapp.py:102-123 | pairs weighed from the five standardised columns with the weights in force form exactly the score table |
| `Scoring.ScoreRiders` | 7ktapp.py:87-124 | the scorer, which raises the wet multiplier in place on a wet night, standardises the five columns and runs the loop, returns exactly the score table: rider i's number with rider i's composite score, in rider order |
| `Scoring.UnknownVenueNeutral` | 7ktapp.py:88 | at an unknown venue the wet multiplier is 1 and the start-timing and surface weights are the base weights |
| `Scoring.NightIncrementOnlyWhenWet` | 7ktapp.py:89-92 | the night increment is added once, and only at night on a wet track; otherwise night and day agree |
| `Scoring.SurfaceFollowsTrack` | 7ktapp.py:99-110 | on a dry track the surface input is `good2` with the base weight; on a wet track it is `wet2` with the weight scaled by the wet multiplier |
| `Scoring.WetOutweighsDry` | 7ktapp.py:110 | at a venue with wet boost above 1 the surface weight is strictly larger on a wet track than on a dry one |
| `Scoring.HomeBonusExact` | 7ktapp.py:121-123 | at home the composite is exactly 2.0 above the same components away; nothing else changes |
| `Scoring.DotMonotone` | 7ktapp.py:113-120 | with positive weights, raising one component and keeping the rest raises the weighted sum, strictly when the raise is strict |
| `Scoring.CompositeMonotone` | 7ktapp.py:109-123 | every weight in force is positive (the base weights and the table multipliers), so raising one standard score with the others fixed never lowers the composite, and a strict raise raises it strictly |
| `Scoring.StandardisedDominates` | 7ktapp.py:94-106 | a rider at least as good on every oriented raw factor is at least as good on every standard score |
| `Scoring.ComponentwiseMonotone` | 7ktapp.py:113-123 | a composite no lower on every component, at home whenever the other is, scores at least as much |
| `Scoring.DominantRiderScoresHigher` | 7ktapp.py:94-123 | a rider at least as good on every raw factor, and at home whenever the other is, scores at least as much |
| `Scoring.RaisedRiderStandardised` | 7ktapp.py:94-106 | with an exact square root, replacing rider i by one at least as good on every oriented raw factor, the rest of the field fixed, lowers none of rider i's standard scores |
| `Scoring.RaisedRiderScoresNoLess` | 7ktapp.py:87-124 | with an exact square root, a rider who improves on every raw factor (one factor alone included), with the rest of the field and the home venue unchanged, never scores less, although every column is standardised again |
| `Ranking.InsertDesc` | 7ktapp.py:127 | one insertion step grows the list by one and puts either the new entry or the old head in front |
| `Ranking.InsertPermutes` | 7ktapp.py:127 | an insertion step adds exactly the new entry to the multiset |
| `Ranking.InsertSorted` | 7ktapp.py:127 | an insertion step keeps a descending list descending |
| `Ranking.SortDesc` | 7ktapp.py:127 | the sort is a permutation of its input and its scores do not increase |
| `Ranking.InsertKeepsTies` | 7ktapp.py:127 | an insertion step puts the new entry ahead of the entries it ties with |
| `Ranking.SortIsStable` | 7ktapp.py:127 | for every score, the entries with that score keep their order through the sort |
| `Ranking.MarkAt` | 7ktapp.py:128 | a position gets a mark exactly when it is among the first `len(MARKS)` places, and every mark given is one of `MARKS` |
| `Ranking.MarksDistinct` | 7ktapp.py:128 | two different marked positions never share a mark |
| `Ranking.MarkedPlaces` | 7ktapp.py:126-128 | there are eight marks; in any ranking exactly the first eight lines are marked, line i with `MARKS[i]`, and no two marked lines share a mark |
| `Ranking.RankAndMarks` | 7ktapp.py:126-128 | the ranking has one line per entry, is a permutation of the table, has non-increasing scores, and line i carries mark i |
| `Ranking.RankedEntriesAreSorted` | 7ktapp.py:127-128 | the ranking lists the stably sorted table |
| `Ranking.RankingIsStable` | 7ktapp.py:127 | tied riders keep their table (rider) order in the ranking |
| `Ranking.TopIsMaximal` | 7ktapp.py:127 | the top line's score is at least every table entry's score |
| `Ranking.RankingKeepsNumbersDistinct` | 7ktapp.py:126-128 | distinct numbers in the table stay distinct in the ranking |
| `Ranking.TieExample` | 7ktapp.py:126-128 | the table {1: 10.5, 2: 20.1, 3: 5.0, 4: 20.1} ranks as 2, 4, 1, 3 |
| `Betting.SliceIndex` | 7ktapp.py:133 | a slice bound is normalised as Python does: a negative bound counts from the end, then the bound is clamped to [0, n] |
| `Betting.Slice` | 7ktapp.py:133 | a slice is never longer than the list |
| `Betting.RecommendFixedBet` | 7ktapp.py:130-134 | the anchor is the top-ranked number, or none for an empty ranking; for P ≥ 0 the partners are the next min(P, n − 1) numbers, in rank order |
| `Betting.NegativeCountCutsFromEnd` | 7ktapp.py:133 | P = −1 gives no partners; P ≤ −2 gives the ranking after the anchor without its last −P − 1 lines |
| `Betting.FixedBet` | 7ktapp.py:145-150 | a wheel is printed exactly when the anchor is truthy (present and non-zero) and there is a partner, otherwise "insufficient field"; a printed wheel is well formed: its anchor is the recommended non-zero anchor and its second and third places are both the same non-empty partner list |
| `Betting.AnchorNotAPartner` | 7ktapp.py:130-134 | with distinct numbers the anchor is never among the partners, whatever partner count P is asked for, negative ones included |
| `Betting.SmallFieldInsufficient` | 7ktapp.py:130-150 | fewer than two ranked riders always give "insufficient field", whatever P is |
| `Betting.WheelIffTwoRiders` | 7ktapp.py:130-150 | with positive numbers and P ≥ 1, the wheel is printed if and only if at least two riders are ranked |
| `Betting.FiveRiderWheel` | 7ktapp.py:130-150 | five ranked riders and the default partner count `DEFAULT_PARTNERS` = 4 give A-[B,C,D,E]-[B,C,D,E] |
| `Pipeline.RankField` | 7ktapp.py:233-234 | the ranking of a field has one line per rider |
| `Pipeline.RankedLineFromField` | 7ktapp.py:233-234 | every ranked line is the number and score of some rider of the field |
| `Pipeline.AnchorIsTopScorer` | 7ktapp.py:233-235 | the anchor of a non-empty field is a rider whom no other rider outscores |
| `Pipeline.FieldOfTwoGetsWheel` | 7ktapp.py:233-235 | two or more riders with distinct positive numbers and P ≥ 1 always give the wheel, with min(P, n − 1) partners, none of them the anchor |

## Left out

- The Streamlit interface (page setup, sidebar controls, the data editor, the display-only recomputation of components, warnings and `st.stop()`) is presentation, not computation.
- The DataFrame-to-`Rider` conversion and its error handling depend on pandas, a foreign library; the model starts from a list of `Rider` records.
- Floating-point rounding and `math.sqrt`: numbers are exact reals, and the square root is a parameter assumed positive on positive input; its exact value matters only to `Standardizer.HensachiUnitSpread`, `Standardizer.ZRaiseOne`, `Standardizer.HensachiRaiseOne` and the `Scoring.RaisedRider…` lemmas, which require an exact square root. The exact-real facts need not hold bit for bit in floats. `Standardizer.HensachiFlat`'s "exactly 50" is one example: in binary floating point the mean of three copies of 0.1 differs from 0.1 in its last bit, so the float variance is tiny but positive and all three scores come out near 41.84 instead of 50. They stay equal, so the ranking is unchanged. The model makes no claim about float results.
- The text layout of `format_text_output` (separator lines, header, `{sc:7.2f}` formatting, the line-appending loop): only its bet-or-shortage branch is modelled, as `Betting.FixedBet`.
- `Scoring.ScoreRiders`: requires distinct rider numbers. With duplicates the source's dict keeps one entry per number, in first-insertion position with the last score; that overwrite is not modelled.
- `Settings.Lower`: lower-cases ASCII letters only. Python's `str.lower()` also lower-cases other scripts, but no non-ASCII character lower-cases to the letters of "wet", so the wet test is unaffected.
- The score table is a sequence of (number, score) pairs in rider order rather than a dict. Python dicts keep insertion order, and that order is what the stable sort sees.
- Python's sort algorithm (Timsort) is not modelled, only its result: a stable descending order. Any stable sort gives that same order.
- The interface restricts the partner count to 2..6 and rider numbers to 1..99. The model takes any integer for both and follows Python's slice and truthiness rules for the cases the interface excludes.
