# Odds Apex golf tools — a Dafny model of the core

The repository consists of two small desktop scripts for in-play golf betting:

- `model.py` turns a golfer's form figures and live situation into a single report line. The report gives a heuristic score, a final win probability, the probability the market implies, the edge, fair odds, the live odds and the EV of backing.
  - The final probability blends a logistic calibration of the heuristic score (floored at 2%) with a Monte Carlo estimate of winning from the current deficit.
- `output.py` reads such report lines back and recommends lays.
  - It keeps each golfer whose model probability is below the probability the live odds imply.
  - It sizes each lay at a quarter of the Kelly fraction, with the liability capped at 10% of the bankroll.
  - It lists the lays by lay EV, best first.

This project models that core:

- `market.dfy` (module `Market`): the betting arithmetic both scripts share.
- `text.dfy` (module `Text`): Python whitespace, `str.strip()`, digit runs and decimal numerals.
- `record.dfy` (module `Record`): the two regular expressions of the lay pass, `re.search`, and the parsing of one pasted line.
- `lays.dfy` (module `LayStaking`): `calculate_lays`. It is an imperative method whose loop keeps the collected lays equal to a specification function. The loop body is split into two methods, `LayFor` and `SizeLay`. Each `continue` of the source is a `return None` there. The sort is a stable sort by lay EV.
- `simulation.dfy` (module `Simulation`): the counting loop of `simulate_win_prob`. The trials' standard-normal deviates are supplied.
- `scoring.dfy` (module `Scoring`): the arithmetic of `calculate_score` as functions, plus a method that runs the simulation and assembles the report.

Prices, probabilities and scores are exact reals.

Two points of behaviour worth stating directly:

- Trailing by more shots lowers the final probability only non-strictly. The score is clipped at 0 (`Scoring.ClipAbsorbsDeficit`), the model probability is floored at 2%, and the simulated win count is an integer count over the same draws. `Scoring.FinalProbabilityAntitoneInDeficit` proves the non-strict version.
- The live odds are divided by without a guard (model.py:143). The only input that fails there is zero, so `CalculateScore` requires `liveOdds != 0`. Negative odds pass through as in the source.

## Model

| member | source | states |
|---|---|---|
| Text.IsSpace | output.py:28-33 | exactly the code points Python's `str.isspace()` accepts, which are also what `\s` matches in a `str` pattern; no digit is one (DigitNotSpace) |
| Text.IsDigit | output.py:32-33 | the character class `[0-9]`: the ten ASCII digits |
| Text.Span | output.py:32-33 | a greedy `\s*` or `[0-9]+` run: the input is the longest prefix in the class followed by a rest that does not start with one |
| Text.Strip | output.py:28-29 | `str.strip()`: the input is leading whitespace, the result and trailing whitespace, and the result neither starts nor ends with whitespace |
| Text.TrimEnd | output.py:28-29 | the trailing-whitespace half of `str.strip()`: a prefix of the input, the removed tail all whitespace, and the result empty or ending in a non-space |
| Text.IndexOf | output.py:27 | where `split` on the first bar cuts: the first occurrence of the character |
| Text.NatOf | output.py:37-38 | the value of a digit string is below 10 to the power of its length; which number it is, NatOfAppend and NatOfConcat state |
| Text.NatOfConcat | output.py:37-38 | digit strings concatenate as place values: the value of `a + b` is the value of `a` shifted past the digits of `b`, plus the value of `b` |
| Text.NatOfAppend | output.py:37-38 | reading left to right, one more digit multiplies the value by ten and adds the digit |
| Text.Value | output.py:37-38 | `float()` of a numeral: its whole part plus a fraction in [0, 1); its exact value is stated by ValueAsFraction |
| Text.ValueAsFraction | output.py:37-38 | a numeral's value is all its digits read as one integer over ten to the number of fractional digits |
| Text.ValueExample | output.py:37 | `12.5` reads as 12.5, so a `Model: 12.5%` field is the probability 0.125 |
| Text.ZerosExample | output.py:37-38 | `007.50` reads as 7.5: leading and trailing zeros change nothing |
| Text.ScanNumeral | output.py:32-33 | greedy `[0-9]+(?:\.[0-9]+)?`: no match exactly when the text does not start with a digit; a match is the written numeral followed by a rest that cannot extend it |
| Text.ScanSpelled | output.py:32-33 | round trip: a written numeral followed by a proper ending is scanned back to itself and that rest |
| Record.SeparatorOf | output.py:32-33 | the optional `[:%]?` / `[:]?` group: empty or one separator, a prefix of the text |
| Record.TaggedNumeral | output.py:32-33 | a match of `tag[seps]?\s*number` yields a well-formed numeral and a rest that cannot extend it |
| Record.TaggedNumeralSound | output.py:32-33 | what is matched is a tag, a separator, whitespace and the numeral, followed by the rest |
| Record.TaggedNumeralComplete | output.py:32-33 | every such written token is matched and yields its own numeral and rest |
| Record.MatchModel | output.py:32 | a match of the model pattern yields a well-formed numeral |
| Record.ModelMatchSound | output.py:32 | a model-pattern match is `Model`, an optional `:` or `%`, whitespace, the numeral and `%` |
| Record.ModelMatchComplete | output.py:32 | every written model field is matched and yields its numeral, whatever follows the `%` |
| Record.MatchOdds | output.py:33 | a match of the odds pattern yields a well-formed numeral |
| Record.OddsMatchSound | output.py:33 | an odds-pattern match is `LiveOdds`, an optional `:`, whitespace and the numeral, not extended by what follows |
| Record.OddsMatchComplete | output.py:33 | every written odds field whose numeral is not extended is matched and yields it |
| Record.MatchAt | output.py:32-33 | either field's pattern at one position yields a well-formed numeral |
| Record.Search | output.py:32-33 | `re.search`: the returned position matches and no earlier position does; no result means no position matches |
| Record.Find | output.py:32-34 | the first match exists exactly when the search succeeds, and it is the match at the leftmost position |
| Record.NameOf | output.py:27-28 | the text before the first bar, stripped; never contains a bar by NameHasNoBar, and the name every lay carries by AssessYields |
| Record.NameHasNoBar | output.py:27-28 | the name never contains a bar |
| Record.RestOf | output.py:27-29 | the text after the first bar, stripped; the text both patterns are searched in (ParseLine) |
| Record.Percent | output.py:37 | the probability a model percentage stands for: one hundred times it is the percentage read |
| Record.ParseLine | output.py:24-38 | a line without a bar is dropped; a line with one parses exactly when both fields are found; the quote carries the stripped name before the first bar and non-negative numbers |
| Market.Max | output.py:50 | Python's two-argument `max` (also model.py:109 and 119): at least both arguments and equal to one of them |
| Market.Min | model.py:145 | Python's two-argument `min`, and the cap of output.py:55-57: at most both arguments and equal to one of them |
| Market.BackEv | model.py:147 | the back EV `p·(odds−1) − (1−p)` equals `p·odds − 1` |
| LayStaking.LayEv | output.py:43-44 | the lay EV is the negated back EV, `1 − p·odds` |
| LayStaking.LayEvPositiveIff | output.py:43-46 | for positive odds the lay EV is positive exactly when `p < 1/odds` |
| LayStaking.Planned | output.py:49-57 | the sized lay keeps the name, odds and lay EV; its liability is the smaller of the quarter-Kelly liability and 10% of the bankroll; `stake·(odds−1) = liability` |
| LayStaking.Evaluate | output.py:39-57 | a quote yields a lay exactly when `odds > 1` and `p < 1/odds`, and that lay is the plan and admissible |
| LayStaking.PlannedAdmissible | output.py:49-57 | a planned lay has odds above 1, positive EV, a positive liability within the cap and the Kelly liability, a positive stake, and `stake·(odds−1) = liability` |
| LayStaking.CapBindsIff | output.py:55-57 | the cap binds (cuts the Kelly liability) exactly when the lay EV exceeds 0.4 |
| LayStaking.Assess | output.py:24-57 | what one line contributes is nothing or an admissible lay |
| LayStaking.AssessYields | output.py:24-46 | a line yields a lay exactly when it parses, its odds exceed 1 and its model probability is below the implied one; the lay carries the line's name |
| LayStaking.Outcomes | output.py:24 | one outcome per line |
| LayStaking.OutcomeAt | output.py:24 | outcome `k` is the assessment of line `k` |
| LayStaking.Kept | output.py:59-65 | no more lays than outcomes |
| LayStaking.KeptMembers | output.py:59-65 | a lay is kept exactly when it is one of the outcomes |
| LayStaking.Collect | output.py:21-65 | the collected lays are at most one per line and all admissible |
| LayStaking.CollectSound | output.py:24-65 | every collected lay is what some line yields |
| LayStaking.CollectComplete | output.py:24-65 | every lay some line yields is collected |
| LayStaking.CollectStep | output.py:59-65 | one more line appends its lay, or nothing |
| LayStaking.Insert | output.py:68 | places a lay before the first lay whose EV is not above its own; it adds exactly that lay (InsertPermutes), keeps a sorted list sorted (InsertSorted) and goes first among lays of its EV (InsertWithEv) |
| LayStaking.SortByEv | output.py:68 | `list.sort(key=ev_lay, reverse=True)` as a stable insertion sort; sorted and a permutation by SortByEvSortsAndPermutes, stable by SortByEvStable |
| LayStaking.SortByEvSortsAndPermutes | output.py:68 | the sort returns the same lays (as a multiset) in non-increasing lay-EV order |
| LayStaking.InsertPermutes | output.py:68 | inserting one lay adds exactly that lay |
| LayStaking.InsertSorted | output.py:68 | inserting into a sorted list keeps it sorted |
| LayStaking.SortByEvStable | output.py:68 | lays with equal EV keep their input order |
| LayStaking.InsertWithEv | output.py:68 | inserting places the lay first among those with its EV |
| LayStaking.WithEv | output.py:68 | the lays of one EV, all of that EV |
| LayStaking.RecommendationsAdmissible | output.py:55-68 | the sorted recommendations are in non-increasing EV order and each is admissible |
| LayStaking.CalculateLays | output.py:7-68 | a missing or non-positive bankroll fails before any line is read; otherwise the result is the stable EV sort of the collected lays, sorted and each admissible |
| LayStaking.LayFor | output.py:24-38 | the loop body for one line returns exactly what the line yields |
| LayStaking.SizeLay | output.py:39-65 | the filters and capped quarter-Kelly sizing return exactly the evaluation of the quote |
| LayStaking.AssessParsed | output.py:27-38 | a line with a bar and both fields is assessed on the name and numbers the loop reads |
| LayStaking.SizedLay | output.py:49-57 | the loop's sizing in both branches of the cap is the plan |
| LayStaking.KellySizing | output.py:49-52 | the quarter-Kelly stake risks exactly `0.25·ev·bank` at these odds |
| LayStaking.CappedExample | output.py:49-57 | bank 1000, 10% at odds 5: lay EV 0.5, liability capped from 125 to 100, stake 25 |
| LayStaking.UncappedExample | output.py:49-57 | bank 1000, 15% at odds 4: lay EV 0.4, liability 100 (not cut), stake 100/3 |
| Simulation.MeanDelta | model.py:42 | the expected score change `-(sg·holes_left/18)`; expecting more strokes gained never wins fewer trials by WinsMonotoneInStrokesGained |
| Simulation.You | model.py:46 | the golfer's final deficit `shots_behind + (mean + scale·z)`; its order drives WinsAntitone |
| Simulation.Scaled | model.py:47 | one rival score per rival deviate; each is the scale times its deviate by ScaledAt |
| Simulation.Won | model.py:48 | the golfer's deficit at most the rivals' minimum; equivalently at most every rival (ties win) by WonIff |
| Simulation.SeqMin | model.py:48 | `others.min()`: an element, at most every element |
| Simulation.ScaledAt | model.py:47 | each rival's score is the scale times its deviate |
| Simulation.AtMostMinIff | model.py:48 | being at most the minimum is being at most every element |
| Simulation.WonIff | model.py:48 | a trial is won exactly when the golfer's deficit is at most every rival's score (ties win) |
| Simulation.Wins | model.py:44-49 | the win count is at most the number of trials |
| Simulation.WinsAntitone | model.py:42-49 | with the same draws, a golfer who starts no further behind and expects no worse wins at least as many trials |
| Simulation.WinsAntitoneInDeficit | model.py:46-49 | trailing by more never wins more trials |
| Simulation.WinsMonotoneInStrokesGained | model.py:42-49 | expecting to gain more strokes never wins fewer trials |
| Simulation.WinFraction | model.py:50 | the estimate lies in [0, 1] |
| Simulation.FractionBounds | model.py:50 | a count out of a positive total is in [0, 1] |
| Simulation.SimulateWinProb | model.py:42-50 | the method returns the fraction of won trials for the source's mean and scale, which lies in [0, 1] |
| Simulation.CountWins | model.py:44-49 | the loop counts exactly the won trials |
| Simulation.WinsStep | model.py:45-49 | one more trial adds one exactly when it is won |
| Scoring.QualityDivisor | model.py:113 | the field-quality divisor is between 0.9 and 1.1 |
| Scoring.Sum | model.py:87 | `sum(finishes)`; monotone by SumMonotone, and the mean times the count is this sum (Mean) |
| Scoring.Mean | model.py:87 | the mean of the recent finishes: times their count it is their sum |
| Scoring.RawScore | model.py:86-106 | the weighted sum of the form figures around 50; monotone in every figure in the direction of its weight by RawScoreMonotone |
| Scoring.SumMonotone | model.py:87 | pointwise smaller finishes have a smaller sum |
| Scoring.RawScoreMonotone | model.py:85-106 | a golfer no worse in any form figure (in the direction its weight rewards) never gets a lower raw score |
| Scoring.HolesRootAtLeastOne | model.py:109 | `sqrt(max(holes_left, 1))` is at least 1 |
| Scoring.Penalty | model.py:109 | the penalty has the sign of the deficit and is at most 0.35 per shot |
| Scoring.PenaltyBounds | model.py:109 | dividing by a root of at least 1 keeps the penalty between 0 and 0.35 per shot |
| Scoring.PenaltyNearTheEnd | model.py:109 | with one hole or fewer left (including none or a negative count) the penalty is exactly 0.35 per shot |
| Scoring.Clamp | model.py:117 | `np.clip`: the result is in range, equals the input when it is in range, and the nearer bound otherwise |
| Scoring.HeuristicScore | model.py:108-117 | the reported score lies in [0, 100] |
| Scoring.ScoreAntitoneInDeficit | model.py:108-117 | trailing by more never raises the reported score |
| Scoring.ClipAbsorbsDeficit | model.py:108-117 | once the penalised score is at or below 0 any further deficit leaves the reported score at 0 |
| Scoring.ScoreAntitoneInFieldStrength | model.py:112-117 | a stronger field never raises the reported score (the divisor is applied before the clip) |
| Scoring.ModelProbability | model.py:118-119 | the model probability is never below 2%, is the calibrated value or the floor, and is at most 1 when the calibration is |
| Scoring.SgRemaining | model.py:121-129 | with no holes played it is the pre-event expectation; otherwise twice it less the pre-event expectation is the pace so far carried over the holes left |
| Scoring.LivePace | model.py:125-127 | the per-hole rate times the holes played and left gives the strokes gained so far times the holes left |
| Scoring.Blend | model.py:140 | the blend lies between the model and simulated probabilities, and is at least 1.2% when they are floored and non-negative |
| Scoring.PImplied | model.py:143 | the implied probability times the odds is 1 |
| Scoring.Edge | model.py:144 | the edge times the odds is the back EV, so for positive odds the edge is positive exactly when the back EV is |
| Scoring.FairModel | model.py:145 | the fair odds lie in (0, 50], equal 50 exactly when `p ≤ 2%`, and are `1/p` otherwise |
| Scoring.FairCap | model.py:145 | `1/p ≥ 50` exactly when `p ≤ 1/50` |
| Scoring.FairBlend | model.py:146 | the reported fair odds lie between the model's fair odds and the live odds |
| Scoring.Assessment | model.py:85-147 | the report: the name stripped as at model.py:59, score in [0, 100], final probability at least 1.2% (and at most 1 when both parts are), fair odds above 30% of the live odds by at most 35, EV equal to the odds times the edge, implied probability times odds 1 |
| Scoring.SimProbability | model.py:131-137 | the simulated probability the callback obtains lies in [0, 1] |
| Scoring.CalculateScore | model.py:85-147 | the method's report (under the stripped name) is the assessment for the simulated probability of the supplied trials, score in [0, 100], final probability at least 1.2% |
| Scoring.WinFractionAntitoneInDeficit | model.py:44-50 | trailing by more never raises the simulated probability |
| Scoring.FinalProbabilityAntitoneInDeficit | model.py:108-140 | with a non-decreasing calibration and the same draws, trailing by more never raises the final probability |

## Left out

- The tkinter windows, entry widgets, message boxes and result text (model.py:159 onwards, output.py:70 onwards), and the printed and formatted report line (model.py:150-157). They are user interface and output.
- Reading numbers from widget text (`float()`, `int()`) and the `ValueError` handlers of `calculate_score`. The form is given as numbers. The bankroll is an `Option<real>` in which `None` stands for text `float()` rejects.
- The pasted text's `strip().splitlines()` (output.py:9). The lines are given as a sequence.
- Binary64 rounding, NaN and infinities. All arithmetic is exact over the reals, and `float()` of a numeral is its exact decimal value.
- The logistic calibration (model.py:10-16, 118). It is built from `log` and `exp`. It is a parameter `calibrate`, and the end-to-end monotonicity lemma assumes only that it is non-decreasing.
- `math.sqrt` (model.py:43, 109). The roots are supplied values `r ≥ 0` with `r·r` equal to the argument.
- `np.random.normal` (model.py:46-47). Each trial supplies standard-normal deviates, and a draw with mean `m` and scale `s` is `m + s·z`. Nothing about the distribution of the estimate is claimed.
- Simulation.SimulateWinProb: requires `contenders >= 2`, `holesLeft >= 0`, `rndSd >= 0` and at least one trial. Otherwise the source raises (the minimum of no rivals, the root of a negative number, a negative scale refused by `np.random.normal`, division by zero sims).
- Scoring.CalculateScore: uses the source's defaults of 5000 simulations and a round deviation of 2.4. Other values are covered by `Simulation.SimulateWinProb` itself.
- LayStaking.CalculateLays: the in-place `list.sort` is modelled as a value-level stable insertion sort whose result is assigned back. Element-by-element moves within the list are not modelled.

