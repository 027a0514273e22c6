/**
 * The arithmetic of `calculate_score` in model.py: a linear heuristic
 * score built from the form figures, a shots-behind penalty, the
 * field-quality divisor and the clip to [0, 100]; the logistic calibration
 * with its 2% floor; the live strokes-gained projection; the 60/40 blend of
 * the heuristic probability with the simulated one; and the market figures
 * (implied probability, edge, capped fair odds, back EV).
 *
 * The logistic map is a parameter `calibrate` (it is built from `log` and
 * `exp`), the square roots are supplied values, and the simulation's draws
 * are supplied trials (see the Simulation module).
 */
module Scoring {
  import opened Market
  import opened Simulation
  import Text

  /** The model probability is never below 2%. */
  const PFloor: real := 0.02
  /** Raw fair odds are capped at 50. */
  const MaxFair: real := 50.0
  /** The shots-behind penalty scale. */
  const SbScale: real := 0.35
  /** The weight of the heuristic probability in the blend with the simulated one. */
  const BlendModel: real := 0.6
  /** Holes in a tournament. */
  const TotalHoles: int := 72
  /** The number of simulations `simulate_win_prob` runs by default. */
  const DefaultSims: int := 5000

  /** The strength of the field, as chosen in the form. */
  datatype FieldQuality = Weak | Average | Strong

  /** The pre-event and in-play figures of the form, already read as numbers; the name as typed. */
  datatype Form = Form(
    name: string,
    xwins: real, totalShots: real, putt: real, t2g: real,
    sgTrue: real, sgExpectedPre: real, courseFit: real, ranking: real,
    leaderboardPos: real, finishes: seq<real>,
    sgOffTee: real, sgApproach: real, sgPutting: real, scrambling: real)

  /** The live situation: holes left, size of the live field, its strength, the deficit and the live decimal odds. */
  datatype Live = Live(holesLeft: int, contenders: int, quality: FieldQuality, shotsBehind: real, liveOdds: real)

  /** What the callback reports for one golfer. */
  datatype Report = Report(name: string, score: real, pFinal: real, pImplied: real,
                           edge: real, fairOdds: real, liveOdds: real, ev: real)

  // ------------------------------------------------------------------
  // The heuristic score
  // ------------------------------------------------------------------

  /** The field-quality divisor; a stronger field divides by more. */
  function QualityDivisor(q: FieldQuality): (d: real)
    ensures 0.9 <= d <= 1.1
  {
    match q
    case Weak => 0.9
    case Average => 1.0
    case Strong => 1.1
  }

  /** Weak, average, strong in increasing order. */
  function Strength(q: FieldQuality): nat {
    match q
    case Weak => 0
    case Average => 1
    case Strong => 2
  }

  function Sum(xs: seq<real>): real {
    if xs == [] then 0.0 else Sum(xs[..|xs| - 1]) + xs[|xs| - 1]
  }

  /** The mean of the recent finishing positions. */
  function Mean(xs: seq<real>): (m: real)
    requires |xs| >= 1
    ensures m * |xs| as real == Sum(xs)
  {
    Sum(xs) / |xs| as real
  }

  /** The unpenalised heuristic score: a weighted sum of the form figures around a base of 50. */
  function RawScore(f: Form): real
    requires |f.finishes| >= 1
  {
    var sgDiff := f.sgTrue - f.sgExpectedPre;
    var avgLast5 := Mean(f.finishes);
    var pressure := sgDiff * 15.0;
    50.0
    + f.xwins
    + f.totalShots * 0.5
    + f.putt * 0.5
    + f.t2g * 0.5
    + pressure
    + f.courseFit * 20.0
    - f.ranking * 0.5
    - f.leaderboardPos * 0.3
    - avgLast5 * 0.5
    + f.sgOffTee * 0.5
    + f.sgApproach * 0.5
    + f.sgPutting * 0.5
    - (100.0 - f.scrambling) * 0.2
  }

  /**
   * `better` is at least as good as `base` in every figure, in the direction
   * the score rewards it: more wins, shots, putting, tee-to-green, course
   * fit, in-play strokes gained and scrambling, a larger strokes-gained
   * surplus over expectation, a lower ranking and leaderboard position, and
   * no worse recent finishes.
   */
  predicate NoWorse(base: Form, better: Form) {
    better.xwins >= base.xwins && better.totalShots >= base.totalShots
    && better.putt >= base.putt && better.t2g >= base.t2g
    && better.sgTrue - better.sgExpectedPre >= base.sgTrue - base.sgExpectedPre
    && better.courseFit >= base.courseFit
    && better.ranking <= base.ranking && better.leaderboardPos <= base.leaderboardPos
    && |better.finishes| == |base.finishes|
    && (forall i :: 0 <= i < |base.finishes| ==> better.finishes[i] <= base.finishes[i])
    && better.sgOffTee >= base.sgOffTee && better.sgApproach >= base.sgApproach
    && better.sgPutting >= base.sgPutting && better.scrambling >= base.scrambling
  }

  /** Pointwise smaller terms have a smaller sum. */
  lemma {:induction false} SumMonotone(xs: seq<real>, ys: seq<real>)
    requires |xs| == |ys| && forall i :: 0 <= i < |xs| ==> xs[i] <= ys[i]
    ensures Sum(xs) <= Sum(ys)
  {
    if xs != [] {
      var n := |xs| - 1;
      SumMonotone(xs[..n], ys[..n]);
    }
  }

  /** The weights have the signs the form's labels suggest: a golfer no worse in any figure never scores lower. */
  lemma RawScoreMonotone(base: Form, better: Form)
    requires |base.finishes| >= 1 && NoWorse(base, better)
    ensures RawScore(base) <= RawScore(better)
  {
    SumMonotone(better.finishes, base.finishes);
    DivideMonotone(Sum(better.finishes), Sum(base.finishes), |base.finishes| as real);
  }

  /** `r` is `math.sqrt(max(holes_left, 1))`. */
  predicate IsHolesRoot(r: real, holesLeft: int) {
    IsRoot(r, Max(holesLeft as real, 1.0))
  }

  /** The square root of a number at least 1 is at least 1. */
  lemma HolesRootAtLeastOne(r: real, holesLeft: int)
    requires IsHolesRoot(r, holesLeft)
    ensures r >= 1.0
  {
    SquareBelowOne(r);
  }

  lemma SquareBelowOne(r: real)
    requires r >= 0.0
    ensures r < 1.0 ==> r * r < 1.0
  {
    if r < 1.0 {
      assert r * r <= r * 1.0;
    }
  }

  /**
   * The shots-behind penalty: the deficit divided by the root of the holes
   * left (at least one), times 0.35.  Since that root is at least 1, a
   * golfer who trails pays at most 0.35 per shot.
   */
  function Penalty(shotsBehind: real, holesLeft: int, root: real): (r: real)
    requires IsHolesRoot(root, holesLeft)
    ensures shotsBehind >= 0.0 ==> 0.0 <= r <= SbScale * shotsBehind
    ensures shotsBehind <= 0.0 ==> SbScale * shotsBehind <= r <= 0.0
  {
    HolesRootAtLeastOne(root, holesLeft);
    PenaltyBounds(shotsBehind, root);
    shotsBehind / root * SbScale
  }

  lemma PenaltyBounds(shotsBehind: real, root: real)
    requires root >= 1.0
    ensures shotsBehind >= 0.0 ==> 0.0 <= shotsBehind / root * SbScale <= SbScale * shotsBehind
    ensures shotsBehind <= 0.0 ==> SbScale * shotsBehind <= shotsBehind / root * SbScale <= 0.0
  {
    var q := shotsBehind / root;
    assert q * root == shotsBehind;
    if shotsBehind >= 0.0 {
      assert 0.0 <= q <= shotsBehind;
    } else {
      assert shotsBehind <= q <= 0.0;
    }
  }

  /** With one hole or fewer left the root is 1 and the penalty is exactly 0.35 per shot behind. */
  lemma PenaltyNearTheEnd(shotsBehind: real, holesLeft: int, root: real)
    requires IsHolesRoot(root, holesLeft) && holesLeft <= 1
    ensures Penalty(shotsBehind, holesLeft, root) == SbScale * shotsBehind
  {
    HolesRootAtLeastOne(root, holesLeft);
    assert root * root == 1.0;
    assert root == 1.0;
  }

  /** `numpy.clip(x, lo, hi)`. */
  function Clamp(x: real, lo: real, hi: real): (r: real)
    requires lo <= hi
    ensures lo <= r <= hi
    ensures lo <= x <= hi ==> r == x
    ensures x < lo ==> r == lo
    ensures x > hi ==> r == hi
  {
    Min(Max(x, lo), hi)
  }

  /**
   * The reported score: the raw score less the penalty, divided by the
   * field-quality divisor, clipped to [0, 100].
   */
  function HeuristicScore(f: Form, shotsBehind: real, holesLeft: int, quality: FieldQuality, root: real): (s: real)
    requires |f.finishes| >= 1 && IsHolesRoot(root, holesLeft)
    ensures 0.0 <= s <= 100.0
  {
    var penalised := RawScore(f) - Penalty(shotsBehind, holesLeft, root);
    Clamp(penalised / QualityDivisor(quality), 0.0, 100.0)
  }

  /** Dividing by the same positive number keeps the order. */
  lemma DivideMonotone(a: real, b: real, c: real)
    requires a <= b && c > 0.0
    ensures a / c <= b / c
  {
    assert b / c - a / c == (b - a) / c;
    assert (b - a) / c * c == b - a;
  }

  /** Dividing a non-negative number by a larger positive number gives less. */
  lemma DivideAntitone(x: real, c: real, d: real)
    requires x >= 0.0 && 0.0 < c <= d
    ensures x / d <= x / c
  {
    assert x / c * c == x && x / d * d == x;
    assert x / d * c <= x / d * d;
  }

  /** Trailing by more shots, all else fixed, never raises the reported score. */
  lemma ScoreAntitoneInDeficit(f: Form, sb1: real, sb2: real, holesLeft: int, quality: FieldQuality, root: real)
    requires |f.finishes| >= 1 && IsHolesRoot(root, holesLeft) && sb1 <= sb2
    ensures HeuristicScore(f, sb2, holesLeft, quality, root) <= HeuristicScore(f, sb1, holesLeft, quality, root)
  {
    HolesRootAtLeastOne(root, holesLeft);
    DivideMonotone(sb1, sb2, root);
    var d := QualityDivisor(quality);
    var x1 := RawScore(f) - Penalty(sb1, holesLeft, root);
    var x2 := RawScore(f) - Penalty(sb2, holesLeft, root);
    DivideMonotone(x2, x1, d);
  }

  /**
   * Once the penalised score is at or below zero the clip absorbs any
   * further deficit: the reported score stays 0, so trailing by more need
   * not lower it.
   */
  lemma ClipAbsorbsDeficit(f: Form, sb1: real, sb2: real, holesLeft: int, quality: FieldQuality, root: real)
    requires |f.finishes| >= 1 && IsHolesRoot(root, holesLeft) && sb1 <= sb2
    requires RawScore(f) - Penalty(sb1, holesLeft, root) <= 0.0
    ensures HeuristicScore(f, sb2, holesLeft, quality, root) == HeuristicScore(f, sb1, holesLeft, quality, root) == 0.0
  {
    HolesRootAtLeastOne(root, holesLeft);
    DivideMonotone(sb1, sb2, root);
    var d := QualityDivisor(quality);
    DivideMonotone(RawScore(f) - Penalty(sb1, holesLeft, root), 0.0, d);
    DivideMonotone(RawScore(f) - Penalty(sb2, holesLeft, root), 0.0, d);
  }

  /** A stronger field, all else fixed, never raises the reported score. */
  lemma ScoreAntitoneInFieldStrength(f: Form, shotsBehind: real, holesLeft: int, q1: FieldQuality, q2: FieldQuality, root: real)
    requires |f.finishes| >= 1 && IsHolesRoot(root, holesLeft) && Strength(q1) <= Strength(q2)
    ensures HeuristicScore(f, shotsBehind, holesLeft, q2, root) <= HeuristicScore(f, shotsBehind, holesLeft, q1, root)
  {
    var x := RawScore(f) - Penalty(shotsBehind, holesLeft, root);
    var d1, d2 := QualityDivisor(q1), QualityDivisor(q2);
    assert d1 <= d2;
    if x >= 0.0 {
      DivideAntitone(x, d1, d2);
    } else {
      assert x / d2 < 0.0 by { assert x / d2 * d2 == x; }
    }
  }

  // ------------------------------------------------------------------
  // Probabilities
  // ------------------------------------------------------------------

  /** The model probability: the calibrated score, floored at 2%. */
  function ModelProbability(calibrate: real -> real, score: real): (p: real)
    ensures p >= PFloor && p >= calibrate(score)
    ensures p == PFloor || p == calibrate(score)
    ensures calibrate(score) <= 1.0 ==> p <= 1.0
  {
    Max(calibrate(score), PFloor)
  }

  /**
   * The strokes gained expected over the remaining holes.  While holes have
   * been played (`holes_played = 72 - holes_left > 0`) it is half the
   * pre-event expectation plus half the live pace (strokes gained so far
   * per hole played) carried over the holes left; otherwise it is the
   * pre-event expectation.
   */
  function SgRemaining(sgExpectedPre: real, sgOffTee: real, sgApproach: real, sgPutting: real, holesLeft: int): (r: real)
    ensures holesLeft >= TotalHoles ==> r == sgExpectedPre
    ensures holesLeft < TotalHoles
            ==> (2.0 * r - sgExpectedPre) * (TotalHoles - holesLeft) as real
                == (sgOffTee + sgApproach + sgPutting) * holesLeft as real
  {
    var holesPlayed := TotalHoles - holesLeft;
    if holesPlayed > 0 then
      var sgSoFar := sgOffTee + sgApproach + sgPutting;
      var sgRatePerHole := sgSoFar / holesPlayed as real;
      LivePace(sgSoFar, holesPlayed as real, holesLeft as real);
      0.5 * sgExpectedPre + 0.5 * (sgRatePerHole * holesLeft as real)
    else
      sgExpectedPre
  }

  lemma LivePace(sgSoFar: real, played: real, left: real)
    requires played > 0.0
    ensures sgSoFar / played * left * played == sgSoFar * left
  {
    assert sgSoFar / played * played == sgSoFar;
  }

  /**
   * The 60/40 blend of the model and simulated probabilities lies between
   * them; with the model probability floored at 2% and a simulated
   * probability that is not negative it is at least 1.2%.
   */
  function Blend(pModel: real, pSim: real): (p: real)
    ensures Min(pModel, pSim) <= p <= Max(pModel, pSim)
    ensures pModel >= PFloor && pSim >= 0.0 ==> p >= BlendModel * PFloor
  {
    BlendModel * pModel + (1.0 - BlendModel) * pSim
  }

  // ------------------------------------------------------------------
  // Market figures
  // ------------------------------------------------------------------

  /** The probability the live odds imply. */
  function PImplied(liveOdds: real): (p: real)
    requires liveOdds != 0.0
    ensures p * liveOdds == 1.0
  {
    1.0 / liveOdds
  }

  /** The edge: the final probability over the implied one. Scaled by the odds it is the back EV. */
  function Edge(pFinal: real, liveOdds: real): (e: real)
    requires liveOdds != 0.0
    ensures liveOdds * e == BackEv(pFinal, liveOdds)
    ensures liveOdds > 0.0 ==> (e > 0.0 <==> BackEv(pFinal, liveOdds) > 0.0)
  {
    pFinal - PImplied(liveOdds)
  }

  /** The model's fair odds, `1 / p`, capped at 50; the cap binds exactly when `p <= 2%`. */
  function FairModel(pFinal: real): (f: real)
    requires pFinal > 0.0
    ensures 0.0 < f <= MaxFair
    ensures f == MaxFair <==> pFinal <= 1.0 / MaxFair
    ensures f < MaxFair ==> f * pFinal == 1.0
  {
    FairCap(pFinal);
    Min(1.0 / pFinal, MaxFair)
  }

  lemma FairCap(p: real)
    requires p > 0.0
    ensures 1.0 / p >= MaxFair <==> p <= 1.0 / MaxFair
  {
    var q := 1.0 / p;
    assert q * p == 1.0;
    if p <= 0.02 {
      assert q * p <= q * 0.02;
    } else {
      assert q * p > q * 0.02;
    }
  }

  /** The reported fair odds: 70% the model's fair odds and 30% the live odds, so between the two. */
  function FairBlend(fairModel: real, liveOdds: real): (f: real)
    ensures Min(fairModel, liveOdds) <= f <= Max(fairModel, liveOdds)
  {
    0.7 * fairModel + 0.3 * liveOdds
  }

  // ------------------------------------------------------------------
  // The whole callback
  // ------------------------------------------------------------------

  /**
   * The report for a form, given the simulated probability `pSim`: score,
   * final probability, implied probability, edge, fair odds and back EV.
   */
  function Assessment(f: Form, live: Live, calibrate: real -> real, root: real, pSim: real): (r: Report)
    requires |f.finishes| >= 1 && IsHolesRoot(root, live.holesLeft)
    requires live.liveOdds != 0.0 && pSim >= 0.0
    ensures r.name == Text.Strip(f.name) && r.liveOdds == live.liveOdds
    ensures 0.0 <= r.score <= 100.0
    ensures r.pFinal >= BlendModel * PFloor
    ensures calibrate(r.score) <= 1.0 && pSim <= 1.0 ==> r.pFinal <= 1.0
    ensures 0.0 < r.fairOdds - 0.3 * live.liveOdds <= 0.7 * MaxFair
    ensures r.ev == live.liveOdds * r.edge && r.pImplied * live.liveOdds == 1.0
  {
    var score := HeuristicScore(f, live.shotsBehind, live.holesLeft, live.quality, root);
    var pModel := ModelProbability(calibrate, score);
    var pFinal := Blend(pModel, pSim);
    var fair := FairModel(pFinal);
    Report(Text.Strip(f.name), score, pFinal, PImplied(live.liveOdds), Edge(pFinal, live.liveOdds),
           FairBlend(fair, live.liveOdds), live.liveOdds, BackEv(pFinal, live.liveOdds))
  }

  /** What the simulation is asked for: the source's inputs and `simulate_win_prob`'s defaults. */
  predicate SimulationReady(live: Live, rootH18: real, trials: seq<Trial>) {
    live.holesLeft >= 0 && live.contenders >= 2 && IsRoot(rootH18, live.holesLeft as real / 18.0)
    && |trials| == DefaultSims && Shaped(trials, live.contenders)
  }

  /** The simulated probability the callback obtains for these trials. */
  function SimProbability(f: Form, live: Live, rootH18: real, trials: seq<Trial>): (p: real)
    requires SimulationReady(live, rootH18, trials)
    ensures 0.0 <= p <= 1.0
  {
    var sg := SgRemaining(f.sgExpectedPre, f.sgOffTee, f.sgApproach, f.sgPutting, live.holesLeft);
    WinFraction(live.shotsBehind, MeanDelta(sg, live.holesLeft), DefaultRoundSd * rootH18, trials)
  }

  /**
   * `calculate_score` after its inputs are read: the stripped name, the
   * heuristic score, the floored model probability, the live projection, the
   * simulation with its defaults (5000 trials, round deviation 2.4), the blend and the market
   * figures.  The source divides by `live_odds` unguarded, so it must not
   * be zero; the simulation needs at least two contenders and no negative
   * holes left.  The body keeps the callback's statement order (name, score,
   * model probability, projection, simulation, blend, market figures),
   * which `Assessment` composes as one expression; the postcondition ties
   * the two together.
   */
  method CalculateScore(f: Form, live: Live, calibrate: real -> real, root: real, rootH18: real, trials: seq<Trial>)
    returns (r: Report)
    requires |f.finishes| >= 1 && IsHolesRoot(root, live.holesLeft) && live.liveOdds != 0.0
    requires SimulationReady(live, rootH18, trials)
    ensures r == Assessment(f, live, calibrate, root, SimProbability(f, live, rootH18, trials))
    ensures 0.0 <= r.score <= 100.0 && r.pFinal >= BlendModel * PFloor
  {
    var name := Text.Strip(f.name);
    var score := HeuristicScore(f, live.shotsBehind, live.holesLeft, live.quality, root);
    var pModel := ModelProbability(calibrate, score);
    var sgRemaining := SgRemaining(f.sgExpectedPre, f.sgOffTee, f.sgApproach, f.sgPutting, live.holesLeft);
    var pSim := SimulateWinProb(live.shotsBehind, live.holesLeft, sgRemaining, live.contenders,
                                DefaultRoundSd, rootH18, trials);
    var pFinal := Blend(pModel, pSim);
    var pImplied := PImplied(live.liveOdds);
    var edge := Edge(pFinal, live.liveOdds);
    var fairModel := FairModel(pFinal);
    var fairBlend := FairBlend(fairModel, live.liveOdds);
    var evBack := BackEv(pFinal, live.liveOdds);
    r := Report(name, score, pFinal, pImplied, edge, fairBlend, live.liveOdds, evBack);
  }

  /** Fewer won trials out of the same number give a smaller fraction. */
  lemma WinFractionAntitoneInDeficit(sb1: real, sb2: real, mean: real, sd: real, trials: seq<Trial>)
    requires |trials| >= 1 && forall k :: 0 <= k < |trials| ==> |trials[k].others| >= 1
    requires sb1 <= sb2
    ensures WinFraction(sb2, mean, sd, trials) <= WinFraction(sb1, mean, sd, trials)
  {
    WinsAntitoneInDeficit(sb1, sb2, mean, sd, trials);
    DivideMonotone(Wins(sb2, mean, sd, trials) as real, Wins(sb1, mean, sd, trials) as real, |trials| as real);
  }

  /**
   * Trailing by more shots, with everything else and the same draws, never
   * raises the final probability, provided the calibration is
   * non-decreasing (the logistic with a positive slope is).  It need not
   * lower it: the clip and the floor can absorb the change.
   */
  lemma FinalProbabilityAntitoneInDeficit(f: Form, live: Live, sb2: real, calibrate: real -> real,
                                          root: real, rootH18: real, trials: seq<Trial>)
    requires |f.finishes| >= 1 && IsHolesRoot(root, live.holesLeft) && live.liveOdds != 0.0
    requires SimulationReady(live, rootH18, trials) && live.shotsBehind <= sb2
    requires forall x, y :: x <= y ==> calibrate(x) <= calibrate(y)
    ensures var behind := live.(shotsBehind := sb2);
            Assessment(f, behind, calibrate, root, SimProbability(f, behind, rootH18, trials)).pFinal
            <= Assessment(f, live, calibrate, root, SimProbability(f, live, rootH18, trials)).pFinal
  {
    var behind := live.(shotsBehind := sb2);
    ScoreAntitoneInDeficit(f, live.shotsBehind, sb2, live.holesLeft, live.quality, root);
    var s1 := HeuristicScore(f, live.shotsBehind, live.holesLeft, live.quality, root);
    var s2 := HeuristicScore(f, sb2, live.holesLeft, live.quality, root);
    assert calibrate(s2) <= calibrate(s1);
    var sg := SgRemaining(f.sgExpectedPre, f.sgOffTee, f.sgApproach, f.sgPutting, live.holesLeft);
    WinFractionAntitoneInDeficit(live.shotsBehind, sb2, MeanDelta(sg, live.holesLeft), DefaultRoundSd * rootH18, trials);
  }
}
