/**
 * The counting shell of `simulate_win_prob` in model.py: a Monte Carlo
 * estimate of the chance that a golfer trailing by `shots_behind` posts the
 * lowest remaining score among the live contenders.  Each trial's random
 * draws are supplied as standard-normal deviates; a legacy numpy draw
 * `normal(loc, scale)` is `loc + scale * z` for such a deviate `z`, so the
 * trial outcomes are computed from them exactly as the source does.
 */
module Simulation {

  /** The round-to-round standard deviation `simulate_win_prob` uses by default. */
  const DefaultRoundSd: real := 2.4

  /** The standard-normal deviates of one trial: the golfer's and each other contender's. */
  datatype Trial = Trial(you: real, others: seq<real>)

  /** `r` is the non-negative square root of `x` (the value `math.sqrt(x)` returns, exactly). */
  predicate IsRoot(r: real, x: real) {
    r >= 0.0 && r * r == x
  }

  /** The golfer's expected score change over the remaining holes: minus the strokes gained per round, pro rata. */
  function MeanDelta(sgExpectRound: real, holesLeft: int): real {
    -(sgExpectRound * holesLeft as real / 18.0)
  }

  /** The smallest element of a non-empty sequence. */
  function SeqMin(s: seq<real>): (m: real)
    requires |s| >= 1
    ensures m in s && forall i :: 0 <= i < |s| ==> m <= s[i]
  {
    if |s| == 1 then s[0]
    else
      var rest := SeqMin(s[1..]);
      assert forall i :: 1 <= i < |s| ==> s[i] == s[1..][i - 1];
      if s[0] <= rest then s[0] else rest
  }

  /** Each deviate scaled by `sd`: the other contenders' remaining scores. */
  function Scaled(sd: real, zs: seq<real>): (r: seq<real>)
    ensures |r| == |zs|
  {
    if zs == [] then [] else [sd * zs[0]] + Scaled(sd, zs[1..])
  }

  /** The golfer's final deficit in one trial. */
  function You(shotsBehind: real, mean: real, sd: real, t: Trial): real {
    shotsBehind + (mean + sd * t.you)
  }

  /** A trial is won when the golfer's final deficit is at most every other contender's score (ties count as wins). */
  predicate Won(shotsBehind: real, mean: real, sd: real, t: Trial)
    requires |t.others| >= 1
  {
    You(shotsBehind, mean, sd, t) <= SeqMin(Scaled(sd, t.others))
  }

  /**
   * Comparing with the minimum is comparing with every other contender: a
   * trial is won exactly when the golfer's deficit is at most each rival's
   * scaled score.
   */
  lemma WonIff(shotsBehind: real, mean: real, sd: real, t: Trial)
    requires |t.others| >= 1
    ensures Won(shotsBehind, mean, sd, t)
            <==> forall j :: 0 <= j < |t.others| ==> You(shotsBehind, mean, sd, t) <= Scaled(sd, t.others)[j]
  {
    AtMostMinIff(You(shotsBehind, mean, sd, t), Scaled(sd, t.others));
    if !Won(shotsBehind, mean, sd, t) {
      var j :| 0 <= j < |t.others| && Scaled(sd, t.others)[j] == SeqMin(Scaled(sd, t.others));
      assert !(You(shotsBehind, mean, sd, t) <= Scaled(sd, t.others)[j]);
    }
  }

  /** Being at most the minimum is being at most every element. */
  lemma AtMostMinIff(y: real, s: seq<real>)
    requires |s| >= 1
    ensures y <= SeqMin(s) <==> forall j :: 0 <= j < |s| ==> y <= s[j]
  {
    var m := SeqMin(s);
    if y > m {
      var j :| 0 <= j < |s| && s[j] == m;
      assert !(y <= s[j]);
    }
  }

  /** The `j`-th scaled score is the `j`-th deviate times the scale. */
  lemma {:induction false} ScaledAt(sd: real, zs: seq<real>, j: int)
    requires 0 <= j < |zs|
    ensures Scaled(sd, zs)[j] == sd * zs[j]
  {
    if j > 0 {
      ScaledAt(sd, zs[1..], j - 1);
    }
  }

  /** Every trial has draws for `contenders - 1` rivals. */
  predicate Shaped(trials: seq<Trial>, contenders: int) {
    forall k :: 0 <= k < |trials| ==> |trials[k].others| == contenders - 1
  }

  /** The number of won trials. */
  function Wins(shotsBehind: real, mean: real, sd: real, trials: seq<Trial>): (w: nat)
    requires forall k :: 0 <= k < |trials| ==> |trials[k].others| >= 1
    ensures w <= |trials|
  {
    if trials == [] then 0
    else
      var last := trials[|trials| - 1];
      Wins(shotsBehind, mean, sd, trials[..|trials| - 1])
      + (if Won(shotsBehind, mean, sd, last) then 1 else 0)
  }

  /**
   * A golfer who starts no further behind and expects no worse a score
   * change wins every trial the other one wins (same draws), so at least
   * as many.
   */
  lemma {:induction false} WinsAntitone(sb1: real, mean1: real, sb2: real, mean2: real, sd: real, trials: seq<Trial>)
    requires forall k :: 0 <= k < |trials| ==> |trials[k].others| >= 1
    requires sb1 + mean1 <= sb2 + mean2
    ensures Wins(sb2, mean2, sd, trials) <= Wins(sb1, mean1, sd, trials)
  {
    if trials != [] {
      var init := trials[..|trials| - 1];
      WinsAntitone(sb1, mean1, sb2, mean2, sd, init);
      var last := trials[|trials| - 1];
      assert You(sb1, mean1, sd, last) <= You(sb2, mean2, sd, last);
    }
  }

  /** Trailing by more shots never wins more trials. */
  lemma WinsAntitoneInDeficit(sb1: real, sb2: real, mean: real, sd: real, trials: seq<Trial>)
    requires forall k :: 0 <= k < |trials| ==> |trials[k].others| >= 1
    requires sb1 <= sb2
    ensures Wins(sb2, mean, sd, trials) <= Wins(sb1, mean, sd, trials)
  {
    WinsAntitone(sb1, mean, sb2, mean, sd, trials);
  }

  /** Expecting to gain more strokes over the remaining holes never wins fewer trials. */
  lemma WinsMonotoneInStrokesGained(sg1: real, sg2: real, holesLeft: int, shotsBehind: real, sd: real, trials: seq<Trial>)
    requires forall k :: 0 <= k < |trials| ==> |trials[k].others| >= 1
    requires sg1 <= sg2 && holesLeft >= 0
    ensures Wins(shotsBehind, MeanDelta(sg1, holesLeft), sd, trials) <= Wins(shotsBehind, MeanDelta(sg2, holesLeft), sd, trials)
  {
    assert sg1 * holesLeft as real <= sg2 * holesLeft as real;
    WinsAntitone(shotsBehind, MeanDelta(sg2, holesLeft), shotsBehind, MeanDelta(sg1, holesLeft), sd, trials);
  }

  /** The returned estimate: won trials over trials. */
  function WinFraction(shotsBehind: real, mean: real, sd: real, trials: seq<Trial>): (p: real)
    requires |trials| >= 1 && forall k :: 0 <= k < |trials| ==> |trials[k].others| >= 1
    ensures 0.0 <= p <= 1.0
  {
    var w := Wins(shotsBehind, mean, sd, trials);
    FractionBounds(w as real, |trials| as real);
    w as real / |trials| as real
  }

  /** A count out of a positive total is a fraction between 0 and 1. */
  lemma FractionBounds(w: real, n: real)
    requires 0.0 <= w <= n && n > 0.0
    ensures 0.0 <= w / n <= 1.0
  {
    assert w / n * n == w;
  }

  /**
   * `simulate_win_prob` with one supplied trial per simulation.  `root` is
   * `math.sqrt(holes_left / 18)`; the source needs `holes_left >= 0` (the
   * root of a negative number raises), at least two contenders (the minimum
   * of no rivals raises), a non-negative scale (numpy refuses a negative
   * one) and at least one simulation (`wins / sims` divides by it).
   */
  method SimulateWinProb(shotsBehind: real, holesLeft: int, sgExpectRound: real, contenders: int,
                         rndSd: real, root: real, trials: seq<Trial>) returns (p: real)
    requires holesLeft >= 0 && contenders >= 2 && rndSd >= 0.0 && IsRoot(root, holesLeft as real / 18.0)
    requires |trials| >= 1 && Shaped(trials, contenders)
    ensures p == WinFraction(shotsBehind, MeanDelta(sgExpectRound, holesLeft), rndSd * root, trials)
    ensures 0.0 <= p <= 1.0
  {
    var meanDelta := -(sgExpectRound * holesLeft as real / 18.0);
    var sdScale := rndSd * root;
    var wins := CountWins(shotsBehind, meanDelta, sdScale, trials);
    FractionBounds(wins as real, |trials| as real);
    return wins as real / |trials| as real;
  }

  /** The simulation loop of `simulate_win_prob`: one pass over the trials, counting the won ones. */
  method CountWins(shotsBehind: real, meanDelta: real, sdScale: real, trials: seq<Trial>) returns (wins: nat)
    requires forall k :: 0 <= k < |trials| ==> |trials[k].others| >= 1
    ensures wins == Wins(shotsBehind, meanDelta, sdScale, trials)
  {
    wins := 0;
    for k := 0 to |trials|
      invariant wins == Wins(shotsBehind, meanDelta, sdScale, trials[..k])
    {
      WinsStep(shotsBehind, meanDelta, sdScale, trials, k);
      var you := shotsBehind + (meanDelta + sdScale * trials[k].you);
      var others := Scaled(sdScale, trials[k].others);
      assert Won(shotsBehind, meanDelta, sdScale, trials[k]) <==> you <= SeqMin(others);
      if you <= SeqMin(others) {
        wins := wins + 1;
      }
    }
    assert trials[..|trials|] == trials;
  }

  /** Counting one more trial adds one exactly when it is won. */
  lemma WinsStep(shotsBehind: real, mean: real, sd: real, trials: seq<Trial>, k: nat)
    requires forall k :: 0 <= k < |trials| ==> |trials[k].others| >= 1
    requires k < |trials|
    ensures Wins(shotsBehind, mean, sd, trials[..k + 1])
            == Wins(shotsBehind, mean, sd, trials[..k]) + (if Won(shotsBehind, mean, sd, trials[k]) then 1 else 0)
  {
    assert trials[..k + 1][..k] == trials[..k];
    assert trials[..k + 1][k] == trials[k];
  }
}
