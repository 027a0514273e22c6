/**
 * The lay-staking pass of output.py: from a bankroll and the pasted report
 * lines it keeps every golfer whose model probability makes laying the
 * live odds a positive-expectation bet, sizes each lay at a quarter of the
 * Kelly fraction with a per-golfer liability cap of 10% of the bankroll,
 * and lists the lays by lay EV, best first.  Prices and probabilities are
 * exact reals.
 */
module LayStaking {
  import opened Wrappers
  import opened Text
  import opened Record
  import opened Market

  /** The share of the full Kelly stake that is bet. */
  const KellyShare: real := 0.25
  /** The per-golfer liability cap as a share of the bankroll. */
  const CapShare: real := 0.10

  /** One recommended lay: the golfer, the decimal odds, the lay EV per unit, the stake and the liability. */
  datatype Lay = Lay(name: string, odds: real, evLay: real, stake: real, liability: real)

  /** The one error of the pass: the bankroll is not a positive number. */
  datatype StakingError = InvalidBankroll

  /** The EV of laying: the opposite of backing, `1 - p * odds` per unit of backer's stake. */
  function LayEv(p: real, odds: real): (r: real)
    ensures r == 1.0 - p * odds && r == -BackEv(p, odds)
  {
    -BackEv(p, odds)
  }

  /** A lay is worth taking exactly when the model probability is below the probability the odds imply. */
  lemma LayEvPositiveIff(p: real, odds: real)
    requires odds > 0.0
    ensures LayEv(p, odds) > 0.0 <==> p < 1.0 / odds
  {
    if p < 1.0 / odds {
      assert p * odds < (1.0 / odds) * odds;
    } else {
      assert p * odds >= (1.0 / odds) * odds;
    }
  }

  /**
   * The stake plan for a quote that passed both filters: the liability is
   * the quarter-Kelly liability `KellyShare * ev * bank`, cut to the cap
   * `CapShare * bank`, and the stake is what that liability risks at these odds.
   */
  function Planned(bank: real, q: Quote): (l: Lay)
    requires bank > 0.0 && q.odds > 1.0 && LayEv(q.pModel, q.odds) > 0.0
    ensures l.name == q.name && l.odds == q.odds && l.evLay == LayEv(q.pModel, q.odds)
    ensures l.liability == Min(KellyShare * l.evLay * bank, CapShare * bank)
    ensures l.stake * (l.odds - 1.0) == l.liability
  {
    var ev := LayEv(q.pModel, q.odds);
    var liability := Min(KellyShare * ev * bank, CapShare * bank);
    Lay(q.name, q.odds, ev, liability / (q.odds - 1.0), liability)
  }

  /** What every recommended lay satisfies for bankroll `bank`. */
  predicate Admissible(l: Lay, bank: real) {
    l.odds > 1.0 && l.evLay > 0.0
    && 0.0 < l.liability <= CapShare * bank
    && l.liability <= KellyShare * l.evLay * bank
    && l.stake > 0.0 && l.stake * (l.odds - 1.0) == l.liability
  }

  /**
   * A parsed quote: dropped when the odds are at most 1 or the lay EV is
   * not positive, otherwise planned.
   */
  function Evaluate(bank: real, q: Quote): (r: Option<Lay>)
    requires bank > 0.0
    ensures r.Some? <==> q.odds > 1.0 && q.pModel < 1.0 / q.odds
    ensures r.Some? ==> q.odds > 1.0 && LayEv(q.pModel, q.odds) > 0.0 && r.value == Planned(bank, q) && Admissible(r.value, bank)
  {
    if q.odds <= 1.0 then None
    else if LayEv(q.pModel, q.odds) <= 0.0 then
      LayEvPositiveIff(q.pModel, q.odds);
      None
    else
      LayEvPositiveIff(q.pModel, q.odds);
      var l := Planned(bank, q);
      PlannedAdmissible(bank, q, l);
      Some(l)
  }

  lemma PlannedAdmissible(bank: real, q: Quote, l: Lay)
    requires bank > 0.0 && q.odds > 1.0 && LayEv(q.pModel, q.odds) > 0.0 && l == Planned(bank, q)
    ensures Admissible(l, bank)
  {
    var ev := LayEv(q.pModel, q.odds);
    var liability := Min(KellyShare * ev * bank, CapShare * bank);
    assert l == Lay(q.name, q.odds, ev, liability / (q.odds - 1.0), liability);
    assert liability > 0.0;
  }

  /** The cap binds exactly when the lay EV exceeds `CapShare / KellyShare`, that is 0.4. */
  lemma CapBindsIff(bank: real, q: Quote)
    requires bank > 0.0 && q.odds > 1.0 && LayEv(q.pModel, q.odds) > 0.0
    ensures var l := Planned(bank, q);
            (l.liability == CapShare * bank < KellyShare * l.evLay * bank) <==> l.evLay > 0.4
  {
    var ev := LayEv(q.pModel, q.odds);
    if ev > 0.4 {
      assert KellyShare * ev * bank > KellyShare * 0.4 * bank;
    } else {
      assert KellyShare * ev * bank <= KellyShare * 0.4 * bank;
    }
  }

  /** What one pasted line contributes: nothing, or one admissible lay. */
  function Assess(bank: real, line: string): (r: Option<Lay>)
    requires bank > 0.0
    ensures r.Some? ==> Admissible(r.value, bank)
  {
    match ParseLine(line)
    case None => None
    case Some(q) => Evaluate(bank, q)
  }

  /**
   * A line yields a lay exactly when it parses, its odds exceed 1 and its
   * model probability is below the probability the odds imply; the lay
   * carries the stripped name before the `|`.
   */
  lemma AssessYields(bank: real, line: string)
    requires bank > 0.0
    ensures Assess(bank, line).Some? <==> ParseLine(line).Some? && ParseLine(line).value.odds > 1.0
                                          && ParseLine(line).value.pModel < 1.0 / ParseLine(line).value.odds
    ensures Assess(bank, line).Some? ==> Assess(bank, line).value.name == NameOf(line)
  {
  }

  /** The outcome of assessing each line, in line order. */
  function Outcomes(bank: real, lines: seq<string>): (os: seq<Option<Lay>>)
    requires bank > 0.0
    ensures |os| == |lines|
  {
    if lines == [] then []
    else Outcomes(bank, lines[..|lines| - 1]) + [Assess(bank, lines[|lines| - 1])]
  }

  /** Outcome `k` is the assessment of line `k`. */
  lemma {:induction false} OutcomeAt(bank: real, lines: seq<string>, k: nat)
    requires bank > 0.0 && k < |lines|
    ensures Outcomes(bank, lines)[k] == Assess(bank, lines[k])
  {
    if k < |lines| - 1 {
      var init := lines[..|lines| - 1];
      OutcomeAt(bank, init, k);
      OutcomeShift(bank, lines, k);
      LineShift(lines, k);
    }
  }

  lemma OutcomeShift(bank: real, lines: seq<string>, k: nat)
    requires bank > 0.0 && k < |lines| - 1
    ensures Outcomes(bank, lines)[k] == Outcomes(bank, lines[..|lines| - 1])[k]
  {
  }

  lemma LineShift(lines: seq<string>, k: nat)
    requires k < |lines| - 1
    ensures lines[..|lines| - 1][k] == lines[k]
  {
  }

  /** The lays among some outcomes, in order (what the loop appends). */
  function Kept(os: seq<Option<Lay>>): (r: seq<Lay>)
    ensures |r| <= |os|
  {
    if os == [] then []
    else Kept(os[..|os| - 1]) + (match os[|os| - 1] case None => [] case Some(l) => [l])
  }

  /** A lay is kept exactly when it is one of the outcomes. */
  lemma {:induction false} KeptMembers(os: seq<Option<Lay>>, l: Lay)
    ensures l in Kept(os) <==> Some(l) in os
  {
    if os != [] {
      var init := os[..|os| - 1];
      KeptMembers(init, l);
      assert os == init + [os[|os| - 1]];
    }
  }

  /** The lays of `lines`, in line order. */
  function Collect(bank: real, lines: seq<string>): (r: seq<Lay>)
    requires bank > 0.0
    ensures |r| <= |lines|
    ensures forall l :: l in r ==> Admissible(l, bank)
  {
    var os := Outcomes(bank, lines);
    forall l | l in Kept(os)
      ensures Admissible(l, bank)
    {
      KeptMembers(os, l);
      var k :| 0 <= k < |os| && os[k] == Some(l);
      OutcomeAt(bank, lines, k);
    }
    Kept(os)
  }

  /** Every collected lay is what some line yields. */
  lemma CollectSound(bank: real, lines: seq<string>, l: Lay)
    requires bank > 0.0 && l in Collect(bank, lines)
    ensures exists k :: 0 <= k < |lines| && Assess(bank, lines[k]) == Some(l)
  {
    var os := Outcomes(bank, lines);
    KeptMembers(os, l);
    var k :| 0 <= k < |os| && os[k] == Some(l);
    OutcomeAt(bank, lines, k);
  }

  /** Every lay some line yields is collected. */
  lemma CollectComplete(bank: real, lines: seq<string>, k: nat)
    requires bank > 0.0 && k < |lines| && Assess(bank, lines[k]).Some?
    ensures Assess(bank, lines[k]).value in Collect(bank, lines)
  {
    var os := Outcomes(bank, lines);
    OutcomeAt(bank, lines, k);
    KeptMembers(os, Assess(bank, lines[k]).value);
  }

  /** Non-increasing lay EV. */
  predicate Sorted(s: seq<Lay>) {
    forall i, j :: 0 <= i < j < |s| ==> s[i].evLay >= s[j].evLay
  }

  /** Places `x` before the first lay whose EV is not above its own. */
  function Insert(x: Lay, s: seq<Lay>): seq<Lay> {
    if s == [] || s[0].evLay <= x.evLay then [x] + s
    else [s[0]] + Insert(x, s[1..])
  }

  /**
   * `list.sort(key=ev_lay, reverse=True)`: a stable sort by lay EV, best
   * first; lays with equal EV keep their order.
   */
  function SortByEv(s: seq<Lay>): seq<Lay> {
    if s == [] then [] else Insert(s[0], SortByEv(s[1..]))
  }

  lemma {:induction false} InsertPermutes(x: Lay, s: seq<Lay>)
    ensures multiset(Insert(x, s)) == multiset(s) + multiset{x}
  {
    if s != [] && s[0].evLay > x.evLay {
      InsertPermutes(x, s[1..]);
      assert s == [s[0]] + s[1..];
    }
  }

  /** Inserting keeps every EV under a bound that all the lays and `x` respect. */
  lemma {:induction false} InsertBelow(x: Lay, s: seq<Lay>, b: real)
    requires x.evLay <= b && forall i :: 0 <= i < |s| ==> s[i].evLay <= b
    ensures forall i :: 0 <= i < |Insert(x, s)| ==> Insert(x, s)[i].evLay <= b
  {
    if s != [] && s[0].evLay > x.evLay {
      InsertBelow(x, s[1..], b);
    }
  }

  lemma {:induction false} InsertSorted(x: Lay, s: seq<Lay>)
    requires Sorted(s)
    ensures Sorted(Insert(x, s))
  {
    if s != [] && s[0].evLay > x.evLay {
      InsertSorted(x, s[1..]);
      InsertBelow(x, s[1..], s[0].evLay);
    }
  }

  /** The sort returns the same lays, in non-increasing EV order. */
  lemma {:induction false} SortByEvSortsAndPermutes(s: seq<Lay>)
    ensures Sorted(SortByEv(s)) && multiset(SortByEv(s)) == multiset(s)
  {
    if s != [] {
      SortByEvSortsAndPermutes(s[1..]);
      InsertSorted(s[0], SortByEv(s[1..]));
      InsertPermutes(s[0], SortByEv(s[1..]));
      assert s == [s[0]] + s[1..];
    }
  }

  /** The lays of `s` whose EV is `v`, in order. */
  function WithEv(s: seq<Lay>, v: real): (r: seq<Lay>)
    ensures forall i :: 0 <= i < |r| ==> r[i].evLay == v
  {
    if s == [] then []
    else (if s[0].evLay == v then [s[0]] else []) + WithEv(s[1..], v)
  }

  lemma {:induction false} InsertWithEv(x: Lay, s: seq<Lay>, v: real)
    ensures WithEv(Insert(x, s), v) == (if x.evLay == v then [x] else []) + WithEv(s, v)
  {
    if s != [] && s[0].evLay > x.evLay {
      InsertWithEv(x, s[1..], v);
      assert ([s[0]] + Insert(x, s[1..]))[1..] == Insert(x, s[1..]);
    } else {
      assert ([x] + s)[1..] == s;
    }
  }

  /** Stability: among lays of equal EV the sort keeps the original order. */
  lemma {:induction false} SortByEvStable(s: seq<Lay>, v: real)
    ensures WithEv(SortByEv(s), v) == WithEv(s, v)
  {
    if s != [] {
      SortByEvStable(s[1..], v);
      InsertWithEv(s[0], SortByEv(s[1..]), v);
    }
  }

  /**
   * `calculate_lays`: `balance` is what `float()` makes of the balance
   * entry (None when it raises).  A missing or non-positive bankroll is an
   * error; otherwise every line is assessed in order, the lays are
   * collected and then sorted by lay EV, best first.
   */
  method CalculateLays(balance: Option<real>, lines: seq<string>) returns (r: Result<seq<Lay>, StakingError>)
    ensures balance.None? || balance.value <= 0.0 ==> r == Failure(InvalidBankroll)
    ensures balance.Some? && balance.value > 0.0 ==> r == Success(SortByEv(Collect(balance.value, lines)))
    ensures r.Success? ==> Sorted(r.value) && forall l :: l in r.value ==> Admissible(l, balance.value)
  {
    if balance.None? || balance.value <= 0.0 {
      return Failure(InvalidBankroll);
    }
    var bank := balance.value;
    var cap := CapShare * bank;
    var candidates: seq<Lay> := [];
    for i := 0 to |lines|
      invariant candidates == Collect(bank, lines[..i])
    {
      CollectStep(bank, lines, i);
      var lay := LayFor(bank, cap, lines[i]);
      if lay.Some? {
        candidates := candidates + [lay.value];
      }
    }
    assert lines[..|lines|] == lines;
    candidates := SortByEv(candidates);
    RecommendationsAdmissible(bank, lines);
    return Success(candidates);
  }

  /**
   * The body of the loop over the pasted lines; each early `None` is a
   * `continue` of the loop: no `|`, or a missing field.
   */
  method LayFor(bank: real, cap: real, line: string) returns (lay: Option<Lay>)
    requires bank > 0.0 && cap == CapShare * bank
    ensures lay == Assess(bank, line)
  {
    if '|' !in line {
      return None;
    }
    var name := NameOf(line);
    var rest := RestOf(line);
    var mMod := Find(ModelPercent, rest);
    var mOd := Find(LiveOdds, rest);
    if !(mMod.Some? && mOd.Some?) {
      return None;
    }
    var pModel := Percent(mMod.value);
    var liveOdds := Value(mOd.value);
    AssessParsed(bank, line, name, pModel, liveOdds);
    lay := SizeLay(bank, cap, name, pModel, liveOdds);
  }

  /**
   * The rest of the loop body, once a line has parsed: the odds and lay-EV
   * filters and the capped quarter-Kelly sizing.
   */
  method SizeLay(bank: real, cap: real, name: string, pModel: real, liveOdds: real) returns (lay: Option<Lay>)
    requires bank > 0.0 && cap == CapShare * bank
    ensures lay == Evaluate(bank, Quote(name, pModel, liveOdds))
  {
    if liveOdds <= 1.0 {
      return None;
    }
    var evBack := pModel * (liveOdds - 1.0) - (1.0 - pModel);
    var evLay := -evBack;
    assert evLay == LayEv(pModel, liveOdds);
    if evLay <= 0.0 {
      return None;
    }
    var fFull := evLay / (liveOdds - 1.0);
    var f25 := Max(0.0, fFull) * KellyShare;
    var stake := f25 * bank;
    var liability := stake * (liveOdds - 1.0);
    ghost var kellyStake, kellyLiability := stake, liability;
    if liability > cap {
      liability := cap;
      stake := liability / (liveOdds - 1.0);
    }
    SizedLay(bank, name, pModel, liveOdds, evLay, fFull, f25, kellyStake, kellyLiability, stake, liability);
    return Some(Lay(name, liveOdds, evLay, stake, liability));
  }

  /** Collecting one more line appends what that line yields. */
  lemma CollectStep(bank: real, lines: seq<string>, i: nat)
    requires bank > 0.0 && i < |lines|
    ensures Assess(bank, lines[i]).None? ==> Collect(bank, lines[..i + 1]) == Collect(bank, lines[..i])
    ensures Assess(bank, lines[i]).Some? ==> Collect(bank, lines[..i + 1]) == Collect(bank, lines[..i]) + [Assess(bank, lines[i]).value]
  {
    var os := Outcomes(bank, lines[..i + 1]);
    assert lines[..i + 1][..i] == lines[..i];
    assert os == Outcomes(bank, lines[..i]) + [Assess(bank, lines[i])];
    assert os[..i] == Outcomes(bank, lines[..i]);
  }

  /** The recommendations are in non-increasing EV order and each is admissible. */
  lemma RecommendationsAdmissible(bank: real, lines: seq<string>)
    requires bank > 0.0
    ensures Sorted(SortByEv(Collect(bank, lines)))
    ensures forall l :: l in SortByEv(Collect(bank, lines)) ==> Admissible(l, bank)
  {
    var c := Collect(bank, lines);
    SortByEvSortsAndPermutes(c);
    forall l | l in SortByEv(c)
      ensures Admissible(l, bank)
    {
      assert l in multiset(SortByEv(c));
      assert l in multiset(c);
    }
  }

  /** A line with a `|` and both fields is assessed on the quote the loop reads from it. */
  lemma AssessParsed(bank: real, line: string, name: string, pModel: real, odds: real)
    requires bank > 0.0 && '|' in line && name == NameOf(line)
    requires Find(ModelPercent, RestOf(line)).Some? && Find(LiveOdds, RestOf(line)).Some?
    requires pModel == Percent(Find(ModelPercent, RestOf(line)).value)
    requires odds == Value(Find(LiveOdds, RestOf(line)).value)
    ensures Assess(bank, line) == Evaluate(bank, Quote(name, pModel, odds))
  {
    var rest := RestOf(line);
    var pct, od := Find(ModelPercent, rest).value, Find(LiveOdds, rest).value;
    assert ParseLine(line) == Some(Quote(NameOf(line), Percent(pct), Value(od)));
  }

  /**
   * The loop's sizing (a quarter of the full Kelly fraction of the
   * bankroll, then the liability cut to the cap and the stake recomputed)
   * is the plan.
   */
  lemma SizedLay(bank: real, name: string, pModel: real, odds: real, evLay: real, fFull: real, f25: real,
                 kellyStake: real, kellyLiability: real, stake: real, liability: real)
    requires bank > 0.0 && odds > 1.0 && evLay == LayEv(pModel, odds) && evLay > 0.0
    requires fFull == evLay / (odds - 1.0) && f25 == Max(0.0, fFull) * KellyShare && kellyStake == f25 * bank
    requires kellyLiability == kellyStake * (odds - 1.0)
    requires kellyLiability > CapShare * bank ==> liability == CapShare * bank && stake == liability / (odds - 1.0)
    requires kellyLiability <= CapShare * bank ==> liability == kellyLiability && stake == kellyStake
    ensures Evaluate(bank, Quote(name, pModel, odds)) == Some(Lay(name, odds, evLay, stake, liability))
  {
    var q := Quote(name, pModel, odds);
    var d := odds - 1.0;
    KellySizing(evLay, odds, bank);
    LayEvPositiveIff(pModel, odds);
    var l := Planned(bank, q);
    assert l.stake == l.liability / d;
    assert l.liability == liability;
    if kellyStake * d <= CapShare * bank {
      assert liability / d == kellyStake;
    }
  }

  /** Sizing through the full Kelly fraction stakes exactly what the quarter-Kelly liability risks at these odds. */
  lemma KellySizing(ev: real, odds: real, bank: real)
    requires ev > 0.0 && odds > 1.0
    ensures var stake := Max(0.0, ev / (odds - 1.0)) * KellyShare * bank;
            stake * (odds - 1.0) == KellyShare * ev * bank && stake == KellyShare * ev * bank / (odds - 1.0)
  {
    var f := ev / (odds - 1.0);
    assert f * (odds - 1.0) == ev;
    assert f > 0.0;
  }

  /** A bankroll of 1000 and a 10% model chance at odds 5: lay EV 0.5, the cap binds at 100, the stake is 25. */
  lemma CappedExample()
    ensures Evaluate(1000.0, Quote("A", 0.1, 5.0)) == Some(Lay("A", 5.0, 0.5, 25.0, 100.0))
  {
  }

  /** A bankroll of 1000 and a 15% model chance at odds 4: lay EV 0.4, the quarter-Kelly liability 100 is not cut. */
  lemma UncappedExample()
    ensures Evaluate(1000.0, Quote("B", 0.15, 4.0)) == Some(Lay("B", 4.0, 0.4, 100.0 / 3.0, 100.0))
  {
  }
}
