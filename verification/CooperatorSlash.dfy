/** The slash a cooperator accumulates in one era through all its validators:
    it never falls, and it is the sum of the validators' losses exactly when no
    accepted report lowers the stake slashed through its validator. */
module CooperatorSlash {
  import opened Accounts
  import opened Arithmetic
  import opened SpanRecords
  import opened Inspecting
  import opened Offences
  import opened SlashingRuns
  import Disabling

  // ---------- one report ----------

  /** Where a cooperator stands in an exposure. */
  ghost predicate ExposedOnce(others: seq<IndividualExposure>, who: AccountId, value: nat) {
    if exists k :: 0 <= k < |others| && others[k].who == who then
      exists k :: 0 <= k < |others| && others[k] == IndividualExposure(who, value)
        && forall j :: 0 <= j < |others| && j != k ==> others[j].who != who
    else value == 0
  }

  lemma {:induction false} LoopSkips(l: CooperatorLoop, p: SlashParams, count: nat, prior: Fractions, loss: Fractions,
                                     reputations: Reputations, era: nat, who: AccountId)
    requires StoredWellFormed(l.store) && count <= |p.others|
    requires era == p.slashEra ==> forall k :: 0 <= k < count ==> p.others[k].who != who
    ensures EraSlashOf(SlashCooperators(l, p, count, prior, loss, reputations).cooperatorSlash, era, who)
         == EraSlashOf(l.cooperatorSlash, era, who)
  {
    hide Report;
    if count > 0 { LoopSkips(l, p, count - 1, prior, loss, reputations, era, who); }
  }

  lemma {:induction false} LoopGrows(l: CooperatorLoop, p: SlashParams, count: nat, prior: Fractions, loss: Fractions,
                                     reputations: Reputations, k: nat)
    requires StoredWellFormed(l.store) && k < count <= |p.others|
    requires forall j :: 0 <= j < count && j != k ==> p.others[j].who != p.others[k].who
    ensures var c := p.others[k];
      EraSlashOf(SlashCooperators(l, p, count, prior, loss, reputations).cooperatorSlash, p.slashEra, c.who)
        == GrownEraSlash(EraSlashOf(l.cooperatorSlash, p.slashEra, c.who),
                         SlashEntity(reputations.PointsOf(c.who), c.value), prior, loss)
  {
    hide Report, GrownEraSlash;
    if k == count - 1 {
      LoopSkips(l, p, count - 1, prior, loss, reputations, p.slashEra, p.others[k].who);
    } else {
      LoopGrows(l, p, count - 1, prior, loss, reputations, k);
    }
  }

  lemma {:induction false} LoopNeverFalls(l: CooperatorLoop, p: SlashParams, count: nat, prior: Fractions,
                                          loss: Fractions, reputations: Reputations, era: nat, who: AccountId)
    requires StoredWellFormed(l.store) && count <= |p.others|
    ensures EraSlashOf(l.cooperatorSlash, era, who).AtMost(
      EraSlashOf(SlashCooperators(l, p, count, prior, loss, reputations).cooperatorSlash, era, who))
  {
    hide Report, PerbillMul;
    if count > 0 { LoopNeverFalls(l, p, count - 1, prior, loss, reputations, era, who); }
  }

  /** No report lowers what any cooperator is slashed in any era. */
  lemma EraSlashNeverFalls(state: State, p: SlashParams, reputations: Reputations, session: Disabling.Session,
                           era: nat, who: AccountId)
    requires StoredWellFormed(state.store)
    ensures EraSlashOf(state.cooperatorSlash, era, who).AtMost(
      EraSlashOf(Computed(state, p, reputations, session).0.cooperatorSlash, era, who))
  {
    hide Report, SlashCooperators, KickedStore, OwnSlash, LossOf;
    var own, prior, loss := OwnSlash(p, reputations), PriorLoss(state, p.slashEra, p.stash), LossOf(p, reputations);
    if !own.IsAnyZero() && loss.Exceeds(prior) {
      var reported := Report(state.store, p.stash, p.windowStart, p.now, p.slashEra,
                             Submission(own, p.rewardProportion), ZERO);
      LoopNeverFalls(CooperatorLoop(reported.store, state.cooperatorSlash, [], ZERO), p, |p.others|, prior, loss,
                     reputations, era, who);
    }
  }

  /** Whether a report is the worst of its validator's era so far, and changes its loss. */
  ghost predicate Accepted(state: State, p: SlashParams, reputations: Reputations) {
    !OwnSlash(p, reputations).IsAnyZero() && LossOf(p, reputations).Exceeds(PriorLoss(state, p.slashEra, p.stash))
  }

  /** The stake slashed through one validator with the given loss. */
  ghost function Through(loss: Fractions, value: nat): nat { PerbillMul(loss.stake, value) }

  /** A report grows a cooperator's era slash by the growth of the loss of the reported validator. */
  lemma ReportGrowsEraSlash(state: State, p: SlashParams, reputations: Reputations, session: Disabling.Session,
                            who: AccountId, value: nat)
    requires StoredWellFormed(state.store) && ExposedOnce(p.others, who, value)
    ensures var before := EraSlashOf(state.cooperatorSlash, p.slashEra, who).stake;
      var after := EraSlashOf(Computed(state, p, reputations, session).0.cooperatorSlash, p.slashEra, who).stake;
      if Accepted(state, p, reputations) then
        after == before + SatSub(Through(LossOf(p, reputations), value),
                                 Through(PriorLoss(state, p.slashEra, p.stash), value))
      else after == before
  {
    hide Report, SlashCooperators, KickedStore, OwnSlash, LossOf, PerbillMul;
    if Accepted(state, p, reputations) {
      var prior, loss := PriorLoss(state, p.slashEra, p.stash), LossOf(p, reputations);
      var reported := Report(state.store, p.stash, p.windowStart, p.now, p.slashEra,
                             Submission(OwnSlash(p, reputations), p.rewardProportion), ZERO);
      var l := CooperatorLoop(reported.store, state.cooperatorSlash, [], ZERO);
      if exists k :: 0 <= k < |p.others| && p.others[k].who == who {
        var k :| 0 <= k < |p.others| && p.others[k] == IndividualExposure(who, value)
          && forall j :: 0 <= j < |p.others| && j != k ==> p.others[j].who != who;
        LoopGrows(l, p, |p.others|, prior, loss, reputations, k);
      } else {
        LoopSkips(l, p, |p.others|, prior, loss, reputations, p.slashEra, who);
        PerbillMulWhole(prior.stake);
        PerbillMulWhole(loss.stake);
      }
    }
  }

  // ---------- a whole run ----------

  /** The exposure of one cooperator in one era, validator by validator. */
  datatype Exposures = Exposures(era: nat, who: AccountId, validators: seq<AccountId>, values: map<AccountId, nat>) {
    function ValueOf(v: AccountId): nat { if v in values then values[v] else 0 }
  }

  /** The run reports, in that era, only listed validators with these exposures, and does not clear the era. */
  ghost predicate Fits(x: Exposures, events: seq<Event>) {
    forall k :: 0 <= k < |events| ==> FitsOne(x, events[k])
  }

  ghost predicate FitsOne(x: Exposures, e: Event) {
    && (e.Offence? && e.p.slashEra == x.era ==>
          e.p.stash in x.validators && ExposedOnce(e.p.others, x.who, x.ValueOf(e.p.stash)))
    && (e.ClearEra? ==> e.era != x.era)
  }

  /** The sum over the first `n` validators of the stake slashed through each at its recorded loss. */
  ghost function LossSum(x: Exposures, state: State, n: nat): nat
    requires n <= |x.validators|
  {
    if n == 0 then 0
    else
      var v := x.validators[n - 1];
      LossSum(x, state, n - 1) + Through(PriorLoss(state, x.era, v), x.ValueOf(v))
  }

  /** The event lowers what is slashed through its validator. */
  ghost predicate Lowers(x: Exposures, state: State, e: Event) {
    && e.Offence? && e.p.slashEra == x.era && Accepted(state, e.p, e.reputations)
    && Through(LossOf(e.p, e.reputations), x.ValueOf(e.p.stash))
         < Through(PriorLoss(state, x.era, e.p.stash), x.ValueOf(e.p.stash))
  }

  ghost predicate NoneLowers(x: Exposures, events: seq<Event>) {
    |events| == 0
    || (NoneLowers(x, events[..|events| - 1])
        && !Lowers(x, Run(events[..|events| - 1]).0, events[|events| - 1]))
  }

  lemma {:induction false} LossSumAgrees(x: Exposures, a: State, b: State, n: nat)
    requires n <= |x.validators|
    requires forall k :: 0 <= k < n ==> PriorLoss(a, x.era, x.validators[k]) == PriorLoss(b, x.era, x.validators[k])
    ensures LossSum(x, a, n) == LossSum(x, b, n)
  {
    if n > 0 { LossSumAgrees(x, a, b, n - 1); }
  }

  lemma {:induction false} LossSumUpdate(x: Exposures, a: State, b: State, n: nat, k: nat)
    requires k < n <= |x.validators| && Distinct(x.validators)
    requires forall j :: 0 <= j < n && j != k ==>
      PriorLoss(a, x.era, x.validators[j]) == PriorLoss(b, x.era, x.validators[j])
    ensures var v := x.validators[k];
      LossSum(x, b, n) + Through(PriorLoss(a, x.era, v), x.ValueOf(v))
        == LossSum(x, a, n) + Through(PriorLoss(b, x.era, v), x.ValueOf(v))
  {
    if k == n - 1 { LossSumAgrees(x, a, b, n - 1); } else { LossSumUpdate(x, a, b, n - 1, k); }
  }

  /** How one event moves the era slash and the loss sum. */
  lemma EventMoves(x: Exposures, state: State, e: Event)
    requires StoredWellFormed(state.store) && Distinct(x.validators) && FitsOne(x, e)
    ensures var n := |x.validators|;
      var after := Next(state, e);
      var slash := EraSlashOf(state.cooperatorSlash, x.era, x.who).stake;
      var slash' := EraSlashOf(after.cooperatorSlash, x.era, x.who).stake;
      && slash' - LossSum(x, after, n) >= slash - LossSum(x, state, n)
      && (slash' - LossSum(x, after, n) == slash - LossSum(x, state, n) <==> !Lowers(x, state, e))
  {
    hide Computed, Cleared, Through, OwnSlash, LossOf;
    var n, after := |x.validators|, Next(state, e);
    if e.Offence? {
      OffenceLosses(state, e.p, e.reputations, e.session);
      if e.p.slashEra == x.era {
        ReportGrowsEraSlash(state, e.p, e.reputations, e.session, x.who, x.ValueOf(e.p.stash));
        var k :| 0 <= k < n && x.validators[k] == e.p.stash;
        LossSumUpdate(x, state, after, n, k);
      } else {
        OtherEraUntouched(state, e.p, e.reputations, e.session, x.era, x.who);
        LossSumAgrees(x, state, after, n);
      }
    } else {
      LossSumAgrees(x, state, after, n);
    }
  }

  /** An accepted report sets its validator's loss in its era, and no report sets anything else. */
  lemma OffenceLosses(state: State, p: SlashParams, reputations: Reputations, session: Disabling.Session)
    requires StoredWellFormed(state.store)
    ensures var after := Computed(state, p, reputations, session).0;
      forall era, v :: PriorLoss(after, era, v) ==
        if era == p.slashEra && v == p.stash && Accepted(state, p, reputations) then LossOf(p, reputations)
        else PriorLoss(state, era, v)
  {
    hide Report, SlashCooperators, KickedStore, OwnSlash, LossOf;
  }

  lemma OtherEraUntouched(state: State, p: SlashParams, reputations: Reputations, session: Disabling.Session,
                          era: nat, who: AccountId)
    requires StoredWellFormed(state.store) && era != p.slashEra
    ensures EraSlashOf(Computed(state, p, reputations, session).0.cooperatorSlash, era, who)
         == EraSlashOf(state.cooperatorSlash, era, who)
  {
    hide Report, SlashCooperators, KickedStore, OwnSlash, LossOf;
    if Accepted(state, p, reputations) {
      var reported := Report(state.store, p.stash, p.windowStart, p.now, p.slashEra,
                             Submission(OwnSlash(p, reputations), p.rewardProportion), ZERO);
      LoopSkips(CooperatorLoop(reported.store, state.cooperatorSlash, [], ZERO), p, |p.others|,
                PriorLoss(state, p.slashEra, p.stash), LossOf(p, reputations), reputations, era, who);
    }
  }

  /** Whatever the order of validators and reports, a cooperator's era slash covers the
      losses of its validators, and equals them exactly when no report lowered one. */
  lemma {:induction false} EraSlashIsLossSum(x: Exposures, events: seq<Event>)
    requires Distinct(x.validators) && Fits(x, events)
    ensures var state := Run(events).0;
      var slash := EraSlashOf(state.cooperatorSlash, x.era, x.who).stake;
      && slash >= LossSum(x, state, |x.validators|)
      && (slash == LossSum(x, state, |x.validators|) <==> NoneLowers(x, events))
  {
    hide Next, NextLog, Lowers;
    if |events| == 0 {
      GenesisLosses(x, |x.validators|);
    } else {
      var init, last := events[..|events| - 1], events[|events| - 1];
      EraSlashIsLossSum(x, init);
      EventMoves(x, Run(init).0, last);
    }
  }

  lemma {:induction false} GenesisLosses(x: Exposures, n: nat)
    requires n <= |x.validators|
    ensures LossSum(x, GENESIS, n) == 0
  {
    hide PerbillMul;
    if n > 0 {
      GenesisLosses(x, n - 1);
      PerbillMulWhole(x.ValueOf(x.validators[n - 1]));
    }
  }

  /** With an unchanged reputation and stake, an accepted report never lowers either component of the loss. */
  lemma SteadyValidatorNeverLowers(p: SlashParams, q: SlashParams, reputations: Reputations)
    requires p.own == q.own && LossOf(q, reputations).Exceeds(LossOf(p, reputations))
    ensures p.slash < q.slash
    ensures LossOf(p, reputations).reputation <= LossOf(q, reputations).reputation
    ensures LossOf(p, reputations).stake <= LossOf(q, reputations).stake
  {
    if q.slash <= p.slash { LossMono(q, p, reputations); } else { LossMono(p, q, reputations); }
  }

  lemma LossMono(p: SlashParams, q: SlashParams, reputations: Reputations)
    requires p.own == q.own && p.slash <= q.slash
    ensures LossOf(p, reputations).reputation <= LossOf(q, reputations).reputation
    ensures LossOf(p, reputations).stake <= LossOf(q, reputations).stake
  {
    hide PerbillMul, PerbillFromRational;
    PerbillMulMono(p.slash, q.slash, reputations.slashable, reputations.slashable);
    PerbillMulMono(p.slash, q.slash, p.own, p.own);
    var a, b := OwnSlash(p, reputations), OwnSlash(q, reputations);
    PerbillFromRationalMono(a.reputation, b.reputation, reputations.points);
    PerbillFromRationalMono(a.stake, b.stake, p.own);
  }

  // ---------- a run that slashes twice ----------

  /** A report of validator 1 in era 0, with cooperator 2 exposed with 100. */
  function ReportOfOne(slash: Perbill, own: nat, points: nat, slashable: nat): Event {
    Offence(SlashParams(1, slash, own, [IndividualExposure(2, 100)], 0, 0, 0, 0),
            Reputations(points, slashable, map[]), Disabling.Session([], 0, 0))
  }

  /** Reports of 50%, 48% and 50%: at the first only a part of the validator's points is slashable, at the others all
      of the points it has then are. */
  function ThreeReports(unit: nat, points: nat, slashable: nat, fewer: nat): seq<Event> {
    [ReportOfOne(500_000_000, 100 * unit, points, slashable), ReportOfOne(480_000_000, 100 * unit, fewer, fewer),
     ReportOfOne(500_000_000, 100 * unit, fewer, fewer)]
  }

  /** At most 95% of the points are slashable, and the points are enough for rounding not to matter. This is so for
      a validator with 100 million points, which give it rank 5 and protect the 7,398,066 of rank 1, and for one with
      50 million, which give it rank 3 and protect none. */
  predicate PartlySlashable(unit: nat, points: nat, slashable: nat, fewer: nat) {
    unit > 0 && 2 <= slashable && 100 * slashable <= 95 * points && points >= 1000 && fewer >= 1000
  }

  function ExposedToOne(): Exposures { Exposures(0, 2, [1], map[1 := 100]) }

  lemma RationalAtMost(p: nat, q: nat, bound: nat)
    requires 0 < q && p <= q && p * 1_000_000_000 <= bound * q
    ensures PerbillFromRational(p, q) <= bound
  {
    var r := PerbillFromRational(p, q);
    ProductIs(bound, q);
    if bound < r { ProductLess(bound, r, q); }
  }

  lemma RationalAtLeast(p: nat, q: nat, bound: nat)
    requires 0 < q && p <= q && bound * q <= p * 1_000_000_000
    ensures PerbillFromRational(p, q) >= bound
  {
    var r := PerbillFromRational(p, q);
    ProductIs(bound, q);
    if r < bound { ProductLess(r, bound, q); }
  }

  /** The loss of a report whose fraction divides the stake evenly. */
  lemma ReportedLoss(percent: nat, unit: nat, points: nat, slashable: nat)
    requires percent <= 100 && unit > 0 && 0 < points && slashable <= points
    ensures var e := ReportOfOne(10_000_000 * percent, 100 * unit, points, slashable);
      var own := OwnSlash(e.p, e.reputations);
      && LossOf(e.p, e.reputations).stake == 10_000_000 * percent && own.stake == percent * unit
      && 2 * percent * slashable <= 200 * own.reputation + 100 && 200 * own.reputation <= 2 * percent * slashable + 99
      && own.reputation <= points
      && LossOf(e.p, e.reputations).reputation == PerbillFromRational(own.reputation, points)
  {
    hide PerbillMul, PerbillFromRational;
    var p: Perbill := 10_000_000 * percent;
    PerbillMulNearest(p, 100 * unit, percent * unit);
    assert p * (100 * unit) == 1_000_000_000 * (percent * unit);
    var reputation := PerbillMul(p, slashable);
    PerbillMulNearest(p, slashable, reputation);
    assert p * slashable == 10_000_000 * (percent * slashable);
    PerbillMulAtMost(p, slashable);
    PerbillMulAtMost(p, 100 * unit);
    assert p * (100 * unit) == percent * unit * 1_000_000_000;
    RationalAtMost(percent * unit, 100 * unit, p);
    RationalAtLeast(percent * unit, 100 * unit, p);
  }

  /** The stake losses fall and rise again, while each report exceeds the one before it in some component. */
  lemma ReportedLosses(unit: nat, points: nat, slashable: nat, fewer: nat)
    requires PartlySlashable(unit, points, slashable, fewer)
    ensures var e := ThreeReports(unit, points, slashable, fewer);
      var a, b := LossOf(e[0].p, e[0].reputations), LossOf(e[1].p, e[1].reputations);
      var c := LossOf(e[2].p, e[2].reputations);
      && a.stake == 500_000_000 && b.stake == 480_000_000 && c.stake == 500_000_000
      && a.Exceeds(NO_LOSS) && b.Exceeds(a) && c.Exceeds(b)
      && forall k :: 0 <= k < 3 ==> !OwnSlash(e[k].p, e[k].reputations).IsAnyZero()
  {
    hide PerbillMul, PerbillFromRational, OwnSlash, LossOf;
    var e := ThreeReports(unit, points, slashable, fewer);
    ReportedLoss(50, unit, points, slashable);
    ReportedLoss(48, unit, fewer, fewer);
    ReportedLoss(50, unit, fewer, fewer);
    RationalAtMost(OwnSlash(e[0].p, e[0].reputations).reputation, points, 476_000_000);
    RationalAtLeast(OwnSlash(e[1].p, e[1].reputations).reputation, fewer, 479_000_000);
  }

  /** One accepted report of the validator: its loss becomes the reported one, and its cooperator's slash grows. */
  lemma AfterReport(state: State, e: Event)
    requires StoredWellFormed(state.store) && e.Offence?
    requires e == ReportOfOne(e.p.slash, e.p.own, e.reputations.points, e.reputations.slashable)
    requires Accepted(state, e.p, e.reputations)
    ensures var after, loss := Next(state, e), LossOf(e.p, e.reputations);
      && PriorLoss(after, 0, 1) == loss
      && EraSlashOf(after.cooperatorSlash, 0, 2).stake
           == EraSlashOf(state.cooperatorSlash, 0, 2).stake
              + SatSub(Through(loss, 100), Through(PriorLoss(state, 0, 1), 100))
  {
    hide Computed, OwnSlash, LossOf, Through, Accepted;
    assert e.p.others == [IndividualExposure(2, 100)];
    assert ExposedOnce(e.p.others, 2, 100) by { assert e.p.others[0] == IndividualExposure(2, 100); }
    OffenceLosses(state, e.p, e.reputations, e.session);
    ReportGrowsEraSlash(state, e.p, e.reputations, e.session, 2, 100);
  }

  lemma RunSnoc(events: seq<Event>, e: Event)
    ensures Run(events + [e]).0 == Next(Run(events).0, e)
  {
    assert (events + [e])[..|events|] == events;
  }

  /** A report with a smaller stake loss is accepted for its larger reputation loss, and the next one slashes the
      difference again: the cooperator is slashed 52 of 100 although its validator never lost more than a half. */
  lemma LoweredLossSlashesAgain(unit: nat, points: nat, slashable: nat, fewer: nat)
    requires PartlySlashable(unit, points, slashable, fewer)
    ensures var e, x := ThreeReports(unit, points, slashable, fewer), ExposedToOne();
      var state := Run(e).0;
      && Fits(x, e) && Lowers(x, Run(e[..1]).0, e[1])
      && EraSlashOf(state.cooperatorSlash, x.era, x.who).stake == 52 && LossSum(x, state, 1) == 50
  {
    hide Next, NextLog, PerbillMul, OwnSlash, LossOf, LossSum, PartlySlashable;
    var e, x := ThreeReports(unit, points, slashable, fewer), ExposedToOne();
    var none: seq<Event> := [];
    var s0, s1, s2 := Run(none).0, Run(none + [e[0]]).0, Run(none + [e[0]] + [e[1]]).0;
    ReportedLosses(unit, points, slashable, fewer);
    PerbillMulNearest(500_000_000, 100, 50);
    PerbillMulNearest(480_000_000, 100, 48);
    PerbillMulWhole(100);
    RunSnoc(none, e[0]);
    AfterReport(s0, e[0]);
    RunSnoc(none + [e[0]], e[1]);
    AfterReport(s1, e[1]);
    RunSnoc(none + [e[0]] + [e[1]], e[2]);
    AfterReport(s2, e[2]);
    assert e[..1] == none + [e[0]];
    assert e == none + [e[0]] + [e[1]] + [e[2]];
    forall k | 0 <= k < 3 ensures FitsOne(x, e[k]) {
      assert e[k].p.others[0] == IndividualExposure(2, 100);
    }
    OneLoss(x, Run(e).0);
  }

  lemma OneLoss(x: Exposures, state: State)
    requires x.validators == [1]
    ensures LossSum(x, state, 1) == Through(PriorLoss(state, x.era, 1), x.ValueOf(1))
  {
    assert LossSum(x, state, 0) == 0;
  }
}
