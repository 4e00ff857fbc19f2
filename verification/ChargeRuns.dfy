/** The charges handed on by reports, over every run: what was charged for a live
    span is exactly what its record says, so it is one submitted slash at most. */
module ChargeRuns {
  import opened Accounts
  import opened Arithmetic
  import opened Spans
  import opened SpanRecords
  import opened Inspecting
  import opened Offences
  import opened SlashingRuns
  import Disabling

  // ---------- the charges of one report ----------

  /** What is handed on for one staker: the span its slash falls into, if any, and the slash and reward for it. */
  datatype Charge = Charge(who: AccountId, span: Option<nat>, slash: SlashEntity, reward: SlashEntity)

  ghost function ChargeOf(store: Store, who: AccountId, p: SlashParams, s: Submission): Charge
    requires StoredWellFormed(store)
  {
    FetchedWellFormed(store, who, p.windowStart);
    var r := Report(store, who, p.windowStart, p.now, p.slashEra, s, ZERO);
    var span := EraSpan(Fetched(store, who, p.windowStart).spans[who], p.slashEra);
    Charge(who, if span.Some? then Some(span.value.index) else None, r.slashOf, r.paidOut)
  }

  /** The slash submitted for the `k`-th cooperator. */
  ghost function CooperatorSubmission(l: CooperatorLoop, p: SlashParams, k: nat, prior: Fractions, loss: Fractions,
                                      reputations: Reputations): Submission
    requires StoredWellFormed(l.store) && k < |p.others|
  {
    var before, c := SlashCooperators(l, p, k, prior, loss, reputations), p.others[k];
    Submission(GrownEraSlash(EraSlashOf(before.cooperatorSlash, p.slashEra, c.who),
                             SlashEntity(reputations.PointsOf(c.who), c.value), prior, loss), p.rewardProportion)
  }

  /** The charges so far, and those of the first `count` cooperators. */
  ghost function CooperatorCharges(charges: seq<Charge>, l: CooperatorLoop, p: SlashParams, count: nat,
                                   prior: Fractions, loss: Fractions, reputations: Reputations): seq<Charge>
    requires StoredWellFormed(l.store) && count <= |p.others|
  {
    if count == 0 then charges
    else
      CooperatorCharges(charges, l, p, count - 1, prior, loss, reputations)
      + [ChargeOf(SlashCooperators(l, p, count - 1, prior, loss, reputations).store, p.others[count - 1].who, p,
                  CooperatorSubmission(l, p, count - 1, prior, loss, reputations))]
  }

  /** The loop over the cooperators as an accepted offence starts it. */
  ghost function LoopStart(state: State, p: SlashParams, reputations: Reputations): (l: CooperatorLoop)
    requires StoredWellFormed(state.store)
    ensures StoredWellFormed(l.store)
  {
    var s := Submission(OwnSlash(p, reputations), p.rewardProportion);
    CooperatorLoop(Report(state.store, p.stash, p.windowStart, p.now, p.slashEra, s, ZERO).store, state.cooperatorSlash,
                   [], ZERO)
  }

  /** The charges of an offence, the validator's first; none when it is rejected or only kicks. */
  ghost function ChargesOf(state: State, p: SlashParams, reputations: Reputations): seq<Charge>
    requires StoredWellFormed(state.store)
  {
    var own, prior, loss := OwnSlash(p, reputations), PriorLoss(state, p.slashEra, p.stash), LossOf(p, reputations);
    if own.IsAnyZero() || !loss.Exceeds(prior) then []
    else
      CooperatorCharges([ChargeOf(state.store, p.stash, p, Submission(own, p.rewardProportion))],
                        LoopStart(state, p, reputations), p, |p.others|, prior, loss, reputations)
  }

  ghost function RewardSum(charges: seq<Charge>): SlashEntity {
    if |charges| == 0 then ZERO else RewardSum(charges[..|charges| - 1]).Plus(charges[|charges| - 1].reward)
  }

  /** The charges are what the unapplied slash holds: the validator's slash, the cooperators' in order, and the
      payout. */
  ghost predicate HandedOn(u: UnappliedSlash, charges: seq<Charge>) {
    && |charges| == 1 + |u.others|
    && charges[0].who == u.validator && charges[0].slash == u.own
    && (forall k :: 0 <= k < |u.others| ==> u.others[k] == (charges[k + 1].who, charges[k + 1].slash))
    && u.payout == RewardSum(charges)
  }

  lemma RewardSumSnoc(charges: seq<Charge>, c: Charge)
    ensures RewardSum(charges + [c]) == RewardSum(charges).Plus(c.reward)
  {
    assert (charges + [c])[..|charges|] == charges;
  }

  lemma FirstHandedOn(charge: Charge)
    ensures HandedOn(UnappliedSlash(charge.who, charge.slash, [], charge.reward.Plus(ZERO)), [charge])
  {
    RewardSumSnoc([], charge);
    assert [] + [charge] == [charge];
  }

  lemma NextHandedOn(u: UnappliedSlash, charges: seq<Charge>, c: Charge)
    requires HandedOn(u, charges)
    ensures HandedOn(u.(others := u.others + [(c.who, c.slash)], payout := u.payout.Plus(c.reward)), charges + [c])
  {
    RewardSumSnoc(charges, c);
  }

  /** The reward collected so far does not influence a report but is added to. */
  lemma ReportAdds(store: Store, who: AccountId, p: SlashParams, s: Submission, paidOut: SlashEntity)
    requires StoredWellFormed(store)
    ensures var r := Report(store, who, p.windowStart, p.now, p.slashEra, s, paidOut);
      var c := ChargeOf(store, who, p, s);
      && r.store == Report(store, who, p.windowStart, p.now, p.slashEra, s, ZERO).store
      && r.slashOf == c.slash && r.paidOut == paidOut.Plus(c.reward)
  {
    hide Inspected, EraSpan, WellFormed;
    PaidOutIrrelevant(store, who, p.windowStart, p.now, p.slashEra, s, paidOut);
    FetchedWellFormed(store, who, p.windowStart);
  }

  lemma {:induction false} CooperatorsHandedOn(charge: Charge, l: CooperatorLoop, p: SlashParams, count: nat,
                                               prior: Fractions, loss: Fractions, reputations: Reputations)
    requires StoredWellFormed(l.store) && count <= |p.others| && l.slashed == [] && l.paidOut == ZERO
    ensures var end := SlashCooperators(l, p, count, prior, loss, reputations);
      var charges := CooperatorCharges([charge], l, p, count, prior, loss, reputations);
      HandedOn(UnappliedSlash(charge.who, charge.slash, end.slashed, charge.reward.Plus(end.paidOut)), charges)
  {
    hide Report, ChargeOf, GrownEraSlash, StoredWellFormed, HandedOn;
    if count == 0 {
      FirstHandedOn(charge);
    } else {
      CooperatorsHandedOn(charge, l, p, count - 1, prior, loss, reputations);
      var before := SlashCooperators(l, p, count - 1, prior, loss, reputations);
      var charges := CooperatorCharges([charge], l, p, count - 1, prior, loss, reputations);
      var who, s := p.others[count - 1].who, CooperatorSubmission(l, p, count - 1, prior, loss, reputations);
      ReportAdds(before.store, who, p, s, before.paidOut);
      ChargeIsFor(before.store, who, p, s);
      var u := UnappliedSlash(charge.who, charge.slash, before.slashed, charge.reward.Plus(before.paidOut));
      NextHandedOn(u, charges, ChargeOf(before.store, who, p, s));
    }
  }

  lemma ChargeIsFor(store: Store, who: AccountId, p: SlashParams, s: Submission)
    requires StoredWellFormed(store)
    ensures ChargeOf(store, who, p, s).who == who
  {}

  /** What an offence hands on is exactly its charges. */
  lemma OffenceHandsOnCharges(state: State, p: SlashParams, reputations: Reputations, session: Disabling.Session)
    requires StoredWellFormed(state.store)
    ensures match Computed(state, p, reputations, session).1
      case None => ChargesOf(state, p, reputations) == []
      case Some(u) => HandedOn(u, ChargesOf(state, p, reputations))
  {
    hide Report, ChargeOf, SlashCooperators, CooperatorCharges, HandedOn, KickedStore, OwnSlash, LossOf;
    hide StoredWellFormed;
    var own, prior, loss := OwnSlash(p, reputations), PriorLoss(state, p.slashEra, p.stash), LossOf(p, reputations);
    if !own.IsAnyZero() && loss.Exceeds(prior) {
      var s := Submission(own, p.rewardProportion);
      var charge := ChargeOf(state.store, p.stash, p, s);
      ReportAdds(state.store, p.stash, p, s, ZERO);
      ChargeIsFor(state.store, p.stash, p, s);
      CooperatorsHandedOn(charge, LoopStart(state, p, reputations), p, |p.others|, prior, loss, reputations);
    }
  }

  // ---------- the tally of charges ----------

  /** The slash and the reward handed on so far for each span. */
  type Tally = map<RecordKey, SpanRecord>

  ghost function TallyOf(tally: Tally, key: RecordKey): SpanRecord {
    if key in tally then tally[key] else EMPTY_RECORD
  }

  ghost function Added(tally: Tally, c: Charge): Tally {
    match c.span
    case None => tally
    case Some(index) =>
      var before := TallyOf(tally, (c.who, index));
      tally[(c.who, index) := SpanRecord(before.slashed.Plus(c.slash), before.paidOut.Plus(c.reward))]
  }

  ghost function AddedAll(tally: Tally, charges: seq<Charge>): Tally {
    if |charges| == 0 then tally else Added(AddedAll(tally, charges[..|charges| - 1]), charges[|charges| - 1])
  }

  lemma AddedSnoc(tally: Tally, charges: seq<Charge>, c: Charge)
    ensures AddedAll(tally, charges + [c]) == Added(AddedAll(tally, charges), c)
  {
    assert (charges + [c])[..|charges|] == charges;
  }

  /** The tally speaks of known spans only, and for a live span it is the record. */
  ghost predicate Tallied(store: Store, tally: Tally) {
    && (forall key :: key in tally ==> key.0 in store.spans && key.1 <= store.spans[key.0].spanIndex)
    && (forall key: RecordKey :: key.0 in store.spans && Live(store.spans[key.0], key.1) ==>
          TallyOf(tally, key) == RecordOf(store, key))
  }

  // ---------- one inspection ----------

  lemma FetchTallied(store: Store, log: Log, tally: Tally, stash: AccountId, windowStart: nat)
    requires OnlyLive(store, log) && Tallied(store, tally)
    ensures var f := Fetched(store, stash, windowStart); Tallied(Over(f, stash, f.spans[stash]), tally)
  {
    var f := Fetched(store, stash, windowStart);
    FetchLive(store, log, stash, windowStart);
    forall key: RecordKey | key.0 in f.spans && Live(f.spans[key.0], key.1)
      ensures TallyOf(tally, key) == RecordOf(f, key)
    {
      assert RecordOf(f, key) == RecordOf(store, key);
    }
  }

  lemma CompareTallied(store: Store, tally: Tally, i: Inspection, stash: AccountId, era: nat, s: Submission, c: Charge)
    requires WellFormed(i.spans) && Tallied(Over(store, stash, i.spans), tally)
    requires c.who == stash && i.paidOut == ZERO && i.slashOf == ZERO
    requires var (_, i', span) := Compared(store, i, stash, era, s);
      c.span == span && c.slash == i'.slashOf && c.reward == i'.paidOut
    ensures var (store', i', _) := Compared(store, i, stash, era, s);
      Tallied(Over(store', stash, i'.spans), Added(tally, c))
  {
    hide Compared, WellFormed, RecordOf, TallyOf;
    CompareKeepsSpans(store, i, stash, era, s);
    var (store', i', span) := Compared(store, i, stash, era, s);
    var before, after := Over(store, stash, i.spans), Over(store', stash, i'.spans);
    forall key: RecordKey | key.0 in after.spans && Live(after.spans[key.0], key.1)
      ensures TallyOf(Added(tally, c), key) == RecordOf(after, key)
    {
      CompareAdds(store, i, stash, era, s, key);
      AddedAt(tally, c, key);
      SameRecords(store, stash, i.spans, key);
      SameRecords(store', stash, i'.spans, key);
      assert Live(before.spans[key.0], key.1);
    }
    forall key | key in Added(tally, c) ensures key.0 in after.spans && key.1 <= after.spans[key.0].spanIndex {}
  }

  lemma SameRecords(store: Store, stash: AccountId, spans: SpansValue, key: RecordKey)
    ensures RecordOf(Over(store, stash, spans), key) == RecordOf(store, key)
  {}

  lemma AddedAt(tally: Tally, c: Charge, key: RecordKey)
    ensures var before, after := TallyOf(tally, key), TallyOf(Added(tally, c), key);
      if c.who == key.0 && c.span == Some(key.1)
      then after == SpanRecord(before.slashed.Plus(c.slash), before.paidOut.Plus(c.reward)) else after == before
  {}

  /** A comparison adds what it accumulates to the record of its span, and to no other record. */
  lemma CompareAdds(store: Store, i: Inspection, stash: AccountId, era: nat, s: Submission, key: RecordKey)
    requires WellFormed(i.spans) && i.paidOut == ZERO && i.slashOf == ZERO
    ensures var (store', i', span) := Compared(store, i, stash, era, s);
      var before, after := RecordOf(store, key), RecordOf(store', key);
      (if stash == key.0 && span == Some(key.1)
          then after == SpanRecord(before.slashed.Plus(i'.slashOf),
                                   before.paidOut.Plus(i'.paidOut)) else after == before)
  {
    hide Submit, EraSpan, WellFormed;
    var record := RecordOf(store, key);
    SubmitBranches(record, s);
    UnchangedExactly(record, s);
    assert ZERO.Plus(Submit(record, s).increment) == Submit(record, s).increment;
    assert ZERO.Plus(Submit(record, s).reward) == Submit(record, s).reward;
  }

  lemma CompareKeepsSpans(store: Store, i: Inspection, stash: AccountId, era: nat, s: Submission)
    requires WellFormed(i.spans)
    ensures var (store', i', span) := Compared(store, i, stash, era, s);
      && store'.spans == store.spans
      && i'.spans.spanIndex == i.spans.spanIndex && i'.spans.prior == i.spans.prior
      && (span.Some? ==> Live(i.spans, span.value))
  {
    hide Submit, EraSpan, WellFormed;
    EraSpanLive(i.spans, era);
  }

  lemma EndTallied(store: Store, log: Log, tally: Tally, stash: AccountId, spans: SpansValue, now: nat)
    requires OnlyLive(Over(store, stash, spans), log) && Tallied(Over(store, stash, spans), tally)
    ensures Tallied(Over(store, stash, Ended(spans, now).0), tally)
  {
    var before, after := Over(store, stash, spans), Over(store, stash, Ended(spans, now).0);
    forall key: RecordKey | key.0 in after.spans && Live(after.spans[key.0], key.1)
      ensures TallyOf(tally, key) == RecordOf(after, key)
    {
      assert RecordOf(after, key) == RecordOf(before, key);
      assert Live(before.spans[key.0], key.1) || key !in tally;
    }
  }

  lemma DropTallied(store: Store, tally: Tally, i: Inspection, stash: AccountId, windowStart: nat)
    requires WellFormed(i.spans) && Tallied(Over(store, stash, i.spans), tally)
    requires !i.dirty ==> Over(store, stash, i.spans) == store
    ensures Tallied(Dropped(store, i, stash, windowStart), tally)
  {
    hide WellFormed, KeptCount;
    if i.dirty {
      var before, after := Over(store, stash, i.spans), Dropped(store, i, stash, windowStart);
      forall key: RecordKey | key.0 in after.spans && Live(after.spans[key.0], key.1)
        ensures TallyOf(tally, key) == RecordOf(after, key)
      {
        if key.0 == stash { PruneLosesRange(i.spans, windowStart, key.1); }
        assert TallyOf(tally, key) == RecordOf(before, key);
      }
    }
  }

  /** The steps of a report on fetched spans: compare, and end the span if it is the ongoing one. */
  lemma StepsTallied(fetched: Store, log: Log, tally: Tally, who: AccountId, era: nat, now: nat, s: Submission,
                     c: Charge)
    requires who in fetched.spans && WellFormed(fetched.spans[who])
    requires var spans := fetched.spans[who];
      OnlyLive(Over(fetched, who, spans), log) && Tallied(Over(fetched, who, spans), tally)
    requires var (_, i, target) := Compared(fetched, Inspection(false, fetched.spans[who], ZERO, ZERO), who, era, s);
      c == Charge(who, target, i.slashOf, i.paidOut)
    ensures var (compared, i, target) :=
        Compared(fetched, Inspection(false, fetched.spans[who], ZERO, ZERO), who, era, s);
      Tallied(Over(compared, who, if target == Some(i.spans.spanIndex) then Ended(i.spans, now).0 else i.spans),
              Added(tally, c))
  {
    hide Compared, Ended, WellFormed, OnlyLive, Tallied, Added, Over;
    var start := Inspection(false, fetched.spans[who], ZERO, ZERO);
    CompareLive(fetched, log, start, who, era, s);
    CompareTallied(fetched, tally, start, who, era, s, c);
    var (compared, i, target) := Compared(fetched, start, who, era, s);
    EndTallied(compared, Noted(log, fetched.spans[who], who, era, s), Added(tally, c), who, i.spans, now);
  }

  /** Adding the charge of a report keeps the tally in step. */
  lemma ReportTallied(store: Store, log: Log, tally: Tally, p: SlashParams, who: AccountId, s: Submission)
    requires InStep(store, log) && Tallied(store, tally)
    ensures Tallied(Report(store, who, p.windowStart, p.now, p.slashEra, s, ZERO).store,
                    Added(tally, ChargeOf(store, who, p, s)))
  {
    hide Compared, OnlyLive, Folded, Tallied, Added, EraSpan, WellFormed, Over;
    var fetched := Fetched(store, who, p.windowStart);
    var (inspected, i) := Inspected(store, who, p.windowStart, p.now, p.slashEra, s, ZERO);
    var c := ChargeOf(store, who, p, s);
    FetchedWellFormed(store, who, p.windowStart);
    FetchLive(store, log, who, p.windowStart);
    FetchTallied(store, log, tally, who, p.windowStart);
    CompareFinds(fetched, Inspection(false, fetched.spans[who], ZERO, ZERO), who, p.slashEra, s);
    StepsTallied(fetched, log, tally, who, p.slashEra, p.now, s, c);
    CleanInspection(store, who, p.windowStart, p.now, p.slashEra, s, ZERO);
    DropTallied(inspected, Added(tally, c), i, who, p.windowStart);
  }

  lemma CompareFinds(store: Store, i: Inspection, stash: AccountId, era: nat, s: Submission)
    requires WellFormed(i.spans)
    ensures var span := EraSpan(i.spans, era);
      Compared(store, i, stash, era, s).2 == if span.Some? then Some(span.value.index) else None
  {
    hide EraSpan, WellFormed, Submit;
  }

  lemma KickTallied(store: Store, log: Log, tally: Tally, p: SlashParams)
    requires InStep(store, log) && Tallied(store, tally)
    ensures Tallied(KickedStore(store, p.stash, p.windowStart, p.now, p.slashEra), tally)
  {
    hide OnlyLive, Folded, Tallied, EraSpan, WellFormed;
    var fetched := Fetched(store, p.stash, p.windowStart);
    FetchLive(store, log, p.stash, p.windowStart);
    FetchTallied(store, log, tally, p.stash, p.windowStart);
    EndTallied(fetched, log, tally, p.stash, fetched.spans[p.stash], p.now);
    DropTallied(fetched, tally, KickInspection(store, p.stash, p.windowStart, p.now, p.slashEra), p.stash,
                p.windowStart);
  }

  // ---------- runs ----------

  lemma {:induction false} CooperatorsTallied(l: CooperatorLoop, log: Log, tally: Tally, charges: seq<Charge>,
                                              p: SlashParams, count: nat, prior: Fractions, loss: Fractions,
                                              reputations: Reputations)
    requires InStep(l.store, log) && Tallied(l.store, AddedAll(tally, charges)) && count <= |p.others|
    ensures Tallied(SlashCooperators(l, p, count, prior, loss, reputations).store,
                    AddedAll(tally, CooperatorCharges(charges, l, p, count, prior, loss, reputations)))
  {
    hide Report, ChargeOf, Tallied, AddedAll, Added, OnlyLive, Folded, StoredWellFormed, CooperatorsLog, GrownEraSlash;
    if count > 0 {
      CooperatorsTallied(l, log, tally, charges, p, count - 1, prior, loss, reputations);
      CooperatorsInStep(l, log, p, count - 1, prior, loss, reputations);
      var before := SlashCooperators(l, p, count - 1, prior, loss, reputations);
      var earlier := CooperatorCharges(charges, l, p, count - 1, prior, loss, reputations);
      var who, s := p.others[count - 1].who, CooperatorSubmission(l, p, count - 1, prior, loss, reputations);
      ReportTallied(before.store, CooperatorsLog(l, log, p, count - 1, prior, loss, reputations),
                    AddedAll(tally, earlier), p, who, s);
      ReportAdds(before.store, who, p, s, before.paidOut);
      AddedSnoc(tally, earlier, ChargeOf(before.store, who, p, s));
    }
  }

  /** Adding the charges of an offence keeps the tally in step. */
  lemma OffenceTallied(state: State, log: Log, tally: Tally, p: SlashParams, reputations: Reputations,
                       session: Disabling.Session)
    requires InStep(state.store, log) && Tallied(state.store, tally)
    ensures Tallied(Computed(state, p, reputations, session).0.store, AddedAll(tally, ChargesOf(state, p, reputations)))
  {
    hide Report, ReportLog, ChargeOf, Tallied, Added, OnlyLive, Folded, SlashCooperators, CooperatorCharges;
    hide KickedStore;
    hide OwnSlash, LossOf;
    var own, prior, loss := OwnSlash(p, reputations), PriorLoss(state, p.slashEra, p.stash), LossOf(p, reputations);
    if own.IsAnyZero() {
      KickTallied(state.store, log, tally, p);
    } else if loss.Exceeds(prior) {
      var s := Submission(own, p.rewardProportion);
      var charge := ChargeOf(state.store, p.stash, p, s);
      ReportInStep(state.store, log, p.stash, p.windowStart, p.now, p.slashEra, s, ZERO);
      ReportTallied(state.store, log, tally, p, p.stash, s);
      AddedSnoc(tally, [], charge);
      assert [] + [charge] == [charge];
      CooperatorsTallied(LoopStart(state, p, reputations),
                         ReportLog(state.store, log, p.stash, p.windowStart, p.now, p.slashEra, s), tally, [charge],
                         p, |p.others|, prior, loss, reputations);
    }
  }

  /** The tally after an event: an offence adds its charges, clearing a stash forgets those of its spans. */
  ghost function NextTally(state: State, tally: Tally, e: Event): Tally
    requires StoredWellFormed(state.store)
  {
    match e
    case Offence(p, reputations, _) => AddedAll(tally, ChargesOf(state, p, reputations))
    case ClearStash(stash, expectedSpans) =>
      if !Cleared(state.store, stash, expectedSpans).1 then tally
      else map key | key in tally && key.0 != stash :: tally[key]
    case ClearEra(_) => tally
    case EndEra => tally
  }

  ghost function RunTally(events: seq<Event>): Tally {
    if |events| == 0 then map[]
    else
      var init := events[..|events| - 1];
      NextTally(Run(init).0, RunTally(init), events[|events| - 1])
  }

  lemma ClearTallied(state: State, log: Log, tally: Tally, stash: AccountId, expectedSpans: nat)
    requires InStep(state.store, log) && Tallied(state.store, tally)
    ensures Tallied(Cleared(state.store, stash, expectedSpans).0,
                    NextTally(state, tally, ClearStash(stash, expectedSpans)))
  {
    hide WellFormed, Folded, Iter, OnlyLive, RecordOf, Cleared;
    ClearLeavesNothing(state.store, log, stash, expectedSpans);
  }

  lemma {:induction false} RunTallied(events: seq<Event>)
    ensures Tallied(Run(events).0.store, RunTally(events))
  {
    if |events| > 0 {
      var init, last := events[..|events| - 1], events[|events| - 1];
      var (state, log) := Run(init);
      RunTallied(init);
      RunInStep(init);
      hide Tallied, Computed, ChargesOf, AddedAll, InStep;
      match last
      case Offence(p, reputations, session) => OffenceTallied(state, log, RunTally(init), p, reputations, session);
      case ClearStash(stash, expectedSpans) => ClearTallied(state, log, RunTally(init), stash, expectedSpans);
      case ClearEra(_) =>
      case EndEra =>
    }
  }

  /** In every run the slashes handed on for a live span add up to its recorded slash and the rewards to its recorded
      payout. So a staker is charged, per span, for one submitted slash at most, which no other one exceeds in both
      components, and the rewards stay within the reward proportion of one submitted slash. */
  lemma ChargedOncePerSpan(events: seq<Event>, key: RecordKey)
    requires var spans := Run(events).0.store.spans; key.0 in spans && Live(spans[key.0], key.1)
    ensures var total, subs := TallyOf(RunTally(events), key), LogOf(Run(events).1, key);
      && total == RecordOf(Run(events).0.store, key)
      && (total.slashed == ZERO || exists k :: 0 <= k < |subs| && subs[k].slash == total.slashed)
      && (forall k :: 0 <= k < |subs| ==> !subs[k].slash.Above(total.slashed))
      && WithinRewardCap(total.paidOut.reputation, ReputationRewards(subs))
      && WithinRewardCap(total.paidOut.stake, StakeRewards(subs))
  {
    hide Run, RunTally, RecordOf, TallyOf, LogOf, WithinRewardCap, Live;
    RunTallied(events);
    RunNeverOverslashes(events, key);
  }
}
