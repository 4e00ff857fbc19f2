/** Safety of the slashing storage over every run. A log remembers, for each live
    span, the slashes submitted to it; storage stays in step with the log
    whatever is reported, kicked, pruned and cleared. */
module SlashingRuns {
  import opened Accounts
  import opened Arithmetic
  import opened Spans
  import opened SpanRecords
  import opened Inspecting
  import opened Offences
  import Disabling

  type Log = map<RecordKey, seq<Submission>>

  ghost function LogOf(log: Log, key: RecordKey): seq<Submission> {
    if key in log then log[key] else []
  }

  /** Records and log entries belong to live spans of known stashes. */
  ghost predicate OnlyLive(store: Store, log: Log) {
    forall key :: key in store.records || key in log ==>
      key.0 in store.spans && Live(store.spans[key.0], key.1)
  }

  /** Every record is what the submissions to its span make of an empty one. */
  ghost predicate Folded(store: Store, log: Log) {
    forall key :: RecordOf(store, key) == Fold(LogOf(log, key))
  }

  /** The safety of the slashing storage. */
  ghost predicate InStep(store: Store, log: Log) {
    StoredWellFormed(store) && OnlyLive(store, log) && Folded(store, log)
  }

  /** The store as if the inspected spans were already written back. */
  ghost function Over(store: Store, stash: AccountId, spans: SpansValue): Store {
    store.(spans := store.spans[stash := spans])
  }

  // ---------- one inspection ----------

  /** The log with the slash submitted to the span of its era. */
  ghost function Noted(log: Log, spans: SpansValue, stash: AccountId, era: nat, s: Submission): Log
    requires WellFormed(spans)
  {
    match EraSpan(spans, era)
    case None => log
    case Some(span) => log[(stash, span.index) := LogOf(log, (stash, span.index)) + [s]]
  }

  /** The log without the spans dropped by a write-back. */
  ghost function Forgotten(log: Log, i: Inspection, stash: AccountId, windowStart: nat): Log
    requires WellFormed(i.spans)
  {
    if !i.dirty then log
    else match PrunedRange(i.spans, windowStart)
      case Some(range) => WithoutRange(log, stash, range.0, range.1)
      case None => log
  }

  lemma FoldSnoc(subs: seq<Submission>, s: Submission)
    ensures Fold(subs + [s]) == Submit(Fold(subs), s).record
  {
    assert (subs + [s])[..|subs|] == subs;
  }

  lemma FetchedWellFormed(store: Store, stash: AccountId, windowStart: nat)
    requires StoredWellFormed(store)
    ensures WellFormed(Fetched(store, stash, windowStart).spans[stash])
  {}

  lemma EmptyFold()
    ensures Fold([]) == EMPTY_RECORD
  {}

  // The records follow the log.

  lemma CompareFolded(store: Store, log: Log, i: Inspection, stash: AccountId, era: nat, s: Submission)
    requires WellFormed(i.spans) && Folded(store, log)
    ensures Folded(Compared(store, i, stash, era, s).0, Noted(log, i.spans, stash, era, s))
  {
    hide Submit, Fold, EraSpan;
    var (store', _, target) := Compared(store, i, stash, era, s);
    var noted := Noted(log, i.spans, stash, era, s);
    if target.Some? {
      var key := (stash, target.value);
      FoldSnoc(LogOf(log, key), s);
      UnchangedExactly(RecordOf(store, key), s);
      forall k ensures RecordOf(store', k) == Fold(LogOf(noted, k)) {
        assert RecordOf(store, k) == Fold(LogOf(log, k));
      }
    }
  }

  lemma DropFolded(store: Store, log: Log, i: Inspection, stash: AccountId, windowStart: nat)
    requires WellFormed(i.spans) && Folded(store, log)
    ensures Folded(Dropped(store, i, stash, windowStart), Forgotten(log, i, stash, windowStart))
  {
    hide Fold, WellFormed, KeptCount;
    EmptyFold();
    var after, left := Dropped(store, i, stash, windowStart), Forgotten(log, i, stash, windowStart);
    forall key ensures RecordOf(after, key) == Fold(LogOf(left, key)) {
      assert RecordOf(store, key) == Fold(LogOf(log, key));
    }
  }

  // Records and log entries stay with live spans.

  lemma FetchLive(store: Store, log: Log, stash: AccountId, windowStart: nat)
    requires OnlyLive(store, log)
    ensures var f := Fetched(store, stash, windowStart);
      OnlyLive(Over(f, stash, f.spans[stash]), log) && Over(f, stash, f.spans[stash]) == f
  {
    var f := Fetched(store, stash, windowStart);
    assert f.spans[stash := f.spans[stash]] == f.spans;
  }

  lemma CompareLive(store: Store, log: Log, i: Inspection, stash: AccountId, era: nat, s: Submission)
    requires WellFormed(i.spans) && OnlyLive(Over(store, stash, i.spans), log)
    ensures var (store', i', _) := Compared(store, i, stash, era, s);
      OnlyLive(Over(store', stash, i'.spans), Noted(log, i.spans, stash, era, s))
  {
    hide Submit, EraSpan;
    EraSpanLive(i.spans, era);
  }

  lemma EndLive(store: Store, log: Log, stash: AccountId, spans: SpansValue, now: nat)
    requires OnlyLive(Over(store, stash, spans), log)
    ensures OnlyLive(Over(store, stash, Ended(spans, now).0), log)
  {}

  lemma DropLive(store: Store, log: Log, i: Inspection, stash: AccountId, windowStart: nat)
    requires WellFormed(i.spans) && OnlyLive(Over(store, stash, i.spans), log)
    requires !i.dirty ==> Over(store, stash, i.spans) == store
    ensures OnlyLive(Dropped(store, i, stash, windowStart), Forgotten(log, i, stash, windowStart))
  {
    hide WellFormed, KeptCount;
    if i.dirty {
      var before, after := Over(store, stash, i.spans), Dropped(store, i, stash, windowStart);
      var left := Forgotten(log, i, stash, windowStart);
      forall key | key in after.records || key in left
        ensures key.0 in after.spans && Live(after.spans[key.0], key.1)
      {
        assert key in before.records || key in log;
        if key.0 == stash { PruneLosesRange(i.spans, windowStart, key.1); }
      }
    }
  }

  /** The log after a report. */
  ghost function ReportLog(store: Store, log: Log, stash: AccountId, windowStart: nat, now: nat, era: nat,
                           s: Submission): Log
    requires StoredWellFormed(store)
  {
    var fetched := Fetched(store, stash, windowStart);
    var i := Inspected(store, stash, windowStart, now, era, s, ZERO).1;
    Forgotten(Noted(log, fetched.spans[stash], stash, era, s), i, stash, windowStart)
  }

  /** An inspection that wrote nothing left the spans as they were. */
  lemma CleanInspection(store: Store, stash: AccountId, windowStart: nat, now: nat, era: nat, s: Submission,
                        paidOut: SlashEntity)
    requires StoredWellFormed(store)
    ensures var (inspected, i) := Inspected(store, stash, windowStart, now, era, s, paidOut);
      !i.dirty ==>
        inspected == Fetched(store, stash, windowStart) && i.spans == Fetched(store, stash, windowStart).spans[stash]
  {}

  /** The accumulated reward does not influence what is stored. */
  lemma PaidOutIrrelevant(store: Store, stash: AccountId, windowStart: nat, now: nat, era: nat, s: Submission,
                          a: SlashEntity)
    requires StoredWellFormed(store)
    ensures var (inspectedA, iA) := Inspected(store, stash, windowStart, now, era, s, a);
      var (inspectedZ, iZ) := Inspected(store, stash, windowStart, now, era, s, ZERO);
      && inspectedA == inspectedZ && iA.spans == iZ.spans && iA.dirty == iZ.dirty && iA.slashOf == iZ.slashOf
      && iA.paidOut == a.Plus(iZ.paidOut)
  {
    hide Submit, EraSpan, WellFormed, StoredWellFormed, Ended;
  }

  lemma InspectedFolded(store: Store, log: Log, stash: AccountId, windowStart: nat, now: nat, era: nat, s: Submission,
                        paidOut: SlashEntity)
    requires StoredWellFormed(store) && Folded(store, log)
    ensures Folded(Inspected(store, stash, windowStart, now, era, s, paidOut).0,
                   Noted(log, Fetched(store, stash, windowStart).spans[stash], stash, era, s))
  {
    hide Submit, EraSpan, WellFormed;
    var fetched := Fetched(store, stash, windowStart);
    FetchedWellFormed(store, stash, windowStart);
    assert forall key :: RecordOf(fetched, key) == RecordOf(store, key);
    CompareFolded(fetched, log, Inspection(false, fetched.spans[stash], paidOut, ZERO), stash, era, s);
  }

  lemma InspectedLive(store: Store, log: Log, stash: AccountId, windowStart: nat, now: nat, era: nat, s: Submission,
                      paidOut: SlashEntity)
    requires StoredWellFormed(store) && OnlyLive(store, log)
    ensures var (inspected, i) := Inspected(store, stash, windowStart, now, era, s, paidOut);
      OnlyLive(Over(inspected, stash, i.spans),
               Noted(log, Fetched(store, stash, windowStart).spans[stash], stash, era, s))
  {
    hide Submit, EraSpan, WellFormed, OnlyLive;
    var fetched := Fetched(store, stash, windowStart);
    var start := Inspection(false, fetched.spans[stash], paidOut, ZERO);
    FetchedWellFormed(store, stash, windowStart);
    FetchLive(store, log, stash, windowStart);
    CompareLive(fetched, log, start, stash, era, s);
    var (compared, i, target) := Compared(fetched, start, stash, era, s);
    EndLive(compared, Noted(log, fetched.spans[stash], stash, era, s), stash, i.spans, now);
  }

  /** A report keeps storage in step with the log. */
  lemma ReportInStep(store: Store, log: Log, stash: AccountId, windowStart: nat, now: nat, era: nat, s: Submission,
                     paidOut: SlashEntity)
    requires InStep(store, log)
    ensures InStep(Report(store, stash, windowStart, now, era, s, paidOut).store,
                   ReportLog(store, log, stash, windowStart, now, era, s))
  {
    hide Inspected, OnlyLive, Folded, EraSpan, WellFormed;
    var (inspected, i) := Inspected(store, stash, windowStart, now, era, s, paidOut);
    FetchedWellFormed(store, stash, windowStart);
    var noted := Noted(log, Fetched(store, stash, windowStart).spans[stash], stash, era, s);
    InspectedFolded(store, log, stash, windowStart, now, era, s, paidOut);
    InspectedLive(store, log, stash, windowStart, now, era, s, paidOut);
    CleanInspection(store, stash, windowStart, now, era, s, paidOut);
    PaidOutIrrelevant(store, stash, windowStart, now, era, s, paidOut);
    FetchLive(store, log, stash, windowStart);
    DropFolded(inspected, noted, i, stash, windowStart);
    DropLive(inspected, noted, i, stash, windowStart);
  }

  /** What a report adds to the slash and to the reward is what its span's record makes of the submission. */
  lemma ReportOutcome(store: Store, stash: AccountId, windowStart: nat, now: nat, era: nat, s: Submission,
                      paidOut: SlashEntity)
    requires StoredWellFormed(store)
    ensures WellFormed(Fetched(store, stash, windowStart).spans[stash])
    ensures var r := Report(store, stash, windowStart, now, era, s, paidOut);
      match EraSpan(Fetched(store, stash, windowStart).spans[stash], era)
      case None => r.slashOf == ZERO && r.paidOut == paidOut
      case Some(span) =>
        var o := Submit(RecordOf(store, (stash, span.index)), s);
        r.slashOf == o.increment && r.paidOut == paidOut.Plus(o.reward)
  {
    hide Submit, EraSpan, WellFormed;
    FetchedWellFormed(store, stash, windowStart);
  }

  /** That is exactly the growth of the record of its span. */
  lemma ReportPaysGrowth(store: Store, log: Log, stash: AccountId, windowStart: nat, now: nat, era: nat, s: Submission,
                         paidOut: SlashEntity)
    requires InStep(store, log)
    ensures WellFormed(Fetched(store, stash, windowStart).spans[stash])
    ensures var r := Report(store, stash, windowStart, now, era, s, paidOut);
      match EraSpan(Fetched(store, stash, windowStart).spans[stash], era)
      case None => r.slashOf == ZERO && r.paidOut == paidOut
      case Some(span) =>
        var subs := LogOf(log, (stash, span.index));
        && Increments(subs).Plus(r.slashOf) == Increments(subs + [s])
        && Rewards(subs).Plus(r.paidOut) == Rewards(subs + [s]).Plus(paidOut)
  {
    hide Submit, EraSpan, WellFormed, Fold, OnlyLive, Report;
    ReportOutcome(store, stash, windowStart, now, era, s, paidOut);
    var span := EraSpan(Fetched(store, stash, windowStart).spans[stash], era);
    if span.Some? {
      var subs := LogOf(log, (stash, span.value.index));
      assert RecordOf(store, (stash, span.value.index)) == Fold(subs);
      assert (subs + [s])[..|subs|] == subs;
    }
  }

  // ---------- a kick ----------

  ghost function KickInspection(store: Store, stash: AccountId, windowStart: nat, now: nat, era: nat): (i: Inspection)
    requires StoredWellFormed(store)
    ensures WellFormed(i.spans)
  {
    var fetched := Fetched(store, stash, windowStart);
    var start := Inspection(false, fetched.spans[stash], ZERO, ZERO);
    EndKeepsWellFormed(start.spans, now);
    var span := EraSpan(start.spans, era);
    if span.Some? && span.value.index == start.spans.spanIndex then EndedInspection(start, now) else start
  }

  ghost function KickLog(store: Store, log: Log, p: SlashParams): Log
    requires StoredWellFormed(store)
  {
    Forgotten(log, KickInspection(store, p.stash, p.windowStart, p.now, p.slashEra), p.stash, p.windowStart)
  }

  lemma KickInStep(store: Store, log: Log, p: SlashParams)
    requires InStep(store, log)
    ensures InStep(KickedStore(store, p.stash, p.windowStart, p.now, p.slashEra), KickLog(store, log, p))
  {
    hide OnlyLive, Folded, EraSpan, WellFormed, RecordOf;
    var fetched := Fetched(store, p.stash, p.windowStart);
    var i := KickInspection(store, p.stash, p.windowStart, p.now, p.slashEra);
    FetchFolded(store, log, p.stash, p.windowStart);
    FetchLive(store, log, p.stash, p.windowStart);
    EndLive(fetched, log, p.stash, fetched.spans[p.stash], p.now);
    DropFolded(fetched, log, i, p.stash, p.windowStart);
    DropLive(fetched, log, i, p.stash, p.windowStart);
  }

  lemma FetchFolded(store: Store, log: Log, stash: AccountId, windowStart: nat)
    requires Folded(store, log)
    ensures Folded(Fetched(store, stash, windowStart), log)
  {
    assert forall key :: RecordOf(Fetched(store, stash, windowStart), key) == RecordOf(store, key);
  }

  // ---------- cooperators ----------

  /** The log after the first `count` cooperators. */
  ghost function CooperatorsLog(l: CooperatorLoop, log: Log, p: SlashParams, count: nat, prior: Fractions,
                                loss: Fractions, reputations: Reputations): Log
    requires StoredWellFormed(l.store) && count <= |p.others|
  {
    if count == 0 then log
    else
      var before := SlashCooperators(l, p, count - 1, prior, loss, reputations);
      var c := p.others[count - 1];
      var eraSlash := GrownEraSlash(EraSlashOf(before.cooperatorSlash, p.slashEra, c.who),
                                    SlashEntity(reputations.PointsOf(c.who), c.value), prior, loss);
      ReportLog(before.store, CooperatorsLog(l, log, p, count - 1, prior, loss, reputations),
                c.who, p.windowStart, p.now, p.slashEra, Submission(eraSlash, p.rewardProportion))
  }

  lemma {:induction false} CooperatorsInStep(l: CooperatorLoop, log: Log, p: SlashParams, count: nat, prior: Fractions,
                                             loss: Fractions, reputations: Reputations)
    requires InStep(l.store, log) && count <= |p.others|
    ensures InStep(SlashCooperators(l, p, count, prior, loss, reputations).store,
                   CooperatorsLog(l, log, p, count, prior, loss, reputations))
  {
    hide Report, ReportLog, OnlyLive, Folded, GrownEraSlash;
    if count > 0 {
      CooperatorsInStep(l, log, p, count - 1, prior, loss, reputations);
      var before := SlashCooperators(l, p, count - 1, prior, loss, reputations);
      var c := p.others[count - 1];
      var eraSlash := GrownEraSlash(EraSlashOf(before.cooperatorSlash, p.slashEra, c.who),
                                    SlashEntity(reputations.PointsOf(c.who), c.value), prior, loss);
      ReportInStep(before.store, CooperatorsLog(l, log, p, count - 1, prior, loss, reputations),
                   c.who, p.windowStart, p.now, p.slashEra, Submission(eraSlash, p.rewardProportion), before.paidOut);
    }
  }

  /** What the k-th cooperator is charged is the growth of the record of its span. */
  lemma CooperatorCharged(l: CooperatorLoop, log: Log, p: SlashParams, prior: Fractions, loss: Fractions,
                          reputations: Reputations, k: nat)
    requires InStep(l.store, log) && k < |p.others| && l.slashed == []
    ensures var before, after :=
        SlashCooperators(l, p, k, prior, loss, reputations), SlashCooperators(l, p, k + 1, prior, loss, reputations);
      var c := p.others[k];
      var s := Submission(EraSlashOf(after.cooperatorSlash, p.slashEra, c.who), p.rewardProportion);
      && |after.slashed| == k + 1 && after.slashed[k].0 == c.who
      && WellFormed(Fetched(before.store, c.who, p.windowStart).spans[c.who])
      && match EraSpan(Fetched(before.store, c.who, p.windowStart).spans[c.who], p.slashEra)
         case None => after.slashed[k].1 == ZERO && after.paidOut == before.paidOut
         case Some(span) =>
           var subs := LogOf(CooperatorsLog(l, log, p, k, prior, loss, reputations), (c.who, span.index));
           && Increments(subs).Plus(after.slashed[k].1) == Increments(subs + [s])
           && Rewards(subs).Plus(after.paidOut) == Rewards(subs + [s]).Plus(before.paidOut)
  {
    hide Report, ReportLog, OnlyLive, Folded, GrownEraSlash, EraSpan, WellFormed, CooperatorsLog, Increments, Rewards;
    CooperatorsListed(l, p, k, prior, loss, reputations);
    var before := SlashCooperators(l, p, k, prior, loss, reputations);
    var c := p.others[k];
    var eraSlash := GrownEraSlash(EraSlashOf(before.cooperatorSlash, p.slashEra, c.who),
                                  SlashEntity(reputations.PointsOf(c.who), c.value), prior, loss);
    CooperatorsInStep(l, log, p, k, prior, loss, reputations);
    ReportPaysGrowth(before.store, CooperatorsLog(l, log, p, k, prior, loss, reputations), c.who, p.windowStart, p.now,
                     p.slashEra, Submission(eraSlash, p.rewardProportion), before.paidOut);
  }

  /** The list handed on holds those charges in order. */
  lemma {:induction false} ChargesKept(l: CooperatorLoop, p: SlashParams, count: nat, prior: Fractions, loss: Fractions,
                                       reputations: Reputations, k: nat)
    requires StoredWellFormed(l.store) && k < count <= |p.others| && l.slashed == []
    ensures var all := SlashCooperators(l, p, count, prior, loss, reputations).slashed;
      var some := SlashCooperators(l, p, k + 1, prior, loss, reputations).slashed;
      |all| == count && |some| == k + 1 && all[k] == some[k]
  {
    hide Report, GrownEraSlash, StoredWellFormed;
    CooperatorsListed(l, p, k + 1, prior, loss, reputations);
    if k + 1 < count { ChargesKept(l, p, count - 1, prior, loss, reputations, k); }
  }

  lemma {:induction false} CooperatorsListed(l: CooperatorLoop, p: SlashParams, count: nat, prior: Fractions,
                                             loss: Fractions, reputations: Reputations)
    requires StoredWellFormed(l.store) && count <= |p.others|
    ensures |SlashCooperators(l, p, count, prior, loss, reputations).slashed| == |l.slashed| + count
  {
    hide Report;
    if count > 0 { CooperatorsListed(l, p, count - 1, prior, loss, reputations); }
  }

  // ---------- runs ----------

  datatype Event =
    | Offence(p: SlashParams, reputations: Reputations, session: Disabling.Session)
    | ClearStash(stash: AccountId, expectedSpans: nat)
    | ClearEra(era: nat)
    | EndEra

  ghost function Next(state: State, e: Event): (r: State)
    requires StoredWellFormed(state.store)
    ensures StoredWellFormed(r.store)
  {
    match e
    case Offence(p, reputations, session) => Computed(state, p, reputations, session).0
    case ClearStash(stash, expectedSpans) => state.(store := Cleared(state.store, stash, expectedSpans).0)
    case ClearEra(era) => EraCleared(state, era)
    case EndEra => state.(disabled := [])
  }

  ghost function NextLog(state: State, log: Log, e: Event): Log
    requires StoredWellFormed(state.store)
  {
    match e
    case Offence(p, reputations, session) => OffenceLog(state, log, p, reputations)
    case ClearStash(stash, expectedSpans) =>
      if Cleared(state.store, stash, expectedSpans).1 then map key | key in log && key.0 != stash :: log[key] else log
    case ClearEra(_) => log
    case EndEra => log
  }

  ghost function OffenceLog(state: State, log: Log, p: SlashParams, reputations: Reputations): Log
    requires StoredWellFormed(state.store)
  {
    var own := OwnSlash(p, reputations);
    if own.IsAnyZero() then KickLog(state.store, log, p)
    else
      var prior, loss := PriorLoss(state, p.slashEra, p.stash), LossOf(p, reputations);
      if !loss.Exceeds(prior) then log
      else
        var s := Submission(own, p.rewardProportion);
        var reported := Report(state.store, p.stash, p.windowStart, p.now, p.slashEra, s, ZERO);
        CooperatorsLog(CooperatorLoop(reported.store, state.cooperatorSlash, [], ZERO),
                       ReportLog(state.store, log, p.stash, p.windowStart, p.now, p.slashEra, s),
                       p, |p.others|, prior, loss, reputations)
  }

  lemma OffenceInStep(state: State, log: Log, p: SlashParams, reputations: Reputations, session: Disabling.Session)
    requires InStep(state.store, log)
    ensures InStep(Computed(state, p, reputations, session).0.store, OffenceLog(state, log, p, reputations))
  {
    hide Report, ReportLog, OnlyLive, Folded, KickedStore, KickLog, SlashCooperators, CooperatorsLog, LossOf, OwnSlash;
    var own := OwnSlash(p, reputations);
    if own.IsAnyZero() {
      KickInStep(state.store, log, p);
    } else {
      var prior, loss := PriorLoss(state, p.slashEra, p.stash), LossOf(p, reputations);
      if loss.Exceeds(prior) {
        var s := Submission(own, p.rewardProportion);
        var reported := Report(state.store, p.stash, p.windowStart, p.now, p.slashEra, s, ZERO);
        ReportInStep(state.store, log, p.stash, p.windowStart, p.now, p.slashEra, s, ZERO);
        CooperatorsInStep(CooperatorLoop(reported.store, state.cooperatorSlash, [], ZERO),
                          ReportLog(state.store, log, p.stash, p.windowStart, p.now, p.slashEra, s),
                          p, |p.others|, prior, loss, reputations);
      }
    }
  }

  /** Clearing a stash leaves no slashing record of it, and touches no other stash. */
  lemma ClearLeavesNothing(store: Store, log: Log, stash: AccountId, expectedSpans: nat)
    requires InStep(store, log)
    ensures var (cleared, ok) := Cleared(store, stash, expectedSpans);
      && (ok <==> stash !in store.spans || |Iter(store.spans[stash])| <= expectedSpans)
      && (ok ==> stash !in cleared.spans && forall index :: (stash, index) !in cleared.records)
      && (!ok ==> cleared == store)
      && (forall a :: a != stash ==>
            (a in cleared.spans <==> a in store.spans) && (a in store.spans ==> cleared.spans[a] == store.spans[a]))
      && (forall key: RecordKey :: key.0 != stash ==> RecordOf(cleared, key) == RecordOf(store, key))
  {
    hide WellFormed, Folded, Iter;
  }

  lemma ClearInStep(state: State, log: Log, stash: AccountId, expectedSpans: nat)
    requires InStep(state.store, log)
    ensures InStep(Next(state, ClearStash(stash, expectedSpans)).store,
                   NextLog(state, log, ClearStash(stash, expectedSpans)))
  {
    hide WellFormed, Fold, Iter;
    EmptyFold();
    ClearLeavesNothing(state.store, log, stash, expectedSpans);
    var after := Next(state, ClearStash(stash, expectedSpans)).store;
    var left := NextLog(state, log, ClearStash(stash, expectedSpans));
    if Cleared(state.store, stash, expectedSpans).1 {
      forall key: RecordKey ensures RecordOf(after, key) == Fold(LogOf(left, key)) {
        assert RecordOf(state.store, key) == Fold(LogOf(log, key));
        if key.0 == stash { assert (stash, key.1) !in after.records; }
      }
    }
  }

  lemma NextInStep(state: State, log: Log, e: Event)
    requires InStep(state.store, log)
    ensures InStep(Next(state, e).store, NextLog(state, log, e))
  {
    hide OnlyLive, Folded, Computed, OffenceLog, Cleared;
    match e
    case Offence(p, reputations, session) => OffenceInStep(state, log, p, reputations, session);
    case ClearStash(stash, expectedSpans) => ClearInStep(state, log, stash, expectedSpans);
    case ClearEra(_) =>
    case EndEra =>
  }

  const GENESIS := State(Store(map[], map[]), map[], map[], [])

  ghost function Run(events: seq<Event>): (r: (State, Log))
    ensures StoredWellFormed(r.0.store)
  {
    if |events| == 0 then (GENESIS, map[])
    else
      var (state, log) := Run(events[..|events| - 1]);
      var e := events[|events| - 1];
      (Next(state, e), NextLog(state, log, e))
  }

  /** Over any run of offences, kicks and clearings, records belong to live spans
      only, and each record is exactly what the slashes submitted to its span make of it. */
  lemma {:induction false} RunInStep(events: seq<Event>)
    ensures InStep(Run(events).0.store, Run(events).1)
  {
    if |events| > 0 {
      var init := events[..|events| - 1];
      RunInStep(init);
      NextInStep(Run(init).0, Run(init).1, events[|events| - 1]);
    }
  }

  /** Hence no record is orphaned, and a span about to open has none. */
  lemma NoOrphanRecords(events: seq<Event>, key: RecordKey)
    ensures var store := Run(events).0.store;
      && (key in store.records ==> key.0 in store.spans && Live(store.spans[key.0], key.1))
      && (key.0 in store.spans && key.1 > store.spans[key.0].spanIndex ==> RecordOf(store, key) == EMPTY_RECORD)
  {
    RunInStep(events);
  }

  /** Hence the record of a span is one submitted slash at most, which none exceeds in both components,
      and its payout stays within the reward proportion of one submitted slash. */
  lemma RunNeverOverslashes(events: seq<Event>, key: RecordKey)
    ensures var (state, log) := Run(events);
      var record, subs := RecordOf(state.store, key), LogOf(log, key);
      && record.slashed == Increments(subs) && record.paidOut == Rewards(subs)
      && (record.slashed == ZERO || exists k :: 0 <= k < |subs| && subs[k].slash == record.slashed)
      && (forall k :: 0 <= k < |subs| ==> !subs[k].slash.Above(record.slashed))
      && WithinRewardCap(record.paidOut.reputation, ReputationRewards(subs))
      && WithinRewardCap(record.paidOut.stake, StakeRewards(subs))
  {
    hide Fold, Increments, Rewards, WithinRewardCap, Run;
    RunInStep(events);
    var subs := LogOf(Run(events).1, key);
    assert RecordOf(Run(events).0.store, key) == Fold(subs);
    RecordsTelescope(subs);
    RecordIsSubmitted(subs);
    RecordIsUnsurpassed(subs);
    PayoutWithinCap(subs);
  }

  /** Every offence since an era last ended came with this active set, era and factor. */
  ghost predicate SinceEraIn(events: seq<Event>, session: Disabling.Session) {
    |events| == 0
    || var last := events[|events| - 1];
       last.EndEra? || (SinceEraIn(events[..|events| - 1], session) && (last.Offence? ==> last.session == session))
  }

  /** While the active set of an era is fixed, its disabled validators stay sorted, valid and below the byzantine
      share, whatever the sets of earlier eras were. */
  lemma {:induction false} RunDisablesFew(events: seq<Event>, session: Disabling.Session)
    requires SinceEraIn(events, session)
    ensures Disabling.Holds(session, Run(events).0.disabled)
    ensures |session.validators| >= 1 && session.factor > 0 ==>
      session.factor * |Run(events).0.disabled| < |session.validators|
  {
    hide Report, SlashCooperators, KickedStore, OwnSlash, LossOf, Cleared, NextLog, Disabling.DisableLimit;
    hide Disabling.AfterOffence;
    if |events| > 0 {
      var init, last := events[..|events| - 1], events[|events| - 1];
      if !last.EndEra? { RunDisablesFew(init, session); }
      if last.Offence? {
        Disabling.OffenceKeeps(session, Disabling.Offence(last.p.stash, last.p.slashEra), Run(init).0.disabled);
      }
    }
    if |session.validators| >= 1 && session.factor > 0 {
      Disabling.LimitTimesFactor(|session.validators|, session.factor, |Run(events).0.disabled|);
    }
  }
}
