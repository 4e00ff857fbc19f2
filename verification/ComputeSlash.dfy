/** Computing the slash of an offending validator and of its cooperators: the
    whole state change of one report, as a specification function and as the
    methods that carry it out on storage. */
module Offences {
  import opened Accounts
  import opened Arithmetic
  import opened Spans
  import opened SpanRecords
  import opened Inspecting
  import Disabling

  /** A proportion of reputation and a proportion of stake. */
  datatype Fractions = Fractions(reputation: Perbill, stake: Perbill) {
    function Of(e: SlashEntity): SlashEntity {
      SlashEntity(PerbillMul(reputation, e.reputation), PerbillMul(stake, e.stake))
    }

    /** An update is due when either component grows. */
    predicate Exceeds(prior: Fractions) {
      prior.reputation < reputation || prior.stake < stake
    }

    static function FromRational(p: SlashEntity, q: SlashEntity): Fractions {
      Fractions(PerbillFromRational(p.reputation, q.reputation), PerbillFromRational(p.stake, q.stake))
    }
  }

  const NO_LOSS := Fractions(0, 0)

  datatype IndividualExposure = IndividualExposure(who: AccountId, value: nat)

  datatype SlashParams = SlashParams(
    stash: AccountId, slash: Perbill, own: nat, others: seq<IndividualExposure>,
    slashEra: nat, windowStart: nat, now: nat, rewardProportion: Perbill)

  /** What the reputation pallet says: the validator's points and how many of
      them may be slashed, and the points of cooperators. */
  datatype Reputations = Reputations(points: nat, slashable: nat, cooperators: map<AccountId, nat>) {
    function PointsOf(who: AccountId): nat { if who in cooperators then cooperators[who] else 0 }
  }

  datatype UnappliedSlash = UnappliedSlash(
    validator: AccountId, own: SlashEntity, others: seq<(AccountId, SlashEntity)>, payout: SlashEntity)

  datatype State = State(
    store: Store,
    validatorSlash: map<(nat, AccountId), (Fractions, SlashEntity)>,
    cooperatorSlash: map<(nat, AccountId), SlashEntity>,
    disabled: seq<nat>)

  // ---------- one staker ----------

  datatype Reported = Reported(store: Store, slashOf: SlashEntity, paidOut: SlashEntity)

  lemma ComparedKeepsWellFormed(store: Store, i: Inspection, stash: AccountId, era: nat, s: Submission)
    requires WellFormed(i.spans)
    ensures WellFormed(Compared(store, i, stash, era, s).1.spans)
    ensures Compared(store, i, stash, era, s).0.spans == store.spans
  {}

  lemma DroppedKeepsWellFormed(store: Store, i: Inspection, stash: AccountId, windowStart: nat)
    requires StoredWellFormed(store) && WellFormed(i.spans)
    ensures StoredWellFormed(Dropped(store, i, stash, windowStart))
  {
    PruneKeepsWellFormed(i.spans, windowStart);
  }

  /** The inspection as it stands before it is dropped, and the store then. */
  function Inspected(store: Store, stash: AccountId, windowStart: nat, now: nat, era: nat, s: Submission,
                     paidOut: SlashEntity): (r: (Store, Inspection))
    requires StoredWellFormed(store)
    ensures WellFormed(r.1.spans) && StoredWellFormed(r.0)
  {
    var fetched := Fetched(store, stash, windowStart);
    var start := Inspection(false, fetched.spans[stash], paidOut, ZERO);
    var (compared, i, target) := Compared(fetched, start, stash, era, s);
    ComparedKeepsWellFormed(fetched, start, stash, era, s);
    EndKeepsWellFormed(i.spans, now);
    (compared, if target == Some(i.spans.spanIndex) then EndedInspection(i, now) else i)
  }

  /** Submit a slash to the span of its era, ending the span if it is the ongoing one. */
  function Report(store: Store, stash: AccountId, windowStart: nat, now: nat, era: nat, s: Submission,
                  paidOut: SlashEntity): (r: Reported)
    requires StoredWellFormed(store)
    ensures StoredWellFormed(r.store)
  {
    var (inspected, i) := Inspected(store, stash, windowStart, now, era, s, paidOut);
    DroppedKeepsWellFormed(inspected, i, stash, windowStart);
    Reported(Dropped(inspected, i, stash, windowStart), i.slashOf, i.paidOut)
  }

  /** End the ongoing span when the era lies in it, without slashing. */
  function KickedStore(store: Store, stash: AccountId, windowStart: nat, now: nat, era: nat): (r: Store)
    requires StoredWellFormed(store)
    ensures StoredWellFormed(r)
  {
    var fetched := Fetched(store, stash, windowStart);
    var start := Inspection(false, fetched.spans[stash], ZERO, ZERO);
    EndKeepsWellFormed(start.spans, now);
    var span := EraSpan(start.spans, era);
    var i := if span.Some? && span.value.index == start.spans.spanIndex then EndedInspection(start, now) else start;
    DroppedKeepsWellFormed(fetched, i, stash, windowStart);
    Dropped(fetched, i, stash, windowStart)
  }

  // ---------- cooperators ----------

  /** The state of the loop over the cooperators. */
  datatype CooperatorLoop = CooperatorLoop(
    store: Store, cooperatorSlash: map<(nat, AccountId), SlashEntity>,
    slashed: seq<(AccountId, SlashEntity)>, paidOut: SlashEntity)

  function EraSlashOf(cooperatorSlash: map<(nat, AccountId), SlashEntity>, era: nat, who: AccountId): SlashEntity {
    if (era, who) in cooperatorSlash then cooperatorSlash[(era, who)] else ZERO
  }

  /** A cooperator's slash in the era grows by the growth of its validator's loss. */
  function GrownEraSlash(before: SlashEntity, exposed: SlashEntity, prior: Fractions, loss: Fractions): SlashEntity {
    before.Plus(loss.Of(exposed).Minus(prior.Of(exposed)))
  }

  function SlashCooperator(l: CooperatorLoop, p: SlashParams, c: IndividualExposure, prior: Fractions, loss: Fractions,
                           reputations: Reputations): (r: CooperatorLoop)
    requires StoredWellFormed(l.store)
    ensures StoredWellFormed(r.store)
  {
    var exposed := SlashEntity(reputations.PointsOf(c.who), c.value);
    var eraSlash := GrownEraSlash(EraSlashOf(l.cooperatorSlash, p.slashEra, c.who), exposed, prior, loss);
    var reported := Report(l.store, c.who, p.windowStart, p.now, p.slashEra,
                           Submission(eraSlash, p.rewardProportion), l.paidOut);
    CooperatorLoop(reported.store, l.cooperatorSlash[(p.slashEra, c.who) := eraSlash],
                   l.slashed + [(c.who, reported.slashOf)], reported.paidOut)
  }

  /** The loop after the first `count` cooperators. */
  function SlashCooperators(l: CooperatorLoop, p: SlashParams, count: nat, prior: Fractions, loss: Fractions,
                            reputations: Reputations): (r: CooperatorLoop)
    requires StoredWellFormed(l.store) && count <= |p.others|
    ensures StoredWellFormed(r.store)
  {
    if count == 0 then l
    else SlashCooperator(SlashCooperators(l, p, count - 1, prior, loss, reputations),
                         p, p.others[count - 1], prior, loss, reputations)
  }

  // ---------- a whole report ----------

  function OwnSlash(p: SlashParams, reputations: Reputations): SlashEntity {
    SlashEntity(reputations.slashable, p.own).Scaled(p.slash)
  }

  function LossOf(p: SlashParams, reputations: Reputations): Fractions {
    Fractions.FromRational(OwnSlash(p, reputations), SlashEntity(reputations.points, p.own))
  }

  function PriorLoss(state: State, era: nat, stash: AccountId): Fractions {
    if (era, stash) in state.validatorSlash then state.validatorSlash[(era, stash)].0 else NO_LOSS
  }

  function Computed(state: State, p: SlashParams, reputations: Reputations, session: Disabling.Session)
    : (r: (State, Option<UnappliedSlash>))
    requires StoredWellFormed(state.store)
    ensures StoredWellFormed(r.0.store)
  {
    var own := OwnSlash(p, reputations);
    if own.IsAnyZero() then
      (state.(store := KickedStore(state.store, p.stash, p.windowStart, p.now, p.slashEra),
              disabled := Disabling.AfterOffence(session, p.stash, p.slashEra, state.disabled)), None)
    else
      var prior, loss := PriorLoss(state, p.slashEra, p.stash), LossOf(p, reputations);
      if !loss.Exceeds(prior) then (state, None)
      else
        var reported := Report(state.store, p.stash, p.windowStart, p.now, p.slashEra,
                               Submission(own, p.rewardProportion), ZERO);
        var l := SlashCooperators(CooperatorLoop(reported.store, state.cooperatorSlash, [], ZERO),
                                  p, |p.others|, prior, loss, reputations);
        (State(l.store, state.validatorSlash[(p.slashEra, p.stash) := (loss, own)], l.cooperatorSlash,
               Disabling.AfterOffence(session, p.stash, p.slashEra, state.disabled)),
         Some(UnappliedSlash(p.stash, reported.slashOf, l.slashed, reported.paidOut.Plus(l.paidOut))))
  }

  /** Forget the slashes of an obsolete era. */
  function EraCleared(state: State, era: nat): State {
    state.(validatorSlash := map key | key in state.validatorSlash && key.0 != era :: state.validatorSlash[key],
           cooperatorSlash := map key | key in state.cooperatorSlash && key.0 != era :: state.cooperatorSlash[key])
  }

  /** That is: in that era every validator's loss and every cooperator's slash read as nothing, so the next
      report is the worst of it; all other eras, the spans and the disabled validators are untouched. */
  lemma ClearingForgetsEra(state: State, era: nat, other: nat, who: AccountId)
    ensures var cleared := EraCleared(state, era);
      && PriorLoss(cleared, other, who) == (if other == era then NO_LOSS else PriorLoss(state, other, who))
      && EraSlashOf(cleared.cooperatorSlash, other, who)
           == (if other == era then ZERO else EraSlashOf(state.cooperatorSlash, other, who))
      && cleared.store == state.store && cleared.disabled == state.disabled
  {}

  // ---------- the object ----------

  class SlashingPallet {
    const storage: Storage
    const disabling: Disabling.DisabledValidators
    var validatorSlash: map<(nat, AccountId), (Fractions, SlashEntity)>
    var cooperatorSlash: map<(nat, AccountId), SlashEntity>

    ghost function Value(): State
      reads this, storage, disabling
    {
      State(storage.Value(), validatorSlash, cooperatorSlash, disabling.disabled)
    }

    constructor ()
      ensures Value() == State(Store(map[], map[]), map[], map[], [])
      ensures fresh(storage) && fresh(disabling)
    {
      storage := new Storage();
      disabling := new Disabling.DisabledValidators();
      validatorSlash, cooperatorSlash := map[], map[];
    }

    method ClearEraMetadata(era: nat)
      modifies this
      ensures Value() == EraCleared(old(Value()), era)
    {
      validatorSlash := map key | key in validatorSlash && key.0 != era :: validatorSlash[key];
      cooperatorSlash := map key | key in cooperatorSlash && key.0 != era :: cooperatorSlash[key];
    }

    /** Fetch and compare, and end the span if it is the ongoing one. */
    method Inspect(stash: AccountId, p: SlashParams, slash: SlashEntity, paidOut: SlashEntity)
      returns (spans: InspectingSpans)
      requires StoredWellFormed(storage.Value())
      modifies storage
      ensures fresh(spans) && fresh(spans.spans)
      ensures spans.storage == storage && spans.stash == stash && spans.windowStart == p.windowStart
      ensures (storage.Value(), spans.Value())
           == Inspected(old(storage.Value()), stash, p.windowStart, p.now, p.slashEra,
                        Submission(slash, p.rewardProportion), paidOut)
    {
      hide Submit, EraSpan;
      spans := new InspectingSpans.Fetch(storage, stash, p.windowStart, paidOut, ZERO, p.rewardProportion);
      ghost var fetched, start := storage.Value(), spans.Value();
      ghost var s := Submission(slash, p.rewardProportion);
      ComparedKeepsWellFormed(fetched, start, stash, p.slashEra, s);
      var target := spans.CompareAndUpdateSpanSlash(p.slashEra, slash);
      ghost var compared := spans.Value();
      assert (storage.Value(), compared, target) == Compared(fetched, start, stash, p.slashEra, s);
      if target == Some(spans.spans.spanIndex) {
        spans.EndSpan(p.now);
        assert spans.Value() == EndedInspection(compared, p.now);
      }
    }

    method InspectAndReport(stash: AccountId, p: SlashParams, slash: SlashEntity, paidOut: SlashEntity)
      returns (slashOf: SlashEntity, paidOut': SlashEntity)
      requires StoredWellFormed(storage.Value())
      modifies storage
      ensures Reported(storage.Value(), slashOf, paidOut')
           == Report(old(storage.Value()), stash, p.windowStart, p.now, p.slashEra,
                     Submission(slash, p.rewardProportion), paidOut)
    {
      var spans := Inspect(stash, p, slash, paidOut);
      slashOf, paidOut' := spans.slashOf, spans.paidOut;
      spans.Drop();
    }

    method KickOutIfRecent(p: SlashParams, session: Disabling.Session)
      requires StoredWellFormed(storage.Value())
      modifies storage, disabling
      ensures Value() == old(Value()).(
        store := KickedStore(old(storage.Value()), p.stash, p.windowStart, p.now, p.slashEra),
        disabled := Disabling.AfterOffence(session, p.stash, p.slashEra, old(disabling.disabled)))
    {
      var spans := new InspectingSpans.Fetch(storage, p.stash, p.windowStart, ZERO, ZERO, p.rewardProportion);
      EndKeepsWellFormed(spans.spans.Value(), p.now);
      var span := EraSpan(InspectingSpans.Encoded(spans.spans), p.slashEra);
      if span.Some? && span.value.index == spans.spans.spanIndex {
        spans.EndSpan(p.now);
      }
      spans.Drop();
      disabling.AddOffendingValidator(session, p.stash, p.slashEra);
    }

    method SlashAllCooperators(p: SlashParams, loss: Fractions, prior: Fractions, reputations: Reputations)
      returns (slashed: seq<(AccountId, SlashEntity)>, paidOut: SlashEntity)
      requires StoredWellFormed(storage.Value())
      modifies storage, this`cooperatorSlash
      ensures CooperatorLoop(storage.Value(), cooperatorSlash, slashed, paidOut)
           == SlashCooperators(CooperatorLoop(old(storage.Value()), old(cooperatorSlash), [], ZERO),
                               p, |p.others|, prior, loss, reputations)
    {
      hide Report, PerbillMul;
      slashed, paidOut := [], ZERO;
      for k := 0 to |p.others|
        invariant StoredWellFormed(storage.Value())
        invariant CooperatorLoop(storage.Value(), cooperatorSlash, slashed, paidOut)
               == SlashCooperators(CooperatorLoop(old(storage.Value()), old(cooperatorSlash), [], ZERO),
                                   p, k, prior, loss, reputations)
      {
        var who := p.others[k].who;
        var exposed := SlashEntity(reputations.PointsOf(who), p.others[k].value);
        var ownSlashPrior := prior.Of(exposed);
        var ownSlash := loss.Of(exposed);
        var eraSlash := EraSlashOf(cooperatorSlash, p.slashEra, who).Plus(ownSlash.Minus(ownSlashPrior));
        cooperatorSlash := cooperatorSlash[(p.slashEra, who) := eraSlash];
        var coopSlashed;
        coopSlashed, paidOut := InspectAndReport(who, p, eraSlash, paidOut);
        slashed := slashed + [(who, coopSlashed)];
      }
    }

    /** The unapplied slash of a report, if it is the worst of its era so far. */
    method ComputeSlash(p: SlashParams, reputations: Reputations, session: Disabling.Session)
      returns (unapplied: Option<UnappliedSlash>)
      requires StoredWellFormed(storage.Value())
      modifies this, storage, disabling
      ensures (Value(), unapplied) == Computed(old(Value()), p, reputations, session)
    {
      var maxSlash := SlashEntity(reputations.slashable, p.own);
      var currentValues := SlashEntity(reputations.points, p.own);
      var ownSlash := maxSlash.Scaled(p.slash);
      if ownSlash.IsAnyZero() {
        KickOutIfRecent(p, session);
        return None;
      }
      var key := (p.slashEra, p.stash);
      var prior := if key in validatorSlash then validatorSlash[key].0 else NO_LOSS;
      var loss := Fractions.FromRational(ownSlash, currentValues);
      if !loss.Exceeds(prior) {
        return None;
      }
      validatorSlash := validatorSlash[key := (loss, ownSlash)];
      var valSlashed, rewardPayout := InspectAndReport(p.stash, p, ownSlash, ZERO);
      disabling.AddOffendingValidator(session, p.stash, p.slashEra);
      var slashed, coopPayout := SlashAllCooperators(p, loss, prior, reputations);
      return Some(UnappliedSlash(p.stash, valSlashed, slashed, rewardPayout.Plus(coopPayout)));
    }
  }
}
