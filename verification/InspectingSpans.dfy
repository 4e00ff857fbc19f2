/** Stored slashing spans and span records, the guard object through which a
    report inspects and edits the spans of one stash, and the removal of a
    dead stash's metadata. */
module Inspecting {
  import opened Accounts
  import opened Arithmetic
  import opened Spans
  import opened SpanRecords

  type RecordKey = (AccountId, nat)

  /** The value of the two storage maps. */
  datatype Store = Store(spans: map<AccountId, SpansValue>, records: map<RecordKey, SpanRecord>)

  /** Absent records read as empty. */
  function RecordOf(store: Store, key: RecordKey): SpanRecord {
    if key in store.records then store.records[key] else EMPTY_RECORD
  }

  ghost predicate StoredWellFormed(store: Store) {
    forall a :: a in store.spans ==> WellFormed(store.spans[a])
  }

  // ---------- specification ----------

  /** The editable part of an inspection: its spans, and the reward and slash it accumulates. */
  datatype Inspection = Inspection(dirty: bool, spans: SpansValue, paidOut: SlashEntity, slashOf: SlashEntity)

  function Fetched(store: Store, stash: AccountId, windowStart: nat): Store {
    if stash in store.spans then store else store.(spans := store.spans[stash := NewSpans(windowStart)])
  }

  /** Submit a slash to the span of `era`, if there is one; returns the span's index. */
  function Compared(store: Store, i: Inspection, stash: AccountId, era: nat, s: Submission)
    : (Store, Inspection, Option<nat>)
    requires WellFormed(i.spans)
  {
    match EraSpan(i.spans, era)
    case None => (store, i, None)
    case Some(span) =>
      var key := (stash, span.index);
      var o := Submit(RecordOf(store, key), s);
      var spans := if o.added then i.spans.(lastNonzeroSlash := Max(i.spans.lastNonzeroSlash, era)) else i.spans;
      (if o.changed then store.(records := store.records[key := o.record]) else store,
       Inspection(i.dirty || o.changed, spans, i.paidOut.Plus(o.reward), i.slashOf.Plus(o.increment)),
       Some(span.index))
  }

  function EndedInspection(i: Inspection, now: nat): Inspection {
    i.(spans := Ended(i.spans, now).0, dirty := Ended(i.spans, now).1 || i.dirty)
  }

  /** What is kept per span, without the spans of `stash` in the index range. */
  function WithoutRange<V>(m: map<RecordKey, V>, stash: AccountId, start: nat, end: nat): map<RecordKey, V> {
    map key | key in m && !(key.0 == stash && start <= key.1 < end) :: m[key]
  }

  /** Write the edits back, pruning first; nothing is written when nothing was changed. */
  function Dropped(store: Store, i: Inspection, stash: AccountId, windowStart: nat): Store
    requires WellFormed(i.spans)
  {
    if !i.dirty then store
    else
      var records := match PrunedRange(i.spans, windowStart)
        case Some(range) => WithoutRange(store.records, stash, range.0, range.1)
        case None => store.records;
      Store(store.spans[stash := Pruned(i.spans, windowStart)], records)
  }

  /** A dead stash loses its spans and the records of those spans, if the caller expects that many spans. */
  function Cleared(store: Store, stash: AccountId, expectedSpans: nat): (Store, bool)
    requires StoredWellFormed(store)
  {
    if stash !in store.spans then (store, true)
    else if expectedSpans < |Iter(store.spans[stash])| then (store, false)
    else
      var s := store.spans[stash];
      (Store(store.spans - {stash}, WithoutRange(store.records, stash, s.spanIndex - |s.prior|, s.spanIndex + 1)), true)
  }

  // ---------- the objects ----------

  class Storage {
    var spans: map<AccountId, SpansValue>
    var records: map<RecordKey, SpanRecord>

    ghost function Value(): Store
      reads this
    {
      Store(spans, records)
    }

    constructor ()
      ensures Value() == Store(map[], map[])
    {
      spans, records := map[], map[];
    }

    /** Remove the metadata of a dead stash; refused when `expectedSpans` is too small. */
    method ClearStashMetadata(stash: AccountId, expectedSpans: nat) returns (ok: bool)
      requires StoredWellFormed(Value())
      modifies this
      ensures (Value(), ok) == Cleared(old(Value()), stash, expectedSpans)
    {
      hide Iter;
      if stash !in spans {
        return true;
      }
      var s := spans[stash];
      var all := Iter(s);
      if expectedSpans < |all| {
        return false;
      }
      spans := spans - {stash};
      IterAt(s, 0);
      WholeRange(records, stash, s.spanIndex + 1);
      for k := 0 to |all|
        invariant spans == old(spans) - {stash}
        invariant records == WithoutRange(old(records), stash, s.spanIndex + 1 - k, s.spanIndex + 1)
      {
        IterAt(s, k);
        RangeDown(old(records), stash, s.spanIndex + 1 - k, s.spanIndex + 1);
        records := records - {(stash, all[k].index)};
      }
      return true;
    }
  }

  lemma WholeRange(records: map<RecordKey, SpanRecord>, stash: AccountId, n: nat)
    ensures WithoutRange(records, stash, n, n) == records
  {}

  lemma RangeUp(records: map<RecordKey, SpanRecord>, stash: AccountId, start: nat, end: nat)
    requires start <= end
    ensures WithoutRange(records, stash, start, end + 1) == WithoutRange(records, stash, start, end) - {(stash, end)}
  {}

  lemma RangeDown(records: map<RecordKey, SpanRecord>, stash: AccountId, start: nat, end: nat)
    requires 0 < start <= end
    ensures WithoutRange(records, stash, start - 1, end)
         == WithoutRange(records, stash, start, end) - {(stash, start - 1)}
  {}

  /** The spans of one stash under inspection. */
  class InspectingSpans {
    const storage: Storage
    const windowStart: nat
    const stash: AccountId
    const rewardProportion: Perbill
    const spans: SlashingSpans
    var dirty: bool
    var paidOut: SlashEntity
    var slashOf: SlashEntity

    ghost function Value(): Inspection
      reads this, spans
    {
      Inspection(dirty, spans.Value(), paidOut, slashOf)
    }

    constructor Fetch(storage: Storage, stash: AccountId, windowStart: nat, paidOut: SlashEntity, slashOf: SlashEntity,
                      rewardProportion: Perbill)
      modifies storage
      ensures storage.Value() == Fetched(old(storage.Value()), stash, windowStart)
      ensures Value() == Inspection(false, storage.spans[stash], paidOut, slashOf)
      ensures fresh(spans)
      ensures this.storage == storage && this.stash == stash
      ensures this.windowStart == windowStart && this.rewardProportion == rewardProportion
    {
      if stash !in storage.spans {
        var created := new SlashingSpans.New(windowStart);
        spans := created;
      } else {
        var decoded := new SlashingSpans.Decode(storage.spans[stash]);
        spans := decoded;
      }
      this.storage, this.stash := storage, stash;
      this.windowStart, this.rewardProportion := windowStart, rewardProportion;
      dirty, this.paidOut, this.slashOf := false, paidOut, slashOf;
      new;
      if stash !in storage.spans {
        storage.spans := storage.spans[stash := Encoded(spans)];
      }
    }

    /** The stored form of the spans. */
    static function Encoded(spans: SlashingSpans): (s: SpansValue)
      reads spans
      ensures s == spans.Value()
    {
      SpansValue(spans.spanIndex, spans.lastStart, spans.lastNonzeroSlash, spans.prior)
    }

    /** Judge a slash against the record of its span. */
    static method Judge(record: SpanRecord, slash: SlashEntity, proportion: Perbill) returns (o: Outcome)
      ensures o == Submit(record, Submission(slash, proportion))
      ensures !o.added ==> o.increment == ZERO
    {
      var updated, increment, reward, changed, added := record, ZERO, ZERO, false, false;
      var difference := slash.Plus(ONE).Minus(record.slashed);
      if difference.reputation > 1 && difference.stake > 1 {
        difference := difference.Minus(ONE);
        updated := updated.(slashed := slash);
        reward := slash.Scaled(proportion).Minus(updated.paidOut).Scaled(REWARD_F1);
        increment := difference;
        added, changed := true, true;
      } else if !difference.IsZero() {
        reward := slash.Scaled(proportion).Minus(updated.paidOut).Scaled(REWARD_F1);
      }
      if !reward.IsZero() {
        changed := true;
        updated := updated.(paidOut := updated.paidOut.Plus(reward));
      }
      return Outcome(updated, increment, reward, changed, added);
    }

    /** Compare a slash in an era with the record of its span; returns the index of that span, if any. */
    method CompareAndUpdateSpanSlash(slashEra: nat, slash: SlashEntity) returns (target: Option<nat>)
      requires WellFormed(spans.Value())
      modifies this, spans, storage
      ensures (storage.Value(), Value(), target)
           == Compared(old(storage.Value()), old(Value()), stash, slashEra, Submission(slash, rewardProportion))
    {
      hide EraSpan, Submit;
      var span := EraSpan(Encoded(spans), slashEra);
      if span.None? {
        return None;
      }
      var key := (stash, span.value.index);
      var record := if key in storage.records then storage.records[key] else EMPTY_RECORD;
      var o := Judge(record, slash, rewardProportion);
      if o.added {
        slashOf := slashOf.Plus(o.increment);
        spans.lastNonzeroSlash := Max(spans.lastNonzeroSlash, slashEra);
      }
      if !o.reward.IsZero() {
        paidOut := paidOut.Plus(o.reward);
      }
      if o.changed {
        dirty := true;
        storage.records := storage.records[key := o.record];
      }
      return Some(span.value.index);
    }

    method EndSpan(now: nat)
      modifies this`dirty, spans
      ensures Value() == EndedInspection(old(Value()), now)
    {
      var started := spans.EndSpan(now);
      dirty := started || dirty;
    }

    method Drop()
      requires WellFormed(spans.Value())
      modifies spans, storage
      ensures storage.Value() == Dropped(old(storage.Value()), old(Value()), stash, windowStart)
    {
      if !dirty {
        return;
      }
      var range := spans.Prune(windowStart);
      if range.Some? {
        var (start, end) := range.value;
        WholeRange(storage.records, stash, start);
        for index := start to end
          invariant storage.records == WithoutRange(old(storage.records), stash, start, index)
          invariant storage.spans == old(storage.spans)
          invariant spans.Value() == Pruned(old(spans.Value()), windowStart)
        {
          RangeUp(old(storage.records), stash, start, index);
          storage.records := storage.records - {(stash, index)};
        }
      }
      storage.spans := storage.spans[stash := Encoded(spans)];
    }
  }
}
