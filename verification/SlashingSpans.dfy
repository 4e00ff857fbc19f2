/** A stash's slashing spans: a list of past span lengths, newest first, counted
    back from the start of the ongoing span. The object edits that list in
    place; the laws say that it always cuts time into consecutive spans. */
module Spans {
  import opened Arithmetic

  /** The stored encoding. */
  datatype SpansValue = SpansValue(spanIndex: nat, lastStart: nat, lastNonzeroSlash: nat, prior: seq<nat>)

  /** A decoded span; the ongoing one has no length. */
  datatype SlashingSpan = SlashingSpan(index: nat, start: nat, length: Option<nat>) {
    predicate ContainsEra(era: nat) {
      start <= era && (length.Some? ==> start + length.value > era)
    }
  }

  /** The eras covered by the first `k` past spans. */
  ghost function Covered(prior: seq<nat>, k: nat): nat
    requires k <= |prior|
  {
    if k == 0 then 0 else Covered(prior, k - 1) + prior[k - 1]
  }

  /** What every reachable encoding satisfies. */
  ghost predicate WellFormed(s: SpansValue) {
    && |s.prior| <= s.spanIndex
    && (forall k :: 0 <= k < |s.prior| ==> s.prior[k] > 0)
    && Covered(s.prior, |s.prior|) <= s.lastStart
  }

  ghost function Earliest(s: SpansValue): nat
    requires WellFormed(s)
  {
    s.lastStart - Covered(s.prior, |s.prior|)
  }

  // ---------- decoding ----------

  /** The past spans, decoded by counting back from `lastStart`. */
  function PriorSpans(index: nat, lastStart: nat, prior: seq<nat>): seq<SlashingSpan>
    requires |prior| <= index && Covered(prior, |prior|) <= lastStart
  {
    if |prior| == 0 then []
    else
      CoveredTail(prior, |prior|);
      [SlashingSpan(index - 1, lastStart - prior[0], Some(prior[0]))]
      + PriorSpans(index - 1, lastStart - prior[0], prior[1..])
  }

  /** All spans, newest first. */
  function Iter(s: SpansValue): seq<SlashingSpan>
    requires WellFormed(s)
  {
    [SlashingSpan(s.spanIndex, s.lastStart, None)] + PriorSpans(s.spanIndex, s.lastStart, s.prior)
  }

  lemma {:induction false} CoveredTail(prior: seq<nat>, k: nat)
    requires 0 < k <= |prior|
    ensures Covered(prior, k) == prior[0] + Covered(prior[1..], k - 1)
  {
    if k > 1 { CoveredTail(prior, k - 1); }
  }

  lemma {:induction false} CoveredMono(prior: seq<nat>, j: nat, k: nat)
    requires j <= k <= |prior|
    ensures Covered(prior, j) <= Covered(prior, k)
    ensures j < k && prior[k - 1] > 0 ==> Covered(prior, j) < Covered(prior, k)
  {
    if j < k { CoveredMono(prior, j, k - 1); }
  }

  lemma {:induction false} CoveredPrefix(prior: seq<nat>, j: nat, k: nat)
    requires k <= j <= |prior|
    ensures Covered(prior[..j], k) == Covered(prior, k)
  {
    if k > 0 { CoveredPrefix(prior, j, k - 1); }
  }

  /** The decoded spans in closed form. */
  lemma CoveredFirst(prior: seq<nat>)
    requires |prior| > 0
    ensures Covered(prior, 1) == prior[0]
  {}

  lemma {:induction false} PriorSpansAt(index: nat, lastStart: nat, prior: seq<nat>, k: nat)
    requires |prior| <= index && Covered(prior, |prior|) <= lastStart && k < |prior|
    ensures |PriorSpans(index, lastStart, prior)| == |prior|
    ensures Covered(prior, k + 1) <= lastStart
    ensures PriorSpans(index, lastStart, prior)[k]
         == SlashingSpan(index - 1 - k, lastStart - Covered(prior, k + 1), Some(prior[k]))
  {
    hide Covered;
    CoveredTail(prior, |prior|);
    CoveredMono(prior, k + 1, |prior|);
    PriorSpansLength(index, lastStart, prior);
    if k == 0 {
      CoveredFirst(prior);
    } else {
      CoveredTail(prior, k + 1);
      PriorSpansAt(index - 1, lastStart - prior[0], prior[1..], k - 1);
    }
  }

  lemma {:induction false} PriorSpansLength(index: nat, lastStart: nat, prior: seq<nat>)
    requires |prior| <= index && Covered(prior, |prior|) <= lastStart
    ensures |PriorSpans(index, lastStart, prior)| == |prior|
  {
    if |prior| > 0 {
      CoveredTail(prior, |prior|);
      PriorSpansLength(index - 1, lastStart - prior[0], prior[1..]);
    }
  }

  /** The first decoded span containing `era`, if any. */
  function Find(spans: seq<SlashingSpan>, era: nat): (r: Option<SlashingSpan>)
    ensures r.None? <==> forall k :: 0 <= k < |spans| ==> !spans[k].ContainsEra(era)
    ensures r.Some? ==> exists k :: 0 <= k < |spans| && spans[k] == r.value && spans[k].ContainsEra(era)
  {
    if |spans| == 0 then None
    else if spans[0].ContainsEra(era) then
      Some(spans[0])
    else
      var r := Find(spans[1..], era);
      assert forall k :: 0 < k < |spans| ==> spans[k] == spans[1..][k - 1];
      r
  }

  /** The span of an era, if covered. */
  function EraSpan(s: SpansValue, era: nat): Option<SlashingSpan>
    requires WellFormed(s)
  {
    Find(Iter(s), era)
  }

  ghost function IndexOf(s: SpansValue, era: nat): Option<nat>
    requires WellFormed(s)
  {
    match EraSpan(s, era)
    case Some(span) => Some(span.index)
    case None => None
  }

  /** Where the k-th newest span starts. */
  ghost function StartAt(s: SpansValue, k: nat): nat
    requires WellFormed(s) && k <= |s.prior|
  {
    CoveredMono(s.prior, k, |s.prior|);
    s.lastStart - Covered(s.prior, k)
  }

  ghost predicate Within(s: SpansValue, k: nat, era: nat)
    requires WellFormed(s) && k <= |s.prior|
  {
    StartAt(s, k) <= era && (k > 0 ==> era < StartAt(s, k - 1))
  }

  lemma IterAt(s: SpansValue, k: nat)
    requires WellFormed(s) && k <= |s.prior|
    ensures |Iter(s)| == |s.prior| + 1
    ensures Iter(s)[k].index == s.spanIndex - k
    ensures Iter(s)[k].start == StartAt(s, k)
    ensures forall era: nat :: Iter(s)[k].ContainsEra(era) <==> Within(s, k, era)
  {
    PriorSpansLength(s.spanIndex, s.lastStart, s.prior);
    if k > 0 { PriorSpansAt(s.spanIndex, s.lastStart, s.prior, k - 1); }
  }

  /** Two different spans share no era. */
  lemma SpansDisjoint(s: SpansValue, j: nat, k: nat, era: nat)
    requires WellFormed(s) && j < k <= |s.prior|
    ensures !(Within(s, j, era) && Within(s, k, era))
  {
    CoveredMono(s.prior, j, k - 1);
  }

  /** Some span covers every era from the earliest start on. */
  lemma {:induction false} SpansCover(s: SpansValue, era: nat, k: nat) returns (j: nat)
    requires WellFormed(s) && k <= |s.prior| && StartAt(s, k) <= era
    ensures j <= k && Within(s, j, era)
  {
    if k == 0 || era < StartAt(s, k - 1) {
      j := k;
    } else {
      j := SpansCover(s, era, k - 1);
    }
  }

  /** Spans partition time: an era has a span exactly when it is not before the
      earliest start, and then it lies in that one span only. */
  lemma SpansPartitionTime(s: SpansValue, era: nat)
    requires WellFormed(s)
    ensures EraSpan(s, era).Some? <==> Earliest(s) <= era
    ensures |Iter(s)| == |s.prior| + 1
    ensures forall k :: 0 <= k <= |s.prior| ==> (Iter(s)[k].ContainsEra(era) <==> EraSpan(s, era) == Some(Iter(s)[k]))
  {
    forall k | 0 <= k <= |s.prior|
      ensures |Iter(s)| == |s.prior| + 1
      ensures Iter(s)[k].ContainsEra(era) <==> Within(s, k, era)
      ensures Earliest(s) <= StartAt(s, k)
    {
      IterAt(s, k);
      CoveredMono(s.prior, k, |s.prior|);
    }
    IterAt(s, 0);
    forall j, k | 0 <= j < k <= |s.prior| ensures !(Within(s, j, era) && Within(s, k, era)) {
      SpansDisjoint(s, j, k, era);
    }
    if Earliest(s) <= era {
      var j := SpansCover(s, era, |s.prior|);
      assert Iter(s)[j].ContainsEra(era);
    }
  }

  /** The span index of an era is the one of the position that covers it. */
  lemma IndexAt(s: SpansValue, k: nat, era: nat)
    requires WellFormed(s) && k <= |s.prior| && Within(s, k, era)
    ensures IndexOf(s, era) == Some(s.spanIndex - k)
  {
    SpansPartitionTime(s, era);
    IterAt(s, k);
  }

  lemma IndexNone(s: SpansValue, era: nat)
    requires WellFormed(s) && era < Earliest(s)
    ensures IndexOf(s, era) == None
  {
    SpansPartitionTime(s, era);
  }

  // ---------- editing ----------

  function NewSpans(windowStart: nat): SpansValue { SpansValue(0, windowStart, 0, []) }

  /** End the ongoing span at `now`; refused when it starts later than `now`. */
  function Ended(s: SpansValue, now: nat): (SpansValue, bool) {
    if now + 1 <= s.lastStart then (s, false)
    else (SpansValue(s.spanIndex + 1, now + 1, s.lastNonzeroSlash, [now + 1 - s.lastStart] + s.prior), true)
  }

  /** How many past spans, the newest of which ends at `end`, end after `windowStart`. */
  function KeptCount(prior: seq<nat>, end: int, windowStart: nat): (o: nat)
    ensures o <= |prior|
  {
    if |prior| == 0 || end <= windowStart then 0 else 1 + KeptCount(prior[1..], end - prior[0], windowStart)
  }

  /** Drop the past spans that end at or before `windowStart`, and the eras of the ongoing one before it. */
  function Pruned(s: SpansValue, windowStart: nat): SpansValue {
    s.(prior := s.prior[..KeptCount(s.prior, s.lastStart, windowStart)], lastStart := Max(s.lastStart, windowStart))
  }

  /** The range of span indices dropped, if any. */
  function PrunedRange(s: SpansValue, windowStart: nat): Option<(nat, nat)>
    requires |s.prior| <= s.spanIndex
  {
    var kept := KeptCount(s.prior, s.lastStart, windowStart);
    if kept == |s.prior| then None else Some((s.spanIndex - |s.prior|, s.spanIndex - kept))
  }

  class SlashingSpans {
    var spanIndex: nat
    var lastStart: nat
    var lastNonzeroSlash: nat
    var prior: seq<nat>

    ghost function Value(): SpansValue
      reads this
    {
      SpansValue(spanIndex, lastStart, lastNonzeroSlash, prior)
    }

    constructor New(windowStart: nat)
      ensures Value() == NewSpans(windowStart)
    {
      spanIndex, lastStart, lastNonzeroSlash, prior := 0, windowStart, 0, [];
    }

    constructor Decode(s: SpansValue)
      ensures Value() == s
    {
      spanIndex, lastStart, lastNonzeroSlash, prior := s.spanIndex, s.lastStart, s.lastNonzeroSlash, s.prior;
    }

    method EndSpan(now: nat) returns (started: bool)
      modifies this
      ensures (Value(), started) == Ended(old(Value()), now)
    {
      var nextStart := now + 1;
      if nextStart <= lastStart {
        return false;
      }
      var lastLength := nextStart - lastStart;
      prior := [lastLength] + prior;
      lastStart := nextStart;
      spanIndex := spanIndex + 1;
      return true;
    }

    method Prune(windowStart: nat) returns (pruned: Option<(nat, nat)>)
      requires WellFormed(Value())
      modifies this
      ensures Value() == Pruned(old(Value()), windowStart)
      ensures pruned == PrunedRange(old(Value()), windowStart)
    {
      var o, end := 0, lastStart as int;
      while o < |prior| && end > windowStart
        invariant o <= |prior|
        invariant unchanged(this)
        invariant KeptCount(prior, lastStart, windowStart) == o + KeptCount(prior[o..], end, windowStart)
      {
        end := end - prior[o];
        assert prior[o..][1..] == prior[o + 1..];
        o := o + 1;
      }
      var earliestSpanIndex := spanIndex - |prior|;
      if o < |prior| {
        prior := prior[..o];
        var newEarliest := spanIndex - |prior|;
        pruned := Some((earliestSpanIndex, newEarliest));
      } else {
        pruned := None;
      }
      lastStart := Max(lastStart, windowStart);
    }
  }

  // ---------- laws ----------

  lemma EndKeepsWellFormed(s: SpansValue, now: nat)
    requires WellFormed(s)
    ensures WellFormed(Ended(s, now).0)
    ensures Ended(s, now).1 ==> forall k :: 0 <= k <= |s.prior| ==>
      Covered(Ended(s, now).0.prior, k + 1) == (now + 1 - s.lastStart) + Covered(s.prior, k)
  {
    if Ended(s, now).1 {
      var prior := Ended(s, now).0.prior;
      forall k | 0 <= k <= |s.prior|
        ensures Covered(prior, k + 1) == (now + 1 - s.lastStart) + Covered(s.prior, k)
      {
        CoveredTail(prior, k + 1);
        assert prior[1..] == s.prior;
      }
    }
  }

  /** Ending a span renames the span of the eras after `now`, and of no other era. */
  lemma EndChangesOnlyLaterEras(s: SpansValue, now: nat, era: nat)
    requires WellFormed(s)
    ensures WellFormed(Ended(s, now).0)
    ensures era <= now ==> IndexOf(Ended(s, now).0, era) == IndexOf(s, era)
    ensures Ended(s, now).1 && era > now ==> IndexOf(Ended(s, now).0, era) == Some(s.spanIndex + 1)
    ensures !Ended(s, now).1 ==> Ended(s, now).0 == s
  {
    hide IndexOf;
    EndKeepsWellFormed(s, now);
    var e := Ended(s, now).0;
    if Ended(s, now).1 {
      if era > now {
        IndexAt(e, 0, era);
      } else if era < Earliest(s) {
        IndexNone(s, era);
        IndexNone(e, era);
      } else {
        var k := SpansCover(s, era, |s.prior|);
        IndexAt(s, k, era);
        assert Within(e, k + 1, era);
        IndexAt(e, k + 1, era);
      }
    }
  }

  /** Exactly the past spans that end after the window start are kept. */
  lemma {:induction false} KeptCountExact(prior: seq<nat>, end: nat, windowStart: nat)
    requires forall k :: 0 <= k < |prior| ==> prior[k] > 0
    requires Covered(prior, |prior|) <= end
    ensures forall k :: 0 <= k < |prior| ==>
      (k < KeptCount(prior, end, windowStart) <==> end - Covered(prior, k) > windowStart)
  {
    if |prior| > 0 {
      CoveredTail(prior, |prior|);
      if end > windowStart { KeptCountExact(prior[1..], end - prior[0], windowStart); }
      forall k | 0 <= k < |prior|
        ensures k < KeptCount(prior, end, windowStart) <==> end - Covered(prior, k) > windowStart
      {
        if k > 0 { CoveredTail(prior, k); }
      }
    }
  }

  lemma PruneKeepsWellFormed(s: SpansValue, windowStart: nat)
    requires WellFormed(s)
    ensures WellFormed(Pruned(s, windowStart))
    ensures forall k :: 0 <= k <= |Pruned(s, windowStart).prior| ==>
      Covered(Pruned(s, windowStart).prior, k) == Covered(s.prior, k)
  {
    var kept := KeptCount(s.prior, s.lastStart, windowStart);
    forall k | 0 <= k <= kept ensures Covered(s.prior[..kept], k) == Covered(s.prior, k) {
      CoveredPrefix(s.prior, kept, k);
    }
    CoveredMono(s.prior, kept, |s.prior|);
  }

  /** Pruning drops exactly the spans ending at or before the window start, the k-th past
      one ending where the k-th newest starts, and keeps the span index of every era from
      the window start on. */
  lemma PruneKeepsWindow(s: SpansValue, windowStart: nat, era: nat)
    requires WellFormed(s)
    ensures WellFormed(Pruned(s, windowStart))
    ensures era >= windowStart ==> IndexOf(Pruned(s, windowStart), era) == IndexOf(s, era)
    ensures forall k :: 0 <= k < |s.prior| ==> (k < |Pruned(s, windowStart).prior| <==> StartAt(s, k) > windowStart)
  {
    hide IndexOf;
    PruneKeepsWellFormed(s, windowStart);
    KeptCountExact(s.prior, s.lastStart, windowStart);
    var p := Pruned(s, windowStart);
    if era >= windowStart {
      if era < Earliest(s) {
        IndexNone(s, era);
        KeepsEarliest(s, windowStart);
        IndexNone(p, era);
      } else {
        var k := SpansCover(s, era, |s.prior|);
        IndexAt(s, k, era);
        assert k <= |p.prior|;
        assert Within(p, k, era);
        IndexAt(p, k, era);
      }
    }
  }

  /** An uncovered era of the window stays uncovered. */
  lemma KeepsEarliest(s: SpansValue, windowStart: nat)
    requires WellFormed(s) && WellFormed(Pruned(s, windowStart)) && windowStart < Earliest(s)
    ensures Pruned(s, windowStart) == s
  {
    KeptCountExact(s.prior, s.lastStart, windowStart);
    var kept := KeptCount(s.prior, s.lastStart, windowStart);
    CoveredMono(s.prior, kept, |s.prior|);
    assert s.prior[..|s.prior|] == s.prior;
  }

  // ---------- live indices ----------

  /** The indices of the spans the encoding still knows. */
  ghost predicate Live(s: SpansValue, index: nat) {
    s.spanIndex - |s.prior| <= index <= s.spanIndex
  }

  /** An index is live exactly when a decoded span carries it. */
  lemma LiveExactly(s: SpansValue, index: nat)
    requires WellFormed(s)
    ensures Live(s, index) <==> exists k :: 0 <= k < |Iter(s)| && Iter(s)[k].index == index
  {
    forall k | 0 <= k <= |s.prior| ensures |Iter(s)| == |s.prior| + 1 && Iter(s)[k].index == s.spanIndex - k {
      IterAt(s, k);
    }
    IterAt(s, 0);
    if Live(s, index) { assert Iter(s)[s.spanIndex - index].index == index; }
  }

  lemma EraSpanLive(s: SpansValue, era: nat)
    requires WellFormed(s)
    ensures EraSpan(s, era).Some? ==> Live(s, EraSpan(s, era).value.index)
  {
    if EraSpan(s, era).Some? { LiveExactly(s, EraSpan(s, era).value.index); }
  }

  /** The live indices lost by pruning are the reported range. */
  lemma PruneLosesRange(s: SpansValue, windowStart: nat, index: nat)
    requires WellFormed(s)
    ensures var range := PrunedRange(s, windowStart);
      Live(Pruned(s, windowStart), index) <==>
        Live(s, index) && !(range.Some? && range.value.0 <= index < range.value.1)
  {}

  // ---------- runs ----------

  datatype SpanOp = End(now: nat) | Prune(windowStart: nat)

  ghost function Edit(s: SpansValue, op: SpanOp): SpansValue {
    match op
    case End(now) => Ended(s, now).0
    case Prune(windowStart) => Pruned(s, windowStart)
  }

  ghost function EditAll(s: SpansValue, ops: seq<SpanOp>): SpansValue
    decreases |ops|
  {
    if |ops| == 0 then s else EditAll(Edit(s, ops[0]), ops[1..])
  }

  lemma {:induction false} EditsKeepWellFormed(s: SpansValue, ops: seq<SpanOp>)
    requires WellFormed(s)
    ensures WellFormed(EditAll(s, ops))
    decreases |ops|
  {
    if |ops| > 0 {
      match ops[0] {
        case End(now) => EndKeepsWellFormed(s, now);
        case Prune(windowStart) => PruneKeepsWellFormed(s, windowStart);
      }
      EditsKeepWellFormed(Edit(s, ops[0]), ops[1..]);
    }
  }

  /** Whatever is ended and pruned, the spans of a stash partition time from their earliest start on. */
  lemma ReachableSpansPartitionTime(windowStart: nat, ops: seq<SpanOp>, era: nat)
    ensures var s := EditAll(NewSpans(windowStart), ops);
      && WellFormed(s)
      && (EraSpan(s, era).Some? <==> Earliest(s) <= era)
      && |Iter(s)| == |s.prior| + 1
      && (forall k :: 0 <= k <= |s.prior| ==> (Iter(s)[k].ContainsEra(era) <==> EraSpan(s, era) == Some(Iter(s)[k])))
  {
    EditsKeepWellFormed(NewSpans(windowStart), ops);
    SpansPartitionTime(EditAll(NewSpans(windowStart), ops), era);
  }
}
