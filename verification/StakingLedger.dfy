/** The ledger of a bonded stash and its three in-place operations: withdrawing
    unlocked chunks, rebonding, and slashing. Each method is proved equal to a
    specification function on the ledger's value; the laws of those functions
    are in LedgerLaws. */
module Staking {
  import opened Arithmetic

  datatype UnlockChunk = UnlockChunk(value: nat, era: nat)

  /** The value of a ledger; the oldest chunk comes first. */
  datatype Ledger = Ledger(total: nat, active: nat, unlocking: seq<UnlockChunk>)

  function Sum(chunks: seq<UnlockChunk>): nat {
    if |chunks| == 0 then 0 else Sum(chunks[..|chunks| - 1]) + chunks[|chunks| - 1].value
  }

  lemma SumSnoc(chunks: seq<UnlockChunk>, chunk: UnlockChunk)
    ensures Sum(chunks + [chunk]) == Sum(chunks) + chunk.value
  {
    assert (chunks + [chunk])[..|chunks|] == chunks;
  }

  // ---------- withdrawing ----------

  /** The chunks that are still locked at `era`, in order. */
  function StillLocked(chunks: seq<UnlockChunk>, era: nat): (kept: seq<UnlockChunk>)
    ensures Sum(kept) <= Sum(chunks)
  {
    if |chunks| == 0 then []
    else
      var init, last := chunks[..|chunks| - 1], chunks[|chunks| - 1];
      var kept := StillLocked(init, era);
      if last.era > era then SumSnoc(kept, last); kept + [last] else kept
  }

  /** What the other chunks hold. */
  function Released(chunks: seq<UnlockChunk>, era: nat): nat {
    Sum(chunks) - Sum(StillLocked(chunks, era))
  }

  lemma StillLockedStep(chunks: seq<UnlockChunk>, k: nat, era: nat)
    requires k < |chunks|
    ensures chunks[k].era > era ==>
      && StillLocked(chunks[..k + 1], era) == StillLocked(chunks[..k], era) + [chunks[k]]
      && Released(chunks[..k + 1], era) == Released(chunks[..k], era)
    ensures chunks[k].era <= era ==>
      && StillLocked(chunks[..k + 1], era) == StillLocked(chunks[..k], era)
      && Released(chunks[..k + 1], era) == Released(chunks[..k], era) + chunks[k].value
  {
    assert chunks[..k + 1][..k] == chunks[..k];
    SumSnoc(StillLocked(chunks[..k], era), chunks[k]);
  }

  function Consolidated(ledger: Ledger, era: nat): Ledger {
    Ledger(SatSub(ledger.total, Released(ledger.unlocking, era)), ledger.active, StillLocked(ledger.unlocking, era))
  }

  // ---------- rebonding ----------

  /** The chunks left, and the amount freed, by taking `value` from the back. */
  function TakeFromBack(chunks: seq<UnlockChunk>, value: nat): (seq<UnlockChunk>, nat) {
    if |chunks| == 0 then ([], 0)
    else
      var init, last := chunks[..|chunks| - 1], chunks[|chunks| - 1];
      if value < last.value then (init + [last.(value := last.value - value)], value)
      else if value == last.value then (init, value)
      else
        var (rest, moved) := TakeFromBack(init, value - last.value);
        (rest, moved + last.value)
  }

  function Rebonded(ledger: Ledger, value: nat): Ledger {
    var (rest, moved) := TakeFromBack(ledger.unlocking, value);
    Ledger(ledger.total, ledger.active + moved, rest)
  }

  // ---------- slashing ----------

  /** The index of the first chunk unlocking at or after `start`, or the number of chunks. */
  function FirstSlashable(chunks: seq<UnlockChunk>, start: nat): (first: nat)
    ensures first <= |chunks|
    ensures forall i :: 0 <= i < first ==> chunks[i].era < start
    ensures first < |chunks| ==> chunks[first].era >= start
  {
    if |chunks| == 0 || chunks[0].era >= start then 0 else 1 + FirstSlashable(chunks[1..], start)
  }

  /** The indices from `first` up. */
  function Up(first: nat, count: nat): (order: seq<nat>)
    requires first <= count
    ensures |order| == count - first
    ensures forall k :: 0 <= k < |order| ==> order[k] == first + k
  {
    seq(count - first, k requires 0 <= k => first + k)
  }

  /** The indices below `first`, down to zero. */
  function Down(first: nat): (order: seq<nat>)
    ensures |order| == first
    ensures forall k :: 0 <= k < |order| ==> order[k] == first - 1 - k
  {
    seq(first, k requires 0 <= k < first => first - 1 - k)
  }

  /** Chunk indices in slashing order: from `first` to the newest, then from just before `first` to the oldest. */
  function Priority(first: nat, count: nat): (order: seq<nat>)
    requires first <= count
    ensures |order| == count
    ensures forall k :: 0 <= k < |order| ==> order[k] < count
  {
    Up(first, count) + Down(first)
  }

  /** The proportion to slash with: none when no chunk is slashable, otherwise
      the request over the active and slashable balance, rounded up and at most one. */
  function Proportion(ledger: Ledger, first: nat, amount: nat): Option<nat>
    requires first <= |ledger.unlocking|
  {
    if first == |ledger.unlocking| then None
    else match QuintillUp(amount, ledger.active + Sum(ledger.unlocking[first..]))
      case Some(ratio) => Some(ratio)
      case None => Some(QUINTILLION)
  }

  /** What is asked of one piece: the proportion of it, capped by the piece and by what is still to be slashed. */
  function Asked(target: nat, remaining: nat, ratio: Option<nat>): nat {
    Min(Min(if ratio.Some? then MulCeil(ratio.value, target) else remaining, target), remaining)
  }

  /** What is taken from one piece: all of it when the rest would be dust. */
  function Taken(target: nat, remaining: nat, ratio: Option<nat>, minimumBalance: nat): (t: nat)
    ensures t <= target
  {
    var asked := Asked(target, remaining, ratio);
    if target - asked < minimumBalance then target else asked
  }

  /** The state of the slashing loop over the chunks. */
  datatype Walk = Walk(chunks: seq<UnlockChunk>, remaining: nat, report: map<nat, nat>)

  /** One round of the loop: slash chunk `i` and report its new value under its era. */
  function SlashChunk(w: Walk, i: nat, ratio: Option<nat>, minimumBalance: nat): Walk
    requires i < |w.chunks|
  {
    var chunk := w.chunks[i];
    var t := Taken(chunk.value, w.remaining, ratio, minimumBalance);
    Walk(w.chunks[i := chunk.(value := chunk.value - t)], SatSub(w.remaining, t),
         w.report[chunk.era := chunk.value - t])
  }

  /** The loop over the chunks in the given order, stopping when nothing remains to be slashed. */
  function SlashChunks(w: Walk, order: seq<nat>, ratio: Option<nat>, minimumBalance: nat): (r: Walk)
    requires forall k :: 0 <= k < |order| ==> order[k] < |w.chunks|
    ensures |r.chunks| == |w.chunks|
    decreases |order|
  {
    if |order| == 0 || w.remaining == 0 then w
    else SlashChunks(SlashChunk(w, order[0], ratio, minimumBalance), order[1..], ratio, minimumBalance)
  }

  /** The chunks with a non-zero value, in order. */
  function NonZero(chunks: seq<UnlockChunk>): seq<UnlockChunk> {
    if |chunks| == 0 then []
    else
      var last := chunks[|chunks| - 1];
      NonZero(chunks[..|chunks| - 1]) + if last.value != 0 then [last] else []
  }

  datatype SlashResult = SlashResult(ledger: Ledger, slashed: nat, report: map<nat, nat>)

  /** The state of the loop over the chunks when it ends, the active balance having been slashed first. */
  function SlashedChunks(ledger: Ledger, bonding: nat, amount: nat, minimumBalance: nat, slashEra: nat): (w: Walk)
    ensures |w.chunks| == |ledger.unlocking|
  {
    var first := FirstSlashable(ledger.unlocking, slashEra + bonding);
    var ratio := Proportion(ledger, first, amount);
    var t := Taken(ledger.active, amount, ratio, minimumBalance);
    SlashChunks(Walk(ledger.unlocking, SatSub(amount, t), map[]), Priority(first, |ledger.unlocking|), ratio,
                minimumBalance)
  }

  function Slashed(ledger: Ledger, bonding: nat, amount: nat, minimumBalance: nat, slashEra: nat): SlashResult {
    if amount == 0 then SlashResult(ledger, 0, map[])
    else
      var ratio := Proportion(ledger, FirstSlashable(ledger.unlocking, slashEra + bonding), amount);
      var t := Taken(ledger.active, amount, ratio, minimumBalance);
      var w := SlashedChunks(ledger, bonding, amount, minimumBalance, slashEra);
      var total := SatSub(SatSub(ledger.total, t), SatSub(Sum(ledger.unlocking), Sum(w.chunks)));
      SlashResult(Ledger(total, ledger.active - t, NonZero(w.chunks)), SatSub(ledger.total, total), w.report)
  }

  // ---------- the object ----------

  class StakingLedger {
    const bondingDuration: nat
    var total: nat
    var active: nat
    var unlocking: seq<UnlockChunk>

    ghost function Value(): Ledger
      reads this
    {
      Ledger(total, active, unlocking)
    }

    constructor (bondingDuration: nat, total: nat, active: nat, unlocking: seq<UnlockChunk>)
      ensures Value() == Ledger(total, active, unlocking)
      ensures this.bondingDuration == bondingDuration
    {
      this.bondingDuration, this.total, this.active, this.unlocking := bondingDuration, total, active, unlocking;
    }

    method ConsolidateUnlocked(currentEra: nat)
      modifies this
      ensures Value() == Consolidated(old(Value()), currentEra)
    {
      var chunks, newTotal, kept := unlocking, total, [];
      for k := 0 to |chunks|
        invariant unchanged(this)
        invariant kept == StillLocked(chunks[..k], currentEra)
        invariant newTotal == SatSub(total, Released(chunks[..k], currentEra))
      {
        StillLockedStep(chunks, k, currentEra);
        if chunks[k].era > currentEra {
          kept := kept + [chunks[k]];
        } else {
          newTotal := SatSub(newTotal, chunks[k].value);
        }
      }
      assert chunks[..|chunks|] == chunks;
      total, unlocking := newTotal, kept;
    }

    method Rebond(value: nat) returns (rebonded: nat)
      modifies this
      ensures Value() == Rebonded(old(Value()), value)
      ensures rebonded == TakeFromBack(old(unlocking), value).1
    {
      ghost var whole := TakeFromBack(unlocking, value);
      rebonded := 0;
      while |unlocking| > 0
        invariant rebonded <= value
        invariant total == old(total) && active == old(active) + rebonded
        invariant TakeFromBack(unlocking, value - rebonded) == (whole.0, whole.1 - rebonded)
        decreases |unlocking|
      {
        var init, last := unlocking[..|unlocking| - 1], unlocking[|unlocking| - 1];
        if rebonded + last.value <= value {
          rebonded := rebonded + last.value;
          active := active + last.value;
          unlocking := init;
        } else {
          var diff := value - rebonded;
          rebonded := rebonded + diff;
          active := active + diff;
          unlocking := init + [last.(value := last.value - diff)];
        }
        if rebonded >= value {
          break;
        }
      }
    }

    /** Slash one piece, lowering the ledger's total by what is taken. */
    method SlashOutOf(target: nat, remaining: nat, ratio: Option<nat>, minimumBalance: nat)
      returns (target': nat, remaining': nat)
      modifies this`total
      ensures target' == target - Taken(target, remaining, ratio, minimumBalance)
      ensures remaining' == SatSub(remaining, Taken(target, remaining, ratio, minimumBalance))
      ensures total == SatSub(old(total), Taken(target, remaining, ratio, minimumBalance))
    {
      var fromTarget := Min(Min(if ratio.Some? then MulCeil(ratio.value, target) else remaining, target), remaining);
      target' := target - fromTarget;
      if target' < minimumBalance {
        fromTarget := target' + fromTarget;
        target' := 0;
      }
      total := SatSub(total, fromTarget);
      remaining' := SatSub(remaining, fromTarget);
    }

    /** Slash the chunks in the given order until nothing remains to be slashed. */
    method SlashUnlocking(order: seq<nat>, toSlash: nat, ratio: Option<nat>, minimumBalance: nat)
      returns (remaining: nat, report: map<nat, nat>)
      requires forall k :: 0 <= k < |order| ==> order[k] < |unlocking|
      modifies this`total, this`unlocking
      ensures Walk(unlocking, remaining, report)
           == SlashChunks(Walk(old(unlocking), toSlash, map[]), order, ratio, minimumBalance)
      ensures total == SatSub(old(total), SatSub(Sum(old(unlocking)), Sum(unlocking)))
    {
      hide Taken, Sum;
      remaining, report := toSlash, map[];
      var k := 0;
      while k < |order| && remaining != 0
        invariant k <= |order| && |unlocking| == |old(unlocking)|
        invariant Sum(unlocking) <= Sum(old(unlocking))
        invariant total == SatSub(old(total), Sum(old(unlocking)) - Sum(unlocking))
        invariant SlashChunks(Walk(unlocking, remaining, report), order[k..], ratio, minimumBalance)
               == SlashChunks(Walk(old(unlocking), toSlash, map[]), order, ratio, minimumBalance)
      {
        var i := order[k];
        var chunk := unlocking[i];
        var value: nat;
        value, remaining := SlashOutOf(chunk.value, remaining, ratio, minimumBalance);
        SumUpdate(unlocking, i, value);
        unlocking := unlocking[i := chunk.(value := value)];
        report := report[chunk.era := value];
        assert order[k..][1..] == order[k + 1..];
        k := k + 1;
      }
    }

    /** Slash `amount`; returns what was slashed and the new value per era reported to the listeners. */
    method SlashStake(amount: nat, minimumBalance: nat, slashEra: nat) returns (slashed: nat, report: map<nat, nat>)
      modifies this
      ensures SlashResult(Value(), slashed, report)
           == Slashed(old(Value()), bondingDuration, amount, minimumBalance, slashEra)
    {
      if amount == 0 {
        return 0, map[];
      }
      hide Taken, SlashChunks, Sum, NonZero, Priority, Proportion, FirstSlashable, SatSub;
      var remaining := amount;
      var preSlashTotal := total;
      var first := FirstSlashable(unlocking, slashEra + bondingDuration);
      var ratio := Proportion(Ledger(total, active, unlocking), first, amount);
      var order := Priority(first, |unlocking|);
      active, remaining := SlashOutOf(active, remaining, ratio, minimumBalance);
      remaining, report := SlashUnlocking(order, remaining, ratio, minimumBalance);
      unlocking := NonZero(unlocking);
      slashed := SatSub(preSlashTotal, total);
    }
  }

  lemma {:induction false} SumUpdate(chunks: seq<UnlockChunk>, i: nat, value: nat)
    requires i < |chunks|
    ensures Sum(chunks[i := chunks[i].(value := value)]) + chunks[i].value == Sum(chunks) + value
  {
    var n := |chunks| - 1;
    var updated := chunks[i := chunks[i].(value := value)];
    if i == n {
      assert updated[..n] == chunks[..n];
    } else {
      SumUpdate(chunks[..n], i, value);
      assert updated[..n] == chunks[..n][i := chunks[i].(value := value)];
    }
  }
}
