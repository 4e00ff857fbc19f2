/** The record kept for one slashing span: what was slashed in it and what was
    paid out for it, and how a submitted slash changes the two. The laws
    are about every sequence of submissions to one span. */
module SpanRecords {
  import opened Arithmetic

  /** An amount of reputation and an amount of stake. */
  datatype SlashEntity = SlashEntity(reputation: nat, stake: nat) {
    function Plus(that: SlashEntity): SlashEntity {
      SlashEntity(reputation + that.reputation, stake + that.stake)
    }

    function Minus(that: SlashEntity): SlashEntity {
      SlashEntity(SatSub(reputation, that.reputation), SatSub(stake, that.stake))
    }

    function Scaled(p: nat): SlashEntity {
      SlashEntity(PerbillMul(p, reputation), PerbillMul(p, stake))
    }

    predicate IsZero() { reputation == 0 && stake == 0 }

    predicate IsAnyZero() { reputation == 0 || stake == 0 }

    ghost predicate AtMost(that: SlashEntity) { reputation <= that.reputation && stake <= that.stake }

    ghost predicate Above(that: SlashEntity) { reputation > that.reputation && stake > that.stake }
  }

  const ZERO := SlashEntity(0, 0)
  const ONE := SlashEntity(1, 1)

  /** The part of an outstanding reward paid at a report: half of it. */
  const REWARD_F1: Perbill := 500_000_000

  datatype SpanRecord = SpanRecord(slashed: SlashEntity, paidOut: SlashEntity)

  const EMPTY_RECORD := SpanRecord(ZERO, ZERO)

  /** A slash submitted to a span, with the reward proportion in force. */
  datatype Submission = Submission(slash: SlashEntity, proportion: Perbill)

  /** The new record, the increment to slash, the reward to pay, and whether the record changed. */
  datatype Outcome = Outcome(record: SpanRecord, increment: SlashEntity, reward: SlashEntity, changed: bool,
                             added: bool)

  /** The reward paid: half of what is outstanding, or nothing when both components are below the record. */
  function RewardFor(record: SpanRecord, s: Submission): SlashEntity {
    if s.slash.Plus(ONE).Minus(record.slashed).IsZero() then ZERO
    else s.slash.Scaled(s.proportion).Minus(record.paidOut).Scaled(REWARD_F1)
  }

  /** How a submitted slash changes the record of its span. */
  function Submit(record: SpanRecord, s: Submission): Outcome {
    var difference := s.slash.Plus(ONE).Minus(record.slashed);
    var added := difference.reputation > 1 && difference.stake > 1;
    var increment := if added then difference.Minus(ONE) else ZERO;
    var reward := RewardFor(record, s);
    Outcome(SpanRecord(if added then s.slash else record.slashed, record.paidOut.Plus(reward)),
            increment, reward, added || !reward.IsZero(), added)
  }

  /** A submission that leaves the record alone is marked as unchanged, and only such. */
  lemma UnchangedExactly(record: SpanRecord, s: Submission)
    ensures !Submit(record, s).changed <==> Submit(record, s).record == record
  {}

  /** What the branches mean: the recorded slash moves to the submitted one when
      both components exceed it; nothing is paid when both are below it. */
  lemma SubmitBranches(record: SpanRecord, s: Submission)
    ensures var o := Submit(record, s);
      && (o.added <==> s.slash.Above(record.slashed))
      && (o.added ==> o.increment.Plus(record.slashed) == s.slash == o.record.slashed)
      && (!o.added ==> o.increment == ZERO && o.record.slashed == record.slashed)
      && (record.slashed.Above(s.slash) ==> o.record == record)
      && record.slashed.Plus(o.increment) == o.record.slashed
      && record.paidOut.Plus(o.reward) == o.record.paidOut
  {}

  // ---------- any number of submissions to one span ----------

  ghost function Fold(subs: seq<Submission>): SpanRecord {
    if |subs| == 0 then EMPTY_RECORD else Submit(Fold(subs[..|subs| - 1]), subs[|subs| - 1]).record
  }

  /** The increments added to the slash of the staker. */
  ghost function Increments(subs: seq<Submission>): SlashEntity {
    if |subs| == 0 then ZERO
    else
      var init := subs[..|subs| - 1];
      Increments(init).Plus(Submit(Fold(init), subs[|subs| - 1]).increment)
  }

  /** The rewards paid. */
  ghost function Rewards(subs: seq<Submission>): SlashEntity {
    if |subs| == 0 then ZERO
    else
      var init := subs[..|subs| - 1];
      Rewards(init).Plus(Submit(Fold(init), subs[|subs| - 1]).reward)
  }

  /** What is slashed for a span telescopes to the recorded slash, and what is paid to the recorded payout. */
  lemma {:induction false} RecordsTelescope(subs: seq<Submission>)
    ensures Increments(subs) == Fold(subs).slashed
    ensures Rewards(subs) == Fold(subs).paidOut
  {
    if |subs| > 0 {
      var init, last := subs[..|subs| - 1], subs[|subs| - 1];
      RecordsTelescope(init);
      SubmitBranches(Fold(init), last);
    }
  }

  lemma {:induction false} RecordsGrow(subs: seq<Submission>, k: nat)
    requires k <= |subs|
    ensures Fold(subs[..k]).slashed.AtMost(Fold(subs).slashed)
    ensures Fold(subs[..k]).paidOut.AtMost(Fold(subs).paidOut)
  {
    if k == |subs| {
      assert subs[..k] == subs;
    } else {
      var init := subs[..|subs| - 1];
      RecordsGrow(init, k);
      assert init[..k] == subs[..k];
    }
  }

  /** The recorded slash is zero or one of the submitted slashes. */
  lemma {:induction false} RecordIsSubmitted(subs: seq<Submission>)
    ensures Fold(subs).slashed == ZERO || exists k :: 0 <= k < |subs| && subs[k].slash == Fold(subs).slashed
  {
    hide Submit;
    if |subs| > 0 {
      var init, last := subs[..|subs| - 1], subs[|subs| - 1];
      RecordIsSubmitted(init);
      SubmitBranches(Fold(init), last);
      if Fold(subs).slashed != ZERO && Fold(subs).slashed != last.slash {
        var k :| 0 <= k < |init| && init[k].slash == Fold(init).slashed;
        assert subs[k].slash == Fold(subs).slashed;
      }
    }
  }

  /** No submitted slash is above the recorded one. */
  lemma {:induction false} RecordIsUnsurpassed(subs: seq<Submission>)
    ensures forall k :: 0 <= k < |subs| ==> !subs[k].slash.Above(Fold(subs).slashed)
  {
    hide Submit;
    if |subs| > 0 {
      var init, last := subs[..|subs| - 1], subs[|subs| - 1];
      RecordIsUnsurpassed(init);
      SubmitBranches(Fold(init), last);
      forall k | 0 <= k < |subs| ensures !subs[k].slash.Above(Fold(subs).slashed) {
        if k < |init| { assert subs[k] == init[k]; }
      }
    }
  }

  // ---------- the reward cap ----------

  ghost predicate WithinRewardCap(paid: nat, amounts: seq<nat>) {
    paid == 0 || exists k :: 0 <= k < |amounts| && paid <= amounts[k]
  }

  ghost function ReputationRewards(subs: seq<Submission>): seq<nat> {
    seq(|subs|, k requires 0 <= k < |subs| => PerbillMul(subs[k].proportion, subs[k].slash.reputation))
  }

  ghost function StakeRewards(subs: seq<Submission>): seq<nat> {
    seq(|subs|, k requires 0 <= k < |subs| => PerbillMul(subs[k].proportion, subs[k].slash.stake))
  }

  lemma PayoutStaysBelow(paid: nat, due: nat)
    ensures paid + PerbillMul(REWARD_F1, SatSub(due, paid)) <= Max(paid, due)
  {
    PerbillMulAtMost(REWARD_F1, SatSub(due, paid));
  }

  lemma CapExtends(paid: nat, paid': nat, amounts: seq<nat>, due: nat)
    requires WithinRewardCap(paid, amounts) && paid' <= Max(paid, due)
    ensures WithinRewardCap(paid', amounts + [due])
  {
    if paid' <= due {
      assert (amounts + [due])[|amounts|] == due;
    } else if paid' != 0 {
      var k :| 0 <= k < |amounts| && paid <= amounts[k];
      assert (amounts + [due])[k] == amounts[k];
    }
  }

  /** What is paid out for a span never exceeds, in either component, the reward
      proportion of some single submitted slash. */
  lemma {:induction false} PayoutWithinCap(subs: seq<Submission>)
    ensures WithinRewardCap(Fold(subs).paidOut.reputation, ReputationRewards(subs))
    ensures WithinRewardCap(Fold(subs).paidOut.stake, StakeRewards(subs))
  {
    hide PerbillMul;
    if |subs| > 0 {
      var init, last := subs[..|subs| - 1], subs[|subs| - 1];
      var before, after := Fold(init).paidOut, Fold(subs).paidOut;
      var due := last.slash.Scaled(last.proportion);
      PayoutWithinCap(init);
      PayoutStaysBelow(before.reputation, due.reputation);
      PayoutStaysBelow(before.stake, due.stake);
      CapExtends(before.reputation, after.reputation, ReputationRewards(init), due.reputation);
      CapExtends(before.stake, after.stake, StakeRewards(init), due.stake);
      assert ReputationRewards(subs) == ReputationRewards(init) + [due.reputation];
      assert StakeRewards(subs) == StakeRewards(init) + [due.stake];
    }
  }

  /** With one reward proportion, the payout is at most that proportion of the largest submitted amounts. */
  lemma PayoutWithinProportionOfLargest(subs: seq<Submission>, proportion: Perbill, reputation: nat, stake: nat)
    requires forall k :: 0 <= k < |subs| ==> subs[k].proportion == proportion
    requires forall k :: 0 <= k < |subs| ==> subs[k].slash.AtMost(SlashEntity(reputation, stake))
    ensures Rewards(subs) == Fold(subs).paidOut
    ensures Fold(subs).paidOut.AtMost(SlashEntity(reputation, stake).Scaled(proportion))
  {
    RecordsTelescope(subs);
    PayoutWithinCap(subs);
    forall k | 0 <= k < |subs|
      ensures ReputationRewards(subs)[k] <= PerbillMul(proportion, reputation)
      ensures StakeRewards(subs)[k] <= PerbillMul(proportion, stake)
    {
      PerbillMulMono(proportion, proportion, subs[k].slash.reputation, reputation);
      PerbillMulMono(proportion, proportion, subs[k].slash.stake, stake);
    }
  }

  // ---------- the maximum of two components ----------

  ghost function Larger(a: SlashEntity, b: SlashEntity): SlashEntity {
    SlashEntity(Max(a.reputation, b.reputation), Max(a.stake, b.stake))
  }

  ghost function Maximum(subs: seq<Submission>): SlashEntity {
    if |subs| == 0 then ZERO else Larger(Maximum(subs[..|subs| - 1]), subs[|subs| - 1].slash)
  }

  /** A slash above the earlier maximum in one component is above it in both. */
  ghost predicate Aligned(max: SlashEntity, slash: SlashEntity) {
    slash.reputation > max.reputation <==> slash.stake > max.stake
  }

  /** After every submission the recorded slash is the maximum of those submitted so far. */
  ghost predicate AlwaysTheMaximum(subs: seq<Submission>) {
    |subs| == 0 || (AlwaysTheMaximum(subs[..|subs| - 1]) && Fold(subs).slashed == Maximum(subs))
  }

  /** Every submission is aligned with the maximum of those before it. */
  ghost predicate AllAligned(subs: seq<Submission>) {
    |subs| == 0
    || (AllAligned(subs[..|subs| - 1]) && Aligned(Maximum(subs[..|subs| - 1]), subs[|subs| - 1].slash))
  }

  /** The documented rule, that a staker is slashed for the maximum in a span, holds
      throughout a sequence of submissions exactly when they are all aligned. */
  lemma {:induction false} SlashedForMaximumExactly(subs: seq<Submission>)
    ensures AlwaysTheMaximum(subs) <==> AllAligned(subs)
  {
    if |subs| > 0 {
      var init, last := subs[..|subs| - 1], subs[|subs| - 1];
      SlashedForMaximumExactly(init);
      assert AlwaysTheMaximum(init) ==> Fold(init).slashed == Maximum(init);
      SubmitBranches(Fold(init), last);
    }
  }

  /** A second slash that is not above the first in both components is not recorded. */
  lemma SecondIgnored(a: Submission, b: Submission)
    requires a.slash.Above(ZERO) && !b.slash.Above(a.slash)
    ensures Fold([a, b]).slashed == a.slash
    ensures Maximum([a, b]) == Larger(a.slash, b.slash)
  {
    hide Submit;
    var one, two := [a], [a, b];
    assert two[..|two| - 1] == one && one[..|one| - 1] == [];
    assert Fold(one) == Submit(EMPTY_RECORD, a).record;
    assert Fold(two) == Submit(Fold(one), b).record;
    SubmitBranches(EMPTY_RECORD, a);
    SubmitBranches(Fold([a]), b);
    assert Maximum([a]) == a.slash;
  }

  /** The rule fails: a heavier stake slash with a lighter reputation slash is not recorded. */
  lemma MaximumNotAlwaysSlashed(proportion: Perbill)
    ensures var subs := [Submission(SlashEntity(10, 1), proportion), Submission(SlashEntity(1, 10), proportion)];
      Fold(subs).slashed == SlashEntity(10, 1) && Maximum(subs) == SlashEntity(10, 10)
  {
    SecondIgnored(Submission(SlashEntity(10, 1), proportion), Submission(SlashEntity(1, 10), proportion));
  }
}
