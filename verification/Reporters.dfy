/** Paying the reporters of an offence out of the slashed imbalance. */
module Reporters {
  import opened Arithmetic
  import opened SpanRecords
  import opened Accounts

  /** Credits of the reporters' accounts, and what is left for the slash handler. */
  datatype Payout = Payout(stake: map<AccountId, nat>, reputation: map<AccountId, nat>, forwarded: nat)

  /** The stake set aside for the reporters: the reward, as far as the imbalance covers it. */
  function Pot(reward: SlashEntity, imbalance: nat): nat { Min(reward.stake, imbalance) }

  function ShareOf(amount: nat, count: nat): nat { PerbillMul(PerbillFromRational(1, count), amount) }

  /** The pot after `k` shares have been split off. */
  function PotAfter(pot: nat, share: nat, k: nat): nat {
    if k == 0 then pot else SatSub(PotAfter(pot, share, k - 1), share)
  }

  /** What the k-th reporter gets: a share, or what is left of the pot. */
  function PaidTo(pot: nat, share: nat, k: nat): nat { Min(share, PotAfter(pot, share, k)) }

  /** The accounts after the first `k` reporters are paid. */
  function PaidStake(m: map<AccountId, nat>, reporters: seq<AccountId>, pot: nat, share: nat,
                     k: nat): map<AccountId, nat>
    requires k <= |reporters|
  {
    if k == 0 then m
    else Credited(PaidStake(m, reporters, pot, share, k - 1), reporters[k - 1], PaidTo(pot, share, k - 1))
  }

  function PaidReputation(m: map<AccountId, nat>, reporters: seq<AccountId>, share: nat, k: nat): map<AccountId, nat>
    requires k <= |reporters|
  {
    if k == 0 then m else Credited(PaidReputation(m, reporters, share, k - 1), reporters[k - 1], share)
  }

  function Paid(stake: map<AccountId, nat>, reputation: map<AccountId, nat>, reward: SlashEntity, imbalance: nat,
                reporters: seq<AccountId>): Payout
  {
    var n := |reporters|;
    if reward.IsZero() || n == 0 then Payout(stake, reputation, imbalance)
    else
      var pot := Pot(reward, imbalance);
      Payout(PaidStake(stake, reporters, pot, ShareOf(pot, n), n),
             PaidReputation(reputation, reporters, ShareOf(reward.reputation, n), n),
             imbalance - pot + PotAfter(pot, ShareOf(pot, n), n))
  }

  class Treasury {
    var stake: map<AccountId, nat>
    var reputation: map<AccountId, nat>
    var forwarded: nat

    constructor (stake: map<AccountId, nat>, reputation: map<AccountId, nat>)
      ensures this.stake == stake && this.reputation == reputation && forwarded == 0
    {
      this.stake, this.reputation, forwarded := stake, reputation, 0;
    }

    /** Pay out the reward in equal shares and forward the rest of the imbalance. */
    method PayReporters(reward: SlashEntity, imbalance: nat, reporters: seq<AccountId>)
      modifies this
      ensures var p := Paid(old(stake), old(reputation), reward, imbalance, reporters);
        stake == p.stake && reputation == p.reputation && forwarded == old(forwarded) + p.forwarded
    {
      hide PerbillMul, PerbillFromRational;
      if reward.IsZero() || |reporters| == 0 {
        forwarded := forwarded + imbalance;
        return;
      }
      var stakeReward := Min(reward.stake, imbalance);
      var valueSlashed := imbalance - stakeReward;
      var prop := PerbillFromRational(1, |reporters|);
      var reputationPerReporter := PerbillMul(prop, reward.reputation);
      var stakePerReporter := PerbillMul(prop, stakeReward);
      ghost var pot := stakeReward;
      for k := 0 to |reporters|
        invariant forwarded == old(forwarded)
        invariant stakeReward == PotAfter(pot, stakePerReporter, k)
        invariant stake == PaidStake(old(stake), reporters, pot, stakePerReporter, k)
        invariant reputation == PaidReputation(old(reputation), reporters, reputationPerReporter, k)
      {
        reputation := Credited(reputation, reporters[k], reputationPerReporter);
        var reporterReward := Min(stakePerReporter, stakeReward);
        stakeReward := stakeReward - reporterReward;
        stake := Credited(stake, reporters[k], reporterReward);
      }
      valueSlashed := valueSlashed + stakeReward;
      forwarded := forwarded + valueSlashed;
    }
  }

  // ---------- laws ----------

  lemma {:induction false} StakeMoves(m: map<AccountId, nat>, reporters: seq<AccountId>, pot: nat, share: nat, k: nat,
                                      accounts: seq<AccountId>)
    requires k <= |reporters| && Distinct(accounts) && forall i :: 0 <= i < |reporters| ==> reporters[i] in accounts
    ensures PotAfter(pot, share, k) <= pot
    ensures Total(PaidStake(m, reporters, pot, share, k), accounts) + PotAfter(pot, share, k)
         == Total(m, accounts) + pot
  {
    hide Distinct, Total, Credited;
    if k > 0 {
      StakeMoves(m, reporters, pot, share, k - 1, accounts);
      TotalCredited(PaidStake(m, reporters, pot, share, k - 1), reporters[k - 1], PaidTo(pot, share, k - 1), accounts);
    }
  }

  lemma {:induction false} ReputationMoves(m: map<AccountId, nat>, reporters: seq<AccountId>, share: nat, k: nat,
                                           accounts: seq<AccountId>)
    requires k <= |reporters| && Distinct(accounts) && forall i :: 0 <= i < |reporters| ==> reporters[i] in accounts
    ensures Total(PaidReputation(m, reporters, share, k), accounts) == Total(m, accounts) + k * share
  {
    hide Distinct, Total, Credited;
    if k > 0 {
      ReputationMoves(m, reporters, share, k - 1, accounts);
      TotalCredited(PaidReputation(m, reporters, share, k - 1), reporters[k - 1], share, accounts);
      assert k * share == (k - 1) * share + share;
    }
  }

  /** Equal shares rounded to nearest exceed the whole by at most half a unit each. */
  lemma SharesAtMost(amount: nat, count: nat)
    requires count > 0
    ensures 2 * (count * ShareOf(amount, count)) <= 2 * amount + count
  {
    hide PerbillFromRational;
    var prop, share := PerbillFromRational(1, count), ShareOf(amount, count);
    PerbillMulNearest(prop, amount, share);
    ProductIs(prop, count);
    SharesArithmetic(prop, count, amount, share);
  }

  lemma SharesArithmetic(prop: nat, count: nat, amount: nat, share: nat)
    requires prop * count <= BILLION
    requires 2 * BILLION * share < 2 * (prop * amount) + BILLION
    ensures 2 * (count * share) <= 2 * amount + count
  {
    var x, y := count * share, (prop * count) * amount;
    assert count * (2 * BILLION * share) == 2 * BILLION * x;
    assert count * (2 * (prop * amount) + BILLION) == 2 * y + BILLION * count;
    assert count * (2 * BILLION * share) <= count * (2 * (prop * amount) + BILLION);
    assert y <= BILLION * amount by {
      assert (BILLION - prop * count) * amount >= 0;
      assert BILLION * amount == y + (BILLION - prop * count) * amount;
    }
  }

  /** Nothing is created or lost: what reporters gain and what is forwarded is the
      imbalance; reporters gain at most the smaller of reward and imbalance, and at
      most half a point of reputation each beyond the reward. */
  lemma PayoutConserves(stake: map<AccountId, nat>, reputation: map<AccountId, nat>, reward: SlashEntity,
                        imbalance: nat, reporters: seq<AccountId>, accounts: seq<AccountId>)
    requires Distinct(accounts) && forall i :: 0 <= i < |reporters| ==> reporters[i] in accounts
    ensures var p := Paid(stake, reputation, reward, imbalance, reporters);
      && Total(p.stake, accounts) + p.forwarded == Total(stake, accounts) + imbalance
      && Total(p.stake, accounts) <= Total(stake, accounts) + Min(reward.stake, imbalance)
      && 2 * Total(p.reputation, accounts) <= 2 * Total(reputation, accounts) + 2 * reward.reputation + |reporters|
      && Total(p.reputation, accounts) >= Total(reputation, accounts)
  {
    hide ShareOf, PaidStake, PaidReputation, PotAfter;
    var n, pot := |reporters|, Pot(reward, imbalance);
    if n > 0 {
      StakeMoves(stake, reporters, pot, ShareOf(pot, n), n, accounts);
      ReputationMoves(reputation, reporters, ShareOf(reward.reputation, n), n, accounts);
      SharesAtMost(reward.reputation, n);
    }
  }

  /** Every reporter before the pot runs short gets a full share, the next one its rest, and then nobody anything. */
  lemma {:induction false} SharesInOrder(pot: nat, share: nat, k: nat)
    ensures PaidTo(pot, share, k) == if (k + 1) * share <= pot then share else SatSub(pot, k * share)
    ensures PotAfter(pot, share, k) == SatSub(pot, k * share)
  {
    if k > 0 {
      SharesInOrder(pot, share, k - 1);
      assert k * share == (k - 1) * share + share;
    }
    assert (k + 1) * share == k * share + share;
  }

  /** No account but the reporters gets anything. */
  lemma {:induction false} OthersGetNothing(m: map<AccountId, nat>, reporters: seq<AccountId>, pot: nat, share: nat,
                                            k: nat, who: AccountId)
    requires k <= |reporters| && who !in reporters
    ensures Balance(PaidStake(m, reporters, pot, share, k), who) == Balance(m, who)
    ensures Balance(PaidReputation(m, reporters, share, k), who) == Balance(m, who)
  {
    if k > 0 { OthersGetNothing(m, reporters, pot, share, k - 1, who); }
  }
}
