/** Applying a computed slash: the ledgers, balances and reputations of the validator
    and its cooperators are slashed one by one, and the reporters are paid out of what
    was taken. */
module ApplySlash {
  import opened Accounts
  import opened Arithmetic
  import opened SpanRecords
  import Staking
  import LedgerLaws
  import LedgerRuns
  import Offences
  import Reporters

  /** What an applied slash needs of the runtime: bonding duration, minimum balance, and what the
      currency leaves of the balance of an account that has to stay alive. */
  datatype Config = Config(bonding: nat, minimumBalance: nat, reserves: map<AccountId, nat>) {
    function ReserveOf(who: AccountId): nat { Balance(reserves, who) }
  }

  datatype State = State(
    ledgers: map<AccountId, Staking.Ledger>, stake: map<AccountId, nat>, reputation: map<AccountId, nat>)

  /** Slashing so far: the state, the reward left, and the imbalance collected. */
  datatype Progress = Progress(state: State, reward: nat, imbalance: nat)

  /** Slash one staker's ledger, then its balance as far as it goes; what is missing is
      deducted from the reward. */
  function StakeSlashed(c: Config, g: Progress, who: AccountId, amount: nat, era: nat): Progress
    requires who in g.state.ledgers
  {
    var r := Staking.Slashed(g.state.ledgers[who], c.bonding, amount, c.minimumBalance, era);
    if r.slashed == 0 then g
    else
      var balance := Balance(g.state.stake, who);
      var taken := Min(r.slashed, SatSub(balance, c.ReserveOf(who)));
      var state := g.state.(ledgers := g.state.ledgers[who := r.ledger],
                            stake := g.state.stake[who := balance - taken]);
      Progress(state, SatSub(g.reward, r.slashed - taken), g.imbalance + taken)
  }

  /** Slash one staker's stake, then its reputation; returns whether that succeeded. Without a ledger
      nothing changes; without a reputation record the stake is slashed nevertheless. */
  function Slashed(c: Config, g: Progress, who: AccountId, slash: SlashEntity, era: nat): (Progress, bool) {
    if who !in g.state.ledgers then (g, false)
    else
      var after := StakeSlashed(c, g, who, slash.stake, era);
      if who !in g.state.reputation then (after, false)
      else
        var points := SatSub(g.state.reputation[who], slash.reputation);
        (after.(state := after.state.(reputation := g.state.reputation[who := points])), true)
  }

  /** The stakers in turn, up to and including the first error. */
  function SlashedAll(c: Config, g: Progress, slashes: seq<(AccountId, SlashEntity)>, era: nat): (Progress, bool)
    decreases |slashes|
  {
    if |slashes| == 0 then (g, true)
    else
      var (next, ok) := Slashed(c, g, slashes[0].0, slashes[0].1, era);
      if ok then SlashedAll(c, next, slashes[1..], era) else (next, false)
  }

  /** The validator comes before its cooperators. */
  function Slashes(u: Offences.UnappliedSlash): seq<(AccountId, SlashEntity)> { [(u.validator, u.own)] + u.others }

  /** The stakers slashed with an unapplied slash. */
  function SlashedBy(c: Config, s: State, u: Offences.UnappliedSlash, era: nat): (Progress, bool) {
    SlashedAll(c, Progress(s, u.payout.stake, 0), Slashes(u), era)
  }

  /** The state after the slash, what is forwarded to the slash handler, and whether all stakers were
      slashed; after an error nobody is paid and what was collected is dropped. */
  function Applied(c: Config, s: State, u: Offences.UnappliedSlash, reporters: seq<AccountId>, era: nat)
    : (State, nat, bool)
  {
    var (g, ok) := SlashedBy(c, s, u, era);
    if !ok then (g.state, 0, false)
    else
      var p := Reporters.Paid(g.state.stake, g.state.reputation, SlashEntity(u.payout.reputation, g.reward),
                              g.imbalance, reporters);
      (g.state.(stake := p.stake, reputation := p.reputation), p.forwarded, true)
  }

  class StakingPallet {
    const config: Config
    const treasury: Reporters.Treasury
    var ledgers: map<AccountId, Staking.Ledger>

    ghost function Value(): State
      reads this, treasury
    {
      State(ledgers, treasury.stake, treasury.reputation)
    }

    constructor (config: Config, s: State)
      ensures this.config == config && Value() == s && fresh(treasury) && treasury.forwarded == 0
    {
      this.config := config;
      treasury := new Reporters.Treasury(s.stake, s.reputation);
      ledgers := s.ledgers;
    }

    /** Slash one staker; returns whether that succeeded, the reward left, and what was collected. */
    method DoSlash(who: AccountId, slash: SlashEntity, reward: nat, imbalance: nat, era: nat)
      returns (ok: bool, rewardLeft: nat, collected: nat)
      modifies this, treasury`stake, treasury`reputation
      ensures (Progress(Value(), rewardLeft, collected), ok)
           == Slashed(config, Progress(old(Value()), reward, imbalance), who, slash, era)
    {
      hide Staking.Slashed;
      rewardLeft, collected := reward, imbalance;
      if who !in ledgers {
        return false, rewardLeft, collected;
      }
      var l := ledgers[who];
      var ledger := new Staking.StakingLedger(config.bonding, l.total, l.active, l.unlocking);
      var value, _ := ledger.SlashStake(slash.stake, config.minimumBalance, era);
      if value != 0 {
        var balance := Balance(treasury.stake, who);
        var taken := Min(value, SatSub(balance, config.ReserveOf(who)));
        treasury.stake := treasury.stake[who := balance - taken];
        collected := collected + taken;
        rewardLeft := SatSub(rewardLeft, value - taken);
        ledgers := ledgers[who := Staking.Ledger(ledger.total, ledger.active, ledger.unlocking)];
      }
      if who !in treasury.reputation {
        return false, rewardLeft, collected;
      }
      treasury.reputation := treasury.reputation[who := SatSub(treasury.reputation[who], slash.reputation)];
      return true, rewardLeft, collected;
    }

    /** Apply an unapplied slash; on success what is not paid to reporters has been forwarded. */
    method Apply(u: Offences.UnappliedSlash, reporters: seq<AccountId>, era: nat) returns (ok: bool)
      modifies this, treasury
      ensures var (s, forwarded, done) := Applied(config, old(Value()), u, reporters, era);
        Value() == s && treasury.forwarded == old(treasury.forwarded) + forwarded && ok == done
    {
      hide Slashed, Reporters.Paid;
      ghost var all := Slashes(u);
      var done, reward, imbalance := DoSlash(u.validator, u.own, u.payout.stake, 0, era);
      if !done {
        return false;
      }
      assert all[1..] == u.others;
      var k := 0;
      while k < |u.others|
        invariant k <= |u.others|
        invariant treasury.forwarded == old(treasury.forwarded)
        invariant SlashedAll(config, Progress(Value(), reward, imbalance), u.others[k..], era)
               == SlashedBy(config, old(Value()), u, era)
      {
        assert u.others[k..][1..] == u.others[k + 1..];
        done, reward, imbalance := DoSlash(u.others[k].0, u.others[k].1, reward, imbalance, era);
        if !done {
          return false;
        }
        k := k + 1;
      }
      treasury.PayReporters(SlashEntity(u.payout.reputation, reward), imbalance, reporters);
      return true;
    }
  }

  // ---------- one staker ----------

  /** Every ledger is consistent and covered by its stash's balance. */
  ghost predicate Backed(s: State) {
    forall who :: who in s.ledgers ==>
      LedgerLaws.Valid(s.ledgers[who]) && s.ledgers[who].total <= Balance(s.stake, who)
  }

  /** What a staker's ledger loses is at least the smaller of the request and its total, and at most one
      dust remainder more than the request. It is collected as far as the balance exceeds what has to
      stay; the reward pays for the rest, which is never more than what has to stay. */
  lemma StakeCollects(c: Config, g: Progress, who: AccountId, amount: nat, era: nat)
    requires Backed(g.state) && who in g.state.ledgers
    ensures var g' := StakeSlashed(c, g, who, amount, era);
      var ledger, balance := g.state.ledgers[who], Balance(g.state.stake, who);
      var lost := Staking.Slashed(ledger, c.bonding, amount, c.minimumBalance, era).slashed;
      var taken := Min(lost, SatSub(balance, c.ReserveOf(who)));
      && Min(amount, ledger.total) <= lost <= Min(ledger.total, amount + LedgerLaws.Overshoot(c.minimumBalance))
      && lost <= taken + c.ReserveOf(who)
      && g'.imbalance == g.imbalance + taken && g'.reward == SatSub(g.reward, lost - taken)
      && g'.state.ledgers.Keys == g.state.ledgers.Keys && g'.state.reputation == g.state.reputation
      && Balance(g'.state.stake, who) + taken == balance
      && (forall a :: a != who ==> Balance(g'.state.stake, a) == Balance(g.state.stake, a))
  {
    hide Staking.Slashed, LedgerLaws.Valid;
    SlashKeepsLedger(g.state.ledgers[who], c, amount, era);
  }

  /** Slashing a staker's stake keeps ledgers valid and backed, and lowers the staker's ledger by what it loses. */
  lemma StakeKeepsBacked(c: Config, g: Progress, who: AccountId, amount: nat, era: nat)
    requires Backed(g.state) && who in g.state.ledgers
    ensures var g' := StakeSlashed(c, g, who, amount, era);
      && Backed(g'.state) && who in g'.state.ledgers
      && g'.state.ledgers[who].total + Staking.Slashed(g.state.ledgers[who], c.bonding, amount, c.minimumBalance,
                                                       era).slashed
           == g.state.ledgers[who].total
  {
    hide Staking.Slashed, LedgerLaws.Valid;
    var g' := StakeSlashed(c, g, who, amount, era);
    SlashKeepsLedger(g.state.ledgers[who], c, amount, era);
    forall a | a in g'.state.ledgers
      ensures LedgerLaws.Valid(g'.state.ledgers[a]) && g'.state.ledgers[a].total <= Balance(g'.state.stake, a)
    {
      assert a in g.state.ledgers;
    }
  }

  lemma SlashKeepsLedger(ledger: Staking.Ledger, c: Config, amount: nat, era: nat)
    requires LedgerLaws.Valid(ledger)
    ensures var r := Staking.Slashed(ledger, c.bonding, amount, c.minimumBalance, era);
      && Min(amount, ledger.total) <= r.slashed <= Min(ledger.total, amount + LedgerLaws.Overshoot(c.minimumBalance))
      && LedgerLaws.Valid(r.ledger) && r.ledger.total + r.slashed == ledger.total
  {
    hide Staking.Slashed, LedgerLaws.Valid;
    ValidConsistent(ledger);
    LedgerRuns.SlashKeepsValid(ledger, c.bonding, amount, c.minimumBalance, era);
    if amount > 0 {
      LedgerLaws.SlashBounds(ledger, c.bonding, amount, c.minimumBalance, era);
    } else {
      NoSlash(ledger, c, era);
    }
  }

  lemma ValidConsistent(ledger: Staking.Ledger)
    requires LedgerLaws.Valid(ledger)
    ensures LedgerLaws.Consistent(ledger)
  {}

  lemma NoSlash(ledger: Staking.Ledger, c: Config, era: nat)
    ensures Staking.Slashed(ledger, c.bonding, 0, c.minimumBalance, era).slashed == 0
  {}

  /** A staker with a ledger but without a reputation record loses its stake although slashing it fails,
      even when no reputation is to be slashed. */
  lemma MissingRecordLosesStake(c: Config, g: Progress, who: AccountId, slash: SlashEntity, era: nat)
    requires Backed(g.state) && who in g.state.ledgers && who !in g.state.reputation
    ensures var (g', ok) := Slashed(c, g, who, slash, era);
      && !ok
      && who in g'.state.ledgers
      && g'.state.ledgers[who].total + Min(slash.stake, g.state.ledgers[who].total) <= g.state.ledgers[who].total
  {
    hide StakeSlashed, Staking.Slashed;
    StakeCollects(c, g, who, slash.stake, era);
    StakeKeepsBacked(c, g, who, slash.stake, era);
  }

  /** Stake is only moved into the imbalance, whoever is slashed and however that ends. */
  lemma SlashMoves(c: Config, g: Progress, who: AccountId, slash: SlashEntity, era: nat, accounts: seq<AccountId>)
    requires Distinct(accounts) && who in accounts
    ensures var g' := Slashed(c, g, who, slash, era).0;
      && Total(g'.state.stake, accounts) + g'.imbalance == Total(g.state.stake, accounts) + g.imbalance
      && g'.reward <= g.reward
  {
    hide Staking.Slashed;
    if who in g.state.ledgers {
      var r := Staking.Slashed(g.state.ledgers[who], c.bonding, slash.stake, c.minimumBalance, era);
      var balance := Balance(g.state.stake, who);
      TotalMoves(g.state.stake, who, balance - Min(r.slashed, SatSub(balance, c.ReserveOf(who))), accounts);
    }
  }

  /** One staker's reputation falls by the points slashed, when slashing it succeeds; nobody else's changes. */
  lemma SlashTakesPoints(c: Config, g: Progress, who: AccountId, slash: SlashEntity, era: nat, a: AccountId)
    ensures var (g', ok) := Slashed(c, g, who, slash, era);
      && (ok <==> who in g.state.ledgers && who in g.state.reputation)
      && g'.state.ledgers.Keys == g.state.ledgers.Keys && g'.state.reputation.Keys == g.state.reputation.Keys
      && Balance(g'.state.reputation, a)
           == if ok && a == who then SatSub(Balance(g.state.reputation, a), slash.reputation)
              else Balance(g.state.reputation, a)
  {
    hide Staking.Slashed;
  }

  // ---------- all stakers ----------

  lemma {:induction false} SlashAllMoves(c: Config, g: Progress, slashes: seq<(AccountId, SlashEntity)>, era: nat,
                                         accounts: seq<AccountId>)
    requires Distinct(accounts) && forall k :: 0 <= k < |slashes| ==> slashes[k].0 in accounts
    ensures var g' := SlashedAll(c, g, slashes, era).0;
      && Total(g'.state.stake, accounts) + g'.imbalance == Total(g.state.stake, accounts) + g.imbalance
      && g'.reward <= g.reward
    decreases |slashes|
  {
    if |slashes| > 0 {
      hide Slashed;
      SlashMoves(c, g, slashes[0].0, slashes[0].1, era, accounts);
      SlashAllMoves(c, Slashed(c, g, slashes[0].0, slashes[0].1, era).0, slashes[1..], era, accounts);
    }
  }

  /** The points to be slashed from an account. */
  ghost function PointsOf(slashes: seq<(AccountId, SlashEntity)>, who: AccountId): nat {
    if |slashes| == 0 then 0
    else (if slashes[0].0 == who then slashes[0].1.reputation else 0) + PointsOf(slashes[1..], who)
  }

  /** Every staker who can be slashed in full: with a ledger and a reputation record. */
  ghost predicate AllKnown(s: State, slashes: seq<(AccountId, SlashEntity)>) {
    forall k :: 0 <= k < |slashes| ==> slashes[k].0 in s.ledgers && slashes[k].0 in s.reputation
  }

  /** Slashing all stakers succeeds exactly when each has a ledger and a reputation record; then every
      account loses exactly the points slashed from it, as far as it has them. */
  lemma {:induction false} SlashAllTakesPoints(c: Config, g: Progress, slashes: seq<(AccountId, SlashEntity)>, era: nat,
                                               a: AccountId)
    ensures var (g', ok) := SlashedAll(c, g, slashes, era);
      var before, after := Balance(g.state.reputation, a), Balance(g'.state.reputation, a);
      var points := PointsOf(slashes, a);
      && (ok <==> AllKnown(g.state, slashes))
      && (if ok then after == SatSub(before, points) else SatSub(before, points) <= after <= before)
    decreases |slashes|
  {
    if |slashes| > 0 {
      hide Slashed;
      var (next, ok) := Slashed(c, g, slashes[0].0, slashes[0].1, era);
      SlashTakesPoints(c, g, slashes[0].0, slashes[0].1, era, a);
      if ok {
        SlashAllTakesPoints(c, next, slashes[1..], era, a);
        assert forall k :: 0 < k < |slashes| ==> slashes[k] == slashes[1..][k - 1];
      }
    }
  }

  /** What has to stay of the balances of the slashed stakers. */
  ghost function ReservesOf(c: Config, slashes: seq<(AccountId, SlashEntity)>): nat {
    if |slashes| == 0 then 0 else c.ReserveOf(slashes[0].0) + ReservesOf(c, slashes[1..])
  }

  lemma {:induction false} SlashAllKeepsBacked(c: Config, g: Progress, slashes: seq<(AccountId, SlashEntity)>, era: nat)
    requires Backed(g.state)
    ensures var g' := SlashedAll(c, g, slashes, era).0;
      Backed(g'.state) && g'.reward <= g.reward <= g'.reward + ReservesOf(c, slashes)
    decreases |slashes|
  {
    if |slashes| > 0 {
      hide StakeSlashed, LedgerLaws.Valid;
      var (who, slash) := slashes[0];
      if who in g.state.ledgers { StakeCollects(c, g, who, slash.stake, era); }
      hide Backed, Staking.Slashed;
      var next := Slashed(c, g, who, slash, era).0;
      SlashKeepsBacked(c, g, who, slash, era);
      SlashAllKeepsBacked(c, next, slashes[1..], era);
    }
  }

  lemma SlashKeepsBacked(c: Config, g: Progress, who: AccountId, slash: SlashEntity, era: nat)
    requires Backed(g.state)
    ensures Backed(Slashed(c, g, who, slash, era).0.state)
  {
    hide StakeSlashed, Staking.Slashed, LedgerLaws.Valid;
    if who in g.state.ledgers { StakeKeepsBacked(c, g, who, slash.stake, era); }
  }

  // ---------- main results ----------

  /** A slash that is applied in full neither creates nor loses stake: what leaves the stakers
      goes to the reporters or is forwarded, and reporters get at most the promised reward. A slash
      that fails midway pays nobody and loses what was collected until then. */
  lemma AppliedConserves(c: Config, s: State, u: Offences.UnappliedSlash, reporters: seq<AccountId>, era: nat,
                         accounts: seq<AccountId>)
    requires Distinct(accounts)
    requires forall k :: 0 <= k < |Slashes(u)| ==> Slashes(u)[k].0 in accounts
    requires forall k :: 0 <= k < |reporters| ==> reporters[k] in accounts
    ensures var (s', forwarded, ok) := Applied(c, s, u, reporters, era);
      var collected := SlashedBy(c, s, u, era).0.imbalance;
      var before, after := Total(s.stake, accounts), Total(s'.stake, accounts);
      && (ok ==> after + forwarded == before)
      && (ok ==> after + collected <= before + Min(u.payout.stake, collected))
      && (!ok ==> after + collected == before && forwarded == 0)
  {
    hide SlashedAll, Reporters.Paid;
    SlashAllMoves(c, Progress(s, u.payout.stake, 0), Slashes(u), era, accounts);
    var (g, ok) := SlashedBy(c, s, u, era);
    if ok {
      Reporters.PayoutConserves(g.state.stake, g.state.reputation, SlashEntity(u.payout.reputation, g.reward),
                                g.imbalance, reporters, accounts);
    }
  }

  /** A slash is applied in full exactly when every staker has a ledger and a reputation record. Then every
      account but the reporters loses exactly the points slashed from it; otherwise none gains any. */
  lemma AppliedTakesPoints(c: Config, s: State, u: Offences.UnappliedSlash, reporters: seq<AccountId>, era: nat,
                           a: AccountId)
    ensures var (s', _, ok) := Applied(c, s, u, reporters, era);
      && (ok <==> AllKnown(s, Slashes(u)))
      && (ok && a !in reporters ==>
            Balance(s'.reputation, a) == SatSub(Balance(s.reputation, a), PointsOf(Slashes(u), a)))
      && (!ok ==> Balance(s'.reputation, a) <= Balance(s.reputation, a))
  {
    hide SlashedAll, AllKnown;
    SlashAllTakesPoints(c, Progress(s, u.payout.stake, 0), Slashes(u), era, a);
    var (g, ok) := SlashedBy(c, s, u, era);
    if ok && a !in reporters {
      hide Reporters.ShareOf;
      var n, pot := |reporters|, Reporters.Pot(SlashEntity(u.payout.reputation, g.reward), g.imbalance);
      if n > 0 {
        Reporters.OthersGetNothing(g.state.reputation, reporters, pot, Reporters.ShareOf(u.payout.reputation, n), n, a);
      }
    }
  }

  /** While ledgers are backed by balances, an applied slash keeps them valid and backed, whether or not
      it succeeds, and the reward is deducted by at most what has to stay of the slashed balances. */
  lemma AppliedKeepsBacked(c: Config, s: State, u: Offences.UnappliedSlash, reporters: seq<AccountId>, era: nat)
    requires Backed(s)
    ensures Backed(Applied(c, s, u, reporters, era).0)
    ensures var reward := SlashedBy(c, s, u, era).0.reward;
      reward <= u.payout.stake <= reward + ReservesOf(c, Slashes(u))
  {
    SlashAllKeepsBacked(c, Progress(s, u.payout.stake, 0), Slashes(u), era);
    var (g, ok) := SlashedBy(c, s, u, era);
    if ok {
      forall who
        ensures Balance(g.state.stake, who) <= Balance(Applied(c, s, u, reporters, era).0.stake, who)
      {
        PaidNeverLowers(g.state.stake, g.state.reputation, SlashEntity(u.payout.reputation, g.reward), g.imbalance,
                        reporters, who);
      }
    }
  }

  lemma PaidNeverLowers(stake: map<AccountId, nat>, reputation: map<AccountId, nat>, reward: SlashEntity,
                        imbalance: nat, reporters: seq<AccountId>, who: AccountId)
    ensures Balance(stake, who) <= Balance(Reporters.Paid(stake, reputation, reward, imbalance, reporters).stake, who)
  {
    hide Reporters.ShareOf;
    var n, pot := |reporters|, Reporters.Pot(reward, imbalance);
    StakeNeverLowers(stake, reporters, pot, Reporters.ShareOf(pot, n), n, who);
  }

  lemma {:induction false} StakeNeverLowers(m: map<AccountId, nat>, reporters: seq<AccountId>, pot: nat, share: nat,
                                            k: nat, who: AccountId)
    requires k <= |reporters|
    ensures Balance(m, who) <= Balance(Reporters.PaidStake(m, reporters, pot, share, k), who)
  {
    if k > 0 { StakeNeverLowers(m, reporters, pot, share, k - 1, who); }
  }
}
