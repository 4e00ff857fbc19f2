/** The faucet's limiter: per account, a running total since a stored block,
    restarted once the accumulation period has passed. */
module Faucet {
  import opened Accounts
  import opened Arithmetic

  /** The maximum per period, the period in blocks, and the least balance an account can exist with. */
  datatype Limits = Limits(maxAmount: nat, period: nat, existentialDeposit: nat)

  /** What was requested since a block. */
  datatype Request = Request(total: nat, since: nat)

  datatype State = State(requests: map<AccountId, Request>, balances: map<AccountId, nat>)

  datatype Answer = FundsSent | AmountTooHigh | RequestLimitExceeded

  function Stored(s: State, who: AccountId): Request {
    if who in s.requests then s.requests[who] else Request(0, 0)
  }

  /** Whether a deposit reaches its account: one too small to create an account is dropped silently. */
  predicate Reaches(limits: Limits, balances: map<AccountId, nat>, who: AccountId, amount: nat) {
    who in balances || amount >= limits.existentialDeposit
  }

  function Deposited(limits: Limits, balances: map<AccountId, nat>, who: AccountId, amount: nat): map<AccountId, nat> {
    if amount > 0 && Reaches(limits, balances, who, amount) then Credited(balances, who, amount) else balances
  }

  /** The request record if the request is granted at block `now`. */
  function Updated(limits: Limits, r: Request, amount: nat, now: nat): Request
    requires r.since <= now
  {
    if now - r.since >= limits.period then Request(amount, now) else Request(r.total + amount, r.since)
  }

  function Requested(limits: Limits, s: State, who: AccountId, amount: nat, now: nat): (State, Answer)
    requires Stored(s, who).since <= now
  {
    if amount > limits.maxAmount then (s, AmountTooHigh)
    else
      var r := Updated(limits, Stored(s, who), amount, now);
      if r.total > limits.maxAmount then (s, RequestLimitExceeded)
      else (State(s.requests[who := r], Deposited(limits, s.balances, who, amount)), FundsSent)
  }

  class FaucetPallet {
    const limits: Limits
    var requests: map<AccountId, Request>
    var balances: map<AccountId, nat>

    ghost function Value(): State
      reads this
    {
      State(requests, balances)
    }

    constructor (limits: Limits, balances: map<AccountId, nat>)
      ensures this.limits == limits && Value() == State(map[], balances)
    {
      this.limits, requests, this.balances := limits, map[], balances;
    }

    method RequestFunds(who: AccountId, amount: nat, now: nat) returns (answer: Answer)
      requires Stored(Value(), who).since <= now
      modifies this
      ensures (Value(), answer) == Requested(limits, old(Value()), who, amount, now)
    {
      if amount > limits.maxAmount {
        return AmountTooHigh;
      }
      var stored := if who in requests then requests[who] else Request(0, 0);
      var period := now - stored.since;
      var total, since;
      if period >= limits.period {
        total, since := amount, now;
      } else {
        total, since := stored.total + amount, stored.since;
      }
      if total > limits.maxAmount {
        return RequestLimitExceeded;
      }
      balances := Deposited(limits, balances, who, amount);
      requests := requests[who := Request(total, since)];
      return FundsSent;
    }
  }

  // ---------- runs ----------

  datatype Call = Call(who: AccountId, amount: nat, now: nat)

  /** Calls come with block numbers that never fall. */
  ghost predicate InOrder(calls: seq<Call>) {
    forall i, j :: 0 <= i < j < |calls| ==> calls[i].now <= calls[j].now
  }

  ghost function Latest(calls: seq<Call>): nat { if |calls| == 0 then 0 else calls[|calls| - 1].now }

  ghost function Start(balances: map<AccountId, nat>): State { State(map[], balances) }

  lemma RequestedSince(limits: Limits, s: State, call: Call)
    requires forall w :: Stored(s, w).since <= call.now
    ensures forall w :: Stored(Requested(limits, s, call.who, call.amount, call.now).0, w).since <= call.now
  {
    var s' := Requested(limits, s, call.who, call.amount, call.now).0;
    forall w ensures Stored(s', w).since <= call.now {
      assert Stored(s, w).since <= call.now;
    }
  }

  ghost function Run(limits: Limits, balances: map<AccountId, nat>, calls: seq<Call>): (s: State)
    requires InOrder(calls)
    ensures forall who :: Stored(s, who).since <= Latest(calls)
  {
    if |calls| == 0 then Start(balances)
    else
      var init, call := calls[..|calls| - 1], calls[|calls| - 1];
      RequestedSince(limits, Run(limits, balances, init), call);
      Requested(limits, Run(limits, balances, init), call.who, call.amount, call.now).0
  }

  /** Whether the last call is granted. */
  ghost predicate LastGranted(limits: Limits, balances: map<AccountId, nat>, calls: seq<Call>)
    requires InOrder(calls) && |calls| > 0
  {
    var init, call := calls[..|calls| - 1], calls[|calls| - 1];
    Requested(limits, Run(limits, balances, init), call.who, call.amount, call.now).1.FundsSent?
  }

  /** What was granted to an account from block `lo` up to, not including, block `hi`. */
  ghost function Issued(limits: Limits, balances: map<AccountId, nat>, calls: seq<Call>, who: AccountId, lo: int,
                        hi: int): nat
    requires InOrder(calls)
  {
    if |calls| == 0 then 0
    else
      var init, call := calls[..|calls| - 1], calls[|calls| - 1];
      Issued(limits, balances, init, who, lo, hi)
      + if LastGranted(limits, balances, calls) && call.who == who && lo <= call.now < hi then call.amount else 0
  }

  /** What was issued in the period from block `t` on. */
  ghost function IssuedIn(limits: Limits, balances: map<AccountId, nat>, calls: seq<Call>, who: AccountId, t: int): nat
    requires InOrder(calls)
  {
    Issued(limits, balances, calls, who, t, t + limits.period)
  }

  /** A longer interval issues no less. */
  lemma {:induction false} IssuedMono(limits: Limits, balances: map<AccountId, nat>, calls: seq<Call>, who: AccountId,
                                      lo: int, lo': int, hi': int, hi: int)
    requires InOrder(calls) && lo <= lo' && hi' <= hi
    ensures Issued(limits, balances, calls, who, lo', hi') <= Issued(limits, balances, calls, who, lo, hi)
  {
    if |calls| > 0 { IssuedMono(limits, balances, calls[..|calls| - 1], who, lo, lo', hi', hi); }
  }

  /** Consecutive intervals add up. */
  lemma {:induction false} IssuedSplit(limits: Limits, balances: map<AccountId, nat>, calls: seq<Call>, who: AccountId,
                                       lo: int, mid: int, hi: int)
    requires InOrder(calls) && lo <= mid <= hi
    ensures Issued(limits, balances, calls, who, lo, hi)
         == Issued(limits, balances, calls, who, lo, mid) + Issued(limits, balances, calls, who, mid, hi)
  {
    if |calls| > 0 { IssuedSplit(limits, balances, calls[..|calls| - 1], who, lo, mid, hi); }
  }

  /** The stored total is what was issued since the stored block, and within the maximum. */
  ghost predicate TotalExact(limits: Limits, balances: map<AccountId, nat>, calls: seq<Call>, who: AccountId, end: int)
    requires InOrder(calls)
  {
    var r := Stored(Run(limits, balances, calls), who);
    r.total <= limits.maxAmount && r.total == Issued(limits, balances, calls, who, r.since, end)
  }

  /** Nothing was issued once the period since the stored block had passed. */
  ghost predicate QuietAfter(limits: Limits, balances: map<AccountId, nat>, calls: seq<Call>, who: AccountId, end: int)
    requires InOrder(calls)
  {
    Issued(limits, balances, calls, who, Stored(Run(limits, balances, calls), who).since + limits.period, end) == 0
  }

  /** The period before the stored block issued no more than the maximum. */
  ghost predicate PriorLimited(limits: Limits, balances: map<AccountId, nat>, calls: seq<Call>, who: AccountId)
    requires InOrder(calls)
  {
    var r := Stored(Run(limits, balances, calls), who);
    forall t: int :: t + limits.period > r.since ==>
      Issued(limits, balances, calls, who, t, r.since) <= limits.maxAmount
  }

  /** No period issues more than twice the maximum. */
  ghost predicate TwiceLimited(limits: Limits, balances: map<AccountId, nat>, calls: seq<Call>, who: AccountId)
    requires InOrder(calls)
  {
    forall t: int :: IssuedIn(limits, balances, calls, who, t) <= 2 * limits.maxAmount
  }

  ghost predicate Limited(limits: Limits, balances: map<AccountId, nat>, calls: seq<Call>, who: AccountId, end: int)
    requires InOrder(calls)
  {
    && TotalExact(limits, balances, calls, who, end)
    && QuietAfter(limits, balances, calls, who, end)
    && PriorLimited(limits, balances, calls, who)
    && TwiceLimited(limits, balances, calls, who)
  }

  /** Every call comes more than a period before `end`. */
  ghost predicate EndsBefore(limits: Limits, calls: seq<Call>, end: int) {
    0 <= end && forall k :: 0 <= k < |calls| ==> calls[k].now + limits.period < end
  }

  /** A granted call either restarts the total of its account or adds to it. */
  lemma GrantRestartsOrGrows(limits: Limits, balances: map<AccountId, nat>, calls: seq<Call>, end: int)
    requires InOrder(calls) && |calls| > 0 && LastGranted(limits, balances, calls)
    requires limits.period > 0 && EndsBefore(limits, calls, end)
    requires Limited(limits, balances, calls[..|calls| - 1], calls[|calls| - 1].who, end)
    ensures Restarts(limits, balances, calls, end) || Grows(limits, balances, calls, end)
  {
    hide Limited;
    assert Latest(calls[..|calls| - 1]) <= calls[|calls| - 1].now;
  }

  lemma {:induction false} RunLimited(limits: Limits, balances: map<AccountId, nat>, calls: seq<Call>, who: AccountId,
                                      end: int)
    requires InOrder(calls) && limits.period > 0 && EndsBefore(limits, calls, end)
    ensures Limited(limits, balances, calls, who, end)
  {
    if |calls| > 0 {
      hide Limited, LastGranted, Restarts, Grows;
      var init, call := calls[..|calls| - 1], calls[|calls| - 1];
      RunLimited(limits, balances, init, who, end);
      if LastGranted(limits, balances, calls) && call.who == who {
        GrantRestartsOrGrows(limits, balances, calls, end);
        if Restarts(limits, balances, calls, end) {
          RestartLimited(limits, balances, calls, end);
        } else {
          GrowthLimited(limits, balances, calls, end);
        }
      } else {
        OtherLimited(limits, balances, calls, who, end);
      }
    }
  }

  /** What a call that grants nothing to an account leaves alone. */
  lemma OtherLimited(limits: Limits, balances: map<AccountId, nat>, calls: seq<Call>, who: AccountId, end: int)
    requires InOrder(calls) && |calls| > 0
    requires Limited(limits, balances, calls[..|calls| - 1], who, end)
    requires !(LastGranted(limits, balances, calls) && calls[|calls| - 1].who == who)
    ensures Limited(limits, balances, calls, who, end)
  {
    hide Run, LastGranted, Issued;
    var init := calls[..|calls| - 1];
    OtherStored(limits, balances, calls, who);
    forall lo: int, hi: int
      ensures Issued(limits, balances, calls, who, lo, hi) == Issued(limits, balances, init, who, lo, hi)
    {
      OtherIssues(limits, balances, calls, who, lo, hi);
    }
    forall t: int ensures IssuedIn(limits, balances, calls, who, t) == IssuedIn(limits, balances, init, who, t) {}
  }

  lemma OtherStored(limits: Limits, balances: map<AccountId, nat>, calls: seq<Call>, who: AccountId)
    requires InOrder(calls) && |calls| > 0
    requires !(LastGranted(limits, balances, calls) && calls[|calls| - 1].who == who)
    ensures Stored(Run(limits, balances, calls), who) == Stored(Run(limits, balances, calls[..|calls| - 1]), who)
  {}

  lemma OtherIssues(limits: Limits, balances: map<AccountId, nat>, calls: seq<Call>, who: AccountId, lo: int, hi: int)
    requires InOrder(calls) && |calls| > 0
    requires !(LastGranted(limits, balances, calls) && calls[|calls| - 1].who == who)
    ensures Issued(limits, balances, calls, who, lo, hi) == Issued(limits, balances, calls[..|calls| - 1], who, lo, hi)
  {
    hide Run, LastGranted;
  }

  /** What a granted call adds to any interval. */
  lemma GrantIssues(limits: Limits, balances: map<AccountId, nat>, calls: seq<Call>, lo: int, hi: int)
    requires InOrder(calls) && |calls| > 0 && LastGranted(limits, balances, calls)
    ensures var call := calls[|calls| - 1];
      Issued(limits, balances, calls, call.who, lo, hi)
        == Issued(limits, balances, calls[..|calls| - 1], call.who, lo,
                  hi) + if lo <= call.now < hi then call.amount else 0
  {}

  /** A granted call that comes at least a period after the stored block. */
  ghost predicate Restarts(limits: Limits, balances: map<AccountId, nat>, calls: seq<Call>, end: int) {
    && InOrder(calls) && |calls| > 0 && LastGranted(limits, balances, calls)
    && limits.period > 0 && EndsBefore(limits, calls, end)
    && var init, call := calls[..|calls| - 1], calls[|calls| - 1];
       var r := Stored(Run(limits, balances, init), call.who);
       && Limited(limits, balances, init, call.who, end)
       && call.now - r.since >= limits.period
       && call.amount <= limits.maxAmount
       && Stored(Run(limits, balances, calls), call.who) == Request(call.amount, call.now)
  }

  lemma RestartTotal(limits: Limits, balances: map<AccountId, nat>, calls: seq<Call>, end: int)
    requires Restarts(limits, balances, calls, end)
    ensures TotalExact(limits, balances, calls, calls[|calls| - 1].who, end)
    ensures QuietAfter(limits, balances, calls, calls[|calls| - 1].who, end)
    ensures Issued(limits, balances, calls[..|calls| - 1], calls[|calls| - 1].who, calls[|calls| - 1].now, end) == 0
  {
    hide Issued, Run, LastGranted;
    var init, call := calls[..|calls| - 1], calls[|calls| - 1];
    var r := Stored(Run(limits, balances, init), call.who);
    IssuedMono(limits, balances, init, call.who, r.since + limits.period, call.now, end, end);
    IssuedMono(limits, balances, init, call.who, r.since + limits.period, call.now + limits.period, end, end);
    GrantIssues(limits, balances, calls, call.now, end);
    GrantIssues(limits, balances, calls, call.now + limits.period, end);
  }

  lemma RestartPrior(limits: Limits, balances: map<AccountId, nat>, calls: seq<Call>, end: int)
    requires Restarts(limits, balances, calls, end)
    ensures PriorLimited(limits, balances, calls, calls[|calls| - 1].who)
  {
    hide Issued, Run, LastGranted;
    var init, call := calls[..|calls| - 1], calls[|calls| - 1];
    var r := Stored(Run(limits, balances, init), call.who);
    forall t: int | t + limits.period > call.now
      ensures Issued(limits, balances, calls, call.who, t, call.now) <= limits.maxAmount
    {
      GrantIssues(limits, balances, calls, t, call.now);
      IssuedMono(limits, balances, init, call.who, r.since, t, call.now, end);
    }
  }

  /** A granted call after the period restarts the total. */
  lemma RestartLimited(limits: Limits, balances: map<AccountId, nat>, calls: seq<Call>, end: int)
    requires Restarts(limits, balances, calls, end)
    ensures Limited(limits, balances, calls, calls[|calls| - 1].who, end)
  {
    hide Issued, Run, LastGranted, TotalExact, QuietAfter;
    var init, call := calls[..|calls| - 1], calls[|calls| - 1];
    var who := call.who;
    RestartTotal(limits, balances, calls, end);
    RestartPrior(limits, balances, calls, end);
    forall t: int ensures IssuedIn(limits, balances, calls, who, t) <= 2 * limits.maxAmount {
      assert IssuedIn(limits, balances, init, who, t) <= 2 * limits.maxAmount;
      GrantIssues(limits, balances, calls, t, t + limits.period);
      if t <= call.now < t + limits.period {
        GrantIssues(limits, balances, calls, t, call.now);
        IssuedSplit(limits, balances, init, who, t, call.now, t + limits.period);
        IssuedMono(limits, balances, init, who, call.now, call.now, t + limits.period, end);
      }
    }
  }

  /** A granted call that comes within a period of the stored block. */
  ghost predicate Grows(limits: Limits, balances: map<AccountId, nat>, calls: seq<Call>, end: int) {
    && InOrder(calls) && |calls| > 0 && LastGranted(limits, balances, calls)
    && limits.period > 0 && EndsBefore(limits, calls, end)
    && var init, call := calls[..|calls| - 1], calls[|calls| - 1];
       var r := Stored(Run(limits, balances, init), call.who);
       && Limited(limits, balances, init, call.who, end)
       && r.since <= call.now < r.since + limits.period
       && r.total + call.amount <= limits.maxAmount
       && Stored(Run(limits, balances, calls), call.who) == Request(r.total + call.amount, r.since)
  }

  lemma GrowthTotal(limits: Limits, balances: map<AccountId, nat>, calls: seq<Call>, end: int)
    requires Grows(limits, balances, calls, end)
    ensures TotalExact(limits, balances, calls, calls[|calls| - 1].who, end)
    ensures QuietAfter(limits, balances, calls, calls[|calls| - 1].who, end)
    ensures PriorLimited(limits, balances, calls, calls[|calls| - 1].who)
  {
    hide Issued, Run, LastGranted;
    var init, call := calls[..|calls| - 1], calls[|calls| - 1];
    var r := Stored(Run(limits, balances, init), call.who);
    GrantIssues(limits, balances, calls, r.since, end);
    GrantIssues(limits, balances, calls, r.since + limits.period, end);
    forall t: int | t + limits.period > r.since
      ensures Issued(limits, balances, calls, call.who, t, r.since) <= limits.maxAmount
    {
      GrantIssues(limits, balances, calls, t, r.since);
    }
  }

  /** A granted call within the period adds to the total. */
  lemma GrowthLimited(limits: Limits, balances: map<AccountId, nat>, calls: seq<Call>, end: int)
    requires Grows(limits, balances, calls, end)
    ensures Limited(limits, balances, calls, calls[|calls| - 1].who, end)
  {
    hide Issued, Run, LastGranted, QuietAfter;
    var init, call := calls[..|calls| - 1], calls[|calls| - 1];
    var who, period := call.who, limits.period;
    var r := Stored(Run(limits, balances, init), who);
    GrowthTotal(limits, balances, calls, end);
    forall t: int ensures IssuedIn(limits, balances, calls, who, t) <= 2 * limits.maxAmount {
      assert IssuedIn(limits, balances, init, who, t) <= 2 * limits.maxAmount;
      GrantIssues(limits, balances, calls, t, t + period);
      if t <= call.now < t + period {
        if t <= r.since {
          IssuedSplit(limits, balances, init, who, t, r.since, t + period);
          IssuedMono(limits, balances, init, who, r.since, r.since, t + period, end);
        } else {
          IssuedMono(limits, balances, init, who, r.since, t, t + period, end);
        }
      }
    }
  }

  // ---------- main results ----------

  /** Some block more than a period after every call. */
  ghost function Horizon(limits: Limits, calls: seq<Call>): nat { Latest(calls) + limits.period + 1 }

  /** In any interval of one period an account is issued at most twice the maximum,
      and its stored total is what it was issued since its stored block. */
  lemma AtMostTwiceTheMaximum(limits: Limits, balances: map<AccountId, nat>, calls: seq<Call>, who: AccountId, t: int)
    requires InOrder(calls)
    ensures IssuedIn(limits, balances, calls, who, t) <= 2 * limits.maxAmount
    ensures var r := Stored(Run(limits, balances, calls), who);
      limits.period > 0 ==>
        r.total <= limits.maxAmount && r.total == Issued(limits, balances, calls, who, r.since, Horizon(limits, calls))
  {
    hide Issued, Run, LastGranted, QuietAfter, PriorLimited;
    if limits.period == 0 {
      IssuedEmpty(limits, balances, calls, who, t);
    } else {
      RunLimited(limits, balances, calls, who, Horizon(limits, calls));
    }
  }

  lemma {:induction false} IssuedEmpty(limits: Limits, balances: map<AccountId, nat>, calls: seq<Call>, who: AccountId,
                                       t: int)
    requires InOrder(calls)
    ensures Issued(limits, balances, calls, who, t, t) == 0
  {
    if |calls| > 0 { IssuedEmpty(limits, balances, calls[..|calls| - 1], who, t); }
  }

  /** What was granted to an account, and counted towards its limit, without reaching it. */
  ghost function Lost(limits: Limits, balances: map<AccountId, nat>, calls: seq<Call>, who: AccountId): nat
    requires InOrder(calls)
  {
    if |calls| == 0 then 0
    else
      var init, call := calls[..|calls| - 1], calls[|calls| - 1];
      Lost(limits, balances, init, who)
      + if LastGranted(limits, balances, calls) && call.who == who
           && !Reaches(limits, Run(limits, balances, init).balances, who, call.amount) then call.amount else 0
  }

  lemma RequestedBalance(limits: Limits, s: State, call: Call, who: AccountId)
    requires Stored(s, call.who).since <= call.now
    ensures var (s', answer) := Requested(limits, s, call.who, call.amount, call.now);
      var reached := answer.FundsSent? && call.who == who && Reaches(limits, s.balances, who, call.amount);
      && Balance(s'.balances, who) == Balance(s.balances, who) + (if reached then call.amount else 0)
      && (who in s.balances ==> who in s'.balances)
  {}

  /** An account's balance grows by exactly what it is granted, less what was too small to create the account;
      nothing is lost to an account that exists, or when every positive balance can. */
  lemma {:induction false} BalanceFollowsIssue(limits: Limits, balances: map<AccountId, nat>, calls: seq<Call>,
                                               who: AccountId, end: int)
    requires InOrder(calls) && forall k :: 0 <= k < |calls| ==> calls[k].now < end
    ensures var s := Run(limits, balances, calls);
      && Balance(s.balances, who) + Lost(limits, balances, calls, who)
           == Balance(balances, who) + Issued(limits, balances, calls, who, 0, end)
      && (who in balances ==> who in s.balances)
      && (who in balances || limits.existentialDeposit <= 1 ==> Lost(limits, balances, calls, who) == 0)
  {
    if |calls| > 0 {
      hide Requested, Stored;
      var init := calls[..|calls| - 1];
      BalanceFollowsIssue(limits, balances, init, who, end);
      RequestedBalance(limits, Run(limits, balances, init), calls[|calls| - 1], who);
    }
  }

  /** When the maximum is below the existential deposit, one request uses up the limit of a new account and leaves
      it with nothing. */
  lemma LostCountsTowardsLimit(limits: Limits, who: AccountId)
    requires limits.period > 0 && 0 < limits.maxAmount < limits.existentialDeposit
    ensures var calls := [Call(who, limits.maxAmount, 0), Call(who, 1, 0)];
      && Balance(Run(limits, map[], calls).balances, who) == 0
      && Requested(limits, Run(limits, map[], calls[..1]), who, 1, 0).1 == RequestLimitExceeded
  {
    var calls := [Call(who, limits.maxAmount, 0), Call(who, 1, 0)];
    var one := calls[..|calls| - 1];
    assert one == [calls[0]] && one[..|one| - 1] == [];
    assert Run(limits, map[], one[..|one| - 1]) == Start(map[]);
    var s := Run(limits, map[], one);
    assert s == Requested(limits, Start(map[]), who, limits.maxAmount, 0).0;
    assert calls[..1] == one;
  }

  /** A call that restarts the total comes at least a period after the block it was counted from. */
  lemma WindowsApart(limits: Limits, s: State, who: AccountId, amount: nat, now: nat)
    requires Stored(s, who).since <= now
    ensures var r, r' := Stored(s, who), Stored(Requested(limits, s, who, amount, now).0, who);
      r'.since == r.since || (r'.since == now && r'.since - r.since >= limits.period)
  {}

  /** The documented limit: no interval of one period issues more than the maximum to an account. */
  ghost predicate DocumentedLimit(limits: Limits) {
    forall balances, calls, who, t: int ::
      InOrder(calls) ==> IssuedIn(limits, balances, calls, who, t) <= limits.maxAmount
  }

  /** A full grant in the last block of one window and one in the first block of the next. */
  ghost function TwoGrants(limits: Limits): seq<Call>
    requires limits.period > 0
  {
    [Call(0, limits.maxAmount, limits.period - 1), Call(0, limits.maxAmount, limits.period)]
  }

  lemma TwoGrantsIssueTwice(limits: Limits)
    requires limits.period > 0
    ensures Issued(limits, map[], TwoGrants(limits), 0, limits.period - 1, limits.period + 1) == 2 * limits.maxAmount
  {
    var calls := TwoGrants(limits);
    var one := calls[..|calls| - 1];
    assert one == [calls[0]] && one[..|one| - 1] == [];
    assert Run(limits, map[], one[..|one| - 1]) == Start(map[]);
    var s := Run(limits, map[], one);
    assert s == Requested(limits, Start(map[]), 0, limits.maxAmount, limits.period - 1).0;
    assert Stored(s, 0) == Request(limits.maxAmount, 0);
    assert Issued(limits, map[], one, 0, limits.period - 1, limits.period + 1) == limits.maxAmount;
  }

  /** The documented limit holds for every run exactly when a period is at most one block, or nothing is ever issued. */
  lemma DocumentedLimitExactly(limits: Limits)
    ensures DocumentedLimit(limits) <==> limits.period <= 1 || limits.maxAmount == 0
  {
    if limits.period > 1 && limits.maxAmount > 0 {
      TwoGrantsIssueTwice(limits);
      IssuedMono(limits, map[], TwoGrants(limits), 0, limits.period - 1, limits.period - 1, limits.period + 1,
                 limits.period - 1 + limits.period);
      assert IssuedIn(limits, map[], TwoGrants(limits), 0, limits.period - 1) > limits.maxAmount;
    } else {
      forall balances, calls, who, t: int | InOrder(calls)
        ensures IssuedIn(limits, balances, calls, who, t) <= limits.maxAmount
      {
        AtMostTwiceTheMaximum(limits, balances, calls, who, t);
        if limits.period == 0 {
          IssuedEmpty(limits, balances, calls, who, t);
        } else if limits.period == 1 {
          OneBlock(limits, balances, calls, who, t);
        }
      }
    }
  }

  /** With a period of one block, each block issues at most the maximum. */
  lemma {:induction false} OneBlock(limits: Limits, balances: map<AccountId, nat>, calls: seq<Call>, who: AccountId,
                                    t: int)
    requires InOrder(calls) && limits.period == 1
    ensures Issued(limits, balances, calls, who, t, t + 1) <= limits.maxAmount
  {
    if |calls| > 0 {
      hide Run, LastGranted, Horizon;
      var init, call := calls[..|calls| - 1], calls[|calls| - 1];
      OneBlock(limits, balances, init, who, t);
      if LastGranted(limits, balances, calls) && call.who == who && call.now == t {
        AtMostTwiceTheMaximum(limits, balances, calls, who, t);
        GrantedSince(limits, balances, calls);
        IssuedMono(limits, balances, calls, who, t, t, t + 1, Horizon(limits, calls));
      }
    }
  }

  /** With a period of one block, every grant leaves its own block stored. */
  lemma GrantedSince(limits: Limits, balances: map<AccountId, nat>, calls: seq<Call>)
    requires InOrder(calls) && |calls| > 0 && LastGranted(limits, balances, calls) && limits.period == 1
    ensures Stored(Run(limits, balances, calls), calls[|calls| - 1].who).since == calls[|calls| - 1].now
    ensures calls[|calls| - 1].now + 1 <= Horizon(limits, calls)
  {
    assert Latest(calls[..|calls| - 1]) <= calls[|calls| - 1].now;
  }
}
