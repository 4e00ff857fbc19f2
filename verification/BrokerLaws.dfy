/** Laws of the energy broker: what a swap moves, what it conserves, that its
    energy stays within capacity, and that the cached burn total is the sum of
    the recent sessions' burns. */
module BrokerLaws {
  import opened Accounts
  import opened Arithmetic
  import opened EnergyBroker

  // ---------- one swap ----------

  /** `amount` if the condition holds. */
  ghost function If(condition: bool, amount: nat): nat { if condition then amount else 0 }

  /** Every balance after the transfers of a swap, whoever sender, recipient and broker are. */
  lemma TransferredExactly(c: Config, b: Balances, sender: AccountId, recipient: AccountId, path: Path, amountIn: nat,
                           amountOut: nat, feePart: nat, keepAlive: bool, asset: AssetKind, who: AccountId)
    requires feePart <= amountIn
    ensures var r := Transferred(c, b, sender, recipient, path, amountIn, amountOut, feePart, keepAlive);
      r.Ok? ==>
        && r.value.1 == feePart
        && BalanceOf(r.value.0, asset, who)
             + If(asset == path.assetIn && who == sender, amountIn)
             + If(asset == path.assetOut && who == c.broker, amountOut)
           == BalanceOf(b, asset, who)
             + If(asset == path.assetIn && who == c.broker, amountIn - feePart)
             + If(asset == path.assetOut && who == recipient, amountOut)
  {
    hide Reducible;
  }

  /** The energy burned by a swap. */
  ghost function BurnedBy(v: Vault, v': Vault): nat { SatSub(v'.burned, v.burned) }

  /** A successful swap takes exactly the input from the sender, hands on exactly the
      fee, gives exactly the output to the recipient, and changes no other balance
      but for the energy it burns from the broker. */
  lemma SwapMovesExactly(c: Config, v: Vault, sender: AccountId, recipient: AccountId, path: Path, amountIn: nat,
                         amountOut: nat, feePart: nat, keepAlive: bool, asset: AssetKind, who: AccountId)
    requires feePart <= amountIn
    ensures var r := Swapped(c, v, sender, recipient, path, amountIn, amountOut, feePart, keepAlive);
      r.Ok? ==>
        var v' := r.value;
        && v'.burned >= v.burned
        && BalanceOf(v'.balances, asset, who)
             + If(asset == path.assetIn && who == sender, amountIn)
             + If(asset == path.assetOut && who == c.broker, amountOut)
             + If(asset == c.energy && who == c.broker, BurnedBy(v, v'))
           == BalanceOf(v.balances, asset, who)
             + If(asset == path.assetIn && who == c.broker, amountIn - feePart)
             + If(asset == path.assetOut && who == recipient, amountOut)
        && FeesOf(v', asset) == FeesOf(v, asset) + If(asset == path.assetIn, feePart)
  {
    hide Transferred, Reducible;
    TransferredExactly(c, v.balances, sender, recipient, path, amountIn, amountOut, feePart, keepAlive, asset, who);
  }

  /** What a swap reports as sold is the energy the broker gained before any of it was burned. */
  lemma SoldIsGain(c: Config, v: Vault, sender: AccountId, recipient: AccountId, path: Path, amountIn: nat,
                   amountOut: nat, feePart: nat, keepAlive: bool)
    ensures var r := Swapped(c, v, sender, recipient, path, amountIn, amountOut, feePart, keepAlive);
      r.Ok? ==>
        r.value.sold == v.sold + SatSub(BalanceOf(r.value.balances, c.energy, c.broker) + BurnedBy(v, r.value),
                                        BalanceOf(v.balances, c.energy, c.broker))
  {
    hide Transferred, Reducible;
  }

  /** The sum of an asset's balances over the listed accounts. */
  ghost function AssetTotal(b: Balances, asset: AssetKind, accounts: seq<AccountId>): nat {
    if |accounts| == 0 then 0 else BalanceOf(b, asset, accounts[0]) + AssetTotal(b, asset, accounts[1..])
  }

  /** `amount` for every listed occurrence of the account. */
  ghost function Occurring(accounts: seq<AccountId>, who: AccountId, amount: nat): nat {
    if |accounts| == 0 then 0 else If(accounts[0] == who, amount) + Occurring(accounts[1..], who, amount)
  }

  lemma {:induction false} OccursOnce(accounts: seq<AccountId>, who: AccountId, amount: nat)
    requires Distinct(accounts)
    ensures Occurring(accounts, who, amount) == If(who in accounts, amount)
  {
    if |accounts| > 0 { OccursOnce(accounts[1..], who, amount); }
  }

  lemma {:induction false} SwapTotal(c: Config, v: Vault, sender: AccountId, recipient: AccountId, path: Path,
                                     amountIn: nat, amountOut: nat, feePart: nat, keepAlive: bool, asset: AssetKind,
                                     accounts: seq<AccountId>)
    requires feePart <= amountIn
    requires Swapped(c, v, sender, recipient, path, amountIn, amountOut, feePart, keepAlive).Ok?
    ensures var v' := Swapped(c, v, sender, recipient, path, amountIn, amountOut, feePart, keepAlive).value;
      AssetTotal(v'.balances, asset, accounts)
        + If(asset == path.assetIn, Occurring(accounts, sender, amountIn))
        + If(asset == path.assetOut, Occurring(accounts, c.broker, amountOut))
        + If(asset == c.energy, Occurring(accounts, c.broker, BurnedBy(v, v')))
      == AssetTotal(v.balances, asset, accounts)
        + If(asset == path.assetIn, Occurring(accounts, c.broker, amountIn - feePart))
        + If(asset == path.assetOut, Occurring(accounts, recipient, amountOut))
  {
    hide Swapped, FeesOf;
    if |accounts| > 0 {
      SwapTotal(c, v, sender, recipient, path, amountIn, amountOut, feePart, keepAlive, asset, accounts[1..]);
      SwapMovesExactly(c, v, sender, recipient, path, amountIn, amountOut, feePart, keepAlive, asset, accounts[0]);
    }
  }

  /** Over any accounts holding sender, recipient and broker, a swap changes what exists of an
      asset, balances and collected fees together, only by the energy it burns. */
  lemma SwapConserves(c: Config, v: Vault, sender: AccountId, recipient: AccountId, path: Path, amountIn: nat,
                      amountOut: nat, feePart: nat, keepAlive: bool, asset: AssetKind, accounts: seq<AccountId>)
    requires feePart <= amountIn && Distinct(accounts)
    requires sender in accounts && recipient in accounts && c.broker in accounts
    ensures var r := Swapped(c, v, sender, recipient, path, amountIn, amountOut, feePart, keepAlive);
      r.Ok? ==>
        AssetTotal(r.value.balances, asset, accounts) + FeesOf(r.value, asset)
          + If(asset == c.energy, BurnedBy(v, r.value))
          == AssetTotal(v.balances, asset, accounts) + FeesOf(v, asset)
  {
    hide Swapped;
    if Swapped(c, v, sender, recipient, path, amountIn, amountOut, feePart, keepAlive).Ok? {
      SwapTotal(c, v, sender, recipient, path, amountIn, amountOut, feePart, keepAlive, asset, accounts);
      SwapMovesExactly(c, v, sender, recipient, path, amountIn, amountOut, feePart, keepAlive, asset, sender);
      OccursOnce(accounts, sender, amountIn);
      OccursOnce(accounts, recipient, amountOut);
      OccursOnce(accounts, c.broker, amountOut);
      OccursOnce(accounts, c.broker, amountIn - feePart);
      OccursOnce(accounts, c.broker,
                 BurnedBy(v, Swapped(c, v, sender, recipient, path, amountIn, amountOut, feePart, keepAlive).value));
    }
  }

  /** The fee of a quote is part of its input, and the rest is what is exchanged, so the two kinds of swap are
      covered by the laws above. */
  lemma QuotedFeeWithinInput(q: Quote, amount: nat, includeFee: bool)
    requires q.fee <= 1000
    ensures GetAmountOut(q, amount, includeFee).Ok? ==>
      GetAmountOut(q, amount, includeFee).value.1 + (if includeFee then DeductFee(amount, q.fee) else amount) == amount
    ensures GetAmountIn(q, amount, includeFee).Ok? ==>
      var (amountIn, fee) := GetAmountIn(q, amount, includeFee).value;
      fee <= amountIn && amountIn - fee == Max(q.amountIn(amount).value, 1)
  {
    hide IncludeFee, DeductFee;
    DeductAtMost(amount, q.fee);
    if q.amountIn(amount).Some? {
      var exchangeIn := Max(q.amountIn(amount).value, 1);
      if IncludeFee(exchangeIn, q.fee).Some? { IncludeAtLeast(exchangeIn, q.fee); }
    }
  }

  // ---------- capacity ----------

  /** The broker's energy is within its capacity, or is the minimum its account needs. */
  ghost predicate Capped(c: Config, v: Vault) {
    BalanceOf(v.balances, c.energy, c.broker) <= Max(v.capacity, c.MinimumOf(c.energy))
  }

  /** Burning the surplus always gets there, burns no more than the surplus, and touches no other balance. */
  lemma BurnCaps(c: Config, v: Vault)
    ensures Capped(c, SurplusBurned(c, v))
    ensures var v' := SurplusBurned(c, v);
      && v'.burned - v.burned <= SatSub(BalanceOf(v.balances, c.energy, c.broker), v.capacity)
      && BalanceOf(v'.balances, c.energy, c.broker) + (v'.burned - v.burned)
           == BalanceOf(v.balances, c.energy, c.broker)
      && (forall asset: AssetKind, who: AccountId :: (asset, who) != (c.energy, c.broker) ==>
            BalanceOf(v'.balances, asset, who) == BalanceOf(v.balances, asset, who))
  {}

  lemma SwapKeepsCapped(c: Config, v: Vault, sender: AccountId, recipient: AccountId, path: Path, amountIn: nat,
                        amountOut: nat, feePart: nat, keepAlive: bool)
    requires Capped(c, v)
    ensures var r := Swapped(c, v, sender, recipient, path, amountIn, amountOut, feePart, keepAlive);
      r.Ok? ==> Capped(c, r.value) && r.value.capacity == v.capacity
  {
    hide Transferred, SurplusBurned;
    var t := Transferred(c, v.balances, sender, recipient, path, amountIn, amountOut, feePart, keepAlive);
    if t.Ok? {
      var moved := v.(balances := t.value.0,
                      fees := v.fees[path.assetIn := FeesOf(v, path.assetIn) + t.value.1]);
      BurnCaps(c, moved);
      BurnKeepsCapacity(c, moved);
    }
  }

  lemma BurnKeepsCapacity(c: Config, v: Vault)
    ensures SurplusBurned(c, v).capacity == v.capacity
  {}

  // ---------- runs ----------

  datatype Op =
    | SwapIn(qIn: Quote, sender: AccountId, recipient: AccountId, path: Path, amount: nat, limit: Option<nat>,
             keepAlive: bool)
    | SwapOut(qOut: Quote, sender: AccountId, recipient: AccountId, path: Path, amount: nat, limit: Option<nat>,
              keepAlive: bool)
    | SetCapacity(capacity: Option<nat>)
    | Burned(energy: nat)
    | NewSession

  /** The broker with the number of sessions started and the burns of all completed ones. */
  datatype Trace = Trace(state: State, sessions: nat, burns: seq<nat>)

  /** Failed swaps change nothing; sessions are numbered consecutively from zero. */
  ghost function Next(c: Config, t: Trace, op: Op): Trace {
    match op
    case SwapIn(q, sender, recipient, path, amount, limit, keepAlive) =>
      if q.fee > 1000 then t
      else
        var r := SwappedExactIn(c, t.state.vault, q, sender, recipient, path, amount, limit, keepAlive);
        if r.Ok? then t.(state := t.state.(vault := r.value.0)) else t
    case SwapOut(q, sender, recipient, path, amount, limit, keepAlive) =>
      if q.fee > 1000 then t
      else
        var r := SwappedExactOut(c, t.state.vault, q, sender, recipient, path, amount, limit, keepAlive);
        if r.Ok? then t.(state := t.state.(vault := r.value.0)) else t
    case SetCapacity(capacity) => t.(state := t.state.(capacityOverride := capacity))
    case Burned(energy) => t.(state := t.state.(window := t.state.window.(session := t.state.window.session + energy)))
    case NewSession =>
      Trace(SessionStarted(c, t.state, t.sessions), t.sessions + 1,
            if t.sessions == 0 then t.burns else t.burns + [t.state.window.session])
  }

  ghost function Run(c: Config, balances: Balances, energyCapacity: nat, ops: seq<Op>): Trace {
    if |ops| == 0 then Trace(Genesis(balances, energyCapacity), 0, [])
    else Next(c, Run(c, balances, energyCapacity, ops[..|ops| - 1]), ops[|ops| - 1])
  }

  lemma NextKeepsCapped(c: Config, t: Trace, op: Op)
    requires Capped(c, t.state.vault)
    ensures Capped(c, Next(c, t, op).state.vault)
  {
    hide Swapped, SurplusBurned, AfterSession, Capped;
    match op
    case SwapIn(q, sender, recipient, path, amount, limit, keepAlive) =>
      if q.fee <= 1000 {
        var quoted := GetAmountOut(q, amount, sender !in c.feeless);
        if quoted.Ok? {
          SwapKeepsCapped(c, t.state.vault, sender, recipient, path, amount, quoted.value.0, quoted.value.1, keepAlive);
        }
      }
    case SwapOut(q, sender, recipient, path, amount, limit, keepAlive) =>
      if q.fee <= 1000 {
        var quoted := GetAmountIn(q, amount, sender !in c.feeless);
        if quoted.Ok? {
          SwapKeepsCapped(c, t.state.vault, sender, recipient, path, quoted.value.0, amount, quoted.value.1, keepAlive);
        }
      }
    case SetCapacity(capacity) =>
    case Burned(energy) =>
    case NewSession =>
      var window := AfterSession(t.state.window, c.windowLength, t.sessions);
      var capacity := if t.state.capacityOverride.Some? then t.state.capacityOverride.value else window.total;
      BurnCaps(c, t.state.vault.(capacity := capacity));
  }

  /** In every run of swaps, capacity overrides and session changes the broker's energy
      stays within its capacity, or at the minimum of its account. */
  lemma {:induction false} RunStaysCapped(c: Config, balances: Balances, energyCapacity: nat, ops: seq<Op>)
    requires BalanceOf(balances, c.energy, c.broker) <= Max(energyCapacity, c.MinimumOf(c.energy))
    ensures Capped(c, Run(c, balances, energyCapacity, ops).state.vault)
  {
    if |ops| > 0 {
      hide Next;
      RunStaysCapped(c, balances, energyCapacity, ops[..|ops| - 1]);
      NextKeepsCapped(c, Run(c, balances, energyCapacity, ops[..|ops| - 1]), ops[|ops| - 1]);
    }
  }

  // ---------- the burn window ----------

  ghost function SumRange(s: seq<nat>, lo: nat, hi: nat): nat
    requires lo <= hi <= |s|
  {
    if lo == hi then 0 else SumRange(s, lo, hi - 1) + s[hi - 1]
  }

  lemma {:induction false} SumRangePrefix(s: seq<nat>, t: seq<nat>, lo: nat, hi: nat)
    requires lo <= hi <= |s| && s <= t
    ensures SumRange(s, lo, hi) == SumRange(t, lo, hi)
  {
    if lo < hi { SumRangePrefix(s, t, lo, hi - 1); }
  }

  lemma {:induction false} SumRangeHead(s: seq<nat>, lo: nat, hi: nat)
    requires lo < hi <= |s|
    ensures SumRange(s, lo, hi) == s[lo] + SumRange(s, lo + 1, hi)
  {
    if lo + 1 < hi { SumRangeHead(s, lo, hi - 1); }
  }

  /** The first session of the window. */
  ghost function Oldest(burns: seq<nat>, length: nat): nat { SatSub(|burns|, length) }

  /** The stored entries are the last burns, as many as the window holds, and the cached total is their sum. */
  ghost predicate Recent(w: Window, length: nat, burns: seq<nat>) {
    var oldest := Oldest(burns, length);
    && w.recent == (map k: nat | oldest <= k < |burns| :: burns[k])
    && w.total == SumRange(burns, oldest, |burns|)
  }

  /** The burns are those of the completed sessions, and the window holds the last of them. */
  ghost predicate Windowed(c: Config, t: Trace) {
    |t.burns| == SatSub(t.sessions, 1) && Recent(t.state.window, c.windowLength, t.burns)
  }

  lemma SessionKeepsWindowed(c: Config, t: Trace)
    requires Windowed(c, t)
    ensures Windowed(c, Next(c, t, NewSession))
  {
    hide SurplusBurned, AfterSession;
    SessionMovesWindow(t.state.window, c.windowLength, t.burns, t.sessions);
  }

  /** The window after a session, from the burns of the completed ones. */
  lemma SessionMovesWindow(w: Window, length: nat, burns: seq<nat>, sessions: nat)
    requires |burns| == SatSub(sessions, 1) && Recent(w, length, burns)
    ensures Recent(AfterSession(w, length, sessions), length, if sessions == 0 then burns else burns + [w.session])
  {
    if sessions > 0 {
      hide AfterSession, SumRange;
      SessionMovesEntries(w, length, burns, sessions);
      SessionMovesTotal(w, length, burns, sessions);
    }
  }

  lemma SessionMovesEntries(w: Window, length: nat, burns: seq<nat>, sessions: nat)
    requires 0 < sessions == |burns| + 1 && Recent(w, length, burns)
    ensures var burns' := burns + [w.session];
      AfterSession(w, length, sessions).recent
        == map k: nat | Oldest(burns', length) <= k < |burns'| :: burns'[k]
  {
    hide SumRange;
    var burns' := burns + [w.session];
    assert forall k :: k in w.recent ==> k < |burns| && w.recent[k] == burns'[k];
  }

  lemma SessionMovesTotal(w: Window, length: nat, burns: seq<nat>, sessions: nat)
    requires 0 < sessions == |burns| + 1 && Recent(w, length, burns)
    ensures var burns' := burns + [w.session];
      AfterSession(w, length, sessions).total == SumRange(burns', Oldest(burns', length), |burns'|)
  {
    var burns', oldest, n := burns + [w.session], Oldest(burns, length), |burns|;
    SumRangePrefix(burns, burns', oldest, n);
    assert SumRange(burns', oldest, n + 1) == w.total + w.session;
    if n >= length {
      SumRangeHead(burns', oldest, n + 1);
      assert oldest < n ==> oldest in w.recent && w.recent[oldest] == burns'[oldest];
    }
  }

  lemma NextKeepsWindowed(c: Config, t: Trace, op: Op)
    requires Windowed(c, t)
    ensures Windowed(c, Next(c, t, op))
  {
    if op.NewSession? {
      SessionKeepsWindowed(c, t);
    } else {
      hide SwappedExactIn, SwappedExactOut;
    }
  }

  /** Over any run, the stored burns are those of the last completed sessions, as many as
      the window holds, and the cached total is their sum. */
  lemma {:induction false} RunStaysWindowed(c: Config, balances: Balances, energyCapacity: nat, ops: seq<Op>)
    ensures Windowed(c, Run(c, balances, energyCapacity, ops))
  {
    if |ops| > 0 {
      hide Next, Windowed;
      RunStaysWindowed(c, balances, energyCapacity, ops[..|ops| - 1]);
      NextKeepsWindowed(c, Run(c, balances, energyCapacity, ops[..|ops| - 1]), ops[|ops| - 1]);
    }
  }
}
