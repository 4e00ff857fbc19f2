/** The energy broker: swaps against the broker's own account, fees, the
    capacity that bounds the energy it keeps, and the sliding window of burns
    the capacity follows. */
module EnergyBroker {
  import opened Accounts
  import opened Arithmetic

  datatype AssetKind = Native | WithId(id: nat)

  type Balances = map<(AssetKind, AccountId), nat>

  /** The largest balance. */
  const MAX_BALANCE: nat := 340_282_366_920_938_463_463_374_607_431_768_211_455

  datatype Config = Config(
    broker: AccountId, energy: AssetKind, minimums: map<AssetKind, nat>, feeless: set<AccountId>, windowLength: nat)
  {
    function MinimumOf(asset: AssetKind): nat { if asset in minimums then minimums[asset] else 0 }
  }

  datatype Error =
    | ZeroAmount | Overflow | InvalidPath | MinimumNotMet | MaximumExceeded
    | NotExpendable | FundsUnavailable | BelowMinimum | InsufficientLiquidity

  datatype Result<T> = Ok(value: T) | Err(error: Error)

  // ---------- fees ----------

  /** The amount without its fee, the fee in tenths of a percent. */
  function DeductFee(amount: nat, fee: nat): nat
    requires fee <= 1000
  {
    amount * (1000 - fee) / 1000
  }

  /** The amount that leaves `amount` after its fee; refused when there is none or it is too large. */
  function IncludeFee(amount: nat, fee: nat): Option<nat>
    requires fee <= 1000
  {
    if fee == 1000 then None
    else
      var gross := Quotient(amount * 1000, 1000 - fee);
      if gross > MAX_BALANCE then None else Some(gross)
  }

  /** Adding a fee and deducting it again gives the amount back exactly when the fee
      divides evenly, and otherwise one unit less. */
  lemma FeeRoundTrip(amount: nat, fee: nat)
    requires fee < 1000 && IncludeFee(amount, fee).Some?
    ensures var back := DeductFee(IncludeFee(amount, fee).value, fee);
      back == if (1000 * amount) % (1000 - fee) == 0 then amount else amount - 1
  {
    var k := 1000 - fee;
    var gross := amount * 1000 / k;
    var rest := (1000 * amount) % k;
    assert 1000 * amount == gross * k + rest;
    RoundTripArithmetic(amount, gross * k, rest);
  }

  /** Deducting a fee and adding it again never gives more than the amount, and gives it
      back exactly when the fee divides evenly. */
  lemma FeeRoundTripBack(amount: nat, fee: nat)
    requires fee < 1000 && amount <= MAX_BALANCE
    ensures var back := IncludeFee(DeductFee(amount, fee), fee);
      back.Some? && back.value <= amount && (back.value == amount <==> (amount * (1000 - fee)) % 1000 == 0)
  {
    var k := 1000 - fee;
    var net := amount * k / 1000;
    DivideBack(net * 1000, k, amount, (amount * k) % 1000);
  }

  lemma DivideBack(x: nat, k: nat, a: nat, rest: nat)
    requires k > 0 && x + rest == a * k
    ensures x / k <= a && (x / k == a <==> rest == 0)
  {
    var q, r := x / k, x % k;
    assert x == q * k + r;
    Difference(a, q, k);
    NonPositive(a + 1 - q, k);
    Positive(a - q, k);
  }

  lemma Difference(a: nat, b: nat, k: nat)
    ensures (a - b) * k == a * k - b * k
    ensures (a + 1 - b) * k == a * k + k - b * k
  {}

  lemma Positive(a: int, b: nat)
    ensures a >= 1 ==> a * b >= b
  {}

  lemma RoundTripArithmetic(amount: nat, product: nat, rest: nat)
    requires 1000 * amount == product + rest && rest < 1000
    ensures product / 1000 == if rest == 0 then amount else amount - 1
  {}

  lemma DeductAtMost(amount: nat, fee: nat)
    requires fee <= 1000
    ensures DeductFee(amount, fee) <= amount
  {
    assert amount * (1000 - fee) == 1000 * amount - amount * fee;
  }

  lemma IncludeAtLeast(amount: nat, fee: nat)
    requires fee <= 1000 && IncludeFee(amount, fee).Some?
    ensures amount <= IncludeFee(amount, fee).value
  {
    var k := 1000 - fee;
    var gross := amount * 1000 / k;
    assert amount * 1000 == gross * k + (amount * 1000) % k;
    assert amount * 1000 == amount * k + amount * fee;
    assert (gross + 1 - amount) * k == gross * k + k - amount * k;
    NonPositive(gross + 1 - amount, k);
  }

  /** Including a fee adds nothing exactly when the fee is less than one unit of what is left after it. */
  lemma IncludesNothing(amount: nat, fee: nat)
    requires fee < 1000 && IncludeFee(amount, fee).Some?
    ensures IncludeFee(amount, fee).value == amount <==> amount * fee < 1000 - fee
  {
    var k := 1000 - fee;
    assert amount * 1000 == amount * k + amount * fee;
    QuotientIs(amount * 1000, k, amount, amount * fee);
  }

  lemma QuotientIs(x: nat, k: nat, q: nat, rest: nat)
    requires k > 0 && x == q * k + rest
    ensures x / k == q <==> rest < k
  {
    var d := x / k;
    assert x == d * k + x % k;
    Difference(q, d, k);
    NonPositive(q + 1 - d, k);
    Positive(q - d, k);
  }

  lemma NonPositive(a: int, b: nat)
    ensures a <= 0 ==> a * b <= 0
  {}

  // ---------- balances ----------

  function BalanceOf(b: Balances, asset: AssetKind, who: AccountId): nat {
    if (asset, who) in b then b[(asset, who)] else 0
  }

  function Changed(b: Balances, asset: AssetKind, who: AccountId, balance: nat): Balances {
    b[(asset, who) := balance]
  }

  /** What can leave an account; a preserved one keeps its minimum balance. */
  function Reducible(c: Config, b: Balances, asset: AssetKind, who: AccountId, preserve: bool): nat {
    if preserve then SatSub(BalanceOf(b, asset, who), c.MinimumOf(asset)) else BalanceOf(b, asset, who)
  }

  /** Take exactly `amount`, if it can leave the account. */
  function Withdrawn(c: Config, b: Balances, asset: AssetKind, who: AccountId, amount: nat,
                     preserve: bool): Option<Balances>
  {
    if Reducible(c, b, asset, who, preserve) < amount then None
    else Some(Changed(b, asset, who, BalanceOf(b, asset, who) - amount))
  }

  /** Give exactly `amount`, if the account can exist with it. */
  function Deposited(c: Config, b: Balances, asset: AssetKind, who: AccountId, amount: nat): Option<Balances> {
    if amount > 0 && BalanceOf(b, asset, who) + amount < c.MinimumOf(asset) then None
    else Some(Changed(b, asset, who, BalanceOf(b, asset, who) + amount))
  }

  // ---------- swaps ----------

  datatype Path = Path(assetIn: AssetKind, assetOut: AssetKind)

  /** What the converter knows about a path: its rates, and its fee. */
  datatype Quote = Quote(amountOut: nat -> Option<nat>, amountIn: nat -> Option<nat>, fee: nat)

  function GetAmountOut(q: Quote, amountIn: nat, includeFee: bool): Result<(nat, nat)>
    requires q.fee <= 1000
  {
    if amountIn == 0 then Err(ZeroAmount)
    else
      var exchangeIn := if includeFee then DeductFee(amountIn, q.fee) else amountIn;
      match q.amountOut(exchangeIn)
      case None => Err(InvalidPath)
      case Some(amountOut) => if amountOut == 0 then Err(ZeroAmount) else Ok((amountOut, SatSub(amountIn, exchangeIn)))
  }

  function GetAmountIn(q: Quote, amountOut: nat, includeFee: bool): Result<(nat, nat)>
    requires q.fee <= 1000
  {
    if amountOut == 0 then Err(ZeroAmount)
    else match q.amountIn(amountOut)
      case None => Err(InvalidPath)
      case Some(quoted) =>
        var exchangeIn := Max(quoted, 1);
        if !includeFee then Ok((exchangeIn, 0))
        else match IncludeFee(exchangeIn, q.fee)
          case None => Err(Overflow)
          case Some(amountIn) => Ok((amountIn, SatSub(amountIn, exchangeIn)))
  }

  // ---------- quotes there and back ----------

  /** The input the converter asks for an output; at least one. */
  function AskedFor(q: Quote, amountOut: nat): nat
    requires q.amountIn(amountOut).Some?
  {
    Max(q.amountIn(amountOut).value, 1)
  }

  /** Quoting an output for an input and then the input for that output gives the first input back
      exactly when that input, less its fee, is at most what the converter asks for and the next is more. */
  lemma OutputQuotedBack(q: Quote, amount: nat)
    requires q.fee <= 1000 && amount <= MAX_BALANCE
    requires GetAmountOut(q, amount, true).Ok?
    ensures var amountOut := GetAmountOut(q, amount, true).value.0;
      var back := GetAmountIn(q, amountOut, true);
      (back.Ok? && back.value.0 == amount) <==>
        && q.amountIn(amountOut).Some?
        && amount * (1000 - q.fee) <= 1000 * AskedFor(q, amountOut) < (amount + 1) * (1000 - q.fee)
  {
    hide DeductFee;
    var amountOut := GetAmountOut(q, amount, true).value.0;
    if q.fee < 1000 && q.amountIn(amountOut).Some? {
      var k, asked := 1000 - q.fee, AskedFor(q, amountOut);
      assert (amount + 1) * k == amount * k + k;
      QuotientBetween(asked * 1000, k, amount);
    }
  }

  lemma QuotientBetween(x: nat, k: nat, q: nat)
    requires k > 0
    ensures x / k == q <==> q * k <= x < q * k + k
  {
    if q * k <= x {
      QuotientIs(x, k, q, x - q * k);
    } else {
      assert x == x / k * k + x % k;
    }
  }

  /** When the converter asks no more for the output than it got for it, the input quoted back is never
      larger, and is the same exactly when the converter asks for what it got and the fee divides evenly. */
  lemma OutputUndoneExactly(q: Quote, amount: nat)
    requires q.fee < 1000 && amount <= MAX_BALANCE
    requires GetAmountOut(q, amount, true).Ok?
    requires var amountOut := GetAmountOut(q, amount, true).value.0;
      q.amountIn(amountOut).Some? && AskedFor(q, amountOut) <= DeductFee(amount, q.fee)
    ensures var amountOut := GetAmountOut(q, amount, true).value.0;
      var back := GetAmountIn(q, amountOut, true);
      && back.Ok? && back.value.0 <= amount
      && (back.value.0 == amount <==>
            AskedFor(q, amountOut) == DeductFee(amount, q.fee) && (amount * (1000 - q.fee)) % 1000 == 0)
  {
    var amountOut := GetAmountOut(q, amount, true).value.0;
    var k, asked, net := 1000 - q.fee, AskedFor(q, amountOut), DeductFee(amount, q.fee);
    var rest := amount * k - asked * 1000;
    assert amount * k == net * 1000 + (amount * k) % 1000;
    DivideBack(asked * 1000, k, amount, rest);
  }

  /** Quoting an input for an output and then the output for that input gives the first output back
      exactly when the converter gives it for what is left of the input after its fee: what it asked
      for that output, or one unit less when the fee does not divide evenly. */
  lemma InputQuotedBack(q: Quote, amountOut: nat)
    requires q.fee <= 1000
    requires GetAmountIn(q, amountOut, true).Ok?
    ensures var amountIn := GetAmountIn(q, amountOut, true).value.0;
      var asked := AskedFor(q, amountOut);
      var left := if (1000 * asked) % (1000 - q.fee) == 0 then asked else asked - 1;
      var back := GetAmountOut(q, amountIn, true);
      (back.Ok? && back.value.0 == amountOut) <==> q.amountOut(left) == Some(amountOut)
  {
    var asked := AskedFor(q, amountOut);
    FeeRoundTrip(asked, q.fee);
    IncludeAtLeast(asked, q.fee);
    hide DeductFee, IncludeFee;
  }

  /** Rounding in the converter breaks this even without a fee: 15 buys 1 at a rate of ten to one, and 1 costs 10. */
  lemma ConverterRounds()
    ensures var q := Quote(a => Some(a / 10), b => Some(b * 10), 0);
      && (15 * (1000 - q.fee)) % 1000 == 0
      && GetAmountOut(q, 15, true) == Ok((1, 0))
      && GetAmountIn(q, 1, true) == Ok((10, 0))
  {}

  // ---------- the vault ----------

  /** The part of the broker's state that swaps change. */
  datatype Vault = Vault(balances: Balances, fees: map<AssetKind, nat>, capacity: nat, sold: nat, burned: nat)

  function FeesOf(v: Vault, asset: AssetKind): nat { if asset in v.fees then v.fees[asset] else 0 }

  /** Burn the energy above the capacity, as far as the broker's account survives. */
  function SurplusBurned(c: Config, v: Vault): Vault {
    var energy := BalanceOf(v.balances, c.energy, c.broker);
    var amount := Min(SatSub(energy, v.capacity), Reducible(c, v.balances, c.energy, c.broker, true));
    v.(balances := Changed(v.balances, c.energy, c.broker, energy - amount), burned := v.burned + amount)
  }

  /** The balances after all four transfers of a swap, and the fee taken. */
  function Transferred(c: Config, b: Balances, sender: AccountId, recipient: AccountId, path: Path, amountIn: nat,
                       amountOut: nat, feePart: nat, keepAlive: bool): Result<(Balances, nat)>
  {
    if keepAlive && Reducible(c, b, path.assetIn, sender, true) < amountIn then Err(NotExpendable)
    else match Withdrawn(c, b, path.assetIn, sender, amountIn, keepAlive)
      case None => Err(FundsUnavailable)
      case Some(b1) =>
        var fee := Min(feePart, amountIn);
        match Deposited(c, b1, path.assetIn, c.broker, amountIn - fee)
        case None => Err(BelowMinimum)
        case Some(b2) =>
          match Withdrawn(c, b2, path.assetOut, c.broker, amountOut, true)
          case None => Err(InsufficientLiquidity)
          case Some(b3) =>
            match Deposited(c, b3, path.assetOut, recipient, amountOut)
            case None => Err(BelowMinimum)
            case Some(b4) => Ok((b4, fee))
  }

  /** A swap of given amounts; nothing changes when it fails. */
  function Swapped(c: Config, v: Vault, sender: AccountId, recipient: AccountId, path: Path, amountIn: nat,
                   amountOut: nat, feePart: nat, keepAlive: bool): Result<Vault>
  {
    match Transferred(c, v.balances, sender, recipient, path, amountIn, amountOut, feePart, keepAlive)
    case Err(e) => Err(e)
    case Ok((b, fee)) =>
      var before, after := BalanceOf(v.balances, c.energy, c.broker), BalanceOf(b, c.energy, c.broker);
      var moved := v.(balances := b, fees := v.fees[path.assetIn := FeesOf(v, path.assetIn) + fee]);
      if after > before then Ok(SurplusBurned(c, moved).(sold := v.sold + (after - before))) else Ok(moved)
  }

  /** Swap an exact input; returns the output. */
  function SwappedExactIn(c: Config, v: Vault, q: Quote, sender: AccountId, recipient: AccountId, path: Path,
                          amountIn: nat, amountOutMin: Option<nat>, keepAlive: bool): Result<(Vault, nat)>
    requires q.fee <= 1000
  {
    if amountOutMin == Some(0) then Err(ZeroAmount)
    else match GetAmountOut(q, amountIn, sender !in c.feeless)
      case Err(e) => Err(e)
      case Ok((amountOut, fee)) =>
        if amountOutMin.Some? && amountOut < amountOutMin.value then Err(MinimumNotMet)
        else match Swapped(c, v, sender, recipient, path, amountIn, amountOut, fee, keepAlive)
          case Err(e) => Err(e)
          case Ok(v') => Ok((v', amountOut))
  }

  /** Swap for an exact output; returns the input. */
  function SwappedExactOut(c: Config, v: Vault, q: Quote, sender: AccountId, recipient: AccountId, path: Path,
                           amountOut: nat, amountInMax: Option<nat>, keepAlive: bool): Result<(Vault, nat)>
    requires q.fee <= 1000
  {
    if amountInMax == Some(0) then Err(ZeroAmount)
    else match GetAmountIn(q, amountOut, sender !in c.feeless)
      case Err(e) => Err(e)
      case Ok((amountIn, fee)) =>
        if amountInMax.Some? && amountIn > amountInMax.value then Err(MaximumExceeded)
        else match Swapped(c, v, sender, recipient, path, amountIn, amountOut, fee, keepAlive)
          case Err(e) => Err(e)
          case Ok(v') => Ok((v', amountIn))
  }

  // ---------- the burn window ----------

  /** Burns of the running session and of the recent ones, with the cached sum. */
  datatype Window = Window(session: nat, recent: map<nat, nat>, total: nat)

  /** The window when session `index` starts: the finished session enters, the oldest leaves. */
  function AfterSession(w: Window, length: nat, index: nat): Window {
    var entered :=
      if index == 0 then Window(0, w.recent, w.total)
      else Window(0, w.recent[index - 1 := w.session], w.total + w.session);
    if index >= length + 1 && index - (length + 1) in entered.recent then
      var oldest := index - (length + 1);
      Window(0, entered.recent - {oldest}, SatSub(entered.total, entered.recent[oldest]))
    else entered
  }

  // ---------- the object ----------

  datatype State = State(vault: Vault, capacityOverride: Option<nat>, window: Window)

  /** A new session moves the window and, if that gives a capacity, adopts it and burns the surplus. */
  function SessionStarted(c: Config, s: State, index: nat): State {
    var window := AfterSession(s.window, c.windowLength, index);
    var capacity := if s.capacityOverride.Some? then s.capacityOverride.value else window.total;
    if capacity == 0 then s.(window := window)
    else s.(window := window, vault := SurplusBurned(c, s.vault.(capacity := capacity)))
  }

  class Broker {
    const config: Config
    var balances: Balances
    var fees: map<AssetKind, nat>
    var capacity: nat
    var capacityOverride: Option<nat>
    var sold: nat
    var burned: nat
    var sessionEnergyBurn: nat
    var energyBurn: map<nat, nat>
    var totalEnergyBurn: nat

    ghost function VaultValue(): Vault
      reads this
    {
      Vault(balances, fees, capacity, sold, burned)
    }

    ghost function Value(): State
      reads this
    {
      State(VaultValue(), capacityOverride, Window(sessionEnergyBurn, energyBurn, totalEnergyBurn))
    }

    constructor (config: Config, balances: Balances, energyCapacity: nat)
      ensures this.config == config && Value() == Genesis(balances, energyCapacity)
    {
      this.config, this.balances := config, balances;
      fees, sold, burned := map[], 0, 0;
      capacity, capacityOverride := energyCapacity, Some(energyCapacity);
      sessionEnergyBurn, energyBurn, totalEnergyBurn := 0, map[], 0;
    }

    method BurnSurplusEnergy()
      modifies this`balances, this`burned
      ensures VaultValue() == SurplusBurned(config, old(VaultValue()))
    {
      var energy := BalanceOf(balances, config.energy, config.broker);
      var amount := SatSub(energy, capacity);
      var actual := 0;
      if amount > 0 {
        actual := Min(Reducible(config, balances, config.energy, config.broker, true), amount);
      }
      balances := Changed(balances, config.energy, config.broker, energy - actual);
      burned := burned + actual;
    }

    /** Move the given amounts between sender, broker and recipient. */
    method DoSwap(sender: AccountId, recipient: AccountId, path: Path, amountIn: nat, amountOut: nat, feePart: nat,
                  keepAlive: bool) returns (r: Result<()>)
      modifies this
      ensures match Swapped(config, old(VaultValue()), sender, recipient, path, amountIn, amountOut, feePart, keepAlive)
        case Ok(v) => r == Ok(()) && Value() == old(Value()).(vault := v)
        case Err(e) => r == Err(e) && Value() == old(Value())
    {
      hide Withdrawn, Deposited, SurplusBurned, Reducible, BalanceOf;
      if keepAlive {
        var free := Reducible(config, balances, path.assetIn, sender, true);
        if free < amountIn {
          return Err(NotExpendable);
        }
      }
      var energyBeforeSwap := BalanceOf(balances, config.energy, config.broker);
      var creditIn := Withdrawn(config, balances, path.assetIn, sender, amountIn, keepAlive);
      if creditIn.None? {
        return Err(FundsUnavailable);
      }
      var fee := Min(feePart, amountIn);
      var resolved := Deposited(config, creditIn.value, path.assetIn, config.broker, amountIn - fee);
      if resolved.None? {
        return Err(BelowMinimum);
      }
      var creditOut := Withdrawn(config, resolved.value, path.assetOut, config.broker, amountOut, true);
      if creditOut.None? {
        return Err(InsufficientLiquidity);
      }
      var paid := Deposited(config, creditOut.value, path.assetOut, recipient, amountOut);
      if paid.None? {
        return Err(BelowMinimum);
      }
      fees := fees[path.assetIn := (if path.assetIn in fees then fees[path.assetIn] else 0) + fee];
      balances := paid.value;
      var energyAfterSwap := BalanceOf(balances, config.energy, config.broker);
      if energyAfterSwap > energyBeforeSwap {
        BurnSurplusEnergy();
        sold := sold + (energyAfterSwap - energyBeforeSwap);
      }
      return Ok(());
    }

    method SwapExactTokensForTokens(q: Quote, sender: AccountId, recipient: AccountId, path: Path, amountIn: nat,
                                    amountOutMin: Option<nat>, keepAlive: bool) returns (r: Result<nat>)
      requires q.fee <= 1000
      modifies this
      ensures match SwappedExactIn(config, old(VaultValue()), q, sender, recipient, path, amountIn, amountOutMin,
                                   keepAlive)
        case Ok((v, amountOut)) => r == Ok(amountOut) && Value() == old(Value()).(vault := v)
        case Err(e) => r == Err(e) && Value() == old(Value())
    {
      hide Swapped, DeductFee;
      if amountOutMin.Some? && amountOutMin.value == 0 {
        return Err(ZeroAmount);
      }
      var quoted := GetAmountOut(q, amountIn, sender !in config.feeless);
      if quoted.Err? {
        return Err(quoted.error);
      }
      var (amountOut, fee) := quoted.value;
      if amountOutMin.Some? && amountOut < amountOutMin.value {
        return Err(MinimumNotMet);
      }
      var done := DoSwap(sender, recipient, path, amountIn, amountOut, fee, keepAlive);
      return if done.Ok? then Ok(amountOut) else Err(done.error);
    }

    method SwapTokensForExactTokens(q: Quote, sender: AccountId, recipient: AccountId, path: Path, amountOut: nat,
                                    amountInMax: Option<nat>, keepAlive: bool) returns (r: Result<nat>)
      requires q.fee <= 1000
      modifies this
      ensures match SwappedExactOut(config, old(VaultValue()), q, sender, recipient, path, amountOut, amountInMax,
                                    keepAlive)
        case Ok((v, amountIn)) => r == Ok(amountIn) && Value() == old(Value()).(vault := v)
        case Err(e) => r == Err(e) && Value() == old(Value())
    {
      hide Swapped, IncludeFee;
      if amountInMax.Some? && amountInMax.value == 0 {
        return Err(ZeroAmount);
      }
      var quoted := GetAmountIn(q, amountOut, sender !in config.feeless);
      if quoted.Err? {
        return Err(quoted.error);
      }
      var (amountIn, fee) := quoted.value;
      if amountInMax.Some? && amountIn > amountInMax.value {
        return Err(MaximumExceeded);
      }
      var done := DoSwap(sender, recipient, path, amountIn, amountOut, fee, keepAlive);
      return if done.Ok? then Ok(amountIn) else Err(done.error);
    }

    method ForceSetCapacity(amount: Option<nat>)
      modifies this`capacityOverride
      ensures Value() == old(Value()).(capacityOverride := amount)
    {
      capacityOverride := amount;
    }

    method OnEnergyBurn(amount: nat)
      modifies this`sessionEnergyBurn
      ensures Value() == old(Value()).(window := old(Value()).window.(session := old(sessionEnergyBurn) + amount))
    {
      sessionEnergyBurn := sessionEnergyBurn + amount;
    }

    method OnNewSession(index: nat)
      modifies this
      ensures Value() == SessionStarted(config, old(Value()), index)
    {
      hide SurplusBurned;
      var finished := sessionEnergyBurn;
      sessionEnergyBurn := 0;
      if index > 0 {
        energyBurn := energyBurn[index - 1 := finished];
        totalEnergyBurn := totalEnergyBurn + finished;
      }
      if index >= config.windowLength + 1 {
        var oldest := index - (config.windowLength + 1);
        if oldest in energyBurn {
          totalEnergyBurn := SatSub(totalEnergyBurn, energyBurn[oldest]);
          energyBurn := energyBurn - {oldest};
        }
      }
      var newCapacity := if capacityOverride.Some? then capacityOverride.value else totalEnergyBurn;
      if newCapacity != 0 {
        capacity := newCapacity;
        BurnSurplusEnergy();
      }
    }
  }

  function Genesis(balances: Balances, energyCapacity: nat): State {
    State(Vault(balances, map[], energyCapacity, 0, 0), Some(energyCapacity), Window(0, map[], 0))
  }
}
