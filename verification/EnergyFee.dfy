/** Charging fees in energy: missing energy is first exchanged from static, then
    from liquid energy, and only then bought; the quote must agree, and a
    corrected fee is split between refund, tip, recycling and burning. */
module EnergyFee {
  import opened Arithmetic
  import EnergyBroker

  /** The balances of one account: its three kinds of energy and its native currency. */
  datatype Purse = Purse(energy: nat, staticEnergy: nat, liquidEnergy: nat, native: nat)

  /** Minimum balances; an exchange account below its minimum is emptied, and energy
      cannot be minted to below its own. */
  datatype Minimums = Minimums(energy: nat, staticEnergy: nat, liquidEnergy: nat)

  /** The price of an amount of energy, if quoted, and what an account can spend on it. */
  datatype Market = Market(price: nat -> Option<nat>, spendable: nat -> nat)

  datatype Outcome = Charged | CannotMint | NoQuote | CannotPay

  /** What a best-effort burn of `required` takes: no more than there is, and dust with it. */
  function Burnable(balance: nat, required: nat, minimum: nat): (b: nat)
    ensures Min(balance, required) <= b <= balance
  {
    var asked := Min(balance, required);
    if balance - asked < minimum then balance else asked
  }

  /** Whether minting `amount` to the energy balance is possible. */
  predicate Mintable(energy: nat, amount: nat, minimum: nat) { amount == 0 || energy + amount >= minimum }

  /** The static balance exchanged for energy; what is burned is gone even if it cannot be minted. */
  function StaticExchanged(p: Purse, required: nat, m: Minimums): (Purse, nat, bool) {
    var amount := if p.staticEnergy == 0 then 0 else Burnable(p.staticEnergy, required, m.staticEnergy);
    var burned := p.(staticEnergy := p.staticEnergy - amount);
    if Mintable(p.energy, amount, m.energy) then (burned.(energy := p.energy + amount), amount, true)
    else (burned, 0, false)
  }

  function LiquidExchanged(p: Purse, required: nat, m: Minimums): (Purse, nat, bool) {
    var amount := if p.liquidEnergy == 0 then 0 else Burnable(p.liquidEnergy, required, m.liquidEnergy);
    var burned := p.(liquidEnergy := p.liquidEnergy - amount);
    if Mintable(p.energy, amount, m.energy) then (burned.(energy := p.energy + amount), amount, true)
    else (burned, 0, false)
  }

  /** Buy exactly `amount` of energy. */
  function Bought(p: Purse, amount: nat, market: Market): (Purse, Outcome) {
    match market.price(amount)
    case None => (p, NoQuote)
    case Some(cost) =>
      if cost > Min(p.native, market.spendable(p.native)) then (p, CannotPay)
      else (p.(native := p.native - cost, energy := p.energy + amount), Charged)
  }

  /** Exchange static and then liquid energy; returns what is still missing, and whether minting succeeded. */
  function Exchanged(p: Purse, required: nat, m: Minimums): (Purse, nat, bool) {
    var missing := SatSub(required, p.energy);
    if missing == 0 then (p, 0, true)
    else
      var (p1, a1, ok1) := StaticExchanged(p, missing, m);
      var missing1 := SatSub(missing, a1);
      if !ok1 || missing1 == 0 then (p1, missing1, ok1)
      else
        var (p2, a2, ok2) := LiquidExchanged(p1, missing1, m);
        (p2, SatSub(missing1, a2), ok2)
  }

  /** The whole cascade: what the account cannot exchange is bought. */
  function Ensured(p: Purse, required: nat, m: Minimums, market: Market): (Purse, Outcome) {
    var (p', missing, ok) := Exchanged(p, required, m);
    if !ok then (p', CannotMint)
    else if missing == 0 then (p', Charged)
    else Bought(p', missing, market)
  }

  /** What a call is charged: a regular fee now, or an EVM fee that is only provided for, to be withdrawn later. */
  datatype CallFee = Regular(fee: nat) | EVM(fee: nat)

  /** Withdraw the fee of a call, after bringing the account's energy up to it; `computed` is the fee before
      it is replaced by the call's own. */
  function FeeWithdrawn(p: Purse, computed: nat, call: CallFee, m: Minimums, market: Market): (Purse, Outcome) {
    if computed == 0 then (p, Charged)
    else match call
      case EVM(fee) => Ensured(p, fee, m, market)
      case Regular(fee) =>
        var (after, outcome) := Ensured(p, fee, m, market);
        if outcome != Charged then (after, outcome) else (after.(energy := SatSub(after.energy, fee)), Charged)
  }

  /** The quoted energy and native parts of a fee. */
  function FeeParts(p: Purse, required: nat, market: Market): Option<(nat, nat)> {
    var e0 := p.energy;
    var e1 := if e0 < required then e0 + p.staticEnergy else e0;
    var e2 := if e1 < required then e1 + p.liquidEnergy else e1;
    if e2 < required then
      match market.price(SatSub(required, e2))
      case Some(cost) => Some((e2, cost))
      case None => None
    else Some((required, 0))
  }

  class FeePallet {
    const minimums: Minimums
    const market: Market
    var purse: Purse
    var burnedEnergy: nat
    var recycled: nat
    var reported: nat

    constructor (minimums: Minimums, market: Market, purse: Purse)
      ensures this.minimums == minimums && this.market == market && this.purse == purse
      ensures burnedEnergy == 0 && recycled == 0 && reported == 0
    {
      this.minimums, this.market, this.purse := minimums, market, purse;
      burnedEnergy, recycled, reported := 0, 0, 0;
    }

    method ExchangeStatic(required: nat) returns (amount: nat, ok: bool)
      modifies this`purse
      ensures (purse, amount, ok) == StaticExchanged(old(purse), required, minimums)
    {
      if purse.staticEnergy == 0 {
        return 0, true;
      }
      amount := Burnable(purse.staticEnergy, required, minimums.staticEnergy);
      purse := purse.(staticEnergy := purse.staticEnergy - amount);
      if !Mintable(purse.energy, amount, minimums.energy) {
        return 0, false;
      }
      purse := purse.(energy := purse.energy + amount);
      return amount, true;
    }

    method ExchangeLiquid(required: nat) returns (amount: nat, ok: bool)
      modifies this`purse
      ensures (purse, amount, ok) == LiquidExchanged(old(purse), required, minimums)
    {
      if purse.liquidEnergy == 0 {
        return 0, true;
      }
      amount := Burnable(purse.liquidEnergy, required, minimums.liquidEnergy);
      purse := purse.(liquidEnergy := purse.liquidEnergy - amount);
      if !Mintable(purse.energy, amount, minimums.energy) {
        return 0, false;
      }
      purse := purse.(energy := purse.energy + amount);
      return amount, true;
    }

    /** Bring the account's energy up to what a fee requires. */
    method EnsureSufficientEnergy(fee: nat) returns (outcome: Outcome)
      modifies this`purse
      ensures (purse, outcome) == Ensured(old(purse), fee, minimums, market)
    {
      var required := SatSub(fee, purse.energy);
      if required > 0 {
        var amount, ok := ExchangeStatic(required);
        if !ok {
          return CannotMint;
        }
        required := SatSub(required, amount);
      }
      if required > 0 {
        var amount, ok := ExchangeLiquid(required);
        if !ok {
          return CannotMint;
        }
        required := SatSub(required, amount);
      }
      if required > 0 {
        var (p, result) := Bought(purse, required, market);
        purse := p;
        return result;
      }
      return Charged;
    }

    /** Withdraw the fee of a call from the account's energy, exactly; an EVM fee is only provided for. */
    method WithdrawFee(computed: nat, call: CallFee) returns (outcome: Outcome)
      modifies this`purse
      ensures (purse, outcome) == FeeWithdrawn(old(purse), computed, call, minimums, market)
      ensures outcome == Charged && computed > 0 ==>
        purse.energy + (if call.Regular? then call.fee else 0)
          == Ensured(old(purse), call.fee, minimums, market).0.energy
    {
      hide Ensured;
      if computed == 0 {
        return Charged;
      }
      var fee := 0;
      match call {
        case Regular(regular) =>
          fee := regular;
        case EVM(evm) =>
          outcome := EnsureSufficientEnergy(evm);
          if outcome != Charged {
            return;
          }
      }
      if fee == 0 {
        NoFee(old(purse), minimums, market);
        return Charged;
      }
      outcome := EnsureSufficientEnergy(fee);
      if outcome == Charged {
        CascadeCharges(old(purse), fee, minimums, market);
        purse := purse.(energy := purse.energy - fee);
      }
    }

    /** Quote a fee as an energy part and a native part. */
    method CalculateFeeParts(required: nat) returns (parts: Option<(nat, nat)>)
      ensures parts == FeeParts(purse, required, market)
    {
      var totalEnergy := purse.energy;
      if totalEnergy < required {
        totalEnergy := totalEnergy + purse.staticEnergy;
      }
      if totalEnergy < required {
        totalEnergy := totalEnergy + purse.liquidEnergy;
      }
      if totalEnergy < required {
        var quoted := market.price(SatSub(required, totalEnergy));
        return if quoted.Some? then Some((totalEnergy, quoted.value)) else None;
      }
      return Some((required, 0));
    }

    method UpdateBurnedEnergy(amount: nat)
      modifies this`burnedEnergy, this`reported
      ensures burnedEnergy == old(burnedEnergy) + amount && reported == old(reported) + amount
    {
      reported := reported + amount;
      burnedEnergy := burnedEnergy + amount;
    }

    /** Settle a withdrawn fee; `refundable` is what the account can take back when the call pays no fee. */
    method CorrectAndDepositFee(paid: nat, tip: nat, paysFee: bool, refundable: nat, recyclingRate: nat)
      requires recyclingRate <= 1_000_000
      modifies this
      ensures var s := Settle(paid, tip, paysFee, refundable, recyclingRate);
        && purse == old(purse).(energy := old(purse).energy + s.refund)
        && recycled == old(recycled) + s.recycled
        && burnedEnergy == old(burnedEnergy) + s.burned && reported == old(reported) + s.burned
    {
      hide PermillMul;
      var refund := if paysFee then 0 else Min(SatSub(paid, tip), refundable);
      purse := purse.(energy := purse.energy + refund);
      var adjusted := paid - refund;
      var tipPart := Min(tip, adjusted);
      var fee := adjusted - tipPart;
      var recycledAmount := Min(PermillMul(recyclingRate, fee), fee);
      recycled := recycled + recycledAmount;
      UpdateBurnedEnergy(fee - recycledAmount);
      UpdateBurnedEnergy(tipPart);
    }
  }

  // ---------- settling a fee ----------

  /** `Permill * n`: parts per million, rounded to nearest, a tie going down. */
  function PermillMul(p: nat, n: nat): nat { (2 * Product(p, n) + 999_999) / 2_000_000 }

  datatype Settlement = Settlement(refund: nat, recycled: nat, burned: nat)

  function Settle(paid: nat, tip: nat, paysFee: bool, refundable: nat, recyclingRate: nat): Settlement {
    var refund := if paysFee then 0 else Min(SatSub(paid, tip), refundable);
    var adjusted := paid - refund;
    var fee := adjusted - Min(tip, adjusted);
    var recycled := Min(PermillMul(recyclingRate, fee), fee);
    Settlement(refund, recycled, adjusted - recycled)
  }

  /** A settled fee is refunded, recycled or burned, and nothing else; the tip is never
      refunded or recycled, and the recycled part is the rate's share of the fee without the tip. */
  lemma SettlementConserves(paid: nat, tip: nat, paysFee: bool, refundable: nat, recyclingRate: nat)
    requires recyclingRate <= 1_000_000
    ensures var s := Settle(paid, tip, paysFee, refundable, recyclingRate);
      && s.refund + s.recycled + s.burned == paid
      && s.burned >= Min(tip, paid)
      && (paysFee ==> s.refund == 0)
      && s.recycled == PermillMul(recyclingRate, SatSub(paid - s.refund, tip))
  {
    var s := Settle(paid, tip, paysFee, refundable, recyclingRate);
    var fee := SatSub(paid - s.refund, tip);
    ProductMono(recyclingRate, 1_000_000, fee, fee);
    ProductIs(1_000_000, fee);
  }

  // ---------- the cascade ----------

  ghost function AllEnergy(p: Purse): nat { p.energy + p.staticEnergy + p.liquidEnergy }

  /** What is bought: the requirement beyond all energy the account holds. */
  ghost function Shortfall(p: Purse, required: nat): nat { SatSub(required, AllEnergy(p)) }

  /** Exchanging keeps the sum of the energies and the native currency, turns to liquid energy only when
      static energy is exhausted, and leaves exactly the shortfall missing. */
  lemma ExchangesInOrder(p: Purse, required: nat, m: Minimums)
    ensures var (p', missing, ok) := Exchanged(p, required, m);
      ok ==>
        && AllEnergy(p') == AllEnergy(p) && p'.native == p.native && missing == Shortfall(p, required)
        && p'.staticEnergy <= p.staticEnergy && p'.liquidEnergy <= p.liquidEnergy
        && (p'.staticEnergy != p.staticEnergy ==> p.energy < required)
        && (p'.liquidEnergy != p.liquidEnergy ==> p'.staticEnergy == 0 && p.energy + p.staticEnergy < required)
        && (if missing == 0 then p'.energy >= required
            else p'.staticEnergy == 0 && p'.liquidEnergy == 0 && p'.energy + missing == required)
  {
    hide Burnable;
  }

  /** A charged account holds the required energy; its energies change in sum only by what is
      bought, which is the shortfall; liquid energy is touched only when static energy is
      exhausted, and native currency only when both are. */
  lemma CascadeCharges(p: Purse, required: nat, m: Minimums, market: Market)
    ensures var (after, outcome) := Ensured(p, required, m, market);
      outcome == Charged ==>
        && after.energy >= required
        && AllEnergy(after) == AllEnergy(p) + Shortfall(p, required)
        && after.staticEnergy <= p.staticEnergy && after.liquidEnergy <= p.liquidEnergy && after.native <= p.native
        && (after.staticEnergy != p.staticEnergy ==> p.energy < required)
        && (after.liquidEnergy != p.liquidEnergy ==> after.staticEnergy == 0 && p.energy + p.staticEnergy < required)
        && (after.native != p.native ==>
              after.staticEnergy == 0 && after.liquidEnergy == 0 && Shortfall(p, required) > 0)
  {
    hide Exchanged;
    ExchangesInOrder(p, required, m);
  }

  /** The quote is right: a charged account pays exactly the quoted native part, and the
      quoted energy part is what it had to contribute; without a quote it cannot be charged. */
  lemma QuoteAgrees(p: Purse, required: nat, m: Minimums, market: Market)
    ensures var (after, outcome) := Ensured(p, required, m, market);
      var parts := FeeParts(p, required, market);
      && (outcome == Charged ==>
            && parts.Some?
            && parts.value.0 == required - Shortfall(p, required)
            && p.native - after.native == parts.value.1)
      && (parts.None? ==> outcome != Charged && after.native == p.native)
      && (outcome == NoQuote ==> parts.None?)
  {
    hide Exchanged, Mintable;
    ExchangesInOrder(p, required, m);
    NativeKept(p, required, m);
  }

  lemma NativeKept(p: Purse, required: nat, m: Minimums)
    ensures Exchanged(p, required, m).0.native == p.native
  {
    hide Burnable;
  }

  /** The quoted native part is the price of the shortfall. */
  lemma QuoteIsPriceOfShortfall(p: Purse, required: nat, market: Market)
    ensures var parts, shortfall := FeeParts(p, required, market), Shortfall(p, required);
      if shortfall == 0 then parts == Some((required, 0))
      else match market.price(shortfall)
        case Some(cost) => parts == Some((AllEnergy(p), cost))
        case None => parts == None
  {}

  /** A failed charge keeps the native currency and loses at most what could not be minted. */
  lemma FailedCharge(p: Purse, required: nat, m: Minimums, market: Market)
    ensures var (after, outcome) := Ensured(p, required, m, market);
      outcome != Charged ==>
        && after.native == p.native
        && AllEnergy(after) <= AllEnergy(p)
        && (AllEnergy(after) < AllEnergy(p) ==> outcome == CannotMint && after.energy < m.energy)
  {}

  /** What each exchange burns can be minted: with it the energy balance reaches its minimum. */
  predicate ExchangesMint(p: Purse, required: nat, m: Minimums) {
    var missing := SatSub(required, p.energy);
    var fromStatic := if missing == 0 then 0 else Burnable(p.staticEnergy, missing, m.staticEnergy);
    var left := SatSub(missing, fromStatic);
    var fromLiquid := if left == 0 then 0 else Burnable(p.liquidEnergy, left, m.liquidEnergy);
    Mintable(p.energy, fromStatic, m.energy) && Mintable(p.energy + fromStatic, fromLiquid, m.energy)
  }

  /** The account can pay the price of an amount of energy. */
  predicate CanBuy(p: Purse, amount: nat, market: Market) {
    match market.price(amount)
    case None => false
    case Some(cost) => cost <= Min(p.native, market.spendable(p.native))
  }

  /** A charge succeeds exactly when what is exchanged can be minted and a shortfall can be paid for. Minting
      never fails for an account whose energy is at its minimum already, or when there is none to speak of. */
  lemma ChargedExactly(p: Purse, required: nat, m: Minimums, market: Market)
    ensures var (_, outcome) := Ensured(p, required, m, market);
      var shortfall := Shortfall(p, required);
      && (outcome == Charged <==> ExchangesMint(p, required, m) && (shortfall == 0 || CanBuy(p, shortfall, market)))
      && (p.energy >= m.energy || m.energy <= 1 ==> ExchangesMint(p, required, m))
  {
    hide Burnable;
  }

  // ---------- any number of fees ----------

  /** A call to be charged: the fee computed for it, and the fee it is charged. */
  datatype Call = Call(computed: nat, fee: CallFee)

  /** The account after a call; one that cannot be charged is rejected and leaves no trace. */
  ghost function AfterCall(p: Purse, call: Call, m: Minimums, market: Market): Purse {
    var (after, outcome) := FeeWithdrawn(p, call.computed, call.fee, m, market);
    if outcome == Charged then after else p
  }

  ghost function AfterCalls(p: Purse, calls: seq<Call>, m: Minimums, market: Market): Purse {
    if |calls| == 0 then p else AfterCall(AfterCalls(p, calls[..|calls| - 1], m, market), calls[|calls| - 1], m, market)
  }

  /** The fees charged, the energy bought for them, and the native parts quoted for them, in total. */
  datatype Bill = Bill(charged: nat, bought: nat, quoted: nat)

  ghost function BillOf(p: Purse, calls: seq<Call>, m: Minimums, market: Market): Bill {
    if |calls| == 0 then Bill(0, 0, 0)
    else
      var init, call := calls[..|calls| - 1], calls[|calls| - 1];
      var before, bill := AfterCalls(p, init, m, market), BillOf(p, init, m, market);
      var fee := call.fee.fee;
      var parts := FeeParts(before, fee, market);
      if call.computed == 0 || FeeWithdrawn(before, call.computed, call.fee, m, market).1 != Charged || parts.None?
      then bill
      else Bill(bill.charged + if call.fee.Regular? then fee else 0,
                bill.bought + Shortfall(before, fee), bill.quoted + parts.value.1)
  }

  /** Over any sequence of calls the account's energies drop by the fees charged less what was
      bought, and its native currency by exactly the native parts quoted. */
  lemma {:induction false} FeesConserve(p: Purse, calls: seq<Call>, m: Minimums, market: Market)
    ensures var after, bill := AfterCalls(p, calls, m, market), BillOf(p, calls, m, market);
      && AllEnergy(after) + bill.charged == AllEnergy(p) + bill.bought
      && after.native + bill.quoted == p.native
  {
    hide Ensured, FeeParts, Shortfall;
    if |calls| > 0 {
      var init, call := calls[..|calls| - 1], calls[|calls| - 1];
      FeesConserve(p, init, m, market);
      var before := AfterCalls(p, init, m, market);
      CascadeCharges(before, call.fee.fee, m, market);
      QuoteAgrees(before, call.fee.fee, m, market);
    }
  }

  lemma NoFee(p: Purse, m: Minimums, market: Market)
    ensures Ensured(p, 0, m, market) == (p, Charged)
  {}

  // ---------- the broker as the market ----------

  /** The fee of an exchanged amount is less than one unit. */
  ghost predicate FeeVanishes(exchanged: nat, fee: nat) { exchanged * fee < 1000 - fee }

  /** Fee parts are quoted with the broker's fee; the broker charges accounts it exempts
      without it. For those the quoted native part is what is charged exactly when the fee
      of the exchanged amount rounds to nothing. */
  lemma FeelessQuoteExactly(q: EnergyBroker.Quote, amount: nat)
    requires q.fee <= 1000
    requires EnergyBroker.GetAmountIn(q, amount, true).Ok?
    ensures EnergyBroker.GetAmountIn(q, amount, false).Ok? && q.amountIn(amount).Some?
    ensures var exchanged := EnergyBroker.AskedFor(q, amount);
      var quoted := EnergyBroker.GetAmountIn(q, amount, true).value.0;
      var charged := EnergyBroker.GetAmountIn(q, amount, false).value.0;
      charged == exchanged <= quoted && (quoted == charged <==> FeeVanishes(exchanged, q.fee))
  {
    var x := Max(q.amountIn(amount).value, 1);
    hide EnergyBroker.IncludeFee;
    EnergyBroker.IncludeAtLeast(x, q.fee);
    EnergyBroker.IncludesNothing(x, q.fee);
  }
}
