/** The broker as the market of the fee pallet: buying the energy a fee lacks is a swap
    at the broker, and the quoted native part is what the swap takes. */
module FeeMarket {
  import opened Accounts
  import opened Arithmetic
  import EnergyBroker
  import BrokerLaws
  import EnergyFee

  /** Quotes are the broker's, always with its fee; an account can spend what keeps it alive. */
  function BrokerMarket(c: EnergyBroker.Config, q: EnergyBroker.Quote): EnergyFee.Market
    requires q.fee <= 1000
  {
    EnergyFee.Market(
      amount => match EnergyBroker.GetAmountIn(q, amount, true) case Ok(quoted) => Some(quoted.0) case Err(_) => None,
      native => SatSub(native, c.MinimumOf(EnergyBroker.Native)))
  }

  /** The swap the fee pallet asks for: native currency for an exact amount of energy, keeping the account alive. */
  function BoughtAtBroker(c: EnergyBroker.Config, v: EnergyBroker.Vault, q: EnergyBroker.Quote, who: AccountId,
                          amount: nat)
    : EnergyBroker.Result<(EnergyBroker.Vault, nat)>
    requires q.fee <= 1000
  {
    EnergyBroker.SwappedExactOut(c, v, q, who, who, EnergyBroker.Path(EnergyBroker.Native, c.energy), amount, None,
                                 true)
  }

  /** The balances of an account that its purse holds and a swap changes. */
  ghost predicate Holds(c: EnergyBroker.Config, v: EnergyBroker.Vault, who: AccountId, p: EnergyFee.Purse) {
    && EnergyBroker.BalanceOf(v.balances, c.energy, who) == p.energy
    && EnergyBroker.BalanceOf(v.balances, EnergyBroker.Native, who) == p.native
  }

  /** What the swap does to the account: it takes exactly the broker's price for that account and gives exactly
      the energy. */
  lemma SwapTakesPrice(c: EnergyBroker.Config, v: EnergyBroker.Vault, q: EnergyBroker.Quote, who: AccountId,
                       amount: nat, p: EnergyFee.Purse)
    requires q.fee <= 1000 && who != c.broker && c.energy != EnergyBroker.Native && Holds(c, v, who, p)
    ensures var price := EnergyBroker.GetAmountIn(q, amount, who !in c.feeless);
      var r := BoughtAtBroker(c, v, q, who, amount);
      r.Ok? ==>
        && price.Ok? && price.value.0 == r.value.1 <= SatSub(p.native, c.MinimumOf(EnergyBroker.Native))
        && Holds(c, r.value.0, who, p.(energy := p.energy + amount, native := p.native - r.value.1))
  {
    var price := EnergyBroker.GetAmountIn(q, amount, who !in c.feeless);
    hide EnergyBroker.GetAmountIn, EnergyBroker.Swapped;
    if price.Ok? {
      var path := EnergyBroker.Path(EnergyBroker.Native, c.energy);
      BrokerLaws.QuotedFeeWithinInput(q, amount, who !in c.feeless);
      SwapNeedsFunds(c, v, who, path, price.value.0, amount, price.value.1);
      BrokerLaws.SwapMovesExactly(c, v, who, who, path, price.value.0, amount, price.value.1, true, c.energy, who);
      BrokerLaws.SwapMovesExactly(c, v, who, who, path, price.value.0, amount, price.value.1, true, EnergyBroker.Native,
                                  who);
    }
  }

  lemma SwapNeedsFunds(c: EnergyBroker.Config, v: EnergyBroker.Vault, who: AccountId, path: EnergyBroker.Path,
                       amountIn: nat, amountOut: nat, fee: nat)
    ensures EnergyBroker.Swapped(c, v, who, who, path, amountIn, amountOut, fee, true).Ok? ==>
      amountIn <= EnergyBroker.Reducible(c, v.balances, path.assetIn, who, true)
  {
    hide EnergyBroker.SurplusBurned;
  }

  /** For an account that pays the swap fee the broker is such a market: a swap that succeeds is the purchase of
      the cascade, and where the cascade cannot buy, the swap fails; where it can,
      only a minimum balance or the broker's liquidity makes it fail. */
  lemma BrokerIsMarket(c: EnergyBroker.Config, v: EnergyBroker.Vault, q: EnergyBroker.Quote, who: AccountId,
                       amount: nat, p: EnergyFee.Purse)
    requires q.fee <= 1000 && who != c.broker && c.energy != EnergyBroker.Native && Holds(c, v, who, p)
    requires who !in c.feeless
    ensures var r := BoughtAtBroker(c, v, q, who, amount);
      var (after, outcome) := EnergyFee.Bought(p, amount, BrokerMarket(c, q));
      && (r.Ok? ==> outcome == EnergyFee.Charged && Holds(c, r.value.0, who, after))
      && (outcome != EnergyFee.Charged ==> r.Err?)
      && (outcome == EnergyFee.Charged && r.Err? ==>
            r.error == EnergyBroker.BelowMinimum || r.error == EnergyBroker.InsufficientLiquidity)
  {
    hide EnergyBroker.GetAmountIn, BoughtAtBroker;
    SwapTakesPrice(c, v, q, who, amount, p);
    var quoted := EnergyBroker.GetAmountIn(q, amount, true);
    if quoted.Ok? && quoted.value.0 <= EnergyBroker.Reducible(c, v.balances, EnergyBroker.Native, who, true) {
      PaidSwapFails(c, v, q, who, amount);
    }
  }

  /** When the account can pay, only the broker's own limits make the swap fail. */
  lemma PaidSwapFails(c: EnergyBroker.Config, v: EnergyBroker.Vault, q: EnergyBroker.Quote, who: AccountId, amount: nat)
    requires q.fee <= 1000 && who !in c.feeless && EnergyBroker.GetAmountIn(q, amount, true).Ok?
    requires EnergyBroker.GetAmountIn(q, amount, true).value.0
          <= EnergyBroker.Reducible(c, v.balances, EnergyBroker.Native, who, true)
    ensures var r := BoughtAtBroker(c, v, q, who, amount);
      r.Ok? || r.error == EnergyBroker.BelowMinimum || r.error == EnergyBroker.InsufficientLiquidity
  {
    hide EnergyBroker.GetAmountIn, EnergyBroker.SurplusBurned;
  }

  /** The quote against the price: the native part quoted for a fee is what the account is charged for the shortfall
      exactly when it pays the swap fee or that fee rounds to nothing. */
  lemma QuoteIsPrice(p: EnergyFee.Purse, required: nat, c: EnergyBroker.Config, q: EnergyBroker.Quote, who: AccountId)
    requires q.fee <= 1000 && EnergyFee.Shortfall(p, required) > 0
    ensures var shortfall := EnergyFee.Shortfall(p, required);
      var price := EnergyBroker.GetAmountIn(q, shortfall, who !in c.feeless);
      var parts := EnergyFee.FeeParts(p, required, BrokerMarket(c, q));
      && (price.Ok? && who !in c.feeless ==> parts.Some?)
      && (parts.Some? ==>
            && parts.value.0 + shortfall == required
            && price.Ok? && q.amountIn(shortfall).Some?
            && (parts.value.1 == price.value.0 <==>
                  who !in c.feeless || EnergyFee.FeeVanishes(EnergyBroker.AskedFor(q, shortfall), q.fee)))
  {
    hide EnergyFee.FeeParts, EnergyBroker.GetAmountIn, EnergyFee.FeeVanishes, EnergyBroker.AskedFor;
    var shortfall := EnergyFee.Shortfall(p, required);
    EnergyFee.QuoteIsPriceOfShortfall(p, required, BrokerMarket(c, q));
    if EnergyBroker.GetAmountIn(q, shortfall, true).Ok? { EnergyFee.FeelessQuoteExactly(q, shortfall); }
  }

  /** When an account exchanges what energy it has and buys the rest at the broker, it then holds exactly the
      requirement, and pays exactly the native part quoted for the whole fee if and only if it pays the swap fee
      or that fee rounds to nothing. */
  lemma BrokerChargesQuote(p: EnergyFee.Purse, required: nat, m: EnergyFee.Minimums, c: EnergyBroker.Config,
                           v: EnergyBroker.Vault, q: EnergyBroker.Quote, who: AccountId)
    requires q.fee <= 1000 && who != c.broker && c.energy != EnergyBroker.Native
    ensures var (p', missing, ok) := EnergyFee.Exchanged(p, required, m);
      var r := BoughtAtBroker(c, v, q, who, missing);
      var parts := EnergyFee.FeeParts(p, required, BrokerMarket(c, q));
      ok && missing > 0 && Holds(c, v, who, p') && r.Ok? ==>
        var native := EnergyBroker.BalanceOf(r.value.0.balances, EnergyBroker.Native, who);
        && EnergyBroker.BalanceOf(r.value.0.balances, c.energy, who) == required
        && native <= p.native
        && (who !in c.feeless ==> parts.Some?)
        && (parts.Some? ==>
              && parts.value.0 + missing == required
              && q.amountIn(missing).Some?
              && (native + parts.value.1 == p.native <==>
                    who !in c.feeless || EnergyFee.FeeVanishes(EnergyBroker.AskedFor(q, missing), q.fee)))
  {
    hide *;
    var (p', missing, ok) := EnergyFee.Exchanged(p, required, m);
    if ok && missing > 0 && Holds(c, v, who, p') && BoughtAtBroker(c, v, q, who, missing).Ok? {
      EnergyFee.ExchangesInOrder(p, required, m);
      SwapTakesPriceOf(c, v, q, who, missing, p');
      QuoteIsPrice(p, required, c, q, who);
    }
  }

  lemma SwapTakesPriceOf(c: EnergyBroker.Config, v: EnergyBroker.Vault, q: EnergyBroker.Quote, who: AccountId,
                         amount: nat, p: EnergyFee.Purse)
    requires q.fee <= 1000 && who != c.broker && c.energy != EnergyBroker.Native && Holds(c, v, who, p)
    requires BoughtAtBroker(c, v, q, who, amount).Ok?
    ensures var price := EnergyBroker.GetAmountIn(q, amount, who !in c.feeless);
      var v' := BoughtAtBroker(c, v, q, who, amount).value.0;
      && price.Ok?
      && EnergyBroker.BalanceOf(v'.balances, c.energy, who) == p.energy + amount
      && EnergyBroker.BalanceOf(v'.balances, EnergyBroker.Native, who) + price.value.0 == p.native
  {
    SwapTakesPrice(c, v, q, who, amount, p);
    hide EnergyBroker.GetAmountIn, BoughtAtBroker;
  }
}
