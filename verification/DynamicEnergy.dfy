/** Energy generation per session: each session's rate is a smoothed burn, previous
    sessions are pruned, and eras sum what is left. */
module DynamicEnergy {
  import opened Arithmetic

  const MAX_U32: nat := 4_294_967_295

  // ---------- smoothing ----------

  /** The weight of the new value: 2 / (factor + 1), at most one. */
  function Weight(factor: nat): Perbill { PerbillFromRational(2, Min(factor + 1, MAX_U32)) }

  function SmoothValue(value: nat, previous: nat, factor: nat): nat {
    PerbillMul(Weight(factor), value) + PerbillMul(BILLION - Weight(factor), previous)
  }

  /** The rounding error of a smoothed value is at most one. */
  lemma SmoothError(value: nat, previous: nat, factor: nat)
    ensures var exact := Weight(factor) * value + (BILLION - Weight(factor)) * previous;
      exact <= BILLION * SmoothValue(value, previous, factor) + BILLION
      && BILLION * SmoothValue(value, previous, factor) < exact + BILLION
  {
    hide PerbillMul, Weight;
    var w := Weight(factor);
    PerbillMulNearest(w, value, PerbillMul(w, value));
    PerbillMulNearest(BILLION - w, previous, PerbillMul(BILLION - w, previous));
  }

  lemma MeanBounds(w: nat, a: nat, b: nat)
    requires w <= BILLION
    ensures BILLION * Min(a, b) <= w * a + (BILLION - w) * b <= BILLION * Max(a, b)
  {
    MeanSplit(w, a, b);
    MeanSplit(BILLION - w, b, a);
  }

  /** A smoothed value lies between the two values, up to one below. */
  lemma SmoothBounds(value: nat, previous: nat, factor: nat)
    ensures SmoothValue(value, previous, factor) <= Max(value, previous)
    ensures SmoothValue(value, previous, factor) + 1 >= Min(value, previous)
  {
    hide SmoothValue, Weight;
    SmoothError(value, previous, factor);
    MeanBounds(Weight(factor), value, previous);
  }

  /** The default factor disables smoothing. */
  lemma FactorOneIsExact(value: nat, previous: nat, factor: nat)
    requires factor <= 1
    ensures SmoothValue(value, previous, factor) == value
  {
    ProductIs(Weight(factor), 2);
    assert Weight(factor) == BILLION;
    PerbillMulWhole(value);
    PerbillMulWhole(previous);
  }

  // ---------- convergence ----------

  ghost function Distance(a: nat, b: nat): nat { if a <= b then b - a else a - b }

  /** Smoothing shrinks the distance to the new value by the weight, up to one. */
  lemma SmoothContracts(value: nat, previous: nat, factor: nat)
    ensures BILLION * Distance(SmoothValue(value, previous, factor), value)
         <= (BILLION - Weight(factor)) * Distance(previous, value) + BILLION
  {
    hide SmoothValue, Weight, Distance;
    SmoothError(value, previous, factor);
    MeanContracts(Weight(factor), value, previous, SmoothValue(value, previous, factor));
  }

  lemma MeanContracts(w: nat, value: nat, previous: nat, r: nat)
    requires w <= BILLION
    requires w * value + (BILLION - w) * previous <= BILLION * r + BILLION
    requires BILLION * r < w * value + (BILLION - w) * previous + BILLION
    ensures BILLION * Distance(r, value) <= (BILLION - w) * Distance(previous, value) + BILLION
  {
    MeanSplit(w, value, previous);
  }

  /** A mean is the one value plus its share of the difference. */
  lemma MeanSplit(w: nat, value: nat, previous: nat)
    requires w <= BILLION
    ensures previous >= value ==>
      w * value + (BILLION - w) * previous == BILLION * value + (BILLION - w) * Distance(previous, value)
    ensures previous < value ==>
      w * value + (BILLION - w) * previous == BILLION * value - (BILLION - w) * Distance(previous, value)
    ensures (BILLION - w) * Distance(previous, value) >= 0
  {}

  ghost function Pow(q: real, n: nat): real { if n == 0 then 1.0 else q * Pow(q, n - 1) }

  lemma {:induction false} PowBounds(q: real, n: nat)
    requires 0.0 <= q <= 1.0
    ensures 0.0 <= Pow(q, n) <= 1.0
  {
    if n > 0 {
      PowBounds(q, n - 1);
      UnitProduct(q, Pow(q, n - 1));
    }
  }

  lemma UnitProduct(a: real, b: real)
    requires 0.0 <= a <= 1.0 && 0.0 <= b <= 1.0
    ensures 0.0 <= a * b <= 1.0
  {
    NonNegative(a, b);
    NonNegative(1.0 - a, b);
    assert (1.0 - a) * b == b - a * b;
  }

  lemma NonNegative(a: real, b: real)
    requires 0.0 <= a && 0.0 <= b
    ensures 0.0 <= a * b
  {
  }

  /** The part of the old value that is kept. */
  ghost function Kept(factor: nat): real { (BILLION - Weight(factor)) as real / 1_000_000_000.0 }

  ghost function Slack(factor: nat): real
    requires Weight(factor) > 0
  {
    1_000_000_000.0 / Weight(factor) as real
  }

  lemma ContractsReal(value: nat, previous: nat, factor: nat)
    requires Weight(factor) > 0
    ensures Distance(SmoothValue(value, previous, factor), value) as real - Slack(factor)
         <= Kept(factor) * (Distance(previous, value) as real - Slack(factor))
  {
    hide SmoothValue, Weight, Distance;
    SmoothContracts(value, previous, factor);
    ContractionArithmetic(Distance(SmoothValue(value, previous, factor), value), Distance(previous, value),
                          Weight(factor));
  }

  lemma ContractionArithmetic(d': nat, d: nat, w: nat)
    requires 0 < w <= BILLION && BILLION * d' <= (BILLION - w) * d + BILLION
    ensures var slack, kept := 1_000_000_000.0 / w as real, (BILLION - w) as real / 1_000_000_000.0;
      d' as real - slack <= kept * (d as real - slack)
  {
    var b, wr, dr := 1_000_000_000.0, w as real, d as real;
    var slack := b / wr;
    var kept := (b - wr) / b;
    assert (BILLION - w) as real == b - wr;
    assert ((BILLION - w) * d) as real == (b - wr) * dr;
    assert b * (d' as real) <= (b - wr) * dr + b;
    assert d' as real <= (b - wr) * dr / b + 1.0;
    assert (b - wr) * dr / b == kept * dr;
    assert wr * slack == b;
    assert kept * slack == (b - wr) * slack / b == (b * slack - b) / b == slack - 1.0;
    assert kept * (dr - slack) == kept * dr - kept * slack;
  }

  // ---------- the pallet ----------

  datatype State = State(
    generation: map<nat, nat>, sessionBurn: nat, burnOverride: Option<nat>, minimum: Option<nat>, factor: nat)

  function OrElse(o: Option<nat>, default: nat): nat { if o.Some? then o.value else default }

  /** The unsmoothed rate: the burn, or its override, but at least the minimum. */
  function NewRate(s: State): nat { Max(OrElse(s.burnOverride, s.sessionBurn), OrElse(s.minimum, 0)) }

  function RateAt(generation: map<nat, nat>, session: nat): nat {
    if session in generation then generation[session] else 0
  }

  /** The rate of session `index`, smoothed against the stored rate of the session before it. */
  function SessionRate(s: State, index: nat): nat {
    SmoothValue(NewRate(s), if index == 0 then 0 else RateAt(s.generation, index - 1), s.factor)
  }

  function AfterSession(s: State, sessionsPerEra: nat, index: nat): State {
    var inserted := s.generation[index := SessionRate(s, index)];
    s.(generation := if index >= sessionsPerEra + 1 then inserted - {index - (sessionsPerEra + 1)} else inserted,
       sessionBurn := 0)
  }

  function SumOf(generation: map<nat, nat>, start: nat, end: nat): nat
    decreases end
  {
    if end <= start then 0 else SumOf(generation, start, end - 1) + RateAt(generation, end - 1)
  }

  class Pallet {
    const sessionsPerEra: nat
    var generation: map<nat, nat>
    var sessionBurn: nat
    var burnOverride: Option<nat>
    var minimum: Option<nat>
    var factor: nat

    ghost function Value(): State
      reads this
    {
      State(generation, sessionBurn, burnOverride, minimum, factor)
    }

    constructor (sessionsPerEra: nat, burnOverride: Option<nat>)
      ensures this.sessionsPerEra == sessionsPerEra && Value() == Genesis(burnOverride)
    {
      this.sessionsPerEra := sessionsPerEra;
      generation, sessionBurn, this.burnOverride, minimum, factor := map[], 0, burnOverride, None, 1;
    }

    method OnEnergyBurn(amount: nat)
      modifies this`sessionBurn
      ensures Value() == old(Value()).(sessionBurn := old(sessionBurn) + amount)
    {
      sessionBurn := sessionBurn + amount;
    }

    method ForceSetEnergyBurn(amount: Option<nat>)
      modifies this`burnOverride
      ensures Value() == old(Value()).(burnOverride := amount)
    {
      burnOverride := amount;
    }

    method SetMinimumEnergyGeneration(amount: Option<nat>)
      modifies this`minimum
      ensures Value() == old(Value()).(minimum := amount)
    {
      minimum := amount;
    }

    /** Set the smoothing factor; zero is refused. */
    method SetGenerationRateSmoothFactor(value: nat) returns (ok: bool)
      modifies this`factor
      ensures ok <==> value > 0
      ensures Value() == old(Value()).(factor := if ok then value else old(factor))
    {
      if value == 0 {
        return false;
      }
      factor := value;
      return true;
    }

    method OnNewSession(index: nat)
      modifies this
      ensures Value() == AfterSession(old(Value()), sessionsPerEra, index)
    {
      hide SmoothValue;
      var energyBurn := if burnOverride.Some? then burnOverride.value else sessionBurn;
      var newRate := Max(energyBurn, OrElse(minimum, 0));
      var oldRate := if index == 0 then 0 else RateAt(generation, index - 1);
      generation := generation[index := SmoothValue(newRate, oldRate, factor)];
      sessionBurn := 0;
      if index >= sessionsPerEra + 1 {
        generation := generation - {index - (sessionsPerEra + 1)};
      }
    }

    /** The energy generated in an era, if its sessions are known. */
    method Calculate(range: Option<(nat, nat)>) returns (total: Option<nat>)
      ensures total == match range case Some(r) => Some(SumOf(generation, r.0, r.1)) case None => None
    {
      if range.None? {
        return None;
      }
      var (start, end) := range.value;
      var sum := 0;
      if start < end {
        for index := start to end
          invariant sum == SumOf(generation, start, index)
        {
          sum := sum + RateAt(generation, index);
        }
      }
      return Some(sum);
    }
  }

  // ---------- runs ----------

  datatype Op =
    | Burn(amount: nat)
    | SetOverride(forced: Option<nat>)
    | SetMinimum(minimum: Option<nat>)
    | SetFactor(value: nat)
    | NewSession

  function Genesis(burnOverride: Option<nat>): State { State(map[], 0, burnOverride, None, 1) }

  /** The pallet together with the rates of all sessions so far, none pruned. */
  datatype Trace = Trace(state: State, rates: seq<nat>)

  /** Sessions are numbered consecutively from zero. */
  ghost function Next(t: Trace, sessionsPerEra: nat, op: Op): Trace {
    match op
    case Burn(amount) => t.(state := t.state.(sessionBurn := t.state.sessionBurn + amount))
    case SetOverride(forced) => t.(state := t.state.(burnOverride := forced))
    case SetMinimum(minimum) => t.(state := t.state.(minimum := minimum))
    case SetFactor(value) => if value == 0 then t else t.(state := t.state.(factor := value))
    case NewSession =>
      var previous := if |t.rates| == 0 then 0 else t.rates[|t.rates| - 1];
      Trace(AfterSession(t.state, sessionsPerEra, |t.rates|),
            t.rates + [SmoothValue(NewRate(t.state), previous, t.state.factor)])
  }

  ghost function Run(burnOverride: Option<nat>, sessionsPerEra: nat, ops: seq<Op>): Trace {
    if |ops| == 0 then Trace(Genesis(burnOverride), [])
    else Next(Run(burnOverride, sessionsPerEra, ops[..|ops| - 1]), sessionsPerEra, ops[|ops| - 1])
  }

  /** What is stored is the last `sessionsPerEra + 1` rates of the unpruned history. */
  ghost predicate Windowed(t: Trace, sessionsPerEra: nat) {
    t.state.generation == map k: nat | SatSub(|t.rates|, sessionsPerEra + 1) <= k < |t.rates| :: t.rates[k]
  }

  lemma {:induction false} RunWindowed(burnOverride: Option<nat>, sessionsPerEra: nat, ops: seq<Op>)
    ensures Windowed(Run(burnOverride, sessionsPerEra, ops), sessionsPerEra)
  {
    if |ops| > 0 {
      hide Windowed, Next;
      var init := ops[..|ops| - 1];
      RunWindowed(burnOverride, sessionsPerEra, init);
      StepWindowed(Run(burnOverride, sessionsPerEra, init), sessionsPerEra, ops[|ops| - 1]);
    }
  }

  lemma StepWindowed(t: Trace, sessionsPerEra: nat, op: Op)
    requires Windowed(t, sessionsPerEra)
    ensures Windowed(Next(t, sessionsPerEra, op), sessionsPerEra)
  {
    hide SmoothValue;
    if op.NewSession? {
      var n := |t.rates|;
      assert n > 0 ==> RateAt(t.state.generation, n - 1) == t.rates[n - 1];
      assert forall k :: k in t.state.generation ==> k < n && t.state.generation[k] == t.rates[k];
    }
  }

  ghost function HistorySum(rates: seq<nat>, start: nat, end: nat): nat
    decreases end
  {
    if end <= start then 0
    else HistorySum(rates, start, end - 1) + if end - 1 < |rates| then rates[end - 1] else 0
  }

  lemma {:induction false} SumIsWindow(t: Trace, sessionsPerEra: nat, start: nat, end: nat)
    requires Windowed(t, sessionsPerEra)
    ensures SumOf(t.state.generation, start, end)
         == HistorySum(t.rates, Max(start, SatSub(|t.rates|, sessionsPerEra + 1)), end)
    decreases end
  {
    if end > start { SumIsWindow(t, sessionsPerEra, start, end - 1); }
  }

  lemma {:induction false} HistorySplit(rates: seq<nat>, start: nat, mid: nat, end: nat)
    requires start <= mid <= end
    ensures HistorySum(rates, start, end) == HistorySum(rates, start, mid) + HistorySum(rates, mid, end)
    decreases end
  {
    if mid < end { HistorySplit(rates, start, mid, end - 1); }
  }

  /** An era's sum is the sum over the unpruned history exactly when the pruned
      sessions of the era generated nothing; in particular whenever the era's first
      session is among the last `sessionsPerEra + 1`. */
  lemma EraSumSurvivesPruning(burnOverride: Option<nat>, sessionsPerEra: nat, ops: seq<Op>, start: nat, end: nat)
    requires start <= end
    ensures var t := Run(burnOverride, sessionsPerEra, ops);
      var kept := Min(end, Max(start, SatSub(|t.rates|, sessionsPerEra + 1)));
      && (SumOf(t.state.generation, start, end) == HistorySum(t.rates, start, end) <==>
            HistorySum(t.rates, start, kept) == 0)
      && (|t.rates| <= start + sessionsPerEra + 1 ==>
            SumOf(t.state.generation, start, end) == HistorySum(t.rates, start, end))
  {
    hide Run;
    var t := Run(burnOverride, sessionsPerEra, ops);
    RunWindowed(burnOverride, sessionsPerEra, ops);
    SumIsWindow(t, sessionsPerEra, start, end);
    HistorySplit(t.rates, start, Min(end, Max(start, SatSub(|t.rates|, sessionsPerEra + 1))), end);
  }

  /** An era of at most `sessionsPerEra` sessions is summed in full at its last session and at the one after it. */
  lemma EraSumAtItsEnd(burnOverride: Option<nat>, sessionsPerEra: nat, ops: seq<Op>, start: nat, end: nat)
    requires start <= end <= start + sessionsPerEra
    requires |Run(burnOverride, sessionsPerEra, ops).rates| in {end, end + 1}
    ensures var t := Run(burnOverride, sessionsPerEra, ops);
      SumOf(t.state.generation, start, end) == HistorySum(t.rates, start, end)
  {
    EraSumSurvivesPruning(burnOverride, sessionsPerEra, ops, start, end);
  }

  // ---------- a steady input ----------

  lemma RunSnoc(burnOverride: Option<nat>, sessionsPerEra: nat, ops: seq<Op>, op: Op)
    ensures Run(burnOverride, sessionsPerEra, ops + [op])
         == Next(Run(burnOverride, sessionsPerEra, ops), sessionsPerEra, op)
  {
    assert (ops + [op])[..|ops|] == ops;
  }

  /** The rate of the last session, or none before the first. */
  ghost function LastRate(t: Trace): nat { if |t.rates| == 0 then 0 else t.rates[|t.rates| - 1] }

  /** How many sessions start. */
  ghost function Sessions(ops: seq<Op>): nat {
    if |ops| == 0 then 0 else Sessions(ops[..|ops| - 1]) + if ops[|ops| - 1].NewSession? then 1 else 0
  }

  /** Every session started by `more` after `ops` smooths the same input with the same factor, however that
      comes about. */
  ghost predicate Steady(burnOverride: Option<nat>, sessionsPerEra: nat, ops: seq<Op>, more: seq<Op>, rate: nat,
                         factor: nat)
  {
    |more| == 0
    || var init, s := more[..|more| - 1], Run(burnOverride, sessionsPerEra, ops + more[..|more| - 1]).state;
       && Steady(burnOverride, sessionsPerEra, ops, init, rate, factor)
       && (more[|more| - 1].NewSession? ==> NewRate(s) == rate && s.factor == factor)
  }

  /** Under a steady input the rate approaches it: after `n` more sessions the distance has shrunk by
      the n-th power of the kept part, up to the inverse of the weight. */
  lemma {:induction false} SteadyInputConverges(burnOverride: Option<nat>, sessionsPerEra: nat, ops: seq<Op>,
                                                more: seq<Op>, rate: nat, factor: nat)
    requires Weight(factor) > 0 && Steady(burnOverride, sessionsPerEra, ops, more, rate, factor)
    ensures var t, t' := Run(burnOverride, sessionsPerEra, ops), Run(burnOverride, sessionsPerEra, ops + more);
      && |t'.rates| == |t.rates| + Sessions(more)
      && Distance(LastRate(t'), rate) as real - Slack(factor)
           <= Pow(Kept(factor), Sessions(more)) * (Distance(LastRate(t), rate) as real - Slack(factor))
  {
    hide SmoothValue, Weight, Slack, Kept, Run, Distance;
    var t := Run(burnOverride, sessionsPerEra, ops);
    if |more| == 0 {
      assert ops + more == ops;
    } else {
      var init, last := more[..|more| - 1], more[|more| - 1];
      SteadyInputConverges(burnOverride, sessionsPerEra, ops, init, rate, factor);
      RunSnoc(burnOverride, sessionsPerEra, ops + init, last);
      assert ops + more == ops + init + [last];
      if last.NewSession? {
        var u := Run(burnOverride, sessionsPerEra, ops + init);
        ContractsReal(rate, LastRate(u), factor);
        KeptBounds(factor);
        ShrinkStep(Kept(factor), Sessions(more), Distance(LastRate(u), rate) as real - Slack(factor),
                   Distance(LastRate(t), rate) as real - Slack(factor));
      }
    }
  }

  lemma KeptBounds(factor: nat)
    ensures 0.0 <= Kept(factor) <= 1.0
  {
    hide Weight;
  }

  lemma ShrinkStep(q: real, n: nat, d: real, d0: real)
    requires n > 0 && 0.0 <= q && d <= Pow(q, n - 1) * d0
    ensures q * d <= Pow(q, n) * d0
  {
    assert q * d <= q * (Pow(q, n - 1) * d0);
    assert q * (Pow(q, n - 1) * d0) == (q * Pow(q, n - 1)) * d0;
  }

  /** In plain terms: at most the shrunken initial distance plus the inverse of the weight. */
  lemma SteadyInputDistance(burnOverride: Option<nat>, sessionsPerEra: nat, ops: seq<Op>, more: seq<Op>, rate: nat,
                            factor: nat)
    requires Weight(factor) > 0 && Steady(burnOverride, sessionsPerEra, ops, more, rate, factor)
    ensures var t, t' := Run(burnOverride, sessionsPerEra, ops), Run(burnOverride, sessionsPerEra, ops + more);
      && |t'.rates| == |t.rates| + Sessions(more)
      && Distance(LastRate(t'), rate) as real
           <= Pow(Kept(factor), Sessions(more)) * Distance(LastRate(t), rate) as real + Slack(factor)
  {
    hide SmoothValue, Weight, Kept, Run, Distance, Steady, LastRate, Sessions;
    SteadyInputConverges(burnOverride, sessionsPerEra, ops, more, rate, factor);
    KeptBounds(factor);
    var n, d0 := Sessions(more), Distance(LastRate(Run(burnOverride, sessionsPerEra, ops)), rate) as real;
    PowBounds(Kept(factor), n);
    DistributeSlack(Pow(Kept(factor), n), d0, Slack(factor));
  }

  lemma DistributeSlack(p: real, d: real, slack: real)
    requires p >= 0.0 && slack >= 0.0
    ensures p * (d - slack) <= p * d
  {
    assert p * (d - slack) == p * d - p * slack;
    NonNegative(p, slack);
  }

  /** `sessions` sessions in which the same amount is burned. */
  ghost function SteadySessions(amount: nat, sessions: nat): seq<Op> {
    if sessions == 0 then [] else SteadySessions(amount, sessions - 1) + [Burn(amount), NewSession]
  }

  /** Without an override, sessions in which the same amount is burned smooth that amount, or the minimum above it. */
  lemma {:induction false} SteadyBurnIsSteady(burnOverride: Option<nat>, sessionsPerEra: nat, ops: seq<Op>, amount: nat,
                                              n: nat)
    requires var s := Run(burnOverride, sessionsPerEra, ops).state; s.sessionBurn == 0 && s.burnOverride.None?
    ensures var s, more := Run(burnOverride, sessionsPerEra, ops).state, SteadySessions(amount, n);
      var s' := Run(burnOverride, sessionsPerEra, ops + more).state;
      && Steady(burnOverride, sessionsPerEra, ops, more, Max(amount, OrElse(s.minimum, 0)), s.factor)
      && Sessions(more) == n
      && s'.sessionBurn == 0 && s'.burnOverride.None? && s'.minimum == s.minimum && s'.factor == s.factor
  {
    hide SmoothValue, Run;
    if n == 0 {
      assert ops + [] == ops;
    } else {
      SteadyBurnIsSteady(burnOverride, sessionsPerEra, ops, amount, n - 1);
      var before, burnt, more := SteadySessions(amount, n - 1), SteadySessions(amount, n - 1) + [Burn(amount)],
                                 SteadySessions(amount, n);
      RunSnoc(burnOverride, sessionsPerEra, ops + before, Burn(amount));
      RunSnoc(burnOverride, sessionsPerEra, ops + burnt, NewSession);
      assert ops + burnt == ops + before + [Burn(amount)];
      assert more == burnt + [NewSession];
      assert ops + more == ops + burnt + [NewSession];
      assert more[..|more| - 1] == burnt && burnt[..|burnt| - 1] == before;
    }
  }

  /** The distance under a steady burn. */
  lemma SteadyBurnDistance(burnOverride: Option<nat>, sessionsPerEra: nat, ops: seq<Op>, amount: nat, n: nat)
    requires var s := Run(burnOverride, sessionsPerEra, ops).state;
      Weight(s.factor) > 0 && s.sessionBurn == 0 && s.burnOverride.None?
    ensures var t := Run(burnOverride, sessionsPerEra, ops);
      var t' := Run(burnOverride, sessionsPerEra, ops + SteadySessions(amount, n));
      var f, rate := t.state.factor, Max(amount, OrElse(t.state.minimum, 0));
      && |t'.rates| == |t.rates| + n
      && Distance(LastRate(t'), rate) as real <= Pow(Kept(f), n) * Distance(LastRate(t), rate) as real + Slack(f)
  {
    hide SmoothValue, Weight, Kept, Run, Distance, Steady, LastRate, Sessions, Slack, SteadySessions;
    var s := Run(burnOverride, sessionsPerEra, ops).state;
    SteadyBurnIsSteady(burnOverride, sessionsPerEra, ops, amount, n);
    SteadyInputDistance(burnOverride, sessionsPerEra, ops, SteadySessions(amount, n), Max(amount, OrElse(s.minimum, 0)),
                        s.factor);
  }

  /** Only burns and sessions. */
  ghost predicate OnlyBurnsAndSessions(ops: seq<Op>) {
    forall k :: 0 <= k < |ops| ==> ops[k].Burn? || ops[k].NewSession?
  }

  /** With an override, as at genesis, every session smooths it, or the minimum above it, whatever is burned. */
  lemma {:induction false} OverrideIsSteady(burnOverride: Option<nat>, sessionsPerEra: nat, ops: seq<Op>, more: seq<Op>)
    requires Run(burnOverride, sessionsPerEra, ops).state.burnOverride.Some? && OnlyBurnsAndSessions(more)
    ensures var s := Run(burnOverride, sessionsPerEra, ops).state;
      var s' := Run(burnOverride, sessionsPerEra, ops + more).state;
      && Steady(burnOverride, sessionsPerEra, ops, more, NewRate(s), s.factor)
      && s'.burnOverride == s.burnOverride && s'.minimum == s.minimum && s'.factor == s.factor
  {
    hide SmoothValue, Run;
    if |more| == 0 {
      assert ops + more == ops;
    } else {
      var init, last := more[..|more| - 1], more[|more| - 1];
      OverrideIsSteady(burnOverride, sessionsPerEra, ops, init);
      RunSnoc(burnOverride, sessionsPerEra, ops + init, last);
      assert ops + more == ops + init + [last];
    }
  }
}
