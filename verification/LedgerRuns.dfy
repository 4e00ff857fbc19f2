/** What the ledger's operations keep over any sequence of them, what rebonding
    moves, what the slashing listeners are told, and when a slash can exceed
    the request. */
module LedgerRuns {
  import opened Arithmetic
  import opened Staking
  import opened LedgerLaws

  // ---------- never more than asked ----------

  /** The documented promise that a slash never takes more than the given amount. */
  ghost predicate NeverMoreThanAsked(minimumBalance: nat) {
    forall ledger: Ledger, bonding: nat, amount: nat, slashEra: nat :: Consistent(ledger) ==>
      Slashed(ledger, bonding, amount, minimumBalance, slashEra).slashed <= amount
  }

  /** The promise holds for every ledger exactly when no positive balance is dust. */
  lemma NeverMoreThanAskedExactly(minimumBalance: nat)
    ensures NeverMoreThanAsked(minimumBalance) <==> minimumBalance <= 1
  {
    if minimumBalance <= 1 {
      forall ledger: Ledger, bonding: nat, amount: nat, slashEra: nat | Consistent(ledger)
        ensures Slashed(ledger, bonding, amount, minimumBalance, slashEra).slashed <= amount
      {
        if amount > 0 { SlashBounds(ledger, bonding, amount, minimumBalance, slashEra); }
      }
    } else {
      var ledger := Ledger(minimumBalance, minimumBalance, []);
      assert Slashed(ledger, 0, 1, minimumBalance, 0).slashed == minimumBalance;
    }
  }

  /** One piece loses more than what remains to be slashed exactly when it holds
      more than that and the rest of it would be dust. */
  lemma PieceOvershootsExactly(target: nat, remaining: nat, ratio: Option<nat>, minimumBalance: nat)
    ensures Taken(target, remaining, ratio, minimumBalance) > remaining
       <==> target > remaining && target - Asked(target, remaining, ratio) < minimumBalance
  {}

  // ---------- what the listeners are told ----------

  ghost predicate ReportAgrees(w: Walk) {
    forall i :: 0 <= i < |w.chunks| && w.chunks[i].era in w.report ==> w.report[w.chunks[i].era] == w.chunks[i].value
  }

  lemma {:induction false} LoopReports(w: Walk, order: seq<nat>, ratio: Option<nat>, minimumBalance: nat)
    requires Indices(order, |w.chunks|) && EraOrdered(w.chunks) && ReportAgrees(w)
    ensures var r := SlashChunks(w, order, ratio, minimumBalance);
      && ReportAgrees(r)
      && w.report.Keys <= r.report.Keys
      && (forall i :: 0 <= i < |w.chunks| ==>
            r.chunks[i].era == w.chunks[i].era && (r.chunks[i] == w.chunks[i] || w.chunks[i].era in r.report))
      && (forall era :: era in r.report ==>
            era in w.report || exists i :: 0 <= i < |w.chunks| && w.chunks[i].era == era)
    decreases |order|
  {
    if |order| > 0 && w.remaining > 0 {
      var w' := SlashChunk(w, order[0], ratio, minimumBalance);
      assert w'.chunks[order[0]].era == w.chunks[order[0]].era;
      LoopReports(w', order[1..], ratio, minimumBalance);
    }
  }

  /** The listeners get the new value of every chunk that changed, and only values of chunks of the ledger. */
  lemma ReportIsExact(ledger: Ledger, bonding: nat, amount: nat, minimumBalance: nat, slashEra: nat)
    requires EraOrdered(ledger.unlocking) && amount > 0
    ensures var r := Slashed(ledger, bonding, amount, minimumBalance, slashEra);
      var after := SlashedChunks(ledger, bonding, amount, minimumBalance, slashEra).chunks;
      && (forall i :: 0 <= i < |after| ==>
            if after[i].era in r.report then r.report[after[i].era] == after[i].value
            else after[i] == ledger.unlocking[i])
      && (forall era :: era in r.report ==> exists i :: 0 <= i < |after| && after[i].era == era)
  {
    var first := FirstSlashable(ledger.unlocking, slashEra + bonding);
    var ratio := Proportion(ledger, first, amount);
    PriorityIndices(first, |ledger.unlocking|);
    LoopReports(Walk(ledger.unlocking, SatSub(amount, Taken(ledger.active, amount, ratio, minimumBalance)), map[]),
                Priority(first, |ledger.unlocking|), ratio, minimumBalance);
  }

  // ---------- rebonding ----------

  /** Exactly the smaller of the request and the unlocking balance is moved. */
  lemma {:induction false} RebondMoves(chunks: seq<UnlockChunk>, value: nat)
    ensures var (rest, moved) := TakeFromBack(chunks, value);
      moved == Min(value, Sum(chunks)) && Sum(rest) == Sum(chunks) - moved
  {
    if |chunks| > 0 {
      var init, last := chunks[..|chunks| - 1], chunks[|chunks| - 1];
      if value < last.value {
        SumSnoc(init, last.(value := last.value - value));
      } else if value > last.value {
        RebondMoves(init, value - last.value);
      }
    }
  }

  /** It comes from the newest chunks: what is left is a prefix whose last chunk may be smaller. */
  lemma {:induction false} RebondTakesNewest(chunks: seq<UnlockChunk>, value: nat)
    ensures var rest := TakeFromBack(chunks, value).0;
      && |rest| <= |chunks|
      && (forall i :: 0 <= i < |rest| - 1 ==> rest[i] == chunks[i])
      && (|rest| > 0 ==> var k := |rest| - 1;
            && rest[k].era == chunks[k].era
            && rest[k].value <= chunks[k].value
            && (NoEmptyChunk(chunks) ==> rest[k].value > 0))
  {
    if |chunks| > 0 {
      var init, last := chunks[..|chunks| - 1], chunks[|chunks| - 1];
      if value > last.value { RebondTakesNewest(init, value - last.value); }
    }
  }

  /** Rebonding twice is rebonding once for the sum. */
  lemma {:induction false} RebondComposes(chunks: seq<UnlockChunk>, a: nat, b: nat)
    requires NoEmptyChunk(chunks)
    ensures var (once, movedA) := TakeFromBack(chunks, a);
      var (twice, movedB) := TakeFromBack(once, b);
      TakeFromBack(chunks, a + b) == (twice, movedA + movedB)
  {
    if |chunks| > 0 {
      var init, last := chunks[..|chunks| - 1], chunks[|chunks| - 1];
      if a < last.value {
        var shrunk := init + [last.(value := last.value - a)];
        assert shrunk[..|shrunk| - 1] == init;
      } else if a == last.value {
        if b == 0 { RebondNothing(init); }
      } else {
        RebondComposes(init, a - last.value, b);
      }
    }
  }

  lemma RebondNothing(chunks: seq<UnlockChunk>)
    requires NoEmptyChunk(chunks)
    ensures TakeFromBack(chunks, 0) == (chunks, 0)
  {
    if |chunks| > 0 {
      var init, last := chunks[..|chunks| - 1], chunks[|chunks| - 1];
      assert chunks == init + [last];
    }
  }

  lemma LedgerRebondComposes(ledger: Ledger, a: nat, b: nat)
    requires Valid(ledger)
    ensures Rebonded(Rebonded(ledger, a), b) == Rebonded(ledger, a + b)
  {
    RebondComposes(ledger.unlocking, a, b);
  }

  // ---------- withdrawing ----------

  /** In an ordered ledger the withdrawn chunks are the oldest ones: those before some cut. */
  lemma {:induction false} WithdrawsOldest(chunks: seq<UnlockChunk>, era: nat) returns (cut: nat)
    requires EraOrdered(chunks)
    ensures cut <= |chunks| && StillLocked(chunks, era) == chunks[cut..]
    ensures forall i :: 0 <= i < |chunks| ==> (i < cut <==> chunks[i].era <= era)
  {
    hide EraOrdered, StillLocked;
    if |chunks| == 0 {
      cut := 0;
      NoneLocked(chunks, era);
    } else {
      var init, last := chunks[..|chunks| - 1], chunks[|chunks| - 1];
      OrderedInit(chunks);
      if last.era <= era {
        NoneLocked(chunks, era);
        cut := |chunks|;
      } else {
        cut := WithdrawsOldest(init, era);
        LastLocked(chunks, era);
        DropSnoc(chunks, cut);
        forall i | 0 <= i < |chunks| ensures i < cut <==> chunks[i].era <= era {
          if i < |init| { assert init[i] == chunks[i]; }
        }
      }
    }
  }

  lemma OrderedInit(chunks: seq<UnlockChunk>)
    requires EraOrdered(chunks) && |chunks| > 0
    ensures EraOrdered(chunks[..|chunks| - 1])
    ensures forall i :: 0 <= i < |chunks| ==> chunks[i].era <= chunks[|chunks| - 1].era
  {}

  lemma LastLocked(chunks: seq<UnlockChunk>, era: nat)
    requires |chunks| > 0 && chunks[|chunks| - 1].era > era
    ensures StillLocked(chunks, era) == StillLocked(chunks[..|chunks| - 1], era) + [chunks[|chunks| - 1]]
  {}

  lemma DropSnoc<T>(s: seq<T>, cut: nat)
    requires cut < |s|
    ensures s[cut..] == s[..|s| - 1][cut..] + [s[|s| - 1]]
  {}

  lemma {:induction false} NoneLocked(chunks: seq<UnlockChunk>, era: nat)
    requires forall i :: 0 <= i < |chunks| ==> chunks[i].era <= era
    ensures StillLocked(chunks, era) == []
  {
    if |chunks| > 0 { NoneLocked(chunks[..|chunks| - 1], era); }
  }

  // ---------- subsequences ----------

  lemma {:induction false} NonZeroKeeps(chunks: seq<UnlockChunk>)
    ensures NoEmptyChunk(NonZero(chunks))
    ensures forall c :: c in NonZero(chunks) ==> c in chunks
    ensures EraOrdered(chunks) ==> EraOrdered(NonZero(chunks))
  {
    if |chunks| > 0 {
      var init, last := chunks[..|chunks| - 1], chunks[|chunks| - 1];
      NonZeroKeeps(init);
      var kept := NonZero(init);
      forall i | 0 <= i < |kept| && EraOrdered(chunks) ensures kept[i].era < last.era {
        assert kept[i] in kept;
        assert kept[i] in init;
      }
    }
  }

  // ---------- runs ----------

  datatype Op =
    | Rebond(value: nat)
    | Withdraw(era: nat)
    | Slash(amount: nat, minimumBalance: nat, slashEra: nat)

  /** The ledger with what has left it so far. */
  datatype Account = Account(ledger: Ledger, withdrawn: nat, slashed: nat)

  ghost function Step(account: Account, bonding: nat, op: Op): Account {
    match op
    case Rebond(value) => account.(ledger := Rebonded(account.ledger, value))
    case Withdraw(era) =>
      var ledger := Consolidated(account.ledger, era);
      account.(ledger := ledger, withdrawn := account.withdrawn + SatSub(account.ledger.total, ledger.total))
    case Slash(amount, minimumBalance, slashEra) =>
      var r := Slashed(account.ledger, bonding, amount, minimumBalance, slashEra);
      account.(ledger := r.ledger, slashed := account.slashed + r.slashed)
  }

  ghost function Run(account: Account, bonding: nat, ops: seq<Op>): Account
    decreases |ops|
  {
    if |ops| == 0 then account else Run(Step(account, bonding, ops[0]), bonding, ops[1..])
  }

  lemma SlashKeepsValid(ledger: Ledger, bonding: nat, amount: nat, minimumBalance: nat, slashEra: nat)
    requires Valid(ledger)
    ensures var r := Slashed(ledger, bonding, amount, minimumBalance, slashEra);
      Valid(r.ledger) && r.ledger.total + r.slashed == ledger.total
  {
    if amount > 0 {
      var first := FirstSlashable(ledger.unlocking, slashEra + bonding);
      var ratio := Proportion(ledger, first, amount);
      SlashBounds(ledger, bonding, amount, minimumBalance, slashEra);
      PriorityIndices(first, |ledger.unlocking|);
      LoopKeepsEras(Walk(ledger.unlocking, SatSub(amount, Taken(ledger.active, amount, ratio, minimumBalance)), map[]),
                    Priority(first, |ledger.unlocking|), ratio, minimumBalance);
      NonZeroKeeps(SlashedChunks(ledger, bonding, amount, minimumBalance, slashEra).chunks);
    }
  }

  lemma RebondKeepsValid(ledger: Ledger, value: nat)
    requires Valid(ledger)
    ensures Valid(Rebonded(ledger, value))
  {
    RebondMoves(ledger.unlocking, value);
    RebondTakesNewest(ledger.unlocking, value);
  }

  lemma WithdrawKeepsValid(ledger: Ledger, era: nat)
    requires Valid(ledger)
    ensures Valid(Consolidated(ledger, era)) && Consolidated(ledger, era).total <= ledger.total
  {
    var cut := WithdrawsOldest(ledger.unlocking, era);
  }

  lemma StepKeeps(account: Account, bonding: nat, op: Op)
    requires Valid(account.ledger)
    ensures var next := Step(account, bonding, op);
      && Valid(next.ledger)
      && next.ledger.total + next.withdrawn + next.slashed
           == account.ledger.total + account.withdrawn + account.slashed
  {
    hide Valid, Slashed;
    match op
    case Rebond(value) => RebondKeepsValid(account.ledger, value);
    case Withdraw(era) => WithdrawKeepsValid(account.ledger, era);
    case Slash(amount, minimumBalance, slashEra) =>
      SlashKeepsValid(account.ledger, bonding, amount, minimumBalance, slashEra);
  }

  /** Over any run the ledger stays consistent, ordered and free of empty chunks,
      and its total drops by exactly what was withdrawn and slashed. */
  lemma {:induction false} RunKeeps(account: Account, bonding: nat, ops: seq<Op>)
    requires Valid(account.ledger)
    ensures var end := Run(account, bonding, ops);
      && Valid(end.ledger)
      && end.ledger.total + end.withdrawn + end.slashed
           == account.ledger.total + account.withdrawn + account.slashed
    decreases |ops|
  {
    if |ops| > 0 {
      StepKeeps(account, bonding, ops[0]);
      RunKeeps(Step(account, bonding, ops[0]), bonding, ops[1..]);
    }
  }
}
