/** Laws of one slash of the staking ledger: how much it takes, from where, and
    in what order. */
module LedgerLaws {
  import opened Accounts
  import opened Arithmetic
  import opened Staking

  ghost predicate Consistent(ledger: Ledger) { ledger.total == ledger.active + Sum(ledger.unlocking) }

  ghost predicate NoEmptyChunk(chunks: seq<UnlockChunk>) { forall i :: 0 <= i < |chunks| ==> chunks[i].value > 0 }

  ghost predicate EraOrdered(chunks: seq<UnlockChunk>) {
    forall i, j :: 0 <= i < j < |chunks| ==> chunks[i].era < chunks[j].era
  }

  ghost predicate Valid(ledger: Ledger) {
    Consistent(ledger) && NoEmptyChunk(ledger.unlocking) && EraOrdered(ledger.unlocking)
  }

  // ---------- sums ----------

  lemma {:induction false} SumConcat(a: seq<UnlockChunk>, b: seq<UnlockChunk>)
    ensures Sum(a + b) == Sum(a) + Sum(b)
  {
    if b == [] {
      assert a + b == a;
    } else {
      var init, last := b[..|b| - 1], b[|b| - 1];
      SumConcat(a, init);
      assert (a + b)[..|a + b| - 1] == a + init;
    }
  }

  ghost predicate Indices(order: seq<nat>, count: nat) {
    Distinct(order) && forall k :: 0 <= k < |order| ==> order[k] < count
  }

  /** What the chunks at the given indices hold. */
  ghost function SumAt(chunks: seq<UnlockChunk>, order: seq<nat>): nat
    requires forall k :: 0 <= k < |order| ==> order[k] < |chunks|
  {
    if |order| == 0 then 0 else chunks[order[0]].value + SumAt(chunks, order[1..])
  }

  lemma {:induction false} SumAtConcat(chunks: seq<UnlockChunk>, a: seq<nat>, b: seq<nat>)
    requires forall k :: 0 <= k < |a| ==> a[k] < |chunks|
    requires forall k :: 0 <= k < |b| ==> b[k] < |chunks|
    ensures SumAt(chunks, a + b) == SumAt(chunks, a) + SumAt(chunks, b)
  {
    if |a| == 0 {
      assert a + b == b;
    } else {
      SumAtConcat(chunks, a[1..], b);
      assert (a + b)[1..] == a[1..] + b;
    }
  }

  lemma {:induction false} SumAtUp(chunks: seq<UnlockChunk>, first: nat)
    requires first <= |chunks|
    ensures SumAt(chunks, Up(first, |chunks|)) == Sum(chunks[first..])
    decreases |chunks| - first
  {
    if first < |chunks| {
      SumAtUp(chunks, first + 1);
      assert Up(first, |chunks|)[1..] == Up(first + 1, |chunks|);
      assert chunks[first..] == [chunks[first]] + chunks[first + 1..];
      SumConcat([chunks[first]], chunks[first + 1..]);
    }
  }

  lemma {:induction false} SumAtDown(chunks: seq<UnlockChunk>, first: nat)
    requires first <= |chunks|
    ensures SumAt(chunks, Down(first)) == Sum(chunks[..first])
  {
    if first > 0 {
      SumAtDown(chunks, first - 1);
      assert Down(first)[1..] == Down(first - 1);
      assert chunks[..first][..first - 1] == chunks[..first - 1];
    }
  }

  lemma SumSplit(chunks: seq<UnlockChunk>, first: nat)
    requires first <= |chunks|
    ensures Sum(chunks) == Sum(chunks[..first]) + Sum(chunks[first..])
  {
    assert chunks == chunks[..first] + chunks[first..];
    SumConcat(chunks[..first], chunks[first..]);
  }

  lemma PriorityIndices(first: nat, count: nat)
    requires first <= count
    ensures Indices(Priority(first, count), count) && Indices(Up(first, count), count)
  {
    var order, up := Priority(first, count), Up(first, count);
    forall j, k | 0 <= j < k < |order| ensures order[j] != order[k] {
      assert order[j] == if j < |up| then first + j else first - 1 - (j - |up|);
      assert order[k] == if k < |up| then first + k else first - 1 - (k - |up|);
    }
  }

  /** The slashing order visits every chunk once. */
  lemma PriorityCoversAll(chunks: seq<UnlockChunk>, first: nat)
    requires first <= |chunks|
    ensures Indices(Priority(first, |chunks|), |chunks|)
    ensures SumAt(chunks, Priority(first, |chunks|)) == Sum(chunks)
  {
    PriorityIndices(first, |chunks|);
    SumAtUp(chunks, first);
    SumAtDown(chunks, first);
    SumAtConcat(chunks, Up(first, |chunks|), Down(first));
    SumSplit(chunks, first);
  }

  // ---------- one piece ----------

  /** The proportion in parts per quintillion; a slash without one asks for everything. */
  ghost function Parts(ratio: Option<nat>): nat { if ratio.Some? then ratio.value else QUINTILLION }

  ghost function Overshoot(minimumBalance: nat): nat { Max(minimumBalance, 1) - 1 }

  /** The shares of the given chunks, each rounded up on its own. */
  ghost function ShareSum(chunks: seq<UnlockChunk>, order: seq<nat>, parts: nat): nat
    requires forall k :: 0 <= k < |order| ==> order[k] < |chunks|
  {
    if |order| == 0 then 0 else MulCeil(parts, chunks[order[0]].value) + ShareSum(chunks, order[1..], parts)
  }

  /** A sum of ceilings covers the ceiling of the sum. */
  lemma {:induction false} SharesCover(chunks: seq<UnlockChunk>, order: seq<nat>, parts: nat)
    requires forall k :: 0 <= k < |order| ==> order[k] < |chunks|
    ensures ShareSum(chunks, order, parts) >= MulCeil(parts, SumAt(chunks, order))
  {
    if |order| > 0 {
      SharesCover(chunks, order[1..], parts);
      MulCeilSplit(parts, chunks[order[0]].value, SumAt(chunks, order[1..]));
    }
  }

  lemma {:induction false} ShareSumAgrees(a: seq<UnlockChunk>, b: seq<UnlockChunk>, order: seq<nat>, parts: nat)
    requires forall k :: 0 <= k < |order| ==> order[k] < |a| && order[k] < |b| && a[order[k]] == b[order[k]]
    ensures ShareSum(a, order, parts) == ShareSum(b, order, parts)
  {
    if |order| > 0 { ShareSumAgrees(a, b, order[1..], parts); }
  }

  lemma CeilAtMost(parts: nat, n: nat)
    requires parts <= QUINTILLION
    ensures MulCeil(parts, n) <= n
  {
    MulCeilMono(parts, QUINTILLION, n, n);
    MulCeilWhole(n);
  }

  lemma PieceBounds(target: nat, remaining: nat, ratio: Option<nat>, minimumBalance: nat)
    requires remaining > 0 && Parts(ratio) <= QUINTILLION
    ensures var t, share := Taken(target, remaining, ratio, minimumBalance), MulCeil(Parts(ratio), target);
      && t <= remaining + Overshoot(minimumBalance)
      && (t >= remaining || t >= share)
      && (t <= share || (t == target && target < share + minimumBalance))
  {
    CeilAtMost(Parts(ratio), target);
    MulCeilWhole(target);
  }

  // ---------- the loop over the chunks ----------

  lemma {:induction false} LoopKeepsEras(w: Walk, order: seq<nat>, ratio: Option<nat>, minimumBalance: nat)
    requires forall k :: 0 <= k < |order| ==> order[k] < |w.chunks|
    ensures var r := SlashChunks(w, order, ratio, minimumBalance);
      && |r.chunks| == |w.chunks|
      && (forall i :: 0 <= i < |w.chunks| ==> r.chunks[i].era == w.chunks[i].era)
      && (forall i :: 0 <= i < |w.chunks| && i !in order ==> r.chunks[i] == w.chunks[i])
    decreases |order|
  {
    if |order| > 0 && w.remaining > 0 {
      LoopKeepsEras(SlashChunk(w, order[0], ratio, minimumBalance), order[1..], ratio, minimumBalance);
    }
  }

  /** The chunks lose exactly what is charged, at most one dust remainder more than asked. */
  lemma {:induction false} LoopCharges(w: Walk, order: seq<nat>, ratio: Option<nat>, minimumBalance: nat)
    requires Indices(order, |w.chunks|) && Parts(ratio) <= QUINTILLION
    ensures var r := SlashChunks(w, order, ratio, minimumBalance);
      && Sum(r.chunks) <= Sum(w.chunks)
      && r.remaining == SatSub(w.remaining, Sum(w.chunks) - Sum(r.chunks))
      && (w.remaining == 0 ==> r == w)
      && Sum(w.chunks) - Sum(r.chunks) <= w.remaining + Overshoot(minimumBalance)
    decreases |order|
  {
    if |order| > 0 && w.remaining > 0 {
      var i := order[0];
      var chunk := w.chunks[i];
      var t := Taken(chunk.value, w.remaining, ratio, minimumBalance);
      PieceBounds(chunk.value, w.remaining, ratio, minimumBalance);
      SumUpdate(w.chunks, i, chunk.value - t);
      LoopCharges(SlashChunk(w, i, ratio, minimumBalance), order[1..], ratio, minimumBalance);
    }
  }

  /** The chunks lose their shares, unless the request is met before. */
  lemma {:induction false} LoopTakesShares(w: Walk, order: seq<nat>, ratio: Option<nat>, minimumBalance: nat)
    requires Indices(order, |w.chunks|) && Parts(ratio) <= QUINTILLION
    ensures var t := Sum(w.chunks) - Sum(SlashChunks(w, order, ratio, minimumBalance).chunks);
      t >= w.remaining || t >= ShareSum(w.chunks, order, Parts(ratio))
    decreases |order|
  {
    if |order| > 0 && w.remaining > 0 {
      var i := order[0];
      var chunk := w.chunks[i];
      var w' := SlashChunk(w, i, ratio, minimumBalance);
      PieceBounds(chunk.value, w.remaining, ratio, minimumBalance);
      SumUpdate(w.chunks, i, w'.chunks[i].value);
      LoopCharges(w', order[1..], ratio, minimumBalance);
      LoopTakesShares(w', order[1..], ratio, minimumBalance);
      ShareSumAgrees(w'.chunks, w.chunks, order[1..], Parts(ratio));
    }
  }

  lemma {:induction false} LoopSplit(w: Walk, a: seq<nat>, b: seq<nat>, ratio: Option<nat>, minimumBalance: nat)
    requires forall k :: 0 <= k < |a| ==> a[k] < |w.chunks|
    requires forall k :: 0 <= k < |b| ==> b[k] < |w.chunks|
    ensures SlashChunks(w, a + b, ratio, minimumBalance)
         == SlashChunks(SlashChunks(w, a, ratio, minimumBalance), b, ratio, minimumBalance)
    decreases |a|
  {
    if |a| == 0 {
      assert a + b == b;
    } else if w.remaining > 0 {
      LoopSplit(SlashChunk(w, a[0], ratio, minimumBalance), a[1..], b, ratio, minimumBalance);
      assert (a + b)[1..] == a[1..] + b;
    }
  }

  /** The loop visits a prefix of the order: every visited chunk but the last loses at
      least its share, and the chunks after the prefix are untouched. */
  lemma {:induction false} LoopVisitsPrefix(w: Walk, order: seq<nat>, ratio: Option<nat>, minimumBalance: nat)
    returns (visited: nat)
    requires Indices(order, |w.chunks|) && Parts(ratio) <= QUINTILLION
    ensures var r := SlashChunks(w, order, ratio, minimumBalance);
      && visited <= |order|
      && (visited > 0 <==> w.remaining > 0 && |order| > 0)
      && (visited < |order| ==> r.remaining == 0)
      && (forall k :: 0 <= k < |order| && (k + 1 < visited || r.remaining > 0) ==>
            w.chunks[order[k]].value - r.chunks[order[k]].value >= MulCeil(Parts(ratio), w.chunks[order[k]].value))
      && (forall k :: visited <= k < |order| ==> r.chunks[order[k]] == w.chunks[order[k]])
    decreases |order|
  {
    if |order| == 0 || w.remaining == 0 {
      visited := 0;
    } else {
      var i := order[0];
      var w' := SlashChunk(w, i, ratio, minimumBalance);
      PieceBounds(w.chunks[i].value, w.remaining, ratio, minimumBalance);
      var rest := LoopVisitsPrefix(w', order[1..], ratio, minimumBalance);
      visited := rest + 1;
      hide MulCeil, Taken;
      LoopKeepsEras(w', order[1..], ratio, minimumBalance);
      LoopCharges(w', order[1..], ratio, minimumBalance);
      var r := SlashChunks(w, order, ratio, minimumBalance);
      assert r == SlashChunks(w', order[1..], ratio, minimumBalance);
      assert r.chunks[i] == w'.chunks[i];
      forall k | 0 < k < |order|
        ensures w'.chunks[order[k]] == w.chunks[order[k]] && order[k] == order[1..][k - 1] {}
    }
  }

  /** A piece loses at most its proportion, rounded up, unless the rest of it was dust. */
  ghost predicate LosesItsShare(before: nat, after: nat, ratio: Option<nat>, minimumBalance: nat) {
    var share := MulCeil(Parts(ratio), before);
    && after <= before
    && (before - after <= share || (after == 0 && before < share + minimumBalance))
  }

  lemma {:induction false} LoopShares(w: Walk, order: seq<nat>, ratio: Option<nat>, minimumBalance: nat)
    requires Indices(order, |w.chunks|) && Parts(ratio) <= QUINTILLION
    ensures forall i :: 0 <= i < |w.chunks| ==>
      LosesItsShare(w.chunks[i].value, SlashChunks(w, order, ratio, minimumBalance).chunks[i].value, ratio,
                    minimumBalance)
    decreases |order|
  {
    if |order| > 0 && w.remaining > 0 {
      var i := order[0];
      PieceBounds(w.chunks[i].value, w.remaining, ratio, minimumBalance);
      var w' := SlashChunk(w, i, ratio, minimumBalance);
      LoopShares(w', order[1..], ratio, minimumBalance);
      LoopKeepsEras(w', order[1..], ratio, minimumBalance);
    }
  }

  // ---------- the proportion ----------

  ghost function AffectedBalance(ledger: Ledger, first: nat): nat
    requires first <= |ledger.unlocking|
  {
    ledger.active + Sum(ledger.unlocking[first..])
  }

  /** The proportion is one, or its share of the affected balance is the request. */
  lemma ProportionCovers(ledger: Ledger, first: nat, amount: nat)
    requires first <= |ledger.unlocking| && amount > 0
    ensures var parts := Parts(Proportion(ledger, first, amount));
      var affected := AffectedBalance(ledger, first);
      && parts <= QUINTILLION
      && (parts == QUINTILLION || (amount <= affected && MulCeil(parts, affected) >= amount))
  {
    var affected := AffectedBalance(ledger, first);
    if first < |ledger.unlocking| && amount <= affected { QuintillUpCovers(amount, affected); }
  }

  /** Taking the proportion of the whole meets the request. */
  lemma ShareMeetsRequest(ledger: Ledger, first: nat, amount: nat)
    requires first <= |ledger.unlocking| && amount > 0
    ensures var parts := Parts(Proportion(ledger, first, amount));
      var whole := ledger.active + Sum(ledger.unlocking);
      MulCeil(parts, whole) >= Min(amount, whole)
  {
    var parts := Parts(Proportion(ledger, first, amount));
    var affected, whole := AffectedBalance(ledger, first), ledger.active + Sum(ledger.unlocking);
    ProportionCovers(ledger, first, amount);
    SumSplit(ledger.unlocking, first);
    MulCeilWhole(whole);
    MulCeilMono(parts, parts, affected, whole);
  }

  // ---------- main results about a slash ----------

  lemma {:induction false} NonZeroSum(chunks: seq<UnlockChunk>)
    ensures Sum(NonZero(chunks)) == Sum(chunks)
  {
    if |chunks| > 0 {
      var init, last := chunks[..|chunks| - 1], chunks[|chunks| - 1];
      NonZeroSum(init);
      SumSnoc(NonZero(init), last);
      assert NonZero(init) + [] == NonZero(init);
    }
  }

  /** The active balance and the chunks together lose what is charged: at most one
      dust remainder more than asked, and at least the share of what they hold. */
  lemma ActiveThenChunks(active: nat, chunks: seq<UnlockChunk>, order: seq<nat>, amount: nat,
                         ratio: Option<nat>, minimumBalance: nat)
    requires Indices(order, |chunks|) && Parts(ratio) <= QUINTILLION && amount > 0
    ensures var t := Taken(active, amount, ratio, minimumBalance);
      var end := SlashChunks(Walk(chunks, SatSub(amount, t), map[]), order, ratio, minimumBalance);
      var taken := t + Sum(chunks) - Sum(end.chunks);
      && Sum(end.chunks) <= Sum(chunks)
      && taken <= amount + Overshoot(minimumBalance)
      && (taken >= amount || taken >= MulCeil(Parts(ratio), active + SumAt(chunks, order)))
      && end.remaining == SatSub(amount, taken)
  {
    hide Taken, MulCeil, Sum, SumAt, ShareSum;
    var t := Taken(active, amount, ratio, minimumBalance);
    var w := Walk(chunks, SatSub(amount, t), map[]);
    PieceBounds(active, amount, ratio, minimumBalance);
    LoopCharges(w, order, ratio, minimumBalance);
    LoopTakesShares(w, order, ratio, minimumBalance);
    SharesCover(chunks, order, Parts(ratio));
    MulCeilSplit(Parts(ratio), active, SumAt(chunks, order));
  }

  /** Slashing the whole ledger with a proportion whose share meets the request. */
  lemma WholeLedgerLoses(ledger: Ledger, first: nat, amount: nat, ratio: Option<nat>, minimumBalance: nat)
    requires first <= |ledger.unlocking| && Consistent(ledger) && amount > 0
    requires Parts(ratio) <= QUINTILLION && MulCeil(Parts(ratio), ledger.total) >= Min(amount, ledger.total)
    ensures var t := Taken(ledger.active, amount, ratio, minimumBalance);
      var order := Priority(first, |ledger.unlocking|);
      var end := SlashChunks(Walk(ledger.unlocking, SatSub(amount, t), map[]), order, ratio, minimumBalance);
      var taken := t + Sum(ledger.unlocking) - Sum(end.chunks);
      && Min(amount, ledger.total) <= taken <= Min(ledger.total, amount + Overshoot(minimumBalance))
      && Sum(NonZero(end.chunks)) == Sum(end.chunks) <= Sum(ledger.unlocking)
  {
    hide Taken, MulCeil, Priority, SlashChunks, Sum, NonZero;
    var order := Priority(first, |ledger.unlocking|);
    PriorityCoversAll(ledger.unlocking, first);
    ActiveThenChunks(ledger.active, ledger.unlocking, order, amount, ratio, minimumBalance);
    var t := Taken(ledger.active, amount, ratio, minimumBalance);
    NonZeroSum(SlashChunks(Walk(ledger.unlocking, SatSub(amount, t), map[]), order, ratio, minimumBalance).chunks);
  }

  /** A slash takes at least what was asked, or everything, and at most what was
      asked plus one dust remainder; the ledger's total drops by what it returns. */
  lemma SlashBounds(ledger: Ledger, bonding: nat, amount: nat, minimumBalance: nat, slashEra: nat)
    requires Consistent(ledger) && amount > 0
    ensures var r := Slashed(ledger, bonding, amount, minimumBalance, slashEra);
      && Min(amount, ledger.total) <= r.slashed <= Min(ledger.total, amount + Overshoot(minimumBalance))
      && r.ledger.total == ledger.total - r.slashed
      && Consistent(r.ledger)
      && (minimumBalance <= 1 ==> r.slashed == Min(amount, ledger.total))
  {
    hide Taken, MulCeil, Priority, SlashChunks;
    var first := FirstSlashable(ledger.unlocking, slashEra + bonding);
    ProportionCovers(ledger, first, amount);
    ShareMeetsRequest(ledger, first, amount);
    WholeLedgerLoses(ledger, first, amount, Proportion(ledger, first, amount), minimumBalance);
  }

  /** When the share of the affected balance meets the request, the loop ends before the older chunks. */
  lemma LoopEndsEarly(ledger: Ledger, first: nat, amount: nat, ratio: Option<nat>, minimumBalance: nat)
    requires first <= |ledger.unlocking| && amount > 0
    requires Parts(ratio) <= QUINTILLION && MulCeil(Parts(ratio), AffectedBalance(ledger, first)) >= amount
    ensures var t := Taken(ledger.active, amount, ratio, minimumBalance);
      var w := Walk(ledger.unlocking, SatSub(amount, t), map[]);
      SlashChunks(w, Priority(first, |ledger.unlocking|), ratio, minimumBalance)
        == SlashChunks(w, Up(first, |ledger.unlocking|), ratio, minimumBalance)
  {
    hide Taken, MulCeil;
    var up, down := Up(first, |ledger.unlocking|), Down(first);
    var w := Walk(ledger.unlocking, SatSub(amount, Taken(ledger.active, amount, ratio, minimumBalance)), map[]);
    PriorityIndices(first, |ledger.unlocking|);
    LoopSplit(w, up, down, ratio, minimumBalance);
    SumAtUp(ledger.unlocking, first);
    ActiveThenChunks(ledger.active, ledger.unlocking, up, amount, ratio, minimumBalance);
  }

  lemma SlashableOnly(ledger: Ledger, first: nat, amount: nat, ratio: Option<nat>, minimumBalance: nat)
    requires first <= |ledger.unlocking| && amount > 0
    requires Parts(ratio) <= QUINTILLION && MulCeil(Parts(ratio), AffectedBalance(ledger, first)) >= amount
    ensures var t := Taken(ledger.active, amount, ratio, minimumBalance);
      var order := Priority(first, |ledger.unlocking|);
      var after := SlashChunks(Walk(ledger.unlocking, SatSub(amount, t), map[]), order, ratio, minimumBalance).chunks;
      && |after| == |ledger.unlocking|
      && after[..first] == ledger.unlocking[..first]
      && LosesItsShare(ledger.active, ledger.active - t, ratio, minimumBalance)
      && forall i :: first <= i < |after| ==>
           && after[i].era == ledger.unlocking[i].era
           && LosesItsShare(ledger.unlocking[i].value, after[i].value, ratio, minimumBalance)
  {
    hide MulCeil;
    PriorityIndices(first, |ledger.unlocking|);
    var up := Up(first, |ledger.unlocking|);
    var w := Walk(ledger.unlocking, SatSub(amount, Taken(ledger.active, amount, ratio, minimumBalance)), map[]);
    LoopEndsEarly(ledger, first, amount, ratio, minimumBalance);
    PieceBounds(ledger.active, amount, ratio, minimumBalance);
    LoopShares(w, up, ratio, minimumBalance);
    LoopKeepsEras(w, up, ratio, minimumBalance);
  }

  /** When the slashable part of the ledger covers the request, no older chunk is
      touched and every slashable piece loses its share. */
  lemma SlashLocality(ledger: Ledger, bonding: nat, amount: nat, minimumBalance: nat, slashEra: nat)
    requires amount > 0
    requires FirstSlashable(ledger.unlocking, slashEra + bonding) < |ledger.unlocking|
    requires amount <= AffectedBalance(ledger, FirstSlashable(ledger.unlocking, slashEra + bonding))
    ensures
      var first := FirstSlashable(ledger.unlocking, slashEra + bonding);
      var ratio := Proportion(ledger, first, amount);
      var after := SlashedChunks(ledger, bonding, amount, minimumBalance, slashEra).chunks;
      var r := Slashed(ledger, bonding, amount, minimumBalance, slashEra);
      && r.ledger.unlocking == NonZero(after)
      && after[..first] == ledger.unlocking[..first]
      && LosesItsShare(ledger.active, r.ledger.active, ratio, minimumBalance)
      && forall i :: first <= i < |after| ==>
           && after[i].era == ledger.unlocking[i].era
           && LosesItsShare(ledger.unlocking[i].value, after[i].value, ratio, minimumBalance)
  {
    hide Taken, MulCeil, Priority, SlashChunks;
    var first := FirstSlashable(ledger.unlocking, slashEra + bonding);
    ProportionCovers(ledger, first, amount);
    MulCeilWhole(AffectedBalance(ledger, first));
    SlashableOnly(ledger, first, amount, Proportion(ledger, first, amount), minimumBalance);
  }

  /** The proportion is the least that covers the request, so a share exceeds the exact
      proportion of its piece by less than one unit and one part in a quintillion. */
  lemma ShareIsProportional(ledger: Ledger, first: nat, amount: nat, piece: nat)
    requires first < |ledger.unlocking| && 0 < amount <= AffectedBalance(ledger, first)
    ensures var affected := AffectedBalance(ledger, first);
      var share := MulCeil(Parts(Proportion(ledger, first, amount)), piece);
      && share * affected >= amount * piece
      && QUINTILLION * (share * affected) < QUINTILLION * (amount * piece) + affected * piece + QUINTILLION * affected
  {
    var affected := AffectedBalance(ledger, first);
    var parts := Parts(Proportion(ledger, first, amount));
    var share := MulCeil(parts, piece);
    ProductIs(parts, affected);
    ProductIs(parts, piece);
    ShareArithmetic(share, parts, piece, amount, affected);
  }

  lemma ShareArithmetic(share: nat, parts: nat, piece: nat, amount: nat, affected: nat)
    requires affected > 0
    requires parts * piece <= QUINTILLION * share < parts * piece + QUINTILLION
    requires QUINTILLION * amount <= parts * affected < QUINTILLION * amount + affected
    ensures share * affected >= amount * piece
    ensures QUINTILLION * (share * affected)
          < QUINTILLION * (amount * piece) + affected * piece + QUINTILLION * affected
  {
    var x, y := share * affected, amount * piece;
    var z := (parts * piece) * affected;
    assert z == (parts * affected) * piece;
    Scaled(parts * piece, QUINTILLION * share, affected);
    assert (QUINTILLION * share) * affected == QUINTILLION * x;
    Scaled(QUINTILLION * amount, parts * affected, piece);
    assert (QUINTILLION * amount) * piece == QUINTILLION * y;
    Scaled(QUINTILLION * share + 1, parts * piece + QUINTILLION, affected);
    assert (QUINTILLION * share + 1) * affected == QUINTILLION * x + affected;
    assert (parts * piece + QUINTILLION) * affected == z + QUINTILLION * affected;
    Scaled(parts * affected, QUINTILLION * amount + affected, piece);
    assert (QUINTILLION * amount + affected) * piece == QUINTILLION * y + affected * piece;
  }

  lemma Scaled(a: nat, b: nat, c: nat)
    requires a <= b
    ensures a * c <= b * c
  {}

  /** Slashing the active balance and then the chunks in the given order, until the request is met. */
  lemma PiecesInOrder(active: nat, chunks: seq<UnlockChunk>, order: seq<nat>, amount: nat, ratio: Option<nat>,
                      minimumBalance: nat) returns (visited: nat)
    requires Indices(order, |chunks|) && Parts(ratio) <= QUINTILLION && amount > 0
    ensures var parts, t := Parts(ratio), Taken(active, amount, ratio, minimumBalance);
      var after := SlashChunks(Walk(chunks, SatSub(amount, t), map[]), order, ratio, minimumBalance).chunks;
      var taken := t + Sum(chunks) - Sum(after);
      && visited <= |order|
      && (t >= amount || t >= MulCeil(parts, active))
      && (visited > 0 <==> t < amount && |order| > 0)
      && (visited < |order| ==> taken >= amount)
      && (forall k :: 0 <= k < |order| && (k + 1 < visited || taken < amount) ==>
            chunks[order[k]].value - after[order[k]].value >= MulCeil(parts, chunks[order[k]].value))
      && (forall k :: visited <= k < |order| ==> after[order[k]] == chunks[order[k]])
      && (parts == QUINTILLION && visited > 0 ==>
            t == active && forall k :: 0 <= k < visited - 1 ==> after[order[k]].value == 0)
  {
    hide MulCeil, Taken, SlashChunks, Sum;
    MulCeilWhole(active);
    PieceBounds(active, amount, ratio, minimumBalance);
    var w := Walk(chunks, SatSub(amount, Taken(active, amount, ratio, minimumBalance)), map[]);
    LoopCharges(w, order, ratio, minimumBalance);
    visited := LoopVisitsPrefix(w, order, ratio, minimumBalance);
    var after := SlashChunks(w, order, ratio, minimumBalance).chunks;
    forall k | 0 <= k < visited - 1 ensures Parts(ratio) == QUINTILLION ==> after[order[k]].value == 0 {
      MulCeilWhole(chunks[order[k]].value);
    }
  }

  /** A slash is carried out in priority order: the active balance first, then some prefix of the chunks in
      that order, further only while the request is not met. Each piece but the last one visited loses at least
      its share, which is all of it when no proportion applies; the chunks not visited keep their value. */
  lemma SlashFollowsPriority(ledger: Ledger, bonding: nat, amount: nat, minimumBalance: nat, slashEra: nat)
    returns (visited: nat)
    requires amount > 0
    ensures var first := FirstSlashable(ledger.unlocking, slashEra + bonding);
      var order := Priority(first, |ledger.unlocking|);
      var parts := Parts(Proportion(ledger, first, amount));
      var fromActive := ledger.active - Slashed(ledger, bonding, amount, minimumBalance, slashEra).ledger.active;
      var after := SlashedChunks(ledger, bonding, amount, minimumBalance, slashEra).chunks;
      var taken := fromActive + Sum(ledger.unlocking) - Sum(after);
      && visited <= |order|
      && (fromActive >= amount || fromActive >= MulCeil(parts, ledger.active))
      && (visited > 0 <==> fromActive < amount && |order| > 0)
      && (visited < |order| ==> taken >= amount)
      && (forall k :: 0 <= k < |order| && (k + 1 < visited || taken < amount) ==>
            var before := ledger.unlocking[order[k]].value;
            before - after[order[k]].value >= MulCeil(parts, before))
      && (forall k :: visited <= k < |order| ==> after[order[k]] == ledger.unlocking[order[k]])
      && (parts == QUINTILLION && visited > 0 ==>
            fromActive == ledger.active && forall k :: 0 <= k < visited - 1 ==> after[order[k]].value == 0)
  {
    hide MulCeil, Taken, Priority, SlashChunks, Proportion, FirstSlashable, Sum, Indices;
    var first := FirstSlashable(ledger.unlocking, slashEra + bonding);
    ProportionCovers(ledger, first, amount);
    PriorityIndices(first, |ledger.unlocking|);
    visited := PiecesInOrder(ledger.active, ledger.unlocking, Priority(first, |ledger.unlocking|), amount,
                             Proportion(ledger, first, amount), minimumBalance);
  }
}
