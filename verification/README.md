# Verification of the staking, slashing and energy logic

This project models, in Dafny 4.11, the parts of the chain's pallets whose correctness is hard to
see from any one function, and proves what they keep over every input and every run:

- the ledger of a bonded stash: withdrawing, rebonding and proportional slashing;
- slashing spans, the records kept per span, and the computation of a validator's slash and of its
  cooperators' slashes, over all sequences of offences and clearings;
- disabling of offending validators, applying a slash, and paying reporters;
- the energy rate per session (smoothing, pruning, era sums);
- the energy broker (swaps, fees, capacity, sliding burn window);
- charging fees in energy, with the broker as the market, and the faucet's limiter.

What the code changes in place is a class whose methods are proved equal to specification functions
on the class's value (`Value()`); the laws are lemmas about those functions. A class's value function
and its specification functions are named in the method's contract.

| file | content |
|---|---|
| `Accounts.dfy` | accounts, balances and their totals |
| `Arithmetic.dfy` | saturating subtraction; proportions with the support library's rounding |
| `StakingLedger.dfy`, `LedgerLaws.dfy`, `LedgerRuns.dfy` | the ledger, the laws of one slash, the laws of sequences |
| `SlashingSpans.dfy`, `SpanRecords.dfy`, `InspectingSpans.dfy` | spans, span records, and the guard that edits both in storage |
| `ComputeSlash.dfy`, `SlashingRuns.dfy` | a whole offence report, safety of the storage over runs |
| `ChargeRuns.dfy`, `CooperatorSlash.dfy` | the charges handed on over runs, cooperators' era slashes |
| `Disabling.dfy`, `Reporters.dfy`, `ApplySlash.dfy` | disabled validators, reporter payout, applying a slash |
| `DynamicEnergy.dfy` | smoothed generation rates and era sums |
| `EnergyBroker.dfy`, `BrokerLaws.dfy` | the broker and its laws |
| `EnergyFee.dfy`, `FeeMarket.dfy` | the fee cascade, its quote, settling a fee; buying energy at the broker |
| `Faucet.dfy` | the anchored-window limiter |

`dafny verify dfyconfig.toml` checks everything. Some proofs `hide` the definitions they do not need,
to stay quick.

## Where the code differs from what is said about it

The code is modelled as it is; each difference is stated by a lemma that says exactly when the
documented behaviour holds.

- A slash is documented never to exceed the given amount (pallets/energy-generation/src/lib.rs:404-406).
  It can, by sweeping dust; it never does exactly when the minimum balance is at most one
  (`LedgerRuns.NeverMoreThanAskedExactly`), and the excess is always below one minimum balance
  (`LedgerLaws.SlashBounds`).
- Participants are documented to be slashed for the maximum slash in a span
  (pallets/energy-generation/src/slashing.rs:17-18). With two components a slash that is larger in one
  of them only is not recorded; the rule holds exactly for sequences in which no such slash occurs
  (`SpanRecords.SlashedForMaximumExactly`, `SpanRecords.MaximumNotAlwaysSlashed`).
- A cooperator's era slash is meant to follow the worst loss of its validators
  (pallets/energy-generation/src/slashing.rs:555-556). A report accepted for its reputation part can
  lower a stake loss, and raising it again slashes twice; the sum is right exactly when no report
  lowers one (`CooperatorSlash.EraSlashIsLossSum`), which a validator of unchanged reputation and stake
  cannot cause (`CooperatorSlash.SteadyValidatorNeverLowers`). Three reports of one era slash a cooperator
  52 of 100 at a loss of one half when a part of the validator's reputation is protected by its rank at
  the first of them only (`CooperatorSlash.LoweredLossSlashesAgain`).
- Computing a slash reads an absent reputation record as an empty one
  (pallets/energy-generation/src/slashing.rs:412-413, 558-560), but applying it fails on one, after the
  staker's stake is taken and even if no point is to be taken (pallets/reputation/src/pallet/impls.rs:25-41).
  A slash is applied in full exactly when every staker has a ledger and a record
  (`ApplySlash.AppliedTakesPoints`, `ApplySlash.MissingRecordLosesStake`); otherwise what was collected is lost
  (`ApplySlash.AppliedConserves`).
- The faucet is documented to give at most the maximum amount per period
  (pallets/faucet/src/lib.rs:12, 109). Two adjacent windows can give twice that, and no interval of a
  period gives more (`Faucet.AtMostTwiceTheMaximum`); the documented limit holds exactly for periods of
  at most one block, or a maximum of zero (`Faucet.DocumentedLimitExactly`). A grant too small to create
  its account is counted but does not reach it (`Faucet.BalanceFollowsIssue`, `Faucet.LostCountsTowardsLimit`).
- Quoting an output for an input and then the input for that output is expected to give the first input
  back (pallets/energy-broker/src/tests.rs:36-48). It does exactly when what the converter asks for the
  output lies in a certain range (`EnergyBroker.OutputQuotedBack`); for a converter that asks no more than it
  got, exactly when it asks the same and the fee divides evenly, and otherwise the input is less
  (`EnergyBroker.OutputUndoneExactly`). The other way round is `EnergyBroker.InputQuotedBack`, and a converter
  that rounds breaks both even without a fee (`EnergyBroker.ConverterRounds`).
- Fee parts are quoted with the swap fee for every account, although exempt accounts are charged
  without it; the two agree exactly when the fee rounds to nothing (`EnergyFee.FeelessQuoteExactly`,
  `FeeMarket.BrokerChargesQuote`).

## Model

| member | source | states |
|---|---|---|
| `Arithmetic.PerbillMulNearest` | pallets/energy-generation/src/slashing.rs:236-245 | a proportion of an amount is the nearest integer, a tie going down, and no other integer is |
| `Arithmetic.PerbillFromRational` | pallets/energy-generation/src/slashing.rs:265-271 | a proportion made of two amounts is the greatest that does not exceed them, or one |
| `Arithmetic.QuintillUp` | pallets/energy-generation/src/lib.rs:449-454 | the slash ratio is the least one covering the request, refused without a balance or when the request exceeds it |
| `Staking.StakingLedger.ConsolidateUnlocked` | pallets/energy-generation/src/lib.rs:332-360 | drops the chunks unlocked by the era and lowers the total by what they held |
| `LedgerRuns.WithdrawsOldest` | pallets/energy-generation/src/lib.rs:332-360 | in an ordered ledger exactly the chunks before some cut are withdrawn, those with an era not after the current one |
| `Staking.StakingLedger.Rebond` | pallets/energy-generation/src/lib.rs:362-387 | moves chunks from the back into the active balance, reports the amount, and ends |
| `LedgerRuns.RebondMoves` | pallets/energy-generation/src/lib.rs:362-387 | exactly the smaller of the request and the unlocking balance is moved |
| `LedgerRuns.RebondTakesNewest` | pallets/energy-generation/src/lib.rs:362-387 | what is left is a prefix of the chunks whose last one may be smaller but not empty |
| `LedgerRuns.LedgerRebondComposes` | pallets/energy-generation/src/lib.rs:362-387 | rebonding twice gives the ledger of rebonding the sum once |
| `Staking.StakingLedger.SlashOutOf` | pallets/energy-generation/src/lib.rs:476-501 | one piece loses its proportion capped by the piece and by what remains, or all of it when the rest is dust; total and remainder drop alike |
| `Staking.StakingLedger.SlashStake` | pallets/energy-generation/src/lib.rs:409-532 | the new ledger, the returned amount and the reported chunk values are those of the specification, for every ledger |
| `LedgerLaws.SlashBounds` | pallets/energy-generation/src/lib.rs:409-532 | a slash takes at least the smaller of request and total, at most the request and one dust remainder, never more than the total; the total drops by what is returned; exact when no positive balance is dust |
| `LedgerLaws.ProportionCovers` | pallets/energy-generation/src/lib.rs:446-454 | the ratio is at most one, and is one or asks at least the request of the affected balance |
| `LedgerLaws.SharesCover` | pallets/energy-generation/src/lib.rs:476-501 | shares rounded up chunk by chunk cover the rounded-up share of their sum |
| `LedgerLaws.LoopCharges` | pallets/energy-generation/src/lib.rs:506-519 | the loop takes from the chunks exactly what it charges, and overshoots by at most one dust remainder |
| `LedgerLaws.SlashLocality` | pallets/energy-generation/src/lib.rs:429-519 | when the slashable part covers the request, chunks before the first slashable one are untouched and every other piece loses at most its share, unless its rest was dust |
| `LedgerLaws.SlashFollowsPriority` | pallets/energy-generation/src/lib.rs:429-519 | the active balance comes first and chunks follow in priority order, only while the request is not met; each piece visited but the last loses at least its share, all of it when no proportion applies; the rest keep their value |
| `LedgerLaws.ShareIsProportional` | pallets/energy-generation/src/lib.rs:446-487 | a share is the exact proportion of its piece up to one unit and one part in a quintillion |
| `LedgerRuns.NeverMoreThanAskedExactly` | pallets/energy-generation/src/lib.rs:404-406 | the documented promise never to slash more than asked holds for all ledgers if and only if the minimum balance is at most one |
| `LedgerRuns.PieceOvershootsExactly` | pallets/energy-generation/src/lib.rs:476-501 | a piece loses more than what remains exactly when it holds more and the rest of it would be dust |
| `LedgerRuns.ReportIsExact` | pallets/energy-generation/src/lib.rs:506-530 | listeners get the new value of every changed chunk, and of no era without a chunk |
| `LedgerRuns.RunKeeps` | pallets/energy-generation/src/lib.rs:301-314 | over any sequence of rebonding, withdrawing and slashing: total is active plus unlocking, chunks stay non-empty and ordered, and the total drops by what was withdrawn and slashed |
| `Spans.SlashingSpans.EndSpan` | pallets/energy-generation/src/slashing.rs:114-128 | a span is ended in place, or nothing changes, as the result says |
| `Spans.SlashingSpans.Prune` | pallets/energy-generation/src/slashing.rs:151-174 | old spans are dropped in place and their index range returned |
| `Spans.SpansPartitionTime` | pallets/energy-generation/src/slashing.rs:130-144 | an era has a span exactly when it is not before the earliest start, and then in one decoded span only |
| `Spans.ReachableSpansPartitionTime` | pallets/energy-generation/src/slashing.rs:99-175 | that holds in every state reached by creating, ending and pruning |
| `Spans.EndChangesOnlyLaterEras` | pallets/energy-generation/src/slashing.rs:114-128 | ending a span changes the span index of the eras after now, to the new one, and of no other era |
| `Spans.PruneKeepsWindow` | pallets/energy-generation/src/slashing.rs:151-174 | pruning drops exactly the spans ending at or before the window start and keeps the span index of every era in the window |
| `Spans.PruneLosesRange` | pallets/energy-generation/src/slashing.rs:161-169 | the returned range is exactly the live indices that are lost |
| `Inspecting.InspectingSpans.Fetch` | pallets/energy-generation/src/slashing.rs:616-639 | the stash's spans are fetched, created and stored if absent |
| `Inspecting.InspectingSpans.Judge` | pallets/energy-generation/src/slashing.rs:677-704 | the three branches of comparing a slash with its record |
| `Inspecting.InspectingSpans.CompareAndUpdateSpanSlash` | pallets/energy-generation/src/slashing.rs:667-712 | storage, accumulated slash and reward, dirtiness and returned span index after a comparison |
| `Inspecting.InspectingSpans.EndSpan` | pallets/energy-generation/src/slashing.rs:646-648 | ending marks the inspection dirty only if a span was started |
| `Inspecting.InspectingSpans.Drop` | pallets/energy-generation/src/slashing.rs:715-730 | a dirty inspection prunes, removes the pruned spans' records and writes the spans; a clean one writes nothing |
| `Inspecting.Storage.ClearStashMetadata` | pallets/energy-generation/src/slashing.rs:740-767 | spans and records of a stash are removed, or nothing if too few spans are expected |
| `SpanRecords.SubmitBranches` | pallets/energy-generation/src/slashing.rs:677-704 | the record moves to the slash exactly when both components exceed it, by the increment; nothing changes when both are below |
| `SpanRecords.UnchangedExactly` | pallets/energy-generation/src/slashing.rs:675-709 | the record is rewritten exactly when it changes |
| `SpanRecords.RecordsTelescope` | pallets/energy-generation/src/slashing.rs:653-712 | over any submissions the increments sum to the recorded slash and the rewards to the recorded payout |
| `SpanRecords.RecordsGrow` | pallets/energy-generation/src/slashing.rs:667-712 | neither component of slash or payout ever falls |
| `SpanRecords.RecordIsSubmitted` | pallets/energy-generation/src/slashing.rs:667-712 | the recorded slash is zero or one of the submitted ones |
| `SpanRecords.RecordIsUnsurpassed` | pallets/energy-generation/src/slashing.rs:667-712 | no submitted slash exceeds the recorded one in both components |
| `SpanRecords.PayoutWithinCap` | pallets/energy-generation/src/slashing.rs:677-704 | each component of the payout is at most the reward proportion of some submitted slash, whatever the proportions |
| `SpanRecords.PayoutWithinProportionOfLargest` | pallets/energy-generation/src/slashing.rs:677-704 | with one proportion, the payout is at most that proportion of the largest amounts |
| `SpanRecords.SlashedForMaximumExactly` | pallets/energy-generation/src/slashing.rs:17-18 | the record is always the maximum so far if and only if every slash is aligned with the maximum of those before it |
| `SpanRecords.MaximumNotAlwaysSlashed` | pallets/energy-generation/src/slashing.rs:17-18 | two slashes for which the record is not the maximum |
| `Offences.SlashingPallet.Inspect` | pallets/energy-generation/src/slashing.rs:458-475 | fetching, comparing, and ending the span if it is the ongoing one |
| `Offences.SlashingPallet.KickOutIfRecent` | pallets/energy-generation/src/slashing.rs:497-517 | the ongoing span is ended without a slash, and the validator considered for disabling |
| `Offences.SlashingPallet.SlashAllCooperators` | pallets/energy-generation/src/slashing.rs:542-595 | storage, era slashes, the list of slashes and the reward after the loop over the cooperators |
| `Offences.SlashingPallet.ComputeSlash` | pallets/energy-generation/src/slashing.rs:404-495 | the whole state change and the unapplied slash of a report, on all three paths |
| `Offences.SlashingPallet.ClearEraMetadata` | pallets/energy-generation/src/slashing.rs:732-738 | the two maps of slashes lose the entries of that era |
| `Offences.ClearingForgetsEra` | pallets/energy-generation/src/slashing.rs:732-738 | in that era every loss and cooperator slash then reads as nothing; other eras, spans and disabled validators are untouched |
| `SlashingRuns.ReportInStep` | pallets/energy-generation/src/slashing.rs:458-475 | a report keeps records with live spans and equal to what the submissions to their spans make |
| `SlashingRuns.ReportPaysGrowth` | pallets/energy-generation/src/slashing.rs:650-712 | the slash and the reward a report yields are exactly the growth of its span's record |
| `SlashingRuns.CooperatorCharged` | pallets/energy-generation/src/slashing.rs:574-591 | what each cooperator is charged, and what is paid for it, is the growth of its span's record for its era slash |
| `SlashingRuns.ChargesKept` | pallets/energy-generation/src/slashing.rs:550-591 | the list of slashed cooperators holds those charges in order |
| `SlashingRuns.OffenceInStep` | pallets/energy-generation/src/slashing.rs:410-495 | a whole offence, slashing or kicking, keeps storage in step |
| `SlashingRuns.ClearLeavesNothing` | pallets/energy-generation/src/slashing.rs:740-767 | clearing succeeds exactly when enough spans are expected; then no record of the stash is left, and other stashes are untouched |
| `SlashingRuns.RunInStep` | pallets/energy-generation/src/slashing.rs:616-767 | storage stays in step over any run of offences, kicks and clearings |
| `SlashingRuns.NoOrphanRecords` | pallets/energy-generation/src/slashing.rs:616-767 | in every run a record belongs to a live span, and a span about to open has none |
| `SlashingRuns.RunNeverOverslashes` | pallets/energy-generation/src/slashing.rs:13-25 | in every run each span's record is zero or one submitted slash, unsurpassed, with its payout within the cap |
| `SlashingRuns.RunDisablesFew` | pallets/energy-generation/src/slashing.rs:519-537 | in every run the disabled list stays sorted, valid and below the share of the active set of the running era, whatever earlier eras had |
| `ChargeRuns.OffenceHandsOnCharges` | pallets/energy-generation/src/slashing.rs:410-495 | the validator's slash, the cooperators' slashes and the payout handed on are those of the reports made, and their sum |
| `ChargeRuns.OffenceTallied` | pallets/energy-generation/src/slashing.rs:410-595 | adding the charges of an offence to a tally per span keeps the tally equal to the records of live spans |
| `ChargeRuns.ChargedOncePerSpan` | pallets/energy-generation/src/slashing.rs:13-25 | in every run the slashes and rewards handed on for a live span add up to its record, so to one submitted slash at most and a payout within the cap |
| `CooperatorSlash.EraSlashNeverFalls` | pallets/energy-generation/src/slashing.rs:555-572 | no report lowers any cooperator's slash in any era |
| `CooperatorSlash.ReportGrowsEraSlash` | pallets/energy-generation/src/slashing.rs:432-456 | an accepted report grows a cooperator's era slash by the growth of its validator's loss; a rejected one changes nothing |
| `CooperatorSlash.EraSlashIsLossSum` | pallets/energy-generation/src/slashing.rs:542-595 | over any run, in any order of validators, the era slash is at least the sum of the validators' losses, and equals it if and only if no accepted report lowered one |
| `CooperatorSlash.SteadyValidatorNeverLowers` | pallets/energy-generation/src/slashing.rs:432-456 | with unchanged reputation and stake an accepted report has a larger fraction and lowers neither loss |
| `CooperatorSlash.LoweredLossSlashesAgain` | pallets/energy-generation/src/slashing.rs:410-456 | three reports, the second lowering a stake loss, after which a cooperator is slashed 52 of 100 and the loss is one half, whenever at most 95% of the points were slashable at the first |
| `Disabling.DisabledValidators.AddOffendingValidator` | pallets/energy-generation/src/slashing.rs:519-537 | the list after an offence, by the strategy's decision and a binary insertion |
| `Disabling.OffencesKeep` | pallets/energy-generation/src/lib.rs:887-925 | over any offences of an era the list is sorted, valid, only grows, holds only reported offenders of the era, and omits one only at the limit |
| `Disabling.ByzantineCap` | pallets/energy-generation/src/lib.rs:863-881 | factor times disabled validators stays below the size of the active set |
| `Reporters.Treasury.PayReporters` | pallets/energy-generation/src/slashing.rs:842-877 | the accounts and the forwarded rest after the payout loop |
| `Reporters.PayoutConserves` | pallets/energy-generation/src/slashing.rs:842-877 | stake gained by reporters and forwarded is the imbalance; reporters gain at most reward and imbalance, and at most half a reputation point each beyond the reward |
| `Reporters.SharesInOrder` | pallets/energy-generation/src/slashing.rs:859-871 | the k-th reporter gets a full share while the pot lasts, then its rest, then nothing |
| `Reporters.OthersGetNothing` | pallets/energy-generation/src/slashing.rs:862-871 | no account but the reporters gains stake or reputation |
| `ApplySlash.StakingPallet.DoSlash` | pallets/energy-generation/src/slashing.rs:769-806 | one staker's ledger, balance and reputation are slashed; what the balance cannot give is deducted from the reward; no ledger is an error, no reputation record one after the stake is taken |
| `ApplySlash.StakingPallet.Apply` | pallets/energy-generation/src/slashing.rs:808-840 | all stakers are slashed in order up to the first error, then reporters are paid |
| `ApplySlash.AppliedConserves` | pallets/energy-generation/src/slashing.rs:808-877 | an applied slash moves stake from stakers to reporters and the handler without loss; a failed one loses what was collected |
| `ApplySlash.StakeCollects` | pallets/energy-generation/src/slashing.rs:782-797 | a backed ledger loses the request up to dust; as much is collected as the balance has above what must stay, and the reward pays the rest, at most that |
| `ApplySlash.MissingRecordLosesStake` | pallets/energy-generation/src/slashing.rs:787-800 | without a reputation record slashing a staker fails, but its ledger is slashed |
| `ApplySlash.AppliedTakesPoints` | pallets/energy-generation/src/slashing.rs:808-840 | a slash is applied in full if and only if every staker has a ledger and a reputation record; then accounts that report nothing lose exactly the points slashed |
| `ApplySlash.AppliedKeepsBacked` | pallets/energy-generation/src/slashing.rs:769-840 | while balances cover ledgers they keep doing so, whether or not the slash succeeds, and at most what must stay of the balances is deducted from the reward |
| `DynamicEnergy.SmoothBounds` | pallets/dynamic-energy/src/lib.rs:518-526 | a smoothed value is at most the larger and at least one below the smaller of the two values |
| `DynamicEnergy.FactorOneIsExact` | pallets/dynamic-energy/src/lib.rs:186-191 | the default factor disables smoothing |
| `DynamicEnergy.SmoothContracts` | pallets/dynamic-energy/src/lib.rs:518-526 | smoothing shrinks the distance to the new value by the weight, up to one unit |
| `DynamicEnergy.SteadyInputDistance` | pallets/dynamic-energy/src/lib.rs:387-412 | after n sessions that smooth the same input, the distance to it is at most the n-th power of the kept part times the first distance, plus the inverse weight |
| `DynamicEnergy.SteadyBurnDistance` | pallets/dynamic-energy/src/lib.rs:387-412 | that holds when the same amount is burned in every session and nothing overrides it |
| `DynamicEnergy.OverrideIsSteady` | pallets/dynamic-energy/src/lib.rs:236-257 | the input is the same in all sessions while an override is set, as at genesis, whatever is burned |
| `DynamicEnergy.Pallet.OnNewSession` | pallets/dynamic-energy/src/lib.rs:541-560 | the new rate is stored, the burn reset and one old session removed |
| `DynamicEnergy.Pallet.SetGenerationRateSmoothFactor` | pallets/dynamic-energy/src/lib.rs:289-303 | a zero factor is refused |
| `DynamicEnergy.Pallet.Calculate` | pallets/dynamic-energy/src/lib.rs:563-580 | the sum of the stored rates of an era's sessions, if the era is known |
| `DynamicEnergy.RunWindowed` | pallets/dynamic-energy/src/lib.rs:540-561 | over any run what is stored is the unpruned history of the last sessions, one more than an era has |
| `DynamicEnergy.EraSumSurvivesPruning` | pallets/dynamic-energy/src/lib.rs:540-580 | the sum equals that over the unpruned history if and only if the pruned sessions of the era generated nothing, and always when none was pruned |
| `DynamicEnergy.EraSumAtItsEnd` | pallets/dynamic-energy/src/lib.rs:540-580 | an era of at most that many sessions is summed in full at its last session and at the next |
| `EnergyBroker.FeeRoundTrip` | pallets/energy-broker/src/lib.rs:502-526 | including and deducting a fee gives the amount back if the fee divides evenly, and one unit less otherwise |
| `EnergyBroker.FeeRoundTripBack` | pallets/energy-broker/src/lib.rs:502-526 | deducting and including a fee never gives more, and gives the amount back if and only if the fee divides evenly |
| `EnergyBroker.OutputQuotedBack` | pallets/energy-broker/src/lib.rs:324-372 | an input is quoted back for its output if and only if what the converter asks is at least that input less its fee, and less than for the next input |
| `EnergyBroker.OutputUndoneExactly` | pallets/energy-broker/src/lib.rs:324-372 | for a converter that asks no more than it got, the input quoted back is never larger, and is the same if and only if it asks the same and the fee divides evenly |
| `EnergyBroker.InputQuotedBack` | pallets/energy-broker/src/lib.rs:324-372 | an output is quoted back for its input if and only if the converter gives it for what it asked, or for one unit less when the fee does not divide evenly |
| `EnergyBroker.ConverterRounds` | pallets/energy-broker/src/lib.rs:324-372 | a converter for which an input is not quoted back although there is no fee |
| `EnergyBroker.Broker.BurnSurplusEnergy` | pallets/energy-broker/src/lib.rs:528-546 | energy above capacity is burned, as far as the account keeps its minimum |
| `EnergyBroker.Broker.DoSwap` | pallets/energy-broker/src/lib.rs:444-500 | the whole new state of a swap, or the error and no change |
| `EnergyBroker.Broker.SwapExactTokensForTokens` | pallets/energy-broker/src/lib.rs:374-407 | quoting, limit and swap of an exact input, with its errors |
| `EnergyBroker.Broker.SwapTokensForExactTokens` | pallets/energy-broker/src/lib.rs:409-442 | quoting, limit and swap for an exact output, with its errors |
| `EnergyBroker.Broker.OnNewSession` | pallets/energy-broker/src/lib.rs:636-659 | the window moves, and a non-zero capacity is adopted and enforced |
| `BrokerLaws.SwapMovesExactly` | pallets/energy-broker/src/lib.rs:444-500 | every balance and collected fee after a swap, whoever the accounts are: exact input, fee, output and burn |
| `BrokerLaws.SwapConserves` | pallets/energy-broker/src/lib.rs:444-546 | a swap changes what exists of an asset only by the energy it burns |
| `BrokerLaws.SoldIsGain` | pallets/energy-broker/src/lib.rs:491-497 | the energy reported as sold is what the broker gained before burning |
| `BrokerLaws.QuotedFeeWithinInput` | pallets/energy-broker/src/lib.rs:324-372 | a quoted fee is part of its input, and the rest is the converter's amount, at least one |
| `BrokerLaws.BurnCaps` | pallets/energy-broker/src/lib.rs:528-546 | burning brings the energy to capacity or the account's minimum and touches nothing else |
| `BrokerLaws.RunStaysCapped` | pallets/energy-broker/src/lib.rs:444-546 | in every run of swaps, capacity overrides and sessions the broker's energy stays within capacity or its minimum |
| `BrokerLaws.RunStaysWindowed` | pallets/energy-broker/src/lib.rs:630-648 | in every run the stored burns are those of the last completed sessions and the cached total is their sum |
| `EnergyFee.FeePallet.EnsureSufficientEnergy` | pallets/energy-fee/src/lib.rs:451-501 | the account's balances and the outcome of the cascade, on every path |
| `EnergyFee.FeePallet.WithdrawFee` | pallets/energy-fee/src/lib.rs:298-339 | a zero fee costs nothing; otherwise exactly a regular fee leaves the energy that the cascade provided, and an EVM fee is only provided for |
| `EnergyFee.FeePallet.CalculateFeeParts` | pallets/energy-fee/src/lib.rs:503-536 | the quoted energy and native parts |
| `EnergyFee.FeePallet.CorrectAndDepositFee` | pallets/energy-fee/src/lib.rs:341-387 | refund, recycled and burned parts of a settled fee are booked |
| `EnergyFee.CascadeCharges` | pallets/energy-fee/src/lib.rs:451-501 | a charged account holds the requirement; its energies change in sum by the shortfall only; liquid energy and native currency are touched only once what comes before is exhausted |
| `EnergyFee.QuoteAgrees` | pallets/energy-fee/src/lib.rs:451-536 | a charged account pays exactly the quoted native part; without a quote it is not charged |
| `EnergyFee.FailedCharge` | pallets/energy-fee/src/lib.rs:451-501 | a failed charge spends no native currency and loses at most what could not be minted |
| `EnergyFee.ChargedExactly` | pallets/energy-fee/src/lib.rs:451-501 | charging succeeds if and only if what is exchanged can be minted and there is no shortfall or it can be paid; minting cannot fail from the minimum balance on |
| `EnergyFee.FeesConserve` | pallets/energy-fee/src/lib.rs:298-339 | over any sequence of calls, EVM ones included, the energies drop by the fees charged less the energy bought, and the native currency by exactly the quoted native parts |
| `EnergyFee.SettlementConserves` | pallets/energy-fee/src/lib.rs:349-383 | a settled fee is refunded, recycled or burned without rest; the tip is always burned |
| `EnergyFee.FeelessQuoteExactly` | pallets/energy-fee/src/lib.rs:527-532 | the quote for an exempt account is what it is charged if and only if the fee rounds to nothing |
| `FeeMarket.SwapTakesPrice` | pallets/energy-broker/src/lib.rs:409-500 | the swap the fee pallet asks for takes exactly the broker's price for the account and gives it exactly the energy |
| `FeeMarket.BrokerIsMarket` | runtime/common/src/exchange.rs:143-263 | for an account that pays the swap fee, a successful swap is the purchase of the cascade; where the cascade cannot buy the swap fails, and where it can only a minimum balance or the broker's liquidity makes it fail |
| `FeeMarket.BrokerChargesQuote` | pallets/energy-fee/src/lib.rs:451-536 | an account that exchanges its energy and buys the rest at the broker then holds the requirement, and pays the quoted native part if and only if it pays the swap fee or that fee rounds to nothing |
| `Faucet.FaucetPallet.RequestFunds` | pallets/faucet/src/lib.rs:150-178 | requests and balances after a request, and its errors |
| `Faucet.RunLimited` | pallets/faucet/src/lib.rs:150-178 | over any ordered calls the stored total is what was issued since the stored block and at most the maximum |
| `Faucet.BalanceFollowsIssue` | pallets/faucet/src/lib.rs:171 | an account's balance grows by exactly what it is granted, less grants below the existential deposit made before it exists; an existing account loses none |
| `Faucet.LostCountsTowardsLimit` | pallets/faucet/src/lib.rs:157-173 | a grant that does not reach a new account uses up its limit |
| `Faucet.WindowsApart` | pallets/faucet/src/lib.rs:161-167 | the stored block moves only to now, at least a period later |
| `Faucet.AtMostTwiceTheMaximum` | pallets/faucet/src/lib.rs:150-178 | no interval of one period issues more than twice the maximum to an account |
| `Faucet.DocumentedLimitExactly` | pallets/faucet/src/lib.rs:109-111 | the documented limit holds for every run if and only if the period is at most one block or the maximum is zero |

## Left out

- Integer widths: balances, eras, indices and points are unbounded naturals, so additions neither overflow nor saturate; the exceptions are the smoothing factor's saturating successor and the largest balance in `EnergyBroker.IncludeFee`.
- Dust handling by the balance pallets on ordinary transfers, account reaping and freezes; withdrawals and deposits take and give exactly what is asked or fail.
- Bonding, unbonding, ledger storage and targets of cooperators (pallets/energy-generation/src/pallet): only the ledger operations themselves are modelled.
- `StakingLedger` fields that no modelled operation reads: the stash and the claimed rewards, and the bound on the number of chunks.
- Reputation: points and the slashable part of them are inputs of a report; ranks, the growth of points over time, and the checks that chill stakers of low reputation after a slash are not modelled.
- The session pallet: the active set, active era and limit factor are inputs, and the call that disables an index there is not recorded.
- Deferral of unapplied slashes by eras, and the choice of slash era, window and fraction by the offence handler.
- What the currency leaves of a slashed balance is an input per account, the reserve of `ApplySlash.Config`; that a slashed account might be reaped, and lose its reputation record, is not modelled, as bonding keeps an account alive (pallets/energy-generation/src/pallet/mod.rs:869).
- Errors inside the currency when crediting reporters: `Reporters.Treasury.PayReporters` credits every account it names.
- `DynamicEnergy.Pallet.OnNewSession`: the same callback also updates the exchange rate, resets the energy sold and notes the session's start, which no modelled operation reads; the rate and its multiplier are single evaluations of a formula.
- Converters that override how credits are resolved or withdrawn: swaps use the default of pallets/energy-broker/src/converter.rs:22-37, with the path's rates as inputs.
- Swap fees above 1000 tenths of a percent, for which the fee arithmetic panics.
- What the fee handler of the broker does with the fees it receives, and direct deposits of liquidity to the broker.
- `EnergyBroker.Broker.DoSwap`: a failed swap leaves no trace, because the calling transaction is rolled back; the intermediate state before the rollback is not modelled.
- `EnergyFee.FeePallet.EnsureSufficientEnergy`: the market is a price and a spendable amount; the failures of a purchase that the account can pay are those `FeeMarket.BrokerIsMarket` names.
- The table of custom fees, which is an input of a call; fees of Ethereum transactions, which are withdrawn and settled separately; fee multipliers and the burned energy threshold of the fee pallet.
- Weights, events, origins, logging and unsigned transaction validation.
