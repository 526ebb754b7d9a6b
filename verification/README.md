# Verification of the filler and its quote auction

A Dafny model, and proofs about it, of the off-chain side of an intent settlement system:
the transaction lifecycle of the filler, the quote auction and the solver's bid, routing over
a pool graph, the profit arithmetic and the state the filler learns, and two small text
components. `dafny verify dfyconfig.toml` checks the whole project.

Code that changes state step by step is a class or a method with loops; each such method is
proved against a function on plain values, and the results are proved of that function.

| files | what they model |
|---|---|
| `Ledger`, `GuardSpec`, `Guard` | the rolling one-hour ledgers and the check, sign, charge, record, commit, broadcast protocol with its resolution |
| `GuardRuns`, `GuardTheorems`, `GuardLook`, `GuardBackoff`, `GuardCrash`, `GuardResent` | whole runs of it: crashes between any two steps, restart from the last committed record, a node that mines and forgets; which answer each look and send gives; strikes and blocks; runs with and without crashes compared; a run that loses a charge |
| `Sweep`, `SweepFairness`, `SweepExact` | the book sweep with its round-robin cursor: exactly what one sweep does, and fairness over any number of them |
| `AuctionRound`, `AuctionPrice`, `AuctionService` | a capped round against the unbounded set of best bids, the price over the bids themselves, and the audit of a settled round |
| `Solver` | the solver's integer bid and its cost arithmetic |
| `PoolGraph`, `PoolGraphPaths`, `PoolEstimate`, `PathSelect`, `PathOrder` | path enumeration, swap estimates, the choice of paths to quote and its order |
| `PoolBatch`, `PoolQuote` | batched calls, request by request, and quoting in rounds against quoting each path alone |
| `Route`, `Recheck`, `Pricing` | the route gate and plan, the re-quote prediction, the price pre-filter and the rail |
| `QuoteSpec`, `QuoteBook`, `GasSpec`, `GasRatios` | the registry of issued quotes and the learned gas ratios |
| `ModuleShapes`, `StripTokens`, `PathText`, `PathForms` | the comment-blanking lexer and the call closure; the text form of a route path |
| `Common`, `Arith` | options and results; division with remainder |

Conventions. Addresses and order hashes are compared lower-cased in the source; they are
numbers here, or lower-case strings where the text matters. A transaction hash is identified
with the signed bytes. BigInt amounts are unbounded integers, as in the source; BigInt
division truncates toward zero (`Arith.TruncDiv`) and is written as floor division only where
both operands are non-negative.

What is assumed, and nothing more: engine calls are serial, the clock never goes back, a
definite "not found" and a passed nonce are true, a receipt is one of a mined transaction and
costs at most gas limit times price (`GuardRuns.Truthful` states these); a quoter contract is
a function of its call; an order's clock only moves down its band; a price is pro rata of its
tick, rounded toward the maker.

Where the code and its own documentation differ, the code is modelled:

- A leg without a span skips the margin, and the rising one compares the cost against the
  price the falling way round, so a profitable fixed-price BUY is not bid on
  (`Solver.FixedLegBidIff`, `Solver.FixedBuyIsMirrored`).
- The re-quote prediction is said to be early at worst; with a rising input leg it can be a
  second late (`Recheck.RisingCanBeLate`), and never is exactly when no tick of the leg is
  understated by scaling the rounded-down preview (`Recheck.NeverLateIff`).
- A failed send of bytes that were charged within the last hour also removes the old charge
  and the old reservation (`GuardTheorems.UndoExactIffFresh`); `GuardResent.ChargeLostInRun` is a
  run in which that happens.
- A failed call that is alone in its Multicall3 chunk is not tried again alone
  (`PoolBatch.StarvedIff`, `PoolQuote.LoneRemainderIsRefused`).
- The selected paths are not always in estimate order: the best single hop is taken first,
  and forced paths are added in their own order. `PathOrder.EstimateOrderIff` says exactly when
  the order is kept, `PathOrder.EstimateOrderIsNotKept` shows both causes.
- A direct plan that keeps no margin is built and then refused by its own pre-send check
  (`Route.SendableIff`, `Route.NoMarginIsRefused`).
- A quote issued while MAX_QUOTES bound quotes are held is evicted at once
  (`QuoteSpec.IssuedIsHeldIff`, `QuoteSpec.IssuedIsLost`).
- With more fillers at the lowest bump than a round holds, the winner, not the price, depends
  on arrival order, and only then (`AuctionRound.WinnerIgnoresArrivalIff`,
  `AuctionRound.FullTieWinnerDependsOnArrival`).

What a look notes - the timeout mark, the re-broadcasts and when the last one was - is only in
memory until the next save. After a crash in between, "timeout" may be said again, the same
bytes may go out more than five times in all, and a revert may release a reservation it would
have kept. How the transaction closes, what it cost and what the gas ledger reads do not depend
on the notes (`GuardCrash.CrashesSettleAlikeIff`).

## Model

| member | source | states |
|---|---|---|
| Ledger.SpendRefines | packages/beta-filler/src/policy.ts:522-529 | recording a spend in the pruned ledger is recording it in the never-pruned history: pruning when spending loses nothing that still counts, and a re-spend of one reference replaces its entry |
| Ledger.SettleRefines | packages/beta-filler/src/policy.ts:535-541 | settling a reservation commutes with pruning, for every pruning time |
| Ledger.SpendKeepsCap | packages/beta-filler/src/policy.ts:506-529 | a spend admitted by what is left keeps every one-hour window of the history within the cap, idempotent re-spends included |
| Ledger.SettleKeepsCap | packages/beta-filler/src/policy.ts:535-541 | settling to no more than was charged keeps every window within the cap |
| GuardObjects.Budget.constructor | packages/beta-filler/src/policy.ts:496-500 | a budget starts with the given entries and caps |
| GuardObjects.Budget.Prune | packages/beta-filler/src/policy.ts:502-504 | exactly the entries younger than the hour stay, in their order, and no later read of what is left, for any token and cap, can tell the difference |
| GuardObjects.Budget.Left | packages/beta-filler/src/policy.ts:506-513 | what is left is the cap less the window's sum, never negative, and reading it prunes |
| GuardObjects.Budget.Record | packages/beta-filler/src/policy.ts:522-529 | a spend prunes, then replaces the entry of its reference and token or appends |
| GuardObjects.Budget.Adjust | packages/beta-filler/src/policy.ts:535-541 | settling replaces the amount in place, removes on zero, and ignores an unknown reference |
| GuardObjects.Guard.constructor | packages/beta-filler/src/guard.ts:182-206 | a guard starts from the saved record |
| GuardObjects.Guard.HasRoom | packages/beta-filler/src/guard.ts:255-259 | the gas check prunes the ledger and says whether limit times price fits |
| GuardTheorems.UntrackedStreak | packages/beta-filler/src/guard.ts:229-232 | over any number of refusals in a row for untracked transactions the streak starts at the first, ends at the last and counts what the last one saw |
| GuardTheorems.SendEndsStreak | packages/beta-filler/src/guard.ts:431-492 | a send that passes the nonce check ends the streak, however the send itself ends |
| GuardObjects.Guard.Send | packages/beta-filler/src/guard.ts:413-492 | a send attempt ends in the state, with the result and with the durable and external events of the protocol's micro steps, in that order |
| GuardObjects.Guard.SignAndSend | packages/beta-filler/src/guard.ts:461-491 | charge, reserve, record, commit, hand over: a commit that throws undoes everything and hands nothing over |
| GuardObjects.Guard.HandToNode | packages/beta-filler/src/guard.ts:475-491 | only a definite "not found" after a send error undoes the send |
| GuardObjects.Guard.UndoRefused | packages/beta-filler/src/guard.ts:482-488 | a definite refusal takes the charges back, clears the record, and commits |
| GuardObjects.Guard.LookAtPending | packages/beta-filler/src/guard.ts:575-624 | one look at the outstanding transaction ends in the state, status and events of the resolution's micro steps |
| GuardObjects.Guard.LookOverdue | packages/beta-filler/src/guard.ts:587-612 | an overdue look: replaced nonce with the receipt re-read, re-broadcast of the same bytes, or the unmined cases |
| GuardObjects.Guard.StillUnmined | packages/beta-filler/src/guard.ts:613-623 | unmined: timeout once, wait, or drop only when definitely unknown after 15 minutes |
| GuardObjects.Guard.ReadReceipt | packages/beta-filler/src/guard.ts:636-650 | a receipt settles the real cost, clears or strikes the key, releases only a timely revert's reservation |
| GuardRuns.NextKeeps | packages/beta-filler/src/guard.ts:413-650 | every step of the world, a crash in the middle included, keeps the invariant tying memory, store, node and ledgers together |
| GuardTheorems.SentOnlyCommittedAndAlone | packages/beta-filler/src/guard.ts:461-476 | in every run with crashes: bytes handed to the node were in the committed record, charged at the limit, and no other transaction was unresolved |
| GuardTheorems.MempoolIsCharged | packages/beta-filler/src/guard.ts:461-492 | whatever the node may still mine is outstanding and charged, in memory and in the store |
| GuardTheorems.HourlyGasCap | packages/beta-filler/src/policy.ts:492-546 | over every run: the gas really paid for transactions whose latest send falls in one hour is at most the hourly cap |
| GuardTheorems.LedgersWithinCap | packages/beta-filler/src/guard.ts:255-264 | over every run: the ledgered gas of every one-hour window is within the cap, and the guard's pruned ledger is that history's live part |
| GuardTheorems.OneSendPerTick | packages/beta-filler/src/engine.ts:634-675 | any list of send attempts without a look in between sends at most one transaction, none while one is outstanding |
| GuardTheorems.OneLook | packages/beta-filler/src/guard.ts:575-650 | what one look may change, status by status |
| GuardLook.LookStatusIff | packages/beta-filler/src/guard.ts:575-650 | which status a look returns, and at what cost, exactly by its inputs: the receipts read, the mined nonce, the age, the timeout mark, and what the node knows |
| GuardLook.LookClosesIff | packages/beta-filler/src/guard.ts:575-624 | exactly when a look closes the transaction: a receipt was seen, or the nonce is past, or the node does not know it after 15 minutes and the timeout is not due first |
| GuardLook.ResendIff | packages/beta-filler/src/guard.ts:598-612 | exactly when a look hands bytes to the node, which ones, and what it notes on a transaction it leaves outstanding |
| GuardLook.ReceiptEnds | packages/beta-filler/src/guard.ts:575-580 | over any looks: a receipt seen at one of them leaves nothing outstanding at the end |
| GuardLook.VanishedEnds | packages/beta-filler/src/guard.ts:613-623 | over any looks: two of them 15 minutes after the send, at a node that does not know it, leave nothing outstanding |
| GuardLook.RoomInRuns | packages/beta-filler/src/policy.ts:506-513 | over every run: what a send may cost is the hourly cap less what the last hour was charged |
| GuardLook.SendResultIff | packages/beta-filler/src/guard.ts:413-492 | exactly when a send is refused and for which check, throws, fails or is sent - then at the mined nonce with the request's own fields |
| GuardLook.SentRecord | packages/beta-filler/src/guard.ts:443-462 | what a sent transaction is recorded as, the limit charged, the outflow reserved |
| GuardBackoff.StrikesInARow | packages/beta-filler/src/guard.ts:297-315 | over any number of reverts in a row: that many strikes, blocks of 1, 4, 16 and 60 minutes, from the fifth on until the order's expiry |
| GuardBackoff.RevertIs | packages/beta-filler/src/guard.ts:297-315 | one revert: the next strike, or the first again when the last block lapsed a day ago |
| GuardBackoff.CloseNotes | packages/beta-filler/src/guard.ts:593-650 | what the look that closes a transaction does to its key: cleared by a success, the next strike after a revert, half a minute after a drop |
| GuardBackoff.SimFailIs | packages/beta-filler/src/guard.ts:286-294 | a failure before sending: half a minute doubling to five, for that strategy on that key |
| GuardBackoff.RevertAdmits | packages/beta-filler/src/guard.ts:271-283 | after a revert nobody is let in until the block ends; then only a strategy's own failures count |
| GuardBackoff.SuccessAdmits | packages/beta-filler/src/guard.ts:326-331 | after a success nothing keeps the key from being acted on |
| GuardBackoff.OthersAsBefore | packages/beta-filler/src/guard.ts:286-341 | what happens to one key lets nobody in or out on another, at any later time |
| GuardTheorems.LifecycleExact | packages/beta-filler/src/guard.ts:575-650 | for every sequence of looks: gas ledger, its history and the budgets end exactly as the closing status says, at most 5 re-broadcasts of the same bytes, one timeout |
| GuardTheorems.SendToResolution | packages/beta-filler/src/guard.ts:461-650 | from the send of bytes not charged in the last hour to their resolution, whatever the node answers: the pruned gas ledger gains the receipt's cost, or after a drop the limit; a revert before the timeout releases the reservation, anything else keeps it; nothing else in the ledgers changes |
| GuardTheorems.FailedSendLeavesNothing | packages/beta-filler/src/guard.ts:464-490 | a send of such bytes that did not happen leaves gas ledger and budgets as pruning would, with no charge, no reservation, nothing outstanding |
| GuardTheorems.UndoExactIffFresh | packages/beta-filler/src/guard.ts:466-473 | undoing a send leaves the gas ledger, and the budget its outflow was reserved on, each as pruning would if and only if the bytes had no entry there in the last hour; else that entry goes too, and the other budgets stay |
| GuardTheorems.ResentBytesLoseTheirCharge | packages/beta-filler/src/guard.ts:466-473 | a state in which it goes: the bytes are still charged, the put throws, the gas ledger ends empty and the whole hourly budget is free |
| GuardResent.ChargeLostInRun | packages/beta-filler/src/guard.ts:461-623 | a whole run to that state and past it from an empty store, for every request that fits twice in the budget: send, timeout, drop, the same bytes again, the put throws |
| GuardTheorems.CrashedLookIsForgotten | packages/beta-filler/src/guard.ts:575-624 | in any world: a look cut short by a crash, wherever, leaves the committed record, in memory and in the store |
| GuardCrash.CrashesSettleAlikeIff | packages/beta-filler/src/guard.ts:575-650 | two runs that part with a transaction outstanding, with any looks, saves, crashes and restarts in either and the same closing answer (receipt, passed nonce or drop) read at any time: same status and cost, same gas history, gas ledgers that read the same; the budgets are the same if and only if the close is no revert, or the timeout marks agree, or there is nothing to release; in a run with no unsaved pre-send failure the backoff is what the answer makes, at its time, of the backoff before, so the same in both after a success or at equal times |
| GuardCrash.CrashedSendSettlesAlikeIff | packages/beta-filler/src/guard.ts:461-476 | the same of a run that sends and a run that crashes anywhere in that send after its commit, the bytes handed over or not |
| Sweep.Engine.RunSweep | packages/beta-filler/src/engine.ts:444-567 | one sweep over the book is the pass over the visit order, from the stored cursor |
| Sweep.Engine.VisitEntry | packages/beta-filler/src/engine.ts:470-563 | one visit: bounds, expiry, holds, the permit stage, the dispatch, the cursor and the stop at a sent transaction |
| SweepFairness.AcceptedRoundRobin | packages/beta-filler/src/engine.ts:105-111 | the accepted orders of the round-robin order are the accepted hashes in cyclic order from just after the cursor |
| SweepFairness.SweepEvaluates | packages/beta-filler/src/engine.ts:444-567 | a sweep of a seen, unheld book evaluates a prefix of that cyclic order, wherever it stops |
| SweepFairness.SweepsAreCyclic | packages/beta-filler/src/engine.ts:444-567 | over successive sweeps, whatever the order limits, evaluation runs through the accepted hashes cyclically without a gap |
| SweepFairness.NoneTwiceBeforeAllOnce | packages/beta-filler/src/engine.ts:105-111 | between two evaluations of one order every other accepted order is evaluated |
| SweepExact.SweepIs | packages/beta-filler/src/engine.ts:444-567 | any sweep of any book, whatever its entries answer: it goes over new orders, oldest first, then the others from the cursor, up to exactly the entry after which it ends - a bound, a sent transaction, or the last - with the orders evaluated, the held count, the cursor and what is seen |
| SweepExact.SweepIsFull | packages/beta-filler/src/engine.ts:444-567 | a seen, unheld book where every visit may continue and none sends: exactly the first `maxOrders` accepted orders from the cursor, all without a limit; bounded exactly when there are more |
| SweepExact.VisitHolds | packages/beta-filler/src/engine.ts:492-550 | what a visit holds afterwards, and until when: the first of the moments at which the verdict lapses |
| AuctionRound.OfferKeepsLowest | packages/auction/src/round.ts:202-225 | one placement keeps the standing bids the lowest of all best bids |
| AuctionRound.StandingKeepsLowest | packages/auction/src/round.ts:144-154 | after any interleaving of bids, re-bids and evictions the round holds the lowest of every filler's best bid |
| AuctionRound.LowestBumps | packages/auction/src/round.ts:144-154 | the standing bumps, sorted, are exactly the first min(cap, n) of the n best bumps |
| AuctionRound.CappedOutcome | packages/auction/src/round.ts:237-256 | price, winning bid, runner-up and quorum verdict of a capped round are those of all bids |
| AuctionRound.LowestStandIff | packages/auction/src/round.ts:144-154 | every filler's best bid at the lowest bump is standing if and only if no more fillers than the cap bid that low |
| AuctionRound.WinnerIgnoresArrivalIff | packages/auction/src/round.ts:202-256 | the capped winner is the winner of all bids for every order of arrival if and only if no more fillers than the cap bid the lowest bump |
| AuctionRound.FullTieWinnerDependsOnArrival | packages/auction/src/round.ts:211-224 | two arrival orders of one full tie, two winners |
| AuctionPrice.OutcomeIs | packages/sdk/src/auction.ts:105-147 | over the bids themselves: nothing when none is in range; else the least filler bidding the lowest wins, charged nothing below the quorum, its own bid under first price or alone, the lowest of anyone else under second price |
| AuctionPrice.PlacementIff | packages/auction/src/round.ts:203-225 | exactly when a bid is taken, whom it displaces, and why it is refused |
| AuctionService.Round.constructor | packages/auction/src/round.ts:111-114 | a new round is open and empty |
| AuctionService.Round.Begin | packages/auction/src/round.ts:163-178 | the first reason that applies, in the order settled, void, closed, other order, other round, bump, placement, is the one returned; else the signed fields go to verification |
| AuctionService.Round.EarlyRefusalIff | packages/auction/src/round.ts:163-178 | exactly when a submission goes on to its signature checks, and which reason refuses it otherwise |
| AuctionService.Round.Finish | packages/auction/src/round.ts:180-199 | signatures, settled, void, then the placement decided again on the standing bids as they are now; accepted bids are applied in the same step, refused ones change nothing |
| AuctionService.Round.Place | packages/auction/src/round.ts:203-225 | the loop over the standing bids returns the placement decision: which reason refuses, or what is displaced |
| AuctionService.Round.Settle | packages/auction/src/round.ts:237-256 | settling freezes the selection rule's outcome of the standing bids, once |
| AuctionService.Round.SettledPriceIs | packages/auction/src/round.ts:237-256 | the settled winner, price and runner-up are those the standing bids make |
| AuctionService.Round.Void | packages/auction/src/round.ts:259-261 | a settled round cannot be voided |
| AuctionService.Round.SettledIsUncapped | packages/auction/src/round.ts:144-154 | price, winning bid, runner-up and quorum verdict of a settled round are those of every verified bid offered, the winner too when the lowest bidders fit the cap, and its record passes its own audit |
| AuctionService.CheckRound | packages/auction/src/round.ts:303-347 | the audit passes exactly when policy, authenticity, no duplicate and arithmetic hold |
| AuctionService.AuditPinsOutcome | packages/auction/src/round.ts:303-347 | two records of the same bids, in whatever order they are published, that pass the same audit have the same winner, price, winning bid and bidders; the winner is the least filler of the lowest bump |
| AuctionService.AuditMeans | packages/auction/src/round.ts:303-347 | a passing audit vouches for the winner and price the published bids make |
| Solver.BidIsLeastClearing | packages/auction/src/solver.ts:162-210 | the bid is the least bump of 0..10000 at which the integer tick pays the net amount and the margin on it, null exactly when the band's end does not |
| Solver.BidAnswers | packages/auction/src/solver.ts:162-188 | exactly when there is an error, and none to give when nothing would be left |
| Solver.BidCannotLose | packages/auction/src/solver.ts:162-210 | at the bump bid and at every larger one the tick covers net cost and margin |
| Solver.FixedLegBidIff | packages/auction/src/solver.ts:189-192 | without a span, exactly when the answer is the least bump that pays net amount and margin |
| Solver.FixedBuyIsMirrored | packages/auction/src/solver.ts:190-192 | a profitable fixed BUY that is not bid on, and a losing one that is |
| Solver.CostYieldsRequired | packages/auction/src/solver.ts:370-379 | the interpolated cost is the least worth the required output at the quoted rate; through any venue with diminishing returns it yields that output, within the quoted input |
| Solver.CostIs | packages/auction/src/solver.ts:355-379 | a SELL costs what it pays out; a BUY the least amount worth the output, or nothing can be said when the quote falls short |
| Solver.GasCovers | packages/auction/src/solver.ts:95-104 | converted gas covers the fee and is less than one unit too much |
| Solver.BuyBidPaysForItself | packages/auction/src/solver.ts:370-379 | cost, gas and bid together: the input received at any charged bump buys the required output and pays the gas |
| PoolGraph.BuildAdjacency | packages/beta-filler/src/poolGraph.ts:345-356 | the adjacency lists each token's neighbours in order of appearance and every pool of a pair, both ways |
| PoolGraph.EnumeratePaths | packages/beta-filler/src/poolGraph.ts:336-390 | the nested walk and pick produce the first `cap` paths of the specified list |
| PoolGraphPaths.SequencesExact | packages/beta-filler/src/poolGraph.ts:363-374 | the token sequences are exactly the simple hub-only ones within the hop bound, each once, shorter first |
| PoolGraphPaths.EnumerationExact | packages/beta-filler/src/poolGraph.ts:331-390 | a path is enumerated if and only if it is such a sequence with an existing pool's fee and venue on every hop |
| PoolGraphPaths.EnumerationOnce | packages/beta-filler/src/poolGraph.ts:331-390 | with distinct pools no path is enumerated twice, and fewer hops come first |
| PoolGraphPaths.CappedEnumeration | packages/beta-filler/src/poolGraph.ts:375-389 | a capped list holds routes only, each once, shorter first; all of them while the cap is not reached, and never a longer route while a shorter one is missing |
| PoolEstimate.HopKeepsProduct | packages/beta-filler/src/poolGraph.ts:412-421 | the constant product never falls and the output stays below the reserve |
| PoolEstimate.HopMono | packages/beta-filler/src/poolGraph.ts:412-421 | more in, no less out |
| PoolEstimate.HopAndBack | packages/beta-filler/src/poolGraph.ts:412-421 | a hop and its reverse never estimate more than was put in |
| PoolEstimate.PathMono | packages/beta-filler/src/poolGraph.ts:429-443 | path estimates are monotone, and missing for every input or for none |
| PoolEstimate.DividesByZeroIff | packages/beta-filler/src/poolGraph.ts:412-421 | for every pool, fee and input: exactly when the estimate divides by zero |
| PoolEstimate.HopIs | packages/beta-filler/src/poolGraph.ts:412-421 | the most the pool can give for the input after the fee without its virtual product falling; thin exactly over a tenth of the reserve |
| PoolEstimate.ReservesAre | packages/beta-filler/src/poolGraph.ts:415-419 | the virtual reserves of either token, rounded down |
| PoolEstimate.PathIs | packages/beta-filler/src/poolGraph.ts:429-443 | each hop on what the hop before gives, missing when one is, thin exactly when one is |
| PathSelect.RankingIs | packages/beta-filler/src/poolGraph.ts:479-487 | the ranking holds every usable path, thin ones only without others, best net estimate first |
| PathSelect.RankingByNet | packages/beta-filler/src/poolGraph.ts:474-487 | exactly which paths are ranked, each before those of a smaller estimate less the penalty of its extra hops, or of the same one given later |
| PathSelect.SelectPaths | packages/beta-filler/src/poolGraph.ts:473-500 | the insertion-ordered picking is the specified selection, or the division by zero is thrown |
| PathSelect.SelectionIs | packages/beta-filler/src/poolGraph.ts:463-500 | no path twice; best single hop, a top part of the ranking, every unknown single hop, every forced path, nothing else |
| PathOrder.EstimateOrderIff | packages/beta-filler/src/poolGraph.ts:471-500 | the ranked picks come in ranking order if and only if the best single hop leads the ranking, or none is ranked, or one path is picked, and the forced paths ranked below the top part are given in ranking order, none of them above the best single hop |
| PathOrder.EstimateOrderIsNotKept | packages/beta-filler/src/poolGraph.ts:488-499 | a graph on which it fails, by the single hop and by a forced path |
| PoolBatch.Single | packages/beta-filler/src/poolQuote.ts:68-79 | each plain call answers as its quoter does, or is transient because its own request was dropped |
| PoolBatch.RunCalls | packages/beta-filler/src/poolQuote.ts:89-116 | each call of a batch answers as its quoter does unless the request that carried it failed: the chunk's, the re-run's, or the chunk of a lone remainder |
| PoolBatch.StarvedIff | packages/beta-filler/src/poolQuote.ts:98-113 | a call whose quoter has an answer stays failed exactly when it is the last of a batch of 4n + 1 calls and the batch's last request, its own chunk, comes back without it |
| PoolBatch.LostIff | packages/beta-filler/src/poolQuote.ts:68-113 | a call is called transient exactly when a request that carried it got no answer: its chunk's, or the one it was run again in |
| PoolQuote.QuotePaths | packages/beta-filler/src/poolQuote.ts:124-176 | the rounds sent are those of a full run, each with the next call of exactly the paths that still ask, no more than the longest path has hops; each result is exactly the path's own quote unless a request this run sent for it failed |
| PoolQuote.FailureIff | packages/beta-filler/src/poolQuote.ts:157-173 | transient exactly when a request this run sent for the path got no answer; not transient exactly for a missing venue, a reverting or zero call, or a lone remainder left failed |
| PoolQuote.RunIsForced | packages/beta-filler/src/poolQuote.ts:124-176 | a job has one full run, so what is sent and every result is determined |
| PoolQuote.LoneRemainderIsRefused | packages/beta-filler/src/poolQuote.ts:106-112 | five paths that each quote alone; batched, the fifth is refused and not called transient |
| PoolQuote.QuoteAloneIs | packages/beta-filler/src/poolQuote.ts:9-18 | a path alone is one call on a single venue, else its hops forward for exact input and backward for exact output, gas summed |
| Route.GrossUpIsLeast | packages/beta-filler/src/route.ts:405-414 | the grossed-up surplus is the least whose kept share covers the cost |
| Route.GateIff | packages/beta-filler/src/route.ts:441-465 | exactly when the gate passes: the quote after the haircut covers what is owed and the least surplus whose kept share pays gas and minimum profit; when it throws; and the figures it returns |
| Route.PlanCarries | packages/beta-filler/src/route.ts:496-545 | what a built plan carries, the live output patched exactly when asked for, and the most a direct plan may spend |
| Route.PullFillPays | packages/beta-filler/src/route.ts:441-526 | gate passed and floor honoured: the filler's share after the split is at least gas and minimum profit |
| Route.DirectFillPays | packages/beta-filler/src/route.ts:527-545 | gate passed: the input residue at the quoted rate covers the cost, and the ceiling buys the owed output up to one input unit |
| Route.BuildFailsIff | packages/beta-filler/src/route.ts:527-530 | exactly when a plan cannot be built |
| Route.SendableIff | packages/beta-filler/src/route.ts:552-592 | exactly which fills get a plan that passes its own pre-send check: the path joins the order's tokens, and a direct plan keeps a margin and has an input unit's worth left to buy with |
| Route.NoMarginIsRefused | packages/beta-filler/src/route.ts:527-592 | a direct fill without a margin: its plan is built and refused |
| Route.RankingIsForced | packages/beta-filler/src/route.ts:643-648 | the ranking lists every candidate once, best net first, ties in input order, and no other arrangement does |
| Recheck.ProfitableAt | packages/beta-filler/src/recheck.ts:34-83 | the first passing second of the scaled preview, else the floor inside the horizon, else none |
| Recheck.ScaledIs | packages/beta-filler/src/recheck.ts:65-79 | the scaled amounts, rounded down and up by less than a unit |
| Recheck.NoAnswerIff | packages/beta-filler/src/recheck.ts:47-83 | exactly when there is no answer |
| Recheck.NeverLateIff | packages/beta-filler/src/recheck.ts:23-26 | for every clock, gate and horizon the prediction is no later than the first second the order's own price passes, if and only if scaling the preview understates no tick of a rising input leg; a falling output leg never makes it late |
| Recheck.ExactPreviewIsEarly | packages/beta-filler/src/recheck.ts:76-79 | a preview that lost nothing to rounding understates no tick |
| Recheck.LossyCanBeEarly | packages/beta-filler/src/recheck.ts:76-79 | and one that lost a fraction need not understate any: a tenth of a leg from 19 to 20 |
| Recheck.RisingCanBeLate | packages/beta-filler/src/recheck.ts:76-79 | an order, preview, clock and gate whose price passes at second 1 and whose prediction is second 2 |
| Recheck.ScaledQuoteIsHigh | packages/beta-filler/src/recheck.ts:85-88 | a quote scaled up is no lower than a concave venue's own quote |
| Pricing.FilterIsSafe | packages/beta-filler/src/policy.ts:349-363 | an order the zero-RPC filter refuses is refused by the full check at every partial size |
| Pricing.FilterIff | packages/beta-filler/src/policy.ts:345-363 | the filter refuses exactly the resting orders whose whole fill the price check refuses |
| Pricing.PriceOkIff | packages/beta-filler/src/policy.ts:319-343 | the price check in cross products |
| Pricing.CappedFits | packages/beta-filler/src/policy.ts:457-468 | a capped size previews at or below the cap, and is within two units of what the cap allows |
| Pricing.CapIs | packages/beta-filler/src/policy.ts:457-468 | the capped size exactly |
| Pricing.RailInverse | packages/beta-filler/src/policy.ts:406-419 | the USDRIF asked for is exactly the least that redeems to the RIF |
| Pricing.RailOutIs | packages/beta-filler/src/policy.ts:406-412 | what redeeming pays after the fee and the haircut, rounded down |
| QuoteRegistry.QuoteBook.constructor | packages/beta-filler/src/quote.ts:298-304 | loading any saved list keeps its last MAX_QUOTES records, each order indexed to the last quote that carries it; when no order is carried twice the book is in step |
| QuoteRegistry.QuoteBook.Issue | packages/beta-filler/src/quote.ts:310-315 | issuing prunes, appends and evicts, and keeps the index exact |
| QuoteRegistry.QuoteBook.Match | packages/beta-filler/src/quote.ts:321-338 | matching returns the order's binding, else binds the newest unbound quote it fits, in place |
| QuoteRegistry.QuoteBook.Prune | packages/beta-filler/src/quote.ts:341-348 | pruning drops lapsed quotes and takes exactly their orders out of the index |
| QuoteRegistry.QuoteBook.Evict | packages/beta-filler/src/quote.ts:350-356 | over the limit the oldest unbound quote goes first |
| QuoteRegistry.QuoteBook.ToJson | packages/beta-filler/src/quote.ts:358-360 | the saved list is the records held |
| QuoteSpec.RunKeeps | packages/beta-filler/src/quote.ts:294-361 | over every run: at most MAX_QUOTES, no order priced twice, and an unexpired binding is never moved or lost |
| QuoteSpec.MatchedAgain | packages/beta-filler/src/quote.ts:317-338 | asking again about a priced order gives the same quote whatever has changed |
| QuoteSpec.PricedIff | packages/beta-filler/src/quote.ts:268-338 | exactly which quote prices an order - the one bound to it, else the newest unbound one it was signed from by tokens, maker, kind, size, price and time - and what matching changes |
| QuoteSpec.LapsedGoIff | packages/beta-filler/src/quote.ts:341-348 | exactly what pruning drops |
| QuoteSpec.OldestGoes | packages/beta-filler/src/quote.ts:350-356 | which quote goes when there is one too many |
| QuoteSpec.IssuedIsHeldIff | packages/beta-filler/src/quote.ts:350-356 | exactly when a new quote is evicted at once |
| QuoteSpec.IssuedIsLost | packages/beta-filler/src/quote.ts:310-356 | with MAX_QUOTES bound quotes, none expired, a new quote is gone at once |
| QuoteSpec.MatchedAsksNoMore | packages/beta-filler/src/quote.ts:268-292 | a matched order asks no more than the quoted amount within a basis point, and is no larger than quoted |
| GasLearning.GasRatios.constructor | packages/beta-filler/src/gasRatio.ts:106-121 | loading clamps the default, cleans the figures and evicts |
| GasLearning.GasRatios.RatioPpm | packages/beta-filler/src/gasRatio.ts:123-129 | the clamped maximum of the recent ratios, else the default |
| GasLearning.GasRatios.Typical | packages/beta-filler/src/gasRatio.ts:136-142 | the maximum of the recent estimates |
| GasLearning.GasRatios.PricedGas | packages/beta-filler/src/gasRatio.ts:145-147 | the estimate at the learned ratio, rounded up |
| GasLearning.GasRatios.Record | packages/beta-filler/src/gasRatio.ts:150-167 | a receipt pushes its ratio and estimate, drops the oldest, moves the shape last and evicts |
| GasLearning.GasRatios.Evict | packages/beta-filler/src/gasRatio.ts:169-173 | the oldest shapes over the limit go |
| GasSpec.LearnKeeps | packages/beta-filler/src/gasRatio.ts:150-173 | windows, shape count and order of last change are kept; the shape just learned stays and only the least recently updated may go |
| GasSpec.RatioIs | packages/beta-filler/src/gasRatio.ts:123-147 | ratio and typical estimate are the largest of the last five figures, the ratio brought into 0.6 to 1.0; the priced gas is the least amount at it |
| GasSpec.PpmIs | packages/beta-filler/src/gasRatio.ts:150-158 | what a receipt is worth, rounded up, ten times its estimate at most |
| GasSpec.WindowIs | packages/beta-filler/src/gasRatio.ts:106-173 | over every run with restarts: a shape's windows are exactly the last twenty figures held and received |
| GasSpec.RunKeeps | packages/beta-filler/src/gasRatio.ts:100-173 | over every run with restarts: bounded windows of usable figures, at most MAX_SHAPES shapes |
| GasSpec.RestartIsIdentity | packages/beta-filler/src/gasRatio.ts:106-121 | saving and loading a learned state changes nothing |
| GasSpec.LearnedIsCovered | packages/beta-filler/src/gasRatio.ts:123-147 | while a shape is retained, priced gas covers each of its last RECENT receipts that stayed within their estimate |
| GasSpec.PricedBounds | packages/beta-filler/src/gasRatio.ts:145-147 | priced gas is between 0.6 and 1.0 of the estimate |
| ModuleShapes.StripComments | tools/check-module-shapes.py:707-735 | the index loop over the output array blanks exactly what a character automaton calls a comment |
| ModuleShapes.StripIsIdempotent | tools/check-module-shapes.py:707-735 | length, newlines, code and literals are kept, no comment is left, and stripping again changes nothing |
| ModuleShapes.StripFixesIff | tools/check-module-shapes.py:707-735 | a text is its own stripping exactly when its comments are blank already |
| StripTokens.TokensStrip | tools/check-module-shapes.py:707-735 | any text written as plain characters, literals with escapes, and line and block comments: exactly the comments are blanked, their line ends kept |
| ModuleShapes.Closure | tools/check-module-shapes.py:692-704 | the worklist lists the entry first and exactly the functions it reaches, each once |
| PathText.ParsesBack | packages/beta-filler/src/poolGraph.ts:315-323 | parsing a printed path gives that one path back: tokens up to case, fees and venues |
| PathForms.FormsParse | packages/beta-filler/src/config.ts:716-745 | every way of writing a path - a venue on hops, on the entry, or neither - and what it reads as or that it is refused |
| PathForms.ListParses | packages/beta-filler/src/config.ts:716-722 | a list reads as its entries do, in order, and is refused when one is |
| PathText.KeyIsInjective | packages/beta-filler/src/poolGraph.ts:319-323 | two paths have one key exactly when tokens up to case, fees and venues agree |
| PathText.AcceptedIsCanonical | packages/beta-filler/src/config.ts:716-745 | whatever the parser accepts is a legal path that printing and parsing gives back |
| PathText.ReadParts | packages/beta-filler/src/config.ts:730-741 | pushing tokens, fees and venues part by part is the specified reading, with its errors |

## Left out

- GuardSpec: records of state files from before 2026-10 (an adopted pending without nonce or raw bytes) and the status views of the guard.
- GuardRuns.Truthful: a cost above limit times price, a false "not found" and concurrent engine calls are outside the model; reservable budgets are the two the filler registers, inventory and route.
- Sweep.Engine.RunSweep: the two returns before a sweep begins (the total fill cap reached, a transaction outstanding), event hooks, logging and the persisted recent-events list; what a strategy or a permit read answers is an input.
- AuctionRound: the SDK's signature checks are a predicate on bids (`AuctionService.Genuine`); its selection rule is written out.
- AuctionService.CheckRound: the text of a refusal.
- Solver: which leg an order prices and the soft-exclusivity premium folded into the band before the bid.
- PoolGraph: discovery of pools, and the address spelling an enumerated path carries (its lower case identifies it).
- PathSelect: the key strings of the picked map; `PathText.KeyIsInjective` says that they identify a path.
- PoolQuote.QuotePaths: the encoding of a path in calldata, and the reason texts of failed calls.
- Route.BuildPoolPlan: encoding a route in calldata and decoding it again is taken to give the same route; API plans are not modelled.
- Recheck: the SDK's bump at a second is a function given to the prediction; the recheck in milliseconds.
- QuoteRegistry.QuoteBook.Match: what the methods do once a list was loaded in which two records carry one order, which the book itself never writes; the constructor says what is loaded.
- QuoteSpec: pricing a new quote (one line of arithmetic) and the request checks.
- GasSpec: shape keys are opaque strings; a clock that goes back, under which the shape just learned may be evicted.
- ModuleShapes: the text rules built on the lexer; whether one function calls another by name is a given relation. A comment opened and closed by one slash, star, slash is closed there, as in the code.
- PathText: checksummed addresses are kept lower-case, and white space beyond ASCII is not trimmed.
- Pricing: the inventory strategy's cost gates that compare a single sum.
- The on-chain contracts, RPC clients, HTTP services, the React application, the workers and the command line are not part of this model.
