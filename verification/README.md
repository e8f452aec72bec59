# A verified model of the Mango v3 perp exchange

This project models the perp exchange of Mango v3 and proves what its parts keep, alone and together:

- **The order book** (`OrderKeys`, `CritBitTree`, `BookSides`, `BookSideIters`). One side of a book is a crit-bit tree in
  a fixed array of 1024 cells with a bump index, an intrusive free list and an index of the earliest expiry below every
  inner node. `BookSide` is a class over that array with the loops of the source. A ghost tree ties the cells to an
  ordered list (`OrderLists`), and the list to a finite map.
- **The matching engine** (`Matcher`, `OrderPlacement`, `Books`). The rules for an incoming order are written once on the
  price-time ordered list. `Books` walks the tree, collects changes, applies them afterwards, sends events, posts what
  remains and charges fees, and is proved to do what the rules say, for every order type and every failure.
- **The settlement protocol** (`PerpState`, `MangoAccounts`, `Ledger`, `Exchange`, `Placing`, `Cancels`, `Settlements`,
  `Liquidations`, `Conservation`, `Runs`, `Safety`, `CancelOutcomes`, `Posting`, `Progress`, `Crossings`,
  `NeverCrossed`, `ReduceOnly`, `Witnesses`). All accounts, all markets with both books and the event queue form one
  state. Placing, consuming, cancelling, funding, settling, liquidating and bankruptcy are its steps. Invariants are
  proved for every step and so for every run from an empty exchange. What a step does to the book is said as well
  without the functions that compute it. `Handlers` and `BookCancels` are the instruction handlers as methods on
  account, market, book and queue objects.
- **The dry run of an order** (`DryRuns`, `Simulation`, `Referrals`, `TriggeredOrders`), when the order does just what the
  dry run said, and triggered orders, which rely on it.
- **Banks and health** (`Bank`, `Interest`, `TokenBanks`, `Health`, `HealthCaches`, `Powers`): indexed deposits and
  borrows with rounding, interest, socialized losses, the worst-case value of positions and the incrementally updated
  cache.

Bids and asks are one piece of code with a side as parameter; the source has each twice. `I80F48` numbers are integers
that count units of 2^-48. A product is rounded down to a unit and a quotient towards zero, as the `fixed` crate does;
the crate itself is not part of this model. Lots, prices and keys are integers, with the 64-bit and 127-bit bounds written
out where the source relies on them. An error return and a panic are both an `Err`, and an instruction that fails leaves
the state as it was.

## What turned out differently from the documentation

- *The book can cross.* A bid never posts across the book. An ask can: the remainder of an ask is its quote budget divided
  by its own price (`program/src/matching.rs:1612`), so an ask that stopped for want of quote may rest below a bid it could
  not afford. `NeverCrossed.PlaceUncrossed` gives the exact condition in terms of the dry run that a caller can make first,
  `Witnesses.AskCanPostAcross` an instance, and `NeverCrossed.GuardedRunNeverCrosses` a guard on single orders that keeps
  every run from it.
- *The dry run of an ask can promise too much.* When the quote budget buys no lot of the best bid, the order does not post
  but the dry run does. `Simulation.SimPredicts` says exactly when the two differ, in terms known before the call, and
  `Witnesses.DryRunCanPromiseTooMuch` shows an instance.
- *"No unprocessed fills" is weaker than it sounds.* `has_no_open_orders` (`program/src/state.rs:2131-2137`) looks at sums,
  and taker fills on both sides can cancel out: `Witnesses.FillsCanHide`. For an account that takes on one side only it means
  what the comment says: `Safety.NoOpenOrdersOnOneSide`.
- *A socialized loss with no open interest is not spread at all.* The quote it leaves behind is `Runs.Created`; with open
  interest it is less than one unit of 2^-48 per contract.

## Model

| member | source | states |
|---|---|---|
| `OrderKeys.SharedPrefixExact` | program/src/matching.rs:749-756 | The shared prefix length of two different keys is their number of equal leading bits, below 128: prefixes agree up to it and the next bit differs. |
| `OrderKeys.SharedPrefixTest` | program/src/matching.rs:749-756 | A key shares at least `n` bits with another exactly when their `n`-bit prefixes are equal, which is what the descent tests. |
| `OrderKeys.CritBitOrders` | program/src/matching.rs:91-97 | Of two keys with a common prefix the one with the crit bit set is the larger: going left or right in the tree is key order. |
| `CritBitTree.OrdersSorted` | program/src/matching.rs:2247-2262 | The in-order leaves of a well-keyed tree are strictly sorted on either side, so keys are unique. |
| `CritBitTree.ChildBelow` | program/src/matching.rs:2216-2244 | A child node shares its parent's prefix and has the critical bit of its side, and the prefix of an inner child is strictly longer. |
| `CritBitTree.HandleCount` | program/src/matching.rs:659-710 | A tree with distinct cells takes twice its leaves less one of them. |
| `OrderLists.InsertRefinesMap` | program/src/matching.rs:711-799 | Sorted insertion is the update of a finite map at the key of the order. |
| `OrderLists.RemoveRefinesMap` | program/src/matching.rs:604-657 | Removal is the deletion of one key from that map. |
| `OrderLists.SoonestIsSoonest` | program/src/matching.rs:833-853 | The order picked is on the side and none expires before it. |
| `BookSides.BookSide.Insert` | program/src/matching.rs:677-710 | Takes a free cell or the next unused one, keeps tree cells, free list and unused tail a partition of the array, and fails with nothing changed only when there is none. |
| `BookSides.BookSide.Remove` | program/src/matching.rs:659-675 | Puts a cell on the free list and keeps the partition. |
| `BookSides.BookSide.UpdateParentEarliestExpiry` | program/src/matching.rs:813-830 | The upward walk with its early exit leaves every expiry entry of the tree exact. |
| `BookSides.BookSide.InsertLeaf` | program/src/matching.rs:711-799 | On a valid side inserts or replaces by key, returns the order replaced, keeps the whole well-formedness, and is out of space only for a new key on a full side, with the orders unchanged. |
| `BookSides.BookSide.RemoveByKey` | program/src/matching.rs:604-657 | Returns the order with the key if there is one, removes just that one and keeps the whole well-formedness. |
| `BookSides.BookSide.Capacity` | program/src/matching.rs:801-803 | Cells in use are twice the orders less one, and a side is full exactly at 512 orders. |
| `BookSides.BookSide.RestingSorted` | program/src/matching.rs:2216-2244 | The resting orders of a valid side are in strict price-time order. |
| `BookSides.BookSide.FindMinMax` | program/src/matching.rs:550-579 | The cell found holds the order with the least, or the greatest, key. |
| `BookSides.BookSide.RemoveExtreme` | program/src/matching.rs:532-539 | Removes and returns the order at that end of the side. |
| `BookSides.BookSide.FindEarliestExpiry` | program/src/matching.rs:833-853 | Finds the order that expires first and its time. |
| `BookSides.BookSide.RemoveOneExpired` | program/src/matching.rs:541-548 | Removes an order exactly when one has expired, and then one that expires first. |
| `BookSides.BookSide.SetQuantity` | program/src/matching.rs:1342-1345 | Sets the quantity of one order in place and changes no other order and no other field. |
| `BookSideIters.BookSideIter.constructor` | program/src/matching.rs:389-400 | What is to come is the list of orders valid at the time, in side order. |
| `BookSideIters.BookSideIter.FindLeftmostValidLeaf` | program/src/matching.rs:402-431 | Descends past expired subtrees without losing or repeating a valid order. |
| `BookSideIters.BookSideIter.Next` | program/src/matching.rs:435-458 | Yields the next order with its cell and leaves the rest to come; ends exactly when nothing is left. |
| `OrderLists.AllValidAtZero` | program/src/matching.rs:474-476 | At time 0 every order is valid, so iterating from 0 yields all. |
| `OrderIds.KeyToPrice` | program/src/matching.rs:132-135 | The price is recovered from the key of either side. |
| `OrderIds.KeyOrderIsPriceTime` | program/src/state.rs:2287-2295 | Key order is better price first and then first come, on both sides. |
| `OrderIds.KeyAgeOf` | program/src/state.rs:2287-2295 | A key carries its sequence number, so numbers that only grow make keys unique. |
| `EventQueues.Queue.PushBack` | program/src/queue.rs:65-77 | Appends to the sequence of events unless the ring is full. |
| `EventQueues.Queue.PopFront` | program/src/queue.rs:93-106 | Takes off the oldest event and keeps the order of the others. |
| `EventQueues.Queue.RevertPushes` | program/src/queue.rs:108-114 | Drops the newest events down to a length and takes back their numbers. |
| `FixedPoint.MulByNum` | program/src/state.rs:2009-2035 | Products with whole numbers are exact, so funding, fees and fills lose no bit. |
| `FixedPoint.DivByNum` | program/src/state.rs:2361-2386 | A quotient by `n` contracts misses by less than `n` units in all. |
| `Matcher.FillsArePrefix` | program/src/matching.rs:1242-1339 | The fills meet the valid crossing makers one by one from the best, at the makers' prices, only the last may be partial, and each records ids, slots, fees, times and versions of both orders. |
| `Matcher.BudgetsHold` | program/src/matching.rs:1242-1339 | Base, quote and the limit on fills are spent exactly by the fills and never exceeded, and at most five expired orders are dropped. |
| `Matcher.QuoteBudget` | program/src/matching.rs:1275-1286 | A match within `budget / price` lots costs no more than the budget, so with 64-bit budgets no product overflows. |
| `Matcher.StopsOnlyWhenSpent` | program/src/matching.rs:1263-1339 | Matching ends before the crossing makers are used up only when a budget is spent or the order may not take. |
| `Matcher.PostOnlyTakesNothing` | program/src/matching.rs:1263-1268 | A post-only order fills nothing and spends nothing, and may rest exactly when no valid order crosses it. |
| `Matcher.EventsInOrder` | program/src/matching.rs:1242-1339 | Events are numbered one after the other, and every one that is not a fill is the Out event of a maker that has expired. |
| `Matcher.DropsAsMet` | program/src/matching.rs:1243-1259 | While fewer than five expired makers have been dropped, matching that does not end with a fill leaves a valid maker in front. |
| `Matcher.MakersStaySorted` | program/src/matching.rs:1342-1348 | What is left of the makers is a sorted part of what was there, still with positive quantities. |
| `Matcher.MakersWereThere` | program/src/matching.rs:1342-1348 | Every maker left was there before and differs at most in quantity. |
| `Matcher.NothingLeftToTake` | program/src/matching.rs:1263-1282 | If matching ends without spending a budget, no valid maker that the order crosses is left. |
| `OrderPlacement.DropsFirstExpired` | program/src/matching.rs:1353-1364 | An order is dropped exactly when one has expired; it is one that expires first, and an Out event carries its slot, owner and quantity. |
| `OrderPlacement.EvictsWorst` | program/src/matching.rs:1366-1379 | A full side takes a new order only in place of its last one, and only at a better price; otherwise it fails. |
| `OrderPlacement.SizeAheadExact` | program/src/matching.rs:887-897 | Stopping at the first worse price or at the depth misses nothing: the result is the capped sum of lots at the price or better. |
| `OrderPlacement.PriceLimitMonotone` | program/src/matching.rs:1208-1225 | Where a bid may rest it may rest lower, and where an ask may rest it may rest higher. |
| `Posting.PriceLimitMeans` | program/src/matching.rs:1208-1225 | The price limit in one multiplication: a bid rests up to the weighted oracle price and an ask from there on, with the exception for markets that only reduce. |
| `Posting.PriceOfMeans` | program/src/matching.rs:1192-1205 | Flags and price by order type; a sliding order gets the price nearest to its own at which it crosses no valid order, or fails if there is none. |
| `Posting.OrderRests` | program/src/matching.rs:1350-1417 | An order rests exactly when its type, the price limit and the end of its matching allow it and something is left of it; then room is made and one order added that has the price, lots, owner, type, ids and times of the request and comes last at its price, in the first free slot; otherwise its side stays as it is. |
| `Posting.OrderSucceeds` | program/src/matching.rs:1168-1437 | An order succeeds exactly when it has a price, the queue has room for its events, referral terms are there for its fills and, if it rests, there is a place for it and a free slot. |
| `Posting.OrderTakes` | program/src/matching.rs:2129-2182 | The account gets the base and quote of the fills on the way and the resting lots on order, and pays taker and referral fees on the quote taken; the market books these and the maker fees, or a referrer gets its part. |
| `Books.Match` | program/src/matching.rs:1242-1339 | The loop over the iterator yields the matcher's budgets, events and stop, and collects changes that stand for the makers left; it fails exactly when the queue is full or the referral terms are missing. |
| `Books.FillMaker` | program/src/matching.rs:1281-1339 | One fill takes what the budgets allow, books it with the taker and queues the fill event. |
| `Books.DropMaker` | program/src/matching.rs:1243-1259 | An expired maker is sent to the queue as Out and marked for deletion. |
| `Books.ApplyChanges` | program/src/matching.rs:1342-1348 | Applying the collected changes and deletions to the tree leaves the makers of the matcher. |
| `Books.DropExpiredOrder` | program/src/matching.rs:1353-1364 | Drops one expired order from the posting side and queues its Out event, as the rules say. |
| `Books.EvictOrder` | program/src/matching.rs:1366-1379 | Makes room on a full side by evicting the worst order, or fails. |
| `Books.PostOrder` | program/src/matching.rs:1351-1417 | Posting follows the rules: room, slot, leaf and account in that order, with the same failures. |
| `Books.ChargeFees` | program/src/matching.rs:2129-2182 | Taker fees, referral fees and the makers' fees go where the rules say, to the bit. |
| `Books.GetBestPrice` | program/src/matching.rs:877-884 | The price of the first valid order, if there is one. |
| `Books.GetSizeAhead` | program/src/matching.rs:887-926 | The valid lots at a price or better, up to the depth. |
| `Books.SimMatch` | program/src/matching.rs:1068-1091 | The reading loop over the iterator leaves the base and quote that the dry run over the list of valid orders leaves. |
| `Books.Book.PlaceOrder` | program/src/matching.rs:1168-1437 | The whole order on tree, queue, account and market objects has the outcome of the rules, success or failure, and the referrer gets the credit and nothing else. |
| `Books.Book.SimulateOrder` | program/src/matching.rs:1021-1165 | The dry run on the tree returns the changes of the dry run on the list, or fails with it, and changes nothing. |
| `Books.Book.MatchOther` | program/src/matching.rs:1242-1348 | Collect-then-apply on the tree equals the walk over the sorted list. |
| `Books.Book.FinishOrder` | program/src/matching.rs:1350-1437 | Posts the remainder if it may rest and charges the fees of what was taken, as the rules say. |
| `MangoAccounts.PerpMarket.GenOrderId` | program/src/state.rs:2287-2295 | Uses the next number and returns the key of price and number. |
| `MangoAccounts.PerpMarket.SocializeLoss` | program/src/state.rs:2361-2386 | Clears the loss and moves both funding indexes apart by it, or leaves them with no open interest. |
| `MangoAccounts.MangoAccount.SettleFunding` | program/src/state.rs:2009-2020 | Moves exactly the funding due into the quote position. |
| `MangoAccounts.MangoAccount.ChangeBasePosition` | program/src/state.rs:2002-2006 | Changes the base position and open interest by the change of its size. |
| `MangoAccounts.MangoAccount.NextOrderSlot` | program/src/state.rs:1639-1641 | Finds the first free slot, or none. |
| `MangoAccounts.MangoAccount.AddOrderToSlot` | program/src/state.rs:1644-1666 | Counts the order and puts it into its slot, nothing else. |
| `MangoAccounts.MangoAccount.RemoveOrder` | program/src/state.rs:1668-1690 | Frees a used slot and takes the quantity off its market and side; fails on a free one. |
| `MangoAccounts.MangoAccount.ExecuteTakerFill` | program/src/state.rs:1692-1710 | Settles funding, moves the fill from on the way to the position and changes open interest. |
| `MangoAccounts.MangoAccount.ExecuteMakerFill` | program/src/state.rs:1712-1770 | Settles funding, gives the maker base and quote less fees and takes the filled order off its records. |
| `MangoAccounts.MangoAccount.GetCompleteBasePos` | program/src/state.rs:1818-1843 | Base, taker base and the maker fills found in the queue, added up. |
| `PerpState.FirstFreeIsFree` | program/src/state.rs:1639-1641 | The slot found is free and all before it are used; none is found only if all are. |
| `Ledger.WalkMovesClaims` | program/src/matching.rs:1242-1348 | For every account, the slots and lots that leave the book in matching are the ones that its events hold: lots before are lots after plus filled plus dropped. |
| `Ledger.WalkSums` | program/src/matching.rs:1284-1333 | The queued fills of an order add up, for its taker, to what was taken, and their maker fees to what is booked. |
| `Ledger.DropMakesRoom` | program/src/matching.rs:1353-1364 | Dropping an expired order moves its claims from the book to the queue. |
| `Ledger.EvictMakesRoom` | program/src/matching.rs:1366-1379 | Evicting leaves room for one order and moves the claims of the evicted one to the queue. |
| `Exchange.ConsumeKeepsLedger` | program/src/processor.rs:4864-4990 | On agreeing records consuming an event never fails, frees the slot it is about, and leaves all records agreeing. |
| `Exchange.EventPaid` | program/src/processor.rs:4864-4990 | One event takes from every account exactly what it holds of it, self-trades included. |
| `Exchange.NamesSurvive` | program/src/state.rs:1668-1690 | An order on the book keeps the slot that names it while others are freed. |
| `Placing.PlaceKeepsLedger` | program/src/matching.rs:1168-1437 | Placing any order keeps slots, quantities, taker sums and names agreeing for all accounts and markets. |
| `Cancels.CancelFreesItsSlot` | program/src/matching.rs:2014-2019 | An order found through a slot is the account's own and names that very slot, the check the source leaves out as redundant; cancelling cannot fail and changes just this. |
| `Cancels.CancelOrderExact` | program/src/processor.rs:3014-3034 | Cancelling by id fails only for an unknown id, an order no longer on the book, or, with price incentives, for want of a best price; never over the owner. |
| `Cancels.CancelFromKeeps` | program/src/matching.rs:1712-1740 | Cancelling all never fails and keeps everything agreeing, whatever the limit. |
| `CancelOutcomes.CancelAllExact` | program/src/matching.rs:1712-1740 | Cancelling all takes off the book exactly the orders that the first used slots of the market name, as many as the limit allows, 256 for 0; with a limit for all of them nothing of the account is left on either side, and the orders of others stay. |
| `Cancels.CancelSideKeeps` | program/src/matching.rs:1742-1788 | Cancelling a side with size incentives never fails and keeps everything agreeing. |
| `CancelOutcomes.MergeFinds` | program/src/matching.rs:1852-1886 | For any depth the pass finds every own key that is on the side, only own keys and each once: the best first as far as the depth reaches, then the worst first. |
| `CancelOutcomes.CancelSideExact` | program/src/matching.rs:1742-1788 | Exactly the first of the orders found, as many as the limit allows, are gone, and with a limit for every slot of the side nothing of the account is left on it; the other side and the orders of others stay. |
| `Cancels.CancelBothKeeps` | program/src/matching.rs:1789-1838 | Cancelling both sides with size incentives is cancelling the bids and then the asks with what the bids leave of the limit, although all keys are collected first; it never fails and keeps everything agreeing. |
| `CancelOutcomes.CancelBothExact` | program/src/matching.rs:1789-1838 | The same for both sides, the asks with what the bids leave of the limit. |
| `Safety.CancelBothIsRun` | program/src/matching.rs:1789-1838 | So it is a run of two instructions, and keeps what runs keep. |
| `SizeIncentives.MergeExact` | program/src/matching.rs:1852-1886 | The single pass reports every own order on the book with the valid lots of others ahead of it, capped at the depth. |
| `SizeIncentives.PassIsLookup` | program/src/matching.rs:927-948 | For a valid order that is what looking up the depth gives once the account's other orders are gone. |
| `SizeIncentives.CollectSizes` | program/src/matching.rs:1852-1886 | The loop over the iterator and the sorted keys computes that pass. |
| `SizeIncentives.GetSizeAheadOfOrder` | program/src/matching.rs:927-948 | The valid lots ahead of an order id, up to the depth. |
| `SizeIncentives.RankKeysRanked` | program/src/matching.rs:1852-1852 | The own keys in priority order, none lost. |
| `Settlements.SettlePnlEndsOne` | program/src/processor.rs:3202-3224 | Settling brings one of two opposite profits to zero, turns the sign of none and keeps their sum. |
| `Settlements.SettleFeesBounds` | program/src/processor.rs:3315-3339 | Fees stay non-negative, a loss is not turned into a profit, quote plus fees is kept, only dust can remain on both, whole units are settled outside a closing market, and nothing without a loss. |
| `Settlements.LiquidationShrinks` | program/src/processor.rs:4278-4321 | No more than asked for and than there is changes hands, and the position never turns around. |
| `Settlements.LiquidationCosts` | program/src/processor.rs:4278-4321 | At the oracle price the liquidated account pays exactly the fee on what it gives up and the liquidator gets it. |
| `Liquidations.LiquidationVerdict` | program/src/processor.rs:4262-4304 | Liquidated are exactly accounts without open orders whose maintenance health is below zero, or that are under liquidation with an initial health not above zero, for a request of the right sign and something to gain; recovered are exactly those under liquidation with an initial health above zero. |
| `Liquidations.LiquidationTakes` | program/src/processor.rs:4284-4320 | As many lots change hands as are asked for, as there are and as health needs: one less would not do, and if fewer than asked for and than there are, they do. |
| `Liquidations.LiquidationGain` | program/src/processor.rs:4284-4318 | Every lot liquidated changes the initial health by what one lot was reckoned to bring, to within a unit for every lot and one more, for long and short positions. |
| `Liquidations.EnoughLots` | program/src/processor.rs:4284-4292 | The rounded-up number of lots brings back what is missing, to within the rounding of the quotient, and one lot less would not. |
| `Liquidations.LiquidationRestores` | program/src/processor.rs:4269-4358 | Where taking over a lot raises health, a liquidation starts from an initial health not above zero, ends less than one lot above zero and, unless request or position set the limit, back at zero to within a unit for every lot; so within the one native unit at which the flag is cleared. |
| `Settlements.ForceSettleCloses` | program/src/processor.rs:7369-7385 | The smaller of two opposite positions is closed, both profits are kept and open interest falls by twice its size. |
| `Settlements.InsuranceBounds` | program/src/processor.rs:4473-4525 | The fund pays as many whole units as cover the debt, or the part asked for, but never more than it has; what is not paid stays a debt, or with the fund empty is spread over the open contracts to within one unit each. It fails exactly without a debt or a request. |
| `Conservation.ConsumeConserves` | program/src/state.rs:1692-1730 | Consuming makes no base, no quote and no open interest; maker fees go from due to paid. |
| `Conservation.PlaceConserves` | program/src/matching.rs:2129-2182 | Placing makes no quote: what the taker pays the market books and the referrer gets. |
| `Conservation.TotalFunding` | program/src/state.rs:2343-2344 | Raising both funding indexes moves quote by the sum of base positions; moving them apart moves it by the gross. |
| `Runs.SettlementsKeep` | program/src/processor.rs:3202-3224 | Settling profits, forced settlement and liquidation only move quote and base between two accounts. |
| `Runs.FundingKeeps` | program/src/state.rs:2343-2344 | A funding update moves nothing in or out, because base positions cancel out. |
| `Runs.FeesKeep` | program/src/processor.rs:3326-3339 | Settled fees go from what has accrued to the account. |
| `Runs.SocializeKeeps` | program/src/state.rs:2361-2386 | Spreading a loss changes the value of a market by its rounding alone, whatever the base position of the account. |
| `Runs.CreatedIsDust` | program/src/state.rs:2361-2386 | With open interest that rounding is less than one unit per contract. |
| `Runs.StepOutcome` | program/src/processor.rs:4318-4321 | The outcome of every instruction in its own market: ledger, positions and value. |
| `Runs.StepKeeps` | program/src/processor.rs:4864-4990 | Every instruction keeps the invariant of all markets and changes no value but by the rounding of a socialized loss. |
| `Progress.StepSucceeds` | program/src/processor.rs:4864-4990 | Exactly when each instruction of the exchange succeeds; consuming, funding, settling and cancelling all never fail. |
| `Progress.PlacedRests` | program/src/matching.rs:1350-1417 | In any sound exchange a successful order rests, or does not, as `Posting.OrderRests` says. |
| `Progress.AllCancelled` | program/src/matching.rs:1712-1740 | In any sound exchange cancelling all succeeds and, with a limit for every slot, leaves nothing of the account on either side. |
| `Progress.FundingCharges` | program/src/state.rs:2343-2344 | A funding update charges every account its base position times the change and changes nothing else. |
| `Progress.DealSettles` | program/src/processor.rs:3202-3224 | Settling, liquidating, closing out and bankruptcy change the two positions and the market by their rule, no other account and no other market. |
| `Safety.StartInv` | program/src/state.rs:2193-2255 | The empty exchange satisfies the invariant, so all that follows holds after any run. |
| `Safety.RunConserves` | program/src/state.rs:1692-1730 | Over any run the quote of a market, funding included, changes by the rounding of socialized losses and nothing else. |
| `Safety.RunConservesToDust` | program/src/state.rs:2361-2386 | While losses are spread over open contracts that is at most one unit per contract and loss. |
| `Safety.FeesStayNonNegative` | program/src/matching.rs:2174-2181 | Over any run of orders whose taker fee covers the maker rebate, accrued fees never go negative. |
| `Safety.SlotsExact` | program/src/state.rs:1639-1690 | Every used slot stands for one resting order, one queued used-up maker or one queued Out event, and a free one for none. |
| `Safety.QuantitiesExact` | program/src/state.rs:1712-1770 | Quantities on order are resting lots plus queued maker and Out lots, and never negative. |
| `Safety.NothingOnOrder` | program/src/state.rs:2131-2137 | A quantity of zero means no order, no maker fill and no Out event of the account on that side. |
| `Safety.NoOpenOrdersMeans` | program/src/state.rs:2131-2137 | What the four zeros of an account without open orders say: no order, no maker fill, no Out event, and taker fills that add up to zero. |
| `Safety.ZerosRuleOutOneSide` | program/src/state.rs:2131-2137 | With the four zeros an account has queued taker fills on both sides or on neither. |
| `Safety.NoOpenOrdersOnOneSide` | program/src/state.rs:2131-2137 | For an account with taker fills on one side at most, the four zeros hold exactly when nothing of it rests or is queued. |
| `Witnesses.FillsCanHide` | program/src/state.rs:2131-2137 | A state that keeps every invariant in which an account has the four zeros and two unprocessed fills. |
| `Safety.LongsEqualShorts` | program/src/state.rs:2002-2006 | Longs equal shorts and open interest is twice either. |
| `Safety.DrainCompletes` | program/src/state.rs:1818-1843 | After the whole queue has been consumed, every base position is what was the complete base position, and no taker lots are left. |
| `Safety.DrainPays` | program/src/state.rs:1692-1770 | After the whole queue has been consumed every account has, to the bit, the quote it had with its funding, its taker quote and the quote of its maker fills less their fees. |
| `NeverCrossed.PlaceUncrossed` | program/src/matching.rs:1611-1613 | After an order the best valid bid is below the best valid ask, exactly unless the order is an ask whose dry run rests, trades fewer lots than the valid bids at its price or better have but some, and meets no more of them than it may fill. A bid never crosses the book. |
| `NeverCrossed.AskLeavesCrossing` | program/src/matching.rs:1518-1545 | An ask ends with a fill and crossing lots left over just when it has traded some but not all the lots at its price and neither its limit nor a post-only flag has stopped it. |
| `NeverCrossed.GuardedNeverRestsAcross` | program/src/matching.rs:1611-1613 | An order that is a bid, is not a limit order, is priced above the best valid bid or has quote for all its base at that bid never rests across the book; a caller can check this before the call. |
| `Witnesses.AskCanPostAcross` | program/src/matching.rs:1612-1613 | A state that keeps every invariant, with an uncrossed book, and an ask that crosses it when placed. |
| `NeverCrossed.EnoughQuoteNeverAcross` | program/src/matching.rs:1611-1613 | With quote for all its base at a price that no valid bid exceeds an ask keeps the book uncrossed. |
| `Crossings.SlideCrossesNothing` | program/src/matching.rs:1198-1205 | The price of a sliding post-only order crosses no valid order, and is its own price on an empty side. |
| `Crossings.CrossingLeft` | program/src/matching.rs:1543-1582 | When matching ends with a fill, the lots that still cross are those that crossed less those filled. |
| `NeverCrossed.RunNeverCrosses` | program/src/matching.rs:1192-1205 | With time going forward and no ask of which the dry run rests across the book as above, no run crosses it, whatever else happens in it. |
| `NeverCrossed.GuardedRunNeverCrosses` | program/src/matching.rs:1611-1613 | No run crosses the book if each limit ask in it is priced above the best valid bid or has quote for all its base at that bid; bids and other order types need no guard. |
| `Simulation.SimIsWalk` | program/src/matching.rs:1068-1091 | Unless it runs into the limit on fills, matching leaves the base and quote that the dry run leaves. |
| `Simulation.SimPredicts` | program/src/matching.rs:1021-1165 | A successful order within its limit changes taker sums and quantities just as predicted, exactly unless it is an ask with less quote than a lot of the best bid costs and enough for its own price. |
| `Simulation.LimitMeans` | program/src/matching.rs:1269-1273 | An order runs into its limit on fills exactly when its dry run, which has none, meets more valid makers than that. |
| `Simulation.TooSmallAtOnce` | program/src/matching.rs:1535-1540 | An ask is stopped for want of quote only at the very first bid it crosses, and then has traded nothing. |
| `Simulation.EnoughQuotePredicts` | program/src/matching.rs:1099-1165 | With quote for one lot of the best valid bid an ask does what its dry run said. |
| `Simulation.UnlimitedNeverShort` | program/src/processor.rs:5671-5696 | A triggered order has no limit on quote and so never stops short. |
| `Simulation.LimitSuffices` | program/src/matching.rs:1269-1273 | With no more valid orders on the other side than fills allowed, no order runs into its limit. |
| `Witnesses.DryRunCanPromiseTooMuch` | program/src/matching.rs:1611-1613 | A state that keeps every invariant and an ask whose dry run promises lots that it does not post. |
| `Simulation.SimHealthIsReal` | program/src/processor.rs:5743-5759 | The weighted value after an order, with tiered referral fees and no referrer, is the predicted value less the predicted fees, to the bit. |
| `TriggeredOrders.SimHealthIsPosted` | program/src/state.rs:1147-1228 | The health that the cache predicts is the one it is updated to after the order. |
| `TriggeredOrders.CheckTriggered` | program/src/processor.rs:5707-5759 | Placing a triggered order on the objects ends as the rules say, and the check that health, taker sums and quantities are as predicted passes for every order that succeeds within its limit on fills; the health cache stays up to date. |
| `TriggeredOrders.ExecuteTriggered` | program/src/processor.rs:5654-5759 | From the clamped quantity over the dry run on the tree and the health it predicts to the order: nothing changes when there is nothing to reduce or health would not do, otherwise the order is placed and the check passes. |
| `ReduceOnly.OrderMoves` | program/src/processor.rs:5654-5670 | An order moves the complete base position towards its own side, by no more than its quantity less what it posts, self-trades included. |
| `ReduceOnly.ReducingIsMost` | program/src/processor.rs:2639-2664 | The quantity of a reduce-only order is as much as asked for or as fits, whichever is less, and nothing for an order that would add. |
| `ReduceOnly.OrderReduces` | program/src/processor.rs:2639-2664 | A reduce-only order leaves the complete position between zero and what it was, whatever fills at once, and what it posts still fits; counting the lots on order, all of them fit. |
| `ReduceOnly.ReduceOnlyReduces` | program/src/processor.rs:2639-2664 | In any sound exchange, once the queue is drained the base position lies between zero and the complete position before the order, and in a reduce-only market all resting orders of the account on that side cannot turn it round. |
| `Referrals.TiersAgree` | program/src/matching.rs:2057-2125 | The fee tier the dry run picks is the one the order picks without a referrer, for all terms and deposits. |
| `Referrals.ReferralTerms` | program/src/matching.rs:2057-2125 | Which rate applies, when a referrer gets it and when it fails: with the deposit for it no part at all, below both deposits to a referrer that counts, else as a surcharge. |
| `Health.PerpValIsWorst` | program/src/state.rs:2038-2069 | In exact arithmetic no partial fill of an account's orders at the oracle price leads to less than the value reported, and one full side reaches it. |
| `Progress.HealthCountsTaken` | program/src/state.rs:2009-2069 | Before its taker fills have been processed a position has the very value, base and quote, that it has afterwards. |
| `Health.SpotValIsWorst` | program/src/state.rs:1436-1484 | The same for spot open orders, for any parts of bids and asks filled. |
| `HealthCaches.SumUpdate` | program/src/state.rs:942-993 | Changing one value changes the weighted sum by the change of its weighted value, and not at all if it is not active. |
| `HealthCaches.HealthCache.InitVals` | program/src/state.rs:879-911 | Takes the values of active markets only. |
| `HealthCaches.HealthCache.GetHealth` | program/src/state.rs:942-993 | Returns what a fresh computation gives if the cache is up to date, and keeps it so; what a computation gives is in `HealthCharges`. |
| `HealthCaches.HealthCache.HealthCharges` | program/src/state.rs:942-993 | Equity is the sum of all active values; maintenance health is that less what the maintenance weights take off assets and put on liabilities, initial health less what the initial weights do, to within one unit a market. |
| `HealthCaches.HealthCache.InitAtMostMaint` | program/src/state.rs:942-993 | With initial weights no milder than maintenance weights, initial health is at most maintenance health. |
| `HealthCaches.HealthCache.UpdateQuote` | program/src/state.rs:1059-1067 | Every cached health stays equal to a fresh computation. |
| `HealthCaches.HealthCache.UpdateSpotVal` | program/src/state.rs:1070-1122 | The cache stays right exactly when the market is active or no cached health sees the change. |
| `HealthCaches.HealthCache.UpdatePerpVal` | program/src/state.rs:1231-1277 | The same for a perp market, with the value taken from the position. |
| `Bank.AddNetExact` | program/src/processor.rs:8586-8618 | Adding never fails, no account ends with deposit and borrow, the bank changes as the account does, and the net moves as asked to within the index and one unit. |
| `Bank.SubNetExact` | program/src/processor.rs:8620-8657 | Taking away fails exactly when deposits do not suffice and the bank would no longer cover its borrows, and otherwise does as well. |
| `Interest.CoveredMeans` | program/src/processor.rs:8620-8657 | Cover means that a whole number of native tokens lies between what borrows and what deposits are worth. |
| `Bank.ChangeAtKeeps` | program/src/processor.rs:8560-8584 | The bank stays the sum of all accounts through every change. |
| `Bank.TransferKeeps` | program/src/processor.rs:8535-8558 | A transfer fails exactly when the account that loses cannot be charged once the other has gained, and conserves to twice the rounding. |
| `Bank.SocializeClears` | program/src/state.rs:530-572 | With one node bank the whole borrow of a bankrupt account is cleared and the sums still agree; it fails just without native deposits. |
| `Bank.RateMonotone` | program/src/utils.rs:138-152 | The rate never falls with use, not even at the kink, and stays within the maximum. |
| `Interest.RateExact` | program/src/utils.rs:138-152 | The rate lies on the line from zero to the optimum and beyond on the line from there to the maximum, to the rounding of slope and product. |
| `Bank.IndexesNeverFall` | program/src/state.rs:469-510 | Interest never lowers an index. |
| `Interest.AccrualExact` | program/src/state.rs:469-510 | The borrow index grows by the yearly rate for the seconds gone, to within one unit, and the deposit index by the share of that which is borrowed; both stay if the latter comes to nothing. |
| `Interest.AccrualKeepsWorth` | program/src/state.rs:469-510 | Deposits less borrows at their indexes change by no more than a rounding bound that is written out. |
| `Interest.SocializeKeepsWorth` | program/src/state.rs:530-572 | The loss comes off the deposits as off the borrows, within a written-out bound, and it fails exactly without native deposits. |
| `Bank.AccrueKeepsVault` | program/src/state.rs:469-510 | In exact arithmetic interest changes native deposits and borrows by the same. |
| `Bank.SocializeKeepsVault` | program/src/state.rs:530-572 | In exact arithmetic a socialized loss does so too, and the index stays non-negative exactly while the loss is within the deposits. |
| `Bank.ExactMoveMovesVault` | program/src/processor.rs:8586-8657 | In exact arithmetic a deposit or withdrawal changes what the vault has to hold by just that. |
| `TokenBanks.CheckedAddNet` | program/src/processor.rs:8586-8618 | Account and bank objects change as the rules for adding say. |
| `TokenBanks.CheckedSubNet` | program/src/processor.rs:8620-8657 | The same for taking away, with the check of cover. |
| `TokenBanks.CheckedChangeNet` | program/src/processor.rs:8560-8584 | The same for either sign. |
| `TokenBanks.TransferTokenInternal` | program/src/processor.rs:8535-8558 | The same for two accounts, the gaining one first. |
| `TokenBanks.RootBank.UpdateIndexWithoutBanks` | program/src/state.rs:469-510 | The indexes after interest at the rate of the curve, which `Interest` ties to exact interest. |
| `TokenBanks.RootBank.SocializeLoss` | program/src/state.rs:530-572 | Index, account and bank after a socialized loss, or the failure. |
| `Powers.PowI80F48` | program/src/utils.rs:76-89 | The loop computes repeated squaring of base and result. |
| `Powers.WholePowers` | program/src/utils.rs:76-89 | Powers of whole numbers are exact. |
| `Powers.PowersRoundDown` | program/src/utils.rs:76-89 | For other bases the result never exceeds the exact power. |
| `Powers.PowersPrecise` | program/src/utils.rs:76-89 | For fractions it falls short of the exact power by at most one unit for every factor. |
| `Handlers.ConsumeEvents` | program/src/processor.rs:4833-4992 | The loop over the queue settles up to eight events, stops at an account that is not provided, and leaves accounts, market and queue as the rules say. |
| `Handlers.ConsumeManyKeepsLedger` | program/src/processor.rs:4833-4992 | It does not fail, the records agree, and it settles events until the number is reached, the queue is empty or an event concerns an account that is not provided, and no fewer. |
| `Handlers.SettlePnlBetween` | program/src/processor.rs:3190-3240 | Both positions and both token balances follow the rules for the same amount. |
| `Handlers.SettleFeesOf` | program/src/processor.rs:3313-3360 | Position, fees and deposits follow the rules, and the whole units settled are returned for the fees vault. |
| `Handlers.LiquidatePerpMarket` | program/src/processor.rs:4251-4358 | On the cached healths of both accounts: refused, recovered or liquidated as the rules say, by as much as health, request and position allow; positions, open interest, queue and both flags follow, and it fails if the queue is full or the liquidator's health would fall below zero. |
| `Handlers.CheckEnterBankruptcy` | program/src/state.rs:1529-1559 | An account is bankrupt exactly when no deposit above the dust, no spot order, no base position and no profit is left. |
| `Liquidations.BankruptMeans` | program/src/state.rs:1529-1587 | An account enters bankruptcy with nothing but dust and losses, stays in it while it owes anything beyond dust, and has no open position when it leaves. |
| `Handlers.ForceSettlePerpPosition` | program/src/processor.rs:7342-7385 | Positions and open interest follow the rules. |
| `Handlers.ResolvePerpBankruptcy` | program/src/processor.rs:4471-4534 | Fund first, then the market: positions, indexes, the liquidator's deposit and the flag follow the rules, the units for the vault are returned, and it fails if the liquidator's health would not hold out. |
| `Handlers.CheckExitBankruptcy` | program/src/state.rs:1565-1587 | An account leaves bankruptcy exactly when no borrow above the dust, no base position and no loss is left. |
| `BookCancels.CancelPerpOrder` | program/src/processor.rs:3014-3034 | Book and account objects follow the rules for cancelling by id. |
| `BookCancels.CancelAllOrders` | program/src/matching.rs:1712-1740 | The loop over the slots follows the rules for cancelling all, with the 8-bit limit. |
| `BookCancels.CancelAllSide` | program/src/matching.rs:1742-1788 | The pass for the depth and the cancelling of one side follow the rules, and what is left of the limit is returned. |
| `BookCancels.CancelAllWithSizes` | program/src/matching.rs:1789-1838 | Both sides on one limit, with the keys of both collected in one loop first, follow the rules. |

## Left out

- Account loading, owner and signer checks, rent, cache validity windows and clocks: times, prices and validity are inputs.
- Liquidity mining points (`apply_size_incentives`, `apply_price_incentives`, `convert_points`): the depth they are paid for
  is proved, the payment is not modelled; nor is `cancel_all_with_price_incentives`, which differs from `cancel_all` in them
  and in failing on a side without a valid order.
- In `Runs`, the sizes that health allows in liquidations, the health checks after an instruction and the flags for being
  liquidated or bankrupt: limits enter as inputs, and checks and flags only forbid instructions. `LiquidateQuote` takes
  its amount as an input for the same reason; its token part is `TokenBanks.TransferTokenInternal`.
- The funding rate formula, oracles, spot order placement and vault transfers: only the equal change of both funding indexes
  and the whole units paid matter here.
- More than one node bank per root bank, and fills with `market_fees_applied` unset: the source calls both obsolete.
- Overflow of 64-bit sums of positions and of 80-bit fixed point numbers: products in matching are proved within the budget,
  other sums are unbounded integers. Sequence numbers are taken to stay below 2^64 - 2.
- The funding cache: it equals the funding of the market after every instruction that changes either, so both are one.
- Exchange.State: holds each market by its resting orders in list form and each account by value; the methods on objects are
  proved against the same functions, one instruction at a time.
- MangoAccounts.MangoAccount.ExecuteMakerFill: does not model the incentive points of the maker.
- BookCancels.CancelAllSide: does not model the incentive points of the orders it cancels, only the depth they are paid
  for, nor the lists of ids it returns for logging.
- BookCancels.CancelAllWithSizes: does not model the incentive points and the lists of ids either.
- Handlers.ResolvePerpBankruptcy: leaves out the transfer between the vaults, but returns its amount.
- Handlers.SettleFeesOf: leaves out the transfer of the settled whole units to the fees vault, but returns their number.
- Health.SpotValIsWorst: is about real numbers, because the division by the price rounds in the fixed point code.
