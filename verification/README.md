# Openmarkets: the order service and its accounts

A Dafny 4.11 model of the trading engine of a prediction market and of the accounting that follows each trade.

* **Outcome book.** Two ladders of price levels with resting orders. `BookSpec` says what each operation does to the
  values, `OutcomeBook.dfy` holds the imperative class with its loops over levels and orders, `BookGreedy` proves that
  the level walk is one greedy pass over the flattened opposite side, `BookMarket` treats market orders (two passes
  that must agree, and the optimality of the first), `BookRuns` what every run of operations keeps, `BookLaws` what
  matching, quoting, removing and updating come to in plain prices, users and quantities.
* **Sells.** `FifoLots` is the queue of cost lots, `SellPayout` the fees on the profit and the payout.
* **Market maker.** `Lmsr` has the market book and the global book. The exponential is a parameter, positive and strictly
  increasing where a property needs it, and turning sums into products where prices depend on differences.
* **Tables.** `Database` has holdings, market rows and settlement; `Ledger` runs trades, liquidity changes, restarts and
  settlements and relates share counts in memory, in market rows and in holdings; `Liquidity` has the positions of
  liquidity providers and their fees; `Pools` runs positions and ledger together and relates the liquidity of a market
  to what its positions have put in.
* **Protocols.** `Triggers` is the pass that publishes limit and stop orders, `Verification` the review of a user.

Amounts are exact reals. The source's `Decimal` rounds at 28 digits; a division that rounds can leave a tiny budget
remainder and cancel a market order that the model fills. Ids are natural numbers. A database table is a map, a
transaction one step.

Results that differ from what one might expect of the code:

* `update_order` reprices without matching, so it can cross the book (`BookRuns.UpdateCanCross`, with the exact condition
  in `BookRuns.UpdateUncrossedExactly`); with a new price above one it reports success and the order is gone
  (`BookRuns.UpdateKeepsOrderExactly`).
* A market order with a price, or with a negative budget, ends neither FILLED nor CANCELLED
  (`BookMarket.MarketOrderDecidedExactly`); with nothing to spend, free asks are ignored (`BookMarket.FreeAsksAreIgnored`).
* A new market caches one half on both sides whatever its share counts (`Lmsr.NewMarketFreshExactly`), so that its first
  YES buy can lower the cached YES price (`Lmsr.BuyRaisesPrice`).
* Start-up replays stored orders through the engine in memory only (`Ledger.ReplayAgreesExactly`), and liquidity withdrawn
  to zero is not noticed by the engine and written back by the next trade (`Ledger.TradeKeepsLiquidityExactly`). The
  part of a market's liquidity that belongs to no position then grows (`Pools.BaseCanMove`, in general
  `Pools.WithdrawnDepositStays`, exactly when in `Pools.StepMovesBaseExactly`).
* The handler compares only the optional number of shares to sell with the holding, the engine sells amount over price:
  a holding can go below zero (`Ledger.SellStaysCoveredExactly`).
* A market that is in memory keeps its counts there while the liquidity agrees, and the next trade writes them over the
  row (`Ledger.RowCountsExactly`).
* A revision request leaves the verified mark of an approved user in place (`Verification.VerifiedMeansApprovedExactly`,
  `Verification.VerifiedButUnverified`).
* When setting an order back to OPEN fails, it stays PendingUpdate without having been published
  (`Triggers.PassDecidesExactly`).

## Model

| member | source | states |
|---|---|---|
| OutcomeBooks.OutcomeBook.AddOrder | order-service/src/order_book/outcome_book.rs:59-91 | Filled or cancelled orders and prices above one change nothing; any other order joins the end of its level, whose total grows by what the order has left |
| OutcomeBooks.OutcomeBook.BestBid | order-service/src/order_book/outcome_book.rs:93-96 | The highest bid price, none exactly when there are no bids |
| OutcomeBooks.OutcomeBook.BestAsk | order-service/src/order_book/outcome_book.rs:98-101 | The lowest ask price, none exactly when there are no asks |
| OutcomeBooks.OutcomeBook.RemoveOrder | order-service/src/order_book/outcome_book.rs:103-132 | Takes out the first order with the id at that price, drops an emptied level, and reports whether there was one |
| OutcomeBooks.OutcomeBook.UpdateOrder | order-service/src/order_book/outcome_book.rs:135-164 | Takes the order out and puts it at the back of its new level as OPEN; only the old price is checked |
| OutcomeBooks.OutcomeBook.MatchOrder | order-service/src/order_book/outcome_book.rs:221-410 | The three nested effects of the walk (book, taker, reports) are those of the specified level walk, for every book and order |
| OutcomeBooks.OutcomeBook.WalkLevels | order-service/src/order_book/outcome_book.rs:281-396 | The loop over the levels, best price first, stops when nothing more is wanted |
| OutcomeBooks.OutcomeBook.VisitLevel | order-service/src/order_book/outcome_book.rs:291-392 | A visited level is filled greedily, swept of filled orders, re-totalled and dropped when empty |
| OutcomeBooks.OutcomeBook.FillLevel | order-service/src/order_book/outcome_book.rs:297-358 | Orders of a level are filled in arrival order; the taker's own are skipped |
| OutcomeBooks.OutcomeBook.CreateMarketOrder | order-service/src/order_book/outcome_book.rs:414-431 | Quotes the budget, takes the quote as quantity, then matches; other order types are ignored |
| OutcomeBooks.OutcomeBook.GetAvailableMatchQuantity | order-service/src/order_book/outcome_book.rs:543-628 | The level-wise budget pass equals spending the budget greedily order by order on the whole queue; the order is CANCELLED exactly when budget is left or there was none |
| OutcomeBooks.OutcomeBook.LevelQuantity | order-service/src/order_book/outcome_book.rs:582-594 | What other users still offer at a level |
| OutcomeBooks.OutcomeBook.GetOrderBook | order-service/src/order_book/outcome_book.rs:435-469 | The non-empty levels of both sides in ascending price order |
| OutcomeBooks.SnapshotIsExact | order-service/src/order_book/outcome_book.rs:435-469 | In a sound ladder the snapshot is in strictly ascending price order and has every level, with exactly the shares its orders still have and the number of its orders |
| BookGreedy.MatchRefinesGreedy | order-service/src/order_book/outcome_book.rs:262-410 | Matching is one greedy pass over the opposite side flattened by best price then arrival: same reports, same fill of the taker, same remaining queue, own side untouched; of the orders with nothing left, exactly those at levels the pass reaches are swept |
| BookGreedy.MatchLeavesEveryLevel | order-service/src/order_book/outcome_book.rs:281-396 | Whatever quantities the orders have, a level the walk reaches keeps its orders less the fills and without those that have nothing left; a level beyond the limit or behind the last fill stays as it was |
| BookGreedy.FillsByPriority | order-service/src/order_book/outcome_book.rs:264-334 | Price-time priority in closed form: a maker gives the lesser of what it has and what is wanted after all makers ahead of it |
| BookGreedy.FillsInTurn | order-service/src/order_book/outcome_book.rs:264-334 | A maker gets nothing unless every maker ahead of it is exhausted |
| BookGreedy.MatchLeavesExactly | order-service/src/order_book/outcome_book.rs:360-388 | In a sound book of live orders the remaining ladder is the only sound ladder with the filled queue's unfilled makers |
| BookGreedy.LadderFromQueue | order-service/src/order_book/outcome_book.rs:28-46 | A sound ladder is determined by its flattened queue |
| BookGreedy.MatchConserves | order-service/src/order_book/outcome_book.rs:273-410 | Reported quantity, gain of the taker and loss of the opposite side are equal; every report is positive and within limit and maker; the taker is FILLED exactly when filled equals quantity |
| BookMarket.PassesAgree | order-service/src/order_book/outcome_book.rs:281-396 | The matching pass, asked for the quantity of the budget pass, makes the same allocation maker by maker |
| BookMarket.MarketOrderAllOrNothing | order-service/src/order_book/outcome_book.rs:414-431 | A fresh market order with a budget either changes nothing and is CANCELLED, or is FILLED for exactly the quote, trading exactly the budget |
| BookMarket.CancelledExactly | order-service/src/order_book/outcome_book.rs:620-624 | With prices not negative, it is cancelled exactly when the other users' orders are worth less than the budget |
| BookMarket.MarketOrderDecidedExactly | order-service/src/order_book/outcome_book.rs:419-431 | It ends FILLED or CANCELLED exactly when it has no price and its budget is not negative |
| BookMarket.QuoteIsBestBuy | order-service/src/order_book/outcome_book.rs:566-619 | No selection of other users' asks within the budget gets more shares than the quote |
| BookMarket.QuoteIsBestSell | order-service/src/order_book/outcome_book.rs:566-619 | No selection of other users' bids raising the budget gives up fewer shares than a quote that is not cancelled |
| BookMarket.QuoteIsAttained | order-service/src/order_book/outcome_book.rs:566-619 | The quote is itself such a selection |
| BookMarket.FreeAsksAreIgnored | order-service/src/order_book/outcome_book.rs:568-573 | With a budget of zero the quote is optimal exactly when no other user offers shares for nothing |
| BookMarket.LevelSpend | order-service/src/order_book/outcome_book.rs:596-617 | Spending on a level as a whole equals spending on its orders one by one |
| BookLaws.MatchGuards | order-service/src/order_book/outcome_book.rs:230-280 | Orders that are not open, or dear without being market orders, or want nothing, change nothing; a priced order for nothing becomes FILLED; all others walk the book |
| BookLaws.ReportsKeepLimit | order-service/src/order_book/outcome_book.rs:281-358 | Every report of a buy is at most, of a sell at least the limit, and is about a resting order of another user with that much left, whose id, total and new fill it carries |
| BookLaws.MatchSparesWorseLevels | order-service/src/order_book/outcome_book.rs:283-293 | A level on the wrong side of the limit is the same before and after |
| BookLaws.MatchSparesOwnOrders | order-service/src/order_book/outcome_book.rs:297-315 | The taker's own resting orders come out of a match as they went in |
| BookLaws.MatchIgnoresOwnOrders | order-service/src/order_book/outcome_book.rs:297-315 | Reports and fill are what they would be without the user's own orders |
| BookLaws.MatchExhausts | order-service/src/order_book/outcome_book.rs:281-396 | A taker that is not filled leaves no order of another user that its limit reaches |
| BookLaws.BetterPricesFirst | order-service/src/order_book/outcome_book.rs:264-296 | When an order trades at a price, no other user has anything left at a strictly better one |
| BookLaws.QuoteIgnoresOwnOrders | order-service/src/order_book/outcome_book.rs:582-594 | A quote is what it would be without the user's own orders |
| BookLaws.MarketOrderIgnoresOwnOrders | order-service/src/order_book/outcome_book.rs:414-431 | A market order ends and reports as it would without the user's own orders and leaves them alone; other order types are not looked at |
| BookLaws.RemoveClosesGap | order-service/src/order_book/outcome_book.rs:112-129 | The first order with the id leaves its level, those ahead of it and behind it stay in order, the total drops by what it had left; no other level and not the other side changes |
| BookLaws.RemoveFindsExactly | order-service/src/order_book/outcome_book.rs:103-132 | There is something to remove exactly when the price is at most one and its level has an order with the id; else nothing changes |
| BookLaws.UpdateMovesToBack | order-service/src/order_book/outcome_book.rs:135-164 | The order leaves its place and joins the back of its new level with the new quantity; all other orders keep their places |
| BookLaws.UpdateFailsExactly | order-service/src/order_book/outcome_book.rs:135-151 | It fails exactly when the old price is above one, or a change is asked of an order that is not there; then nothing changes |
| BookRuns.AddJoinsEndOfLevel | order-service/src/order_book/outcome_book.rs:76-90 | An order that is neither filled nor cancelled, at a price of at most one, queues behind everything at its price; queues at other prices, the other side, and the book for any other order stay as they were |
| BookRuns.RemoveUndoesAdd | order-service/src/order_book/outcome_book.rs:103-132 | Removing an order with a fresh id right after adding it gives back the very same book |
| BookRuns.RunKeepsSound | order-service/src/order_book/outcome_book.rs:59-164 | Every run keeps cached totals equal to sums, no empty level, no price above one, and with valid quantities only orders with something left |
| BookRuns.RunKeepsUncrossed | order-service/src/order_book/outcome_book.rs:59-132 | No run of submitted, removed and market orders, with any quantities, puts a live bid at or above another user's live ask |
| BookRuns.AddUncrossedExactly | order-service/src/order_book/outcome_book.rs:59-91 | Adding without matching keeps the book uncrossed exactly when the order has nothing left or its price is clear |
| BookRuns.UpdateUncrossedExactly | order-service/src/order_book/outcome_book.rs:152-163 | The same condition for repricing |
| BookRuns.UpdateCanCross | order-service/src/order_book/outcome_book.rs:152-163 | A concrete book that repricing crosses |
| BookRuns.SamePriceUpdateIsClear | order-service/src/order_book/outcome_book.rs:152-163 | Changing only the quantity meets the condition in an uncrossed book of live orders |
| BookRuns.UpdateKeepsOrderExactly | order-service/src/order_book/outcome_book.rs:141-163 | A successful change leaves the order resting exactly when the new price is at most one |
| FifoLots.LotQueue.constructor | order-service/src/utils/update_matched_orders.rs:592-610 | One lot per buy order, in order; an order without a positive price gives an empty lot |
| FifoLots.LotsMirrorBuys | order-service/src/utils/update_matched_orders.rs:592-610 | One lot per buy: the order's price, and as many shares as its money pays for at that price; no shares without a price |
| FifoLots.LotQueue.ApplySell | order-service/src/utils/update_matched_orders.rs:612-629 | Consumes the sold shares from the front; terminates on any queue |
| FifoLots.LotQueue.RealizedProfit | order-service/src/utils/update_matched_orders.rs:634-690 | Leaves the same lots; the profit is price times shares consumed minus their cost |
| FifoLots.ConsumeLeavesSuffix | order-service/src/utils/update_matched_orders.rs:617-628 | First in, first out: a suffix is left, only its first lot reduced |
| FifoLots.ConsumeComposes | order-service/src/utils/update_matched_orders.rs:612-629 | Selling in two goes leaves the lots of selling at once |
| FifoLots.SharesLeft | order-service/src/utils/update_matched_orders.rs:612-629 | Shares drop to the larger of zero and total minus sold |
| FifoLots.ReplayInAnyOrder | order-service/src/utils/update_matched_orders.rs:124-128 | Past sells leave the same lots in any order |
| FifoLots.ProfitAccounts | order-service/src/utils/update_matched_orders.rs:634-690 | Over any sales, proceeds minus profits plus the cost of remaining lots is the money of the buys |
| FifoLots.LaterCost | order-service/src/utils/update_matched_orders.rs:612-690 | First in, first out in closed form: behind earlier sells, the next shares cost what lies between the two points of the queue |
| SellPayout.SettleSell | order-service/src/utils/update_matched_orders.rs:121-152 | Rebuilds the lots, takes the profit and computes fees and payout; a single buy sold back whole makes its money times the difference of the prices over the buying price |
| SellPayout.ProfitIsFifo | order-service/src/utils/update_matched_orders.rs:121-130 | For any buys and past sells, the profit is the price times the shares there still are, less what the buys charge for them in order behind everything sold before |
| SellPayout.ProfitOfOneBuy | order-service/src/utils/update_matched_orders.rs:121-130 | With one buy and any past sells, shares still there are sold at the difference of the two prices |
| SellPayout.SoldRestProfit | order-service/src/utils/update_matched_orders.rs:121-130 | With one buy and one past sell, selling the rest makes what the rest had cost times the difference of the prices over the buying price |
| SellPayout.SellPayoutBounds | order-service/src/utils/update_matched_orders.rs:131-152 | Payout and fees add up to the money; one per cent of a profit is the trading fee, five per cent of the rest the platform fee; the payout is between 94.05% and all of it, and after a profit above the cost of the shares |
| Lmsr.MarketBook.ProcessOrder | order-service/src/order_book/market_book.rs:94-115 | Cancels orders without positive price and quantity or without liquidity; else executes at the order's own price |
| Lmsr.MarketBook.CreateMarketOrder | order-service/src/order_book/market_book.rs:121-230 | The same execution; the budget argument plays no part |
| Lmsr.MarketBook.CalculateTrade | order-service/src/order_book/market_book.rs:235-315 | Moves and clamps the share counts and caches the new prices |
| Lmsr.MarketBook.UpdateMarketPrice | order-service/src/order_book/market_book.rs:319-353 | Caches the prices of the current counts |
| Lmsr.GlobalMarketBook.GetOrCreateMarket | order-service/src/order_book/global_book.rs:118-141 | Creates a market, or takes over a positive, different liquidity with its counts; other markets are untouched |
| Lmsr.GlobalMarketBook.ProcessOrder | order-service/src/order_book/global_book.rs:26-36 | Fetches the market and executes the order in it; other markets are untouched |
| Lmsr.GlobalMarketBook.CreateMarketOrder | order-service/src/order_book/global_book.rs:71-84 | The same for market orders |
| Lmsr.GlobalMarketBook.ProcessOrderWithoutLiquidity | order-service/src/order_book/global_book.rs:38-49 | Executes in a known market, else does nothing |
| Lmsr.GlobalRunKeepsPriced | order-service/src/order_book/market_book.rs:94-353 | In every reachable market both cached prices are strictly between 0 and 1 and add up to 1 |
| Lmsr.GlobalStepFreshens | order-service/src/order_book/market_book.rs:319-353 | An order with positive price and quantity leaves the cached prices of its market fresh, with or without the row's liquidity, and nothing makes them stale again |
| Lmsr.GlobalRunKeepsFresh | order-service/src/order_book/global_book.rs:118-141 | In every reachable market the cached prices are those of the counts, unless it is still as created |
| Lmsr.GlobalRunKeepsOdds | order-service/src/order_book/market_book.rs:319-353 | In every reachable market the two prices are to each other as the exponentials of count over liquidity and add up to 1, unless it is still as created |
| Lmsr.FreshIsOdds | order-service/src/order_book/market_book.rs:319-353 | That law determines both prices: cached prices are fresh exactly when they follow it |
| Lmsr.DeeperIsFlatter | order-service/src/order_book/market_book.rs:325-337 | With the same counts, more YES than NO, more liquidity puts YES strictly nearer to one half |
| Lmsr.OddsOfDifference | order-service/src/order_book/market_book.rs:325-337 | The odds are the exponential of the difference of the counts over liquidity |
| Lmsr.TradeInMoney | order-service/src/order_book/market_book.rs:121-315 | A trade takes place exactly when amount, price and liquidity are positive; its shares are worth the amount at the order's price and the outcome's count moves by them, down to zero at least |
| Lmsr.MemoryGivesWay | order-service/src/order_book/global_book.rs:118-141 | A market keeps its figures in memory exactly unless it is new there or the given liquidity is positive and different |
| Lmsr.NewMarketFreshExactly | order-service/src/order_book/market_book.rs:76-90 | A new market's cached prices are right exactly without liquidity or with equal counts |
| Lmsr.DearerSideIsLarger | order-service/src/order_book/market_book.rs:319-338 | YES is priced at least as high as NO exactly when at least as many YES shares are out |
| Lmsr.BuyRaisesPrice | order-service/src/order_book/market_book.rs:257-304 | An executed YES buy strictly raises the YES price that follows from the counts and lowers the NO price, and so the cached ones when fresh; in a market still as created the cached YES price rises exactly when the buy brings YES above NO |
| Lmsr.BuyThenSellRestores | order-service/src/order_book/market_book.rs:273-304 | Buying and selling the same shares restores counts and prices |
| Lmsr.BuysCommute | order-service/src/order_book/market_book.rs:273-304 | Any order of the same buys ends in the same market |
| Database.Store.UpdateUserHoldings | db-service/src/schema/user_holdings.rs:119-152 | Inserts a row or adds to it, keeping its settled mark |
| Database.Store.UpdateLmsrState | db-service/src/schema/market.rs:520-548 | Overwrites counts and liquidity of one market row |
| Database.Store.UpdateLiquidityB | db-service/src/schema/market.rs:199-225 | Adds to or takes from the liquidity of one market row |
| Database.Store.SettleMarket | db-service/src/schema/market.rs:667-731 | Closes the market, expires its open orders, pays one per unsettled winning share, marks its holdings |
| Database.AdjustedShares | db-service/src/schema/user_holdings.rs:119-152 | An adjustment moves the total of its market and outcome by its delta and no other total |
| Database.SettlementPaysWinners | db-service/src/schema/market.rs:699-718 | Balances rise together by exactly the unpaid winning shares |
| Database.SecondSettlementPaysNothing | db-service/src/schema/market.rs:699-731 | Settling again, for any outcome, pays nothing |
| Database.SettlementsPayOnce | db-service/src/schema/market.rs:699-731 | However often and with whatever outcomes a market is settled, each user is paid one per unsettled share of the first outcome, and no share changes |
| Database.SettlementIsLocal | db-service/src/schema/market.rs:667-731 | The market row gets the settled status and the outcome; its open, partially filled and pending orders expire; no other order and nothing of another market changes |
| Ledger.RunKeepsMirrored | order-service/src/handlers/nats_handler/create_order_handler.rs:47-146 | Over any run without overselling, share counts in rows and in memory equal the holdings summed over all users |
| Ledger.ClampIsIdle | order-service/src/order_book/market_book.rs:273-282 | The clamp at zero changes nothing for a covered trade |
| Ledger.TradeKeepsMirrored | order-service/src/utils/update_matched_orders.rs:75-89 | An executed covered order moves holding, row and memory by the shares its money is worth at its price, touches nothing else, and the three stay equal whether it executes or not |
| Ledger.ExecuteOrder | order-service/src/handlers/nats_handler/create_order_handler.rs:47-146 | The engine's execution followed by the writes of the holding and of the market row is one trade step of the ledger |
| Ledger.SellStaysCoveredExactly | service-api/src/routes/user/orders/create_market_order.rs:202-224 | An executed sell leaves no holding below zero exactly when it sells no more than its user holds |
| Ledger.FirstSettlementPaysCount | db-service/src/schema/market.rs:699-718 | After any such run the first settlement pays exactly the winning count of the row |
| Ledger.SellMirrorsExactly | order-service/src/order_book/market_book.rs:276-282 | A sell keeps count and holdings equal exactly when it does not exceed the count |
| Ledger.RowCountsExactly | order-service/src/order_book/global_book.rs:118-141 | An executed buy moves the row's count by what the holding gains exactly when the market was not in memory, gave way, or had the same count; else memory's count is written over it |
| Ledger.RestartForgetsMemory | order-service/src/main.rs:60-85 | After a restart, replayed orders aside, nothing depends on what memory held before |
| Ledger.RunKeepsMarks | db-service/src/schema/user_holdings.rs:119-152 | No run takes the settled mark from a holding |
| Ledger.ReplayAgreesExactly | order-service/src/main.rs:77-85 | Replaying a stored order at start-up keeps memory equal to the rows exactly when it does not trade or sells from zero |
| Ledger.TradeKeepsLiquidityExactly | order-service/src/order_book/global_book.rs:125-139 | An executed trade leaves the row's liquidity alone exactly when it is positive, or memory has no or the same figure |
| Liquidity.LpTable.AddLiquidity | db-service/src/schema/liquidity.rs:24-46 | Inserts an active position with its deposit and share, nothing earned or withdrawn |
| Liquidity.LpTable.RemoveLiquidity | db-service/src/schema/liquidity.rs:48-74 | Withdraws up to the deposit and refuses more; active exactly while something is left |
| Liquidity.LpTable.UpdateFeesEarnedAndShares | db-service/src/schema/liquidity.rs:214-236 | Adds to the fees and overwrites the share of one position |
| Liquidity.LpTable.DistributeFees | order-service/src/utils/update_matched_orders.rs:215-256 | Each fetched position earns its part of 65% of the fee; no other row changes |
| Liquidity.LpFeesWithinShare | order-service/src/utils/update_matched_orders.rs:168-227 | With deposits within the liquidity, at most 65% is paid, all of it exactly when the sums are equal |
| Liquidity.EarnedByDeposit | order-service/src/utils/update_matched_orders.rs:215-256 | Each listed position earns its part of the pool by its deposit and has that part recorded as its share; no other position and no deposit changes |
| Liquidity.EarnedRaisesFees | order-service/src/utils/update_matched_orders.rs:215-256 | A distribution raises the fees earned over all positions by exactly the fees paid |
| Pools.AddLiquidityHandler | service-api/src/routes/user/trades/liquidity.rs:48-198 | A deposit inserts a position and raises its market's liquidity, or changes nothing for a bad amount, a missing or a settled market |
| Pools.RemoveLiquidityHandler | service-api/src/routes/user/trades/liquidity.rs:277-358 | A withdrawal lowers position and liquidity together, or changes nothing when it exceeds the deposit |
| Pools.ExecuteWithFees | order-service/src/utils/update_matched_orders.rs:75-292 | A trade writes back the engine's liquidity, and a sell with a fee credits the active positions on that same figure |
| Pools.DepositExactly | service-api/src/routes/user/trades/liquidity.rs:65-205 | A deposit is refused exactly in the listed cases; otherwise its share of the new liquidity is recorded |
| Pools.WithdrawalExactly | service-api/src/routes/user/trades/liquidity.rs:284-345 | A withdrawal is refused exactly when it is not positive or exceeds the deposit |
| Pools.WithdrawalUndoesDeposit | service-api/src/routes/user/trades/liquidity.rs:48-358 | Withdrawing a whole deposit right away leaves every other row as it was |
| Pools.FeesMoveExactly | order-service/src/utils/update_matched_orders.rs:158-256 | A position's fees move only when a sell with a fee trades in its market, by the deposit's part of 65% of that fee |
| Pools.StepMovesBaseExactly | order-service/src/order_book/global_book.rs:125-139 | Liquidity less deposits changes exactly when a trade executes on a row without liquidity, and by exactly the difference between the engine's figure and the row's |
| Pools.RunMovesBaseExactly | order-service/src/order_book/global_book.rs:125-139 | Over any run of deposits, withdrawals, trades, start-ups and settlements it is unchanged exactly when no such trade took place |
| Pools.PoolRunKeepsBacked | service-api/src/routes/user/trades/liquidity.rs:48-358 | From a positive base, liquidity stays that base plus the deposits over every run |
| Pools.RunKeepsPools | service-api/src/routes/user/trades/liquidity.rs:48-358 | In every run a position is active exactly while its deposit is positive, and the base of no market falls |
| Pools.WithdrawnDepositStays | order-service/src/order_book/global_book.rs:125-139 | In any market without liquidity a deposit, a trade, its withdrawal and one more trade raise the base by all that was withdrawn |
| Pools.BaseCanMove | order-service/src/order_book/global_book.rs:125-139 | A concrete run that moves a base from zero |
| Pools.DepositPlusWithdrawnConstant | db-service/src/schema/liquidity.rs:48-74 | Over any run deposit plus withdrawals of a position stay constant |
| Pools.PoolFeesWithinShare | order-service/src/utils/update_matched_orders.rs:207-256 | At any point of any run from a base that is not negative, a sell adds at most 65% of its trading fee to the fees of the positions, exactly 65% when and only when it leaves the market without a base |
| Triggers.OrderTable.TriggerOne | order-service/src/utils/update_matched_orders.rs:458-500 | Marks, publishes, or sets back one order, as the database and the queue allow |
| Triggers.OrderTable.TriggerPass | order-service/src/utils/update_matched_orders.rs:403-583 | Both fetched lists are worked on in turn; only fetched orders change |
| Triggers.NewlySentExactly | order-service/src/utils/update_matched_orders.rs:433-572 | A pass sends exactly the open orders of the market whose outcome is priced at or below a buy limit or sell stop, at or above a sell limit or buy stop, and whose sending succeeds, each once |
| Triggers.PublishedAtMostOnce | order-service/src/utils/update_matched_orders.rs:403-583 | Over any run each order is published at most once, and only at prices that had reached its limit or stop |
| Triggers.PassTouchesStatusOnly | order-service/src/utils/update_matched_orders.rs:403-583 | A pass changes only open limit and stop orders of its market whose price is reached, and only their status |
| Triggers.PassDecidesExactly | order-service/src/utils/update_matched_orders.rs:464-500 | A fetched order ends PendingUpdate and published or OPEN and unpublished, exactly unless setting it back failed |
| Verification.VerificationService.CreateNewUser | db-service/src/schema/users.rs:163-275 | A new user starts unverified at the first stage |
| Verification.VerificationService.ApplyForVerification | db-service/src/schema/verification.rs:144-214 | Moves an unverified user to document upload |
| Verification.VerificationService.SubmitVerification | db-service/src/schema/verification.rs:218-369 | Adds one pending document per type and moves to pending, or changes nothing on the first failed check or unknown type |
| Verification.VerificationService.ApproveUser | db-service/src/schema/verification.rs:489-596 | Approves a pending user with all documents |
| Verification.VerificationService.RejectUser | db-service/src/schema/verification.rs:599-696 | Rejects any user with all documents |
| Verification.VerificationService.RequestRevisionOf | db-service/src/schema/verification.rs:699-820 | Rejects the documents of the valid types and sends the user back, or changes nothing without a valid type |
| Verification.VerificationService.SuspendUser | db-service/src/schema/verification.rs:823-902 | Suspends an approved user |
| Verification.VerificationService.ReinstateUser | db-service/src/schema/verification.rs:905-984 | Reinstates a suspended user |
| Verification.SubmissionExactly | db-service/src/schema/verification.rs:218-369 | A submission goes through exactly for an unverified user at document upload who agrees and names types only; it stores one pending document of each named type, in order, behind the others; otherwise the first failed check is the error |
| Verification.RevisionExactly | db-service/src/schema/verification.rs:699-820 | A revision request rejects exactly the documents of the user whose type is named, capitals or not, and changes nothing without such a name |
| Verification.MovesExactly | db-service/src/schema/verification.rs:144-984 | The other moves of a user, each from exactly the states that allow it |
| Verification.StepIsAboutOneUser | db-service/src/schema/verification.rs:144-984 | Other users' rows and documents stay, and stored documents keep owner and type |
| Verification.RunKeepsConsistent | db-service/src/schema/verification.rs:144-984 | In every run status, stage, verified mark and documents fit together for every user |
| Verification.ApprovedOnlyAfterSubmission | db-service/src/schema/verification.rs:218-369 | A user is pending, approved or suspended exactly when the last of their submissions, rejections and revision requests is a submission |
| Verification.VerifiedMeansApprovedExactly | db-service/src/schema/verification.rs:731-748 | An operation makes a verified user unapproved exactly when it is an effective revision request |
| Verification.VerifiedButUnverified | db-service/src/schema/verification.rs:731-748 | Such a user is reachable |

## Left out

- Decimal rounding and overflow, and the real exponential: amounts are exact reals and the exponential is a parameter.
- PriceLevel, OrderBookEntry: values inside the ladder map, which the methods reassign; references into a level are not modelled.
- `_update_order_filled_quantity` of the outcome book: nothing calls it.
- The outcome books inside a market book: nothing ever adds an order to them, so updating and removing only refresh the cached prices (`Refresh` in `Lmsr.GlobalOp`).
- Lmsr.BuyRaisesPrice: stated for share counts that are not negative, which is what every trade leaves.
- Ledger.RunKeepsMirrored: balances moved by trades are not part of the run, and start-up with stored orders is treated apart because it breaks the statement.
- Ledger.RunKeepsMirrored: that no user sells more than they hold is a condition of the run; the handler checks only the optional `shares_to_sell`, so it can fail, exactly as `Ledger.SellStaysCoveredExactly` says.
- SellPayout.SettleSell: past sells need a price other than zero, since the source divides by it; which orders count as history is an input.
- Ledger.TradeKeepsMirrored: the writes of one trade are one step, although the source sends the balance and the market row outside its transaction.
- The referral reward: it is booked as a debit of the referrer and takes no part in the payout.
- Ledger.RowCountsExactly: stated for buys; for sells the clamp of `Ledger.SellMirrorsExactly` comes on top.
- Triggers.OrderTable.TriggerPass: the order of fetched rows and the failure of the fetch itself are not modelled; a fetch is any list of exactly the matching rows.
- Pools.PoolRunKeepsBacked: the handlers' two updates count as one step; eligibility by age of a position is unused by the engine.
- Pools.AddLiquidityHandler: the depositor's balance, the payment from it and the owner of a withdrawn position are left to the caller; a deposit that brings liquidity to exactly zero, where the source divides by zero, changes nothing.
- Pools.ExecuteWithFees: the trading fee is an input here; `SellPayout` computes it from the profit.
- Verification: expiry dates, notes, timestamps and the audit log, whose recorded statuses do not match the change made.
- Verification.VerificationService.RequestRevisionOf: lower-casing covers the Latin letters that document types are made of.
- Network, message queues, web sockets, authentication, encryption, price feeds and the user interface.
- Pagination, upvotes and reporting queries: they would add only easy members.
