/** The liquidity of every market next to the positions behind it, over runs of everything that writes either:
    deposits and withdrawals (service-api/src/routes/user/trades/liquidity.rs), trades with their write-back of the
    engine's liquidity and the fees of profitable sells (order-service/src/utils/update_matched_orders.rs),
    start-ups and settlements. */
module Pools {
  import opened Sums
  import opened Orders
  import opened Lmsr
  import opened Database
  import opened Ledger
  import opened Liquidity

  datatype Venue = Venue(system: System, positions: Positions)

  datatype VenueOp =
    | Execute(order: OrderData, tradingFee: real, lps: seq<nat>)
    | Deposit(id: nat, userId: nat, marketId: nat, amount: real)
    | Withdraw(id: nat, amount: real)
    | Replay(order: OrderData)                  // one stored order at start-up
    | RestartEngine
    | SettleMarket(marketId: nat, outcome: Outcome)

  predicate Lists(v: Venue, marketId: nat) { marketId in v.system.tables.markets }

  /** The market row's liquidity. */
  function RowLiquidity(v: Venue, marketId: nat): real
    requires Lists(v, marketId)
  {
    v.system.tables.markets[marketId].liquidityB
  }

  /** The engine's market for an order: its liquidity is what the trade uses, reports and writes back. */
  function MarketFor(exp: real -> real, v: Venue, marketId: nat): MarketState
    requires Lists(v, marketId)
  {
    BookFor(exp, v.system, marketId)[marketId]
  }

  predicate Trades(exp: real -> real, v: Venue, o: OrderData) {
    Lists(v, o.marketId) && Executes(MarketFor(exp, v, o.marketId), o)
  }

  /** The fee on a profit is paid out while the trade is processed, on the liquidity the engine reports. */
  function FeesStep(exp: real -> real, v: Venue, o: OrderData, tradingFee: real, lps: seq<nat>): Positions {
    if Trades(exp, v, o) && o.side.Sell? && tradingFee > 0.0
      then Earned(v.positions, lps, 0.65 * tradingFee, MarketFor(exp, v, o.marketId).liquidityB)
      else v.positions
  }

  predicate AcceptsDeposit(v: Venue, id: nat, marketId: nat, amount: real) {
    && amount > 0.0 && id !in v.positions
    && Lists(v, marketId) && v.system.tables.markets[marketId].status != MarketSettled
  }

  /** The share recorded with a deposit: its part of the new liquidity. */
  function NewPosition(v: Venue, userId: nat, marketId: nat, amount: real): LpPosition
    requires Lists(v, marketId) && RowLiquidity(v, marketId) + amount != 0.0
  {
    LpPosition(userId, marketId, amount, amount / (RowLiquidity(v, marketId) + amount), 0.0, 0.0, true)
  }

  function VenueStep(exp: real -> real, v: Venue, op: VenueOp): Venue {
    match op
    case Execute(o, fee, lps) => Venue(SystemStep(exp, v.system, Trade(o)), FeesStep(exp, v, o, fee, lps))
    case Deposit(id, userId, m, amount) =>
      if AcceptsDeposit(v, id, m, amount) && RowLiquidity(v, m) + amount != 0.0
        then Venue(SystemStep(exp, v.system, ChangeLiquidity(m, amount)),
                   v.positions[id := NewPosition(v, userId, m, amount)])
        else v
    case Withdraw(id, amount) =>
      if amount > 0.0 && CanWithdraw(v.positions, id, amount)
        then Venue(SystemStep(exp, v.system, ChangeLiquidity(v.positions[id].marketId, -amount)),
                   WithdrawStep(v.positions, id, amount))
        else v
    case Replay(o) => if Lists(v, o.marketId) then v.(system := StartupReplay(exp, v.system, o)) else v
    case RestartEngine => v.(system := SystemStep(exp, v.system, Restart))
    case SettleMarket(m, outcome) => v.(system := SystemStep(exp, v.system, Settle(m, outcome)))
  }

  function VenueRun(exp: real -> real, v: Venue, ops: seq<VenueOp>): Venue
    decreases |ops|
  {
    if ops == [] then v else VenueRun(exp, VenueStep(exp, v, ops[0]), ops[1..])
  }

  // ----- the handlers -----

  /** remove_liquidity_handler, for a position of the caller: the position first, then its market. */
  method RemoveLiquidityHandler(exp: real -> real, book: GlobalMarketBook, store: Store, table: LpTable,
                                id: nat, amount: real)
    modifies table, store`markets
    ensures Venue(System(book.View(), store.View()), table.positions) ==
              VenueStep(exp, old(Venue(System(book.View(), store.View()), table.positions)), Withdraw(id, amount))
  {
    if amount <= 0.0 || id !in table.positions || amount > table.positions[id].deposited {
      return;
    }
    var marketId := table.positions[id].marketId;
    var ok := table.RemoveLiquidity(id, amount);
    store.UpdateLiquidityB(marketId, amount, false);
  }

  /** add_liquidity_handler, the checks of the depositor's balance left to the caller. */
  method AddLiquidityHandler(exp: real -> real, book: GlobalMarketBook, store: Store, table: LpTable,
                             id: nat, userId: nat, marketId: nat, amount: real)
    modifies table, store`markets
    ensures Venue(System(book.View(), store.View()), table.positions) ==
              VenueStep(exp, old(Venue(System(book.View(), store.View()), table.positions)),
                        Deposit(id, userId, marketId, amount))
  {
    if amount <= 0.0 || id in table.positions {
      return;
    }
    if marketId !in store.markets || store.markets[marketId].status == MarketSettled {
      return;
    }
    var newLiquidity := store.markets[marketId].liquidityB + amount;
    if newLiquidity == 0.0 {
      return;
    }
    table.AddLiquidity(id, userId, marketId, amount, amount / newLiquidity);
    store.UpdateLiquidityB(marketId, amount, true);
  }

  /** An order with the fee loop that follows a profitable sell. */
  method ExecuteWithFees(exp: real -> real, book: GlobalMarketBook, store: Store, table: LpTable, order: Order,
                         budget: real, tradingFee: real, lps: seq<nat>)
    requires book.Valid() && order.marketId in store.markets
    requires IsActiveList(table.positions, order.marketId, lps)
    modifies book, book.markets.Values, store`markets, store`holdings, table, order
    ensures book.Valid()
    ensures Venue(System(book.View(), store.View()), table.positions) ==
              VenueStep(exp, old(Venue(System(book.View(), store.View()), table.positions)),
                        Execute(old(order.Data()), tradingFee, lps))
  {
    ghost var before := Venue(System(book.View(), store.View()), table.positions);
    ghost var o := order.Data();
    var results := ExecuteOrder(exp, book, store, order, budget);
    assert Trades(exp, before, o) <==> results != [];
    if results != [] && order.side == Sell && tradingFee > 0.0 {
      table.DistributeFees(lps, table.positions, results[0].liquidityB, tradingFee);
    }
    assert System(book.View(), store.View()) == SystemStep(exp, before.system, Trade(o));
    assert table.positions == FeesStep(exp, before, o, tradingFee, lps);
  }

  // ----- the base -----

  /** The part of a market's liquidity that no position has put in. */
  ghost function Base(v: Venue, marketId: nat): real
    requires Lists(v, marketId)
  {
    RowLiquidity(v, marketId) - MarketDeposits(v.positions, marketId)
  }

  /** A trade executes although the row has no liquidity: on what the engine still has in memory. */
  predicate Revives(exp: real -> real, v: Venue, op: VenueOp, marketId: nat) {
    && op.Execute? && op.order.marketId == marketId && Trades(exp, v, op.order)
    && RowLiquidity(v, marketId) <= 0.0
  }

  lemma RevivesFromMemory(exp: real -> real, v: Venue, op: VenueOp, marketId: nat)
    requires Revives(exp, v, op, marketId)
    ensures marketId in v.system.books
    ensures v.system.books[marketId].liquidityB == MarketFor(exp, v, marketId).liquidityB > RowLiquidity(v, marketId)
  {
  }

  lemma TradeLiquidity(exp: real -> real, v: Venue, o: OrderData)
    requires Lists(v, o.marketId)
    ensures var after := SystemStep(exp, v.system, Trade(o)).tables.markets;
            && after.Keys == v.system.tables.markets.Keys
            && (forall m :: m in after && m != o.marketId ==> after[m] == v.system.tables.markets[m])
            && after[o.marketId].liquidityB ==
                 if Trades(exp, v, o) then MarketFor(exp, v, o.marketId).liquidityB else RowLiquidity(v, o.marketId)
  {
    if Trades(exp, v, o) {
      TradedTables(exp, v.system, o);
    }
  }

  lemma EarnedKeepsDeposits(ps: Positions, lps: seq<nat>, pool: real, liquidity: real, marketId: nat)
    ensures MarketDeposits(Earned(ps, lps, pool, liquidity), marketId) == MarketDeposits(ps, marketId)
    ensures Regular(ps) ==> Regular(Earned(ps, lps, pool, liquidity))
  {
    var after := Earned(ps, lps, pool, liquidity);
    assert after.Keys == ps.Keys;
    TotalCongruent(ps.Keys, (id: nat) => DepositIn(ps, id, marketId), (id: nat) => DepositIn(after, id, marketId));
  }

  lemma DepositRaises(ps: Positions, id: nat, p: LpPosition, marketId: nat)
    requires id !in ps
    ensures MarketDeposits(ps[id := p], marketId) ==
              MarketDeposits(ps, marketId) + if p.marketId == marketId then p.deposited else 0.0
  {
    var after := ps[id := p];
    var f, g := (x: nat) => DepositIn(ps, x, marketId), (x: nat) => DepositIn(after, x, marketId);
    assert after.Keys - {id} == ps.Keys;
    TotalSplit(after.Keys, g, id);
    TotalCongruent(ps.Keys, f, g);
  }

  lemma WithdrawalLowers(ps: Positions, id: nat, amount: real, marketId: nat)
    requires CanWithdraw(ps, id, amount)
    ensures MarketDeposits(WithdrawStep(ps, id, amount), marketId) ==
              MarketDeposits(ps, marketId) - if ps[id].marketId == marketId then amount else 0.0
  {
    var after := WithdrawStep(ps, id, amount);
    var f, g := (x: nat) => DepositIn(ps, x, marketId), (x: nat) => DepositIn(after, x, marketId);
    assert after.Keys == ps.Keys;
    TotalChange(ps.Keys, f, g, id);
  }

  /** A step moves the base of a market exactly when a trade executes on a row without liquidity, and then up, by
      exactly the difference between the engine's figure and the row's. */
  lemma StepMovesBaseExactly(exp: real -> real, v: Venue, op: VenueOp, marketId: nat)
    requires Lists(v, marketId)
    ensures var after := VenueStep(exp, v, op);
            && Lists(after, marketId)
            && (Base(after, marketId) != Base(v, marketId) <==> Revives(exp, v, op, marketId))
            && Base(after, marketId) == Base(v, marketId) +
                 if Revives(exp, v, op, marketId)
                   then MarketFor(exp, v, marketId).liquidityB - RowLiquidity(v, marketId) else 0.0
  {
    match op
    case Execute(o, fee, lps) =>
      if Lists(v, o.marketId) {
        TradeLiquidity(exp, v, o);
        EarnedKeepsDeposits(v.positions, lps, 0.65 * fee, MarketFor(exp, v, o.marketId).liquidityB, marketId);
      }
    case Deposit(id, userId, m, amount) =>
      if AcceptsDeposit(v, id, m, amount) && RowLiquidity(v, m) + amount != 0.0 {
        DepositRaises(v.positions, id, NewPosition(v, userId, m, amount), marketId);
      }
    case Withdraw(id, amount) =>
      if amount > 0.0 && CanWithdraw(v.positions, id, amount) {
        WithdrawalLowers(v.positions, id, amount, marketId);
      }
    case _ =>
  }

  lemma StepKeepsRegular(exp: real -> real, v: Venue, op: VenueOp)
    requires Regular(v.positions)
    ensures Regular(VenueStep(exp, v, op).positions)
  {
    if op.Execute? && Trades(exp, v, op.order) {
      EarnedKeepsDeposits(v.positions, op.lps, 0.65 * op.tradingFee, MarketFor(exp, v, op.order.marketId).liquidityB,
                          op.order.marketId);
    }
  }

  /** In every run positions stay regular, no market is lost, and no base ever falls. */
  lemma {:induction false} RunKeepsPools(exp: real -> real, v: Venue, ops: seq<VenueOp>, marketId: nat)
    requires Lists(v, marketId)
    ensures Lists(VenueRun(exp, v, ops), marketId)
    ensures Regular(v.positions) ==> Regular(VenueRun(exp, v, ops).positions)
    ensures Base(VenueRun(exp, v, ops), marketId) >= Base(v, marketId)
    decreases |ops|
  {
    if ops != [] {
      StepMovesBaseExactly(exp, v, ops[0], marketId);
      if Regular(v.positions) {
        StepKeepsRegular(exp, v, ops[0]);
      }
      RunKeepsPools(exp, VenueStep(exp, v, ops[0]), ops[1..], marketId);
    }
  }

  /** Some step of the run revives the market's liquidity from memory. */
  ghost predicate RunRevives(exp: real -> real, v: Venue, ops: seq<VenueOp>, marketId: nat)
    decreases |ops|
  {
    ops != [] && (Revives(exp, v, ops[0], marketId) || RunRevives(exp, VenueStep(exp, v, ops[0]), ops[1..], marketId))
  }

  /** Over any run the base is where it was exactly when no trade revived the market's liquidity. */
  lemma {:induction false} RunMovesBaseExactly(exp: real -> real, v: Venue, ops: seq<VenueOp>, marketId: nat)
    requires Lists(v, marketId)
    ensures Lists(VenueRun(exp, v, ops), marketId)
    ensures Base(VenueRun(exp, v, ops), marketId) == Base(v, marketId) <==> !RunRevives(exp, v, ops, marketId)
    decreases |ops|
  {
    RunKeepsPools(exp, v, ops, marketId);
    if ops != [] {
      var next := VenueStep(exp, v, ops[0]);
      StepMovesBaseExactly(exp, v, ops[0], marketId);
      RunMovesBaseExactly(exp, next, ops[1..], marketId);
      RunKeepsPools(exp, next, ops[1..], marketId);
    }
  }

  /** A trade on a row with liquidity leaves the same figure in the row and in memory. */
  lemma TradeCaches(exp: real -> real, v: Venue, o: OrderData)
    requires Lists(v, o.marketId) && RowLiquidity(v, o.marketId) > 0.0 && o.quantity > 0.0 && o.price > 0.0
    ensures var after := VenueStep(exp, v, Execute(o, 0.0, []));
            && Lists(after, o.marketId) && o.marketId in after.system.books && after.positions == v.positions
            && RowLiquidity(after, o.marketId) == after.system.books[o.marketId].liquidityB
            && RowLiquidity(after, o.marketId) == RowLiquidity(v, o.marketId)
  {
    TradeLiquidity(exp, v, o);
  }

  /** In any market whose row has no liquidity: a position comes, a trade caches it in memory, the position goes, and
      the next trade raises the base by all that was withdrawn. */
  lemma WithdrawnDepositStays(exp: real -> real, v: Venue, id: nat, userId: nat, amount: real, o: OrderData,
                              p: OrderData)
    requires Lists(v, o.marketId) && p.marketId == o.marketId && RowLiquidity(v, o.marketId) == 0.0
    requires AcceptsDeposit(v, id, o.marketId, amount)
    requires o.quantity > 0.0 && o.price > 0.0 && p.quantity > 0.0 && p.price > 0.0
    ensures var ops := [Deposit(id, userId, o.marketId, amount), Execute(o, 0.0, []), Withdraw(id, amount),
                        Execute(p, 0.0, [])];
            && Lists(VenueRun(exp, v, ops), o.marketId)
            && Base(VenueRun(exp, v, ops), o.marketId) == Base(v, o.marketId) + amount
  {
    var m := o.marketId;
    var ops := [Deposit(id, userId, m, amount), Execute(o, 0.0, []), Withdraw(id, amount), Execute(p, 0.0, [])];
    var v1 := VenueStep(exp, v, ops[0]);
    var v2 := VenueStep(exp, v1, ops[1]);
    var v3 := VenueStep(exp, v2, ops[2]);
    assert RowLiquidity(v1, m) == amount && CanWithdraw(v1.positions, id, amount) && v1.positions[id].marketId == m;
    TradeCaches(exp, v1, o);
    assert RowLiquidity(v3, m) == 0.0 && v3.system.books == v2.system.books;
    StepMovesBaseExactly(exp, v, ops[0], m);
    StepMovesBaseExactly(exp, v1, ops[1], m);
    StepMovesBaseExactly(exp, v2, ops[2], m);
    StepMovesBaseExactly(exp, v3, ops[3], m);
    FourSteps(exp, v, ops);
  }

  /** So a base of zero need not stay zero. */
  lemma BaseCanMove(exp: real -> real)
    ensures exists v, ops :: Lists(v, 1) && Regular(v.positions) && Base(v, 1) == 0.0
              && Lists(VenueRun(exp, v, ops), 1) && Base(VenueRun(exp, v, ops), 1) == 100.0
  {
    var row := MarketRow(MarketOpen, Unspecified, 0.0, 0.0, 0.0);
    var v := Venue(System(map[], Database.Tables(map[1 := row], map[], map[7 := 0.0], map[])), map[]);
    var buy := OrderData(1, 7, 1, Yes, Buy, Market, 0.5, 10.0, 0.0, Open);
    assert v.positions.Keys == {};
    WithdrawnDepositStays(exp, v, 1, 7, 100.0, buy, buy.(id := 2, side := Sell));
  }

  lemma FourSteps(exp: real -> real, v: Venue, ops: seq<VenueOp>)
    requires |ops| == 4
    ensures VenueRun(exp, v, ops) ==
              VenueStep(exp, VenueStep(exp, VenueStep(exp, VenueStep(exp, v, ops[0]), ops[1]), ops[2]), ops[3])
  {
    RunUnfolds(exp, v, ops);
    var v1 := VenueStep(exp, v, ops[0]);
    RunUnfolds(exp, v1, ops[1..]);
    var v2 := VenueStep(exp, v1, ops[1]);
    assert ops[1..][1..] == ops[2..] && ops[2..][1..] == ops[3..] && ops[3..][1..] == [];
    RunUnfolds(exp, v2, ops[2..]);
    var v3 := VenueStep(exp, v2, ops[2]);
    RunUnfolds(exp, v3, ops[3..]);
  }

  lemma RunUnfolds(exp: real -> real, v: Venue, ops: seq<VenueOp>)
    requires ops != []
    ensures VenueRun(exp, v, ops) == VenueRun(exp, VenueStep(exp, v, ops[0]), ops[1..])
  {
  }

  /** A positive base never moves: the row always has liquidity, so no trade revives it. */
  lemma {:induction false} PoolRunKeepsBacked(exp: real -> real, v: Venue, ops: seq<VenueOp>, marketId: nat)
    requires Lists(v, marketId) && Regular(v.positions) && Base(v, marketId) > 0.0
    ensures var after := VenueRun(exp, v, ops);
            && Lists(after, marketId) && Regular(after.positions)
            && RowLiquidity(after, marketId) == Base(v, marketId) + MarketDeposits(after.positions, marketId)
    decreases |ops|
  {
    if ops != [] {
      DepositsNonNegative(v.positions, marketId);
      StepMovesBaseExactly(exp, v, ops[0], marketId);
      StepKeepsRegular(exp, v, ops[0]);
      PoolRunKeepsBacked(exp, VenueStep(exp, v, ops[0]), ops[1..], marketId);
    }
  }

  /** No run changes what a position put in: deposit plus withdrawals stay constant, and positions are never
      lost. */
  lemma {:induction false} DepositPlusWithdrawnConstant(exp: real -> real, v: Venue, ops: seq<VenueOp>, id: nat)
    requires id in v.positions
    ensures var after := VenueRun(exp, v, ops).positions;
            && id in after
            && after[id].deposited + after[id].withdrawn == v.positions[id].deposited + v.positions[id].withdrawn
    decreases |ops|
  {
    if ops != [] {
      DepositPlusWithdrawnConstant(exp, VenueStep(exp, v, ops[0]), ops[1..], id);
    }
  }

  // ----- what a step does to positions -----

  /** A deposit is refused exactly when it is not positive, its id is taken, its market is missing or settled, or the
      liquidity would be zero; otherwise its share of the new liquidity is recorded. */
  lemma DepositExactly(exp: real -> real, v: Venue, id: nat, userId: nat, marketId: nat, amount: real)
    ensures var after := VenueStep(exp, v, Deposit(id, userId, marketId, amount)); var rows := v.system.tables.markets;
            if amount > 0.0 && id !in v.positions && marketId in rows && rows[marketId].status != MarketSettled &&
               rows[marketId].liquidityB + amount != 0.0 then
              && id in after.positions && Lists(after, marketId)
              && RowLiquidity(after, marketId) == rows[marketId].liquidityB + amount
              && after.positions[id].poolShare * RowLiquidity(after, marketId) == amount
              && after.positions[id] ==
                   LpPosition(userId, marketId, amount, after.positions[id].poolShare, 0.0, 0.0, true)
              && after.positions - {id} == v.positions - {id}
            else after == v
  {
  }

  /** A withdrawal is refused exactly when it is not positive, or more than the position holds. */
  lemma WithdrawalExactly(exp: real -> real, v: Venue, id: nat, amount: real)
    ensures var after := VenueStep(exp, v, Withdraw(id, amount));
            if amount > 0.0 && id in v.positions && amount <= v.positions[id].deposited then
              && id in after.positions
              && after.positions[id].deposited == v.positions[id].deposited - amount
              && after.positions[id].withdrawn == v.positions[id].withdrawn + amount
              && after.positions[id].feesEarned == v.positions[id].feesEarned
              && after.positions - {id} == v.positions - {id}
            else after == v
  {
  }

  /** Withdrawing all of a deposit right away leaves every table row as it was; the position stays, inactive. */
  lemma WithdrawalUndoesDeposit(exp: real -> real, v: Venue, id: nat, userId: nat, marketId: nat, amount: real)
    requires AcceptsDeposit(v, id, marketId, amount) && RowLiquidity(v, marketId) + amount != 0.0
    ensures var after := VenueStep(exp, VenueStep(exp, v, Deposit(id, userId, marketId, amount)), Withdraw(id, amount));
            && after.system == v.system
            && id in after.positions && after.positions[id].deposited == 0.0 && !after.positions[id].active
            && after.positions - {id} == v.positions
  {
    var after := VenueStep(exp, VenueStep(exp, v, Deposit(id, userId, marketId, amount)), Withdraw(id, amount));
    assert after.system.tables.markets == v.system.tables.markets;
    assert after.positions - {id} == v.positions;
  }

  /** A position's fees move only when a sell with a fee trades in its market; then they rise by the deposit's part of
      65% of that fee. */
  lemma FeesMoveExactly(exp: real -> real, v: Venue, op: VenueOp, id: nat)
    requires id in v.positions
    requires op.Execute? ==> IsActiveList(v.positions, op.order.marketId, op.lps)
    ensures id in VenueStep(exp, v, op).positions
    ensures var gain := VenueStep(exp, v, op).positions[id].feesEarned - v.positions[id].feesEarned;
            if op.Execute? && op.order.side == Sell && op.tradingFee > 0.0 && Lists(v, op.order.marketId) &&
               op.order.quantity > 0.0 && op.order.price > 0.0 &&
               MarketFor(exp, v, op.order.marketId).liquidityB > 0.0 &&
               v.positions[id].active && v.positions[id].marketId == op.order.marketId then
              gain * MarketFor(exp, v, op.order.marketId).liquidityB == 0.65 * op.tradingFee * v.positions[id].deposited
            else gain == 0.0
  {
    if op.Execute? && Trades(exp, v, op.order) && op.order.side == Sell && op.tradingFee > 0.0 {
      EarnedByDeposit(v.positions, op.lps, 0.65 * op.tradingFee, MarketFor(exp, v, op.order.marketId).liquidityB, id);
    }
  }

  // ----- fees over runs -----

  /** At any point of any run from a base that is not negative, a profitable sell adds at most 65% of its trading
      fee to the fees of the positions, and exactly 65% when and only when it leaves the market without a base. */
  lemma PoolFeesWithinShare(exp: real -> real, v: Venue, ops: seq<VenueOp>, o: OrderData, tradingFee: real,
                            lps: seq<nat>)
    requires Lists(v, o.marketId) && Regular(v.positions) && Base(v, o.marketId) >= 0.0
    requires o.quantity > 0.0 && o.price > 0.0 && o.side == Sell && tradingFee > 0.0
    requires var w := VenueRun(exp, v, ops);
             && IsActiveList(w.positions, o.marketId, lps) && Lists(w, o.marketId)
             && MarketFor(exp, w, o.marketId).liquidityB > 0.0
    ensures var w := VenueRun(exp, v, ops); var after := VenueStep(exp, w, Execute(o, tradingFee, lps));
            var paid := AllFees(after.positions) - AllFees(w.positions);
            && Lists(after, o.marketId)
            && paid <= 0.65 * tradingFee
            && (paid == 0.65 * tradingFee <==> Base(after, o.marketId) == 0.0)
  {
    RunKeepsPools(exp, v, ops, o.marketId);
    SellFeesWithinShare(exp, VenueRun(exp, v, ops), o, tradingFee, lps);
  }

  lemma SellFeesWithinShare(exp: real -> real, w: Venue, o: OrderData, tradingFee: real, lps: seq<nat>)
    requires Trades(exp, w, o) && o.side == Sell && tradingFee > 0.0 && IsActiveList(w.positions, o.marketId, lps)
    requires Regular(w.positions) && Base(w, o.marketId) >= 0.0
    ensures var after := VenueStep(exp, w, Execute(o, tradingFee, lps));
            var paid := AllFees(after.positions) - AllFees(w.positions);
            && Lists(after, o.marketId)
            && paid <= 0.65 * tradingFee
            && (paid == 0.65 * tradingFee <==> Base(after, o.marketId) == 0.0)
  {
    var b, pool := MarketFor(exp, w, o.marketId).liquidityB, 0.65 * tradingFee;
    assert forall i :: 0 <= i < |lps| ==> lps[i] in lps;
    StepMovesBaseExactly(exp, w, Execute(o, tradingFee, lps), o.marketId);
    TradeLiquidity(exp, w, o);
    EarnedKeepsDeposits(w.positions, lps, pool, b, o.marketId);
    EarnedRaisesFees(w.positions, lps, pool, b);
    ActiveDeposits(w.positions, o.marketId, lps);
    LpFeesWithinShare(Rows(w.positions, lps), tradingFee, b);
  }
}
