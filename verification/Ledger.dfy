/** Share counts are kept three times: in the engine's memory, in the market row, and in the users' holdings. This
    module runs trades, liquidity changes, restarts and settlements and shows when the three agree
    (create_order_handler.rs, update_matched_orders.rs, market.rs, user_holdings.rs). Balances moved by trades
    are the subject of `SellPayout` and left alone here. */
module Ledger {
  import opened Sums
  import opened Orders
  import opened Lmsr
  import opened Database

  datatype System = System(books: Markets, tables: Tables)

  datatype SystemOp =
    | Trade(order: OrderData)
    | ChangeLiquidity(marketId: nat, amount: real)
    | Restart
    | Settle(marketId: nat, outcome: Outcome)

  function HoldingKey(o: OrderData): Key { Key(o.userId, o.marketId, o.outcome) }

  /** The engine's market for an order, fetched with the row's liquidity and counts. */
  function BookFor(exp: real -> real, s: System, marketId: nat): Markets
    requires marketId in s.tables.markets
  {
    var row := s.tables.markets[marketId];
    Fetched(exp, s.books, marketId, row.liquidityB, row.qYes, row.qNo)
  }

  function Persisted(t: Tables, o: OrderData, r: ExecutionResult): Tables
    requires o.marketId in t.markets
  {
    var row := t.markets[o.marketId];
    t.(holdings := Adjusted(t.holdings, HoldingKey(o), if o.side.Buy? then r.sharesBought else -r.sharesBought),
       markets := t.markets[o.marketId := row.(qYes := r.qYes, qNo := r.qNo, liquidityB := r.liquidityB)])
  }

  /** Executes an order in memory, then persists holdings and market row when it traded. */
  function TradeStep(exp: real -> real, s: System, o: OrderData): System
    requires o.marketId in s.tables.markets
  {
    var before := BookFor(exp, s, o.marketId);
    var done := ExecuteSpec(exp, before[o.marketId], o);
    System(
      before[o.marketId := done.market],
      if done.results == [] then s.tables else Persisted(s.tables, o, done.results[0]))
  }

  /** The handler's path for one order: execute it in memory on the row's figures, then persist the result. */
  method ExecuteOrder(exp: real -> real, book: GlobalMarketBook, store: Store, order: Order, budget: real)
    returns (results: seq<ExecutionResult>)
    requires book.Valid() && order.marketId in store.markets
    modifies book, book.markets.Values, store`markets, store`holdings, order
    ensures book.Valid()
    ensures System(book.View(), store.View()) ==
              TradeStep(exp, old(System(book.View(), store.View())), old(order.Data()))
    ensures var before := old(System(book.View(), store.View())); var o := old(order.Data());
            results == ExecuteSpec(exp, BookFor(exp, before, o.marketId)[o.marketId], o).results
  {
    var row := store.markets[order.marketId];
    results := book.CreateMarketOrder(exp, order.marketId, order, budget, row.liquidityB, row.qYes, row.qNo);
    if results != [] {
      Persist(store, order, results[0]);
    }
  }

  /** What a trade writes to the tables: the holding, then the market row. */
  method Persist(store: Store, order: Order, r: ExecutionResult)
    requires order.marketId in store.markets
    modifies store`markets, store`holdings
    ensures store.View() == Persisted(old(store.View()), order.Data(), r)
  {
    var holdingDelta := if order.side == Buy then r.sharesBought else -r.sharesBought;
    var _ := store.UpdateUserHoldings(order.userId, order.marketId, holdingDelta, order.outcome);
    store.UpdateLmsrState(order.marketId, r.qYes, r.qNo, r.liquidityB);
  }

  function SystemStep(exp: real -> real, s: System, op: SystemOp): System {
    match op
    case Trade(o) => if o.marketId in s.tables.markets then TradeStep(exp, s, o) else s
    case ChangeLiquidity(id, amount) =>
      if id !in s.tables.markets then s else
        var row := s.tables.markets[id];
        s.(tables := s.tables.(markets := s.tables.markets[id := row.(liquidityB := row.liquidityB + amount)]))
    case Restart => s.(books := map[])
    case Settle(id, outcome) => s.(tables := Settled(s.tables, id, outcome))
  }

  function SystemRun(exp: real -> real, s: System, ops: seq<SystemOp>): System
    decreases |ops|
  {
    if ops == [] then s else SystemRun(exp, SystemStep(exp, s, ops[0]), ops[1..])
  }

  function Count(row: MarketRow, outcome: Outcome): real {
    if outcome.Yes? then row.qYes else row.qNo
  }

  /** Row counts are the users' shares, and memory agrees with the rows. */
  ghost predicate Mirrored(s: System) {
    RowsMirror(s.tables) && SharesNonNegative(s.tables.holdings) && MemoryAgrees(s)
  }

  ghost predicate RowsMirror(t: Tables) {
    forall id :: id in t.markets ==>
      && t.markets[id].qYes == AllShares(t.holdings, t.balances.Keys, id, Yes)
      && t.markets[id].qNo == AllShares(t.holdings, t.balances.Keys, id, No)
  }

  ghost predicate SharesNonNegative(h: Holdings) { forall k :: k in h ==> h[k].shares >= 0.0 }

  ghost predicate MemoryAgrees(s: System) {
    forall id :: id in s.books ==>
      && id in s.tables.markets
      && s.books[id].qYes == s.tables.markets[id].qYes
      && s.books[id].qNo == s.tables.markets[id].qNo
  }

  /** A YES or NO order of a known user who does not sell more of the outcome than they hold. */
  predicate Covered(s: System, o: OrderData) {
    && !o.outcome.Unspecified? && o.userId in s.tables.balances
    && (o.side.Sell? ==> SharesOf(o) <= SharesHeld(s.tables.holdings, HoldingKey(o)))
  }

  lemma HeldWithinAll(h: Holdings, users: set<nat>, k: Key)
    requires k.userId in users && SharesNonNegative(h)
    ensures 0.0 <= SharesHeld(h, k) <= AllShares(h, users, k.marketId, k.outcome)
  {
    TotalBounds(users, (u: nat) => SharesHeld(h, Key(u, k.marketId, k.outcome)));
    assert SharesHeld(h, k) == SharesHeld(h, Key(k.userId, k.marketId, k.outcome));
  }

  lemma AllSharesNonNegative(h: Holdings, users: set<nat>, marketId: nat, outcome: Outcome)
    requires SharesNonNegative(h)
    ensures AllShares(h, users, marketId, outcome) >= 0.0
  {
    TotalBounds(users, (u: nat) => SharesHeld(h, Key(u, marketId, outcome)));
  }

  /** The clamp at zero does not change a covered trade. */
  lemma ClampIsIdle(exp: real -> real, s: System, o: OrderData)
    requires Mirrored(s) && o.marketId in s.tables.markets && Covered(s, o)
    requires Executes(BookFor(exp, s, o.marketId)[o.marketId], o)
    ensures var m := BookFor(exp, s, o.marketId)[o.marketId]; var row := s.tables.markets[o.marketId];
            && m.qYes == row.qYes && m.qNo == row.qNo
            && Moved(m, o).qYes == row.qYes + (if o.outcome.Yes? then SignedShares(o) else 0.0)
            && Moved(m, o).qNo == row.qNo + (if o.outcome.No? then SignedShares(o) else 0.0)
  {
    var h, users := s.tables.holdings, s.tables.balances.Keys;
    HeldWithinAll(h, users, HoldingKey(o));
    AllSharesNonNegative(h, users, o.marketId, Yes);
    AllSharesNonNegative(h, users, o.marketId, No);
    QuotientPositive(o.quantity, o.price);
  }

  /** A covered order that executes moves the holding, the row and memory by the shares its money is worth at its
      price; executed or not, nothing else is touched and the three stay mirrored. */
  lemma TradeKeepsMirrored(exp: real -> real, s: System, o: OrderData)
    requires Mirrored(s) && o.marketId in s.tables.markets && Covered(s, o)
    ensures Mirrored(TradeStep(exp, s, o))
    ensures Executes(BookFor(exp, s, o.marketId)[o.marketId], o) ==>
              MovedTogether(s, TradeStep(exp, s, o), o, SignedShares(o))
    ensures o.price > 0.0 ==> SignedShares(o) * o.price == if o.side == Buy then o.quantity else -o.quantity
    ensures OthersStay(s, TradeStep(exp, s, o), o)
  {
    TradeTouchesOne(exp, s, o);
    if o.price > 0.0 {
      SignedQuotient(o);
    }
    if Executes(BookFor(exp, s, o.marketId)[o.marketId], o) {
      TradeMovesTogether(exp, s, o);
      TradeKeepsRows(exp, s, o);
      MovedKeepsMemory(s, TradeStep(exp, s, o), o);
    }
  }

  lemma MovedKeepsMemory(s: System, after: System, o: OrderData)
    requires MemoryAgrees(s) && o.marketId in s.tables.markets
    requires MovedTogether(s, after, o, SignedShares(o)) && OthersStay(s, after, o)
    ensures MemoryAgrees(after)
  {
    forall id | id in after.books && id != o.marketId
      ensures id in s.books && after.books[id] == s.books[id]
      ensures id in s.tables.markets && id in after.tables.markets && after.tables.markets[id] == s.tables.markets[id]
    {
      assert id in after.books - {o.marketId};
      assert id in s.tables.markets - {o.marketId};
    }
  }

  /** Whatever the order: covered or not, executed or not. */
  lemma TradeTouchesOne(exp: real -> real, s: System, o: OrderData)
    requires o.marketId in s.tables.markets
    ensures OthersStay(s, TradeStep(exp, s, o), o)
  {
  }

  /** By how much an order's user holds more of its outcome afterwards. */
  function HoldingGain(s: System, after: System, o: OrderData): real {
    var k := Key(o.userId, o.marketId, o.outcome);
    SharesHeld(after.tables.holdings, k) - SharesHeld(s.tables.holdings, k)
  }

  /** Nothing but the user's holding, its market's row and the market in memory is touched. */
  ghost predicate OthersStay(s: System, after: System, o: OrderData) {
    var id, k := o.marketId, Key(o.userId, o.marketId, o.outcome);
    && after.tables.markets - {id} == s.tables.markets - {id}
    && after.tables.holdings - {k} == s.tables.holdings - {k}
    && (k in s.tables.holdings ==>
          k in after.tables.holdings && after.tables.holdings[k].settled == s.tables.holdings[k].settled)
    && after.tables.balances == s.tables.balances && after.tables.orders == s.tables.orders
    && after.books - {id} == s.books - {id}
  }

  /** The user's holding moves by `delta`, and the count in row and memory moves with it. */
  ghost predicate MovedTogether(s: System, after: System, o: OrderData, delta: real)
    requires o.marketId in s.tables.markets
  {
    var id := o.marketId;
    && HoldingGain(s, after, o) == delta
    && id in after.tables.markets && id in after.books
    && after.tables.markets[id].qYes == s.tables.markets[id].qYes + (if o.outcome == Yes then delta else 0.0)
    && after.tables.markets[id].qNo == s.tables.markets[id].qNo + (if o.outcome == No then delta else 0.0)
    && after.books[id].qYes == after.tables.markets[id].qYes
    && after.books[id].qNo == after.tables.markets[id].qNo
  }

  lemma TradeMovesTogether(exp: real -> real, s: System, o: OrderData)
    requires Mirrored(s) && o.marketId in s.tables.markets && Covered(s, o)
    requires Executes(BookFor(exp, s, o.marketId)[o.marketId], o)
    ensures MovedTogether(s, TradeStep(exp, s, o), o, SignedShares(o))
  {
    ClampIsIdle(exp, s, o);
    TradedTables(exp, s, o);
  }

  lemma SignedQuotient(o: OrderData)
    requires o.price > 0.0
    ensures SignedShares(o) * o.price == if o.side == Buy then o.quantity else -o.quantity
  {
    MoneyOfQuotient(o.price, o.quantity);
    if o.side == Sell {
      assert (-SharesOf(o)) * o.price == -(SharesOf(o) * o.price);
    }
  }

  lemma TradeKeepsRows(exp: real -> real, s: System, o: OrderData)
    requires Mirrored(s) && o.marketId in s.tables.markets && Covered(s, o)
    requires Executes(BookFor(exp, s, o.marketId)[o.marketId], o)
    ensures RowsMirror(TradeStep(exp, s, o).tables) && SharesNonNegative(TradeStep(exp, s, o).tables.holdings)
  {
    var m, row := BookFor(exp, s, o.marketId)[o.marketId], s.tables.markets[o.marketId];
    ClampIsIdle(exp, s, o);
    TradedTables(exp, s, o);
    AdjustmentKeepsRows(s.tables, HoldingKey(o), SignedShares(o),
                        row.(qYes := Moved(m, o).qYes, qNo := Moved(m, o).qNo, liquidityB := m.liquidityB));
    QuotientPositive(o.quantity, o.price);
  }

  /** Adjusting a holding and its market's count by the same amount keeps the rows mirrored. */
  lemma AdjustmentKeepsRows(t: Tables, k: Key, delta: real, row: MarketRow)
    requires RowsMirror(t) && k.userId in t.balances && k.marketId in t.markets
    requires row.qYes == t.markets[k.marketId].qYes + if k.outcome.Yes? then delta else 0.0
    requires row.qNo == t.markets[k.marketId].qNo + if k.outcome.No? then delta else 0.0
    ensures RowsMirror(t.(holdings := Adjusted(t.holdings, k, delta), markets := t.markets[k.marketId := row]))
  {
    forall id | id in t.markets
      ensures (if id == k.marketId then row else t.markets[id]).qYes ==
                AllShares(Adjusted(t.holdings, k, delta), t.balances.Keys, id, Yes)
      ensures (if id == k.marketId then row else t.markets[id]).qNo ==
                AllShares(Adjusted(t.holdings, k, delta), t.balances.Keys, id, No)
    {
      AdjustedShares(t.holdings, t.balances.Keys, k, delta, id, Yes);
      AdjustedShares(t.holdings, t.balances.Keys, k, delta, id, No);
    }
  }

  lemma TradedTables(exp: real -> real, s: System, o: OrderData)
    requires o.marketId in s.tables.markets && Executes(BookFor(exp, s, o.marketId)[o.marketId], o)
    ensures var m := Moved(BookFor(exp, s, o.marketId)[o.marketId], o); var after := TradeStep(exp, s, o);
            && after.tables == s.tables.(
                 holdings := Adjusted(s.tables.holdings, HoldingKey(o), SignedShares(o)),
                 markets := s.tables.markets[o.marketId :=
                   s.tables.markets[o.marketId].(qYes := m.qYes, qNo := m.qNo, liquidityB := m.liquidityB)])
            && after.books.Keys == s.books.Keys + {o.marketId}
            && after.books[o.marketId].qYes == m.qYes && after.books[o.marketId].qNo == m.qNo
            && (forall id :: id in s.books && id != o.marketId ==> after.books[id] == s.books[id])
  {
  }

  lemma SettleKeepsMirrored(s: System, marketId: nat, outcome: Outcome)
    requires Mirrored(s)
    ensures Mirrored(s.(tables := Settled(s.tables, marketId, outcome)))
  {
    var after := Settled(s.tables, marketId, outcome);
    assert after.balances.Keys == s.tables.balances.Keys;
    forall id: nat, o: Outcome
      ensures AllShares(after.holdings, after.balances.Keys, id, o) ==
                AllShares(s.tables.holdings, s.tables.balances.Keys, id, o)
    {
      TotalCongruent(s.tables.balances.Keys,
                     (u: nat) => SharesHeld(after.holdings, Key(u, id, o)),
                     (u: nat) => SharesHeld(s.tables.holdings, Key(u, id, o)));
    }
  }

  lemma StepKeepsMirrored(exp: real -> real, s: System, op: SystemOp)
    requires Mirrored(s) && (op.Trade? ==> Covered(s, op.order))
    ensures Mirrored(SystemStep(exp, s, op))
  {
    match op
    case Trade(o) => if o.marketId in s.tables.markets { TradeKeepsMirrored(exp, s, o); }
    case Settle(id, outcome) => SettleKeepsMirrored(s, id, outcome);
    case _ =>
  }

  ghost predicate CoveredRun(exp: real -> real, s: System, ops: seq<SystemOp>)
    decreases |ops|
  {
    ops == [] || ((ops[0].Trade? ==> Covered(s, ops[0].order)) && CoveredRun(exp, SystemStep(exp, s, ops[0]), ops[1..]))
  }

  /** Over any run in which nobody oversells, every share count equals the holdings summed over all users, in the
      row and in memory, across liquidity changes, restarts and settlements. */
  lemma {:induction false} RunKeepsMirrored(exp: real -> real, s: System, ops: seq<SystemOp>)
    requires Mirrored(s) && CoveredRun(exp, s, ops)
    ensures Mirrored(SystemRun(exp, s, ops))
    decreases |ops|
  {
    if ops != [] {
      StepKeepsMirrored(exp, s, ops[0]);
      RunKeepsMirrored(exp, SystemStep(exp, s, ops[0]), ops[1..]);
    }
  }

  /** The market has not been settled: none of its holdings is marked. */
  ghost predicate Unsettled(s: System, marketId: nat) {
    forall k :: k in s.tables.holdings && k.marketId == marketId ==> !s.tables.holdings[k].settled
  }

  lemma {:induction false} RunKeepsUnsettled(exp: real -> real, s: System, ops: seq<SystemOp>, marketId: nat)
    requires Unsettled(s, marketId)
    requires forall op :: op in ops ==> !(op.Settle? && op.marketId == marketId)
    ensures Unsettled(SystemRun(exp, s, ops), marketId)
    decreases |ops|
  {
    if ops != [] {
      assert ops[0] in ops && forall op :: op in ops[1..] ==> op in ops;
      RunKeepsUnsettled(exp, SystemStep(exp, s, ops[0]), ops[1..], marketId);
    }
  }

  /** Starting without shares, after any run in which nobody oversells, the first settlement of a market pays
      all users together exactly the winning share count of its row. */
  lemma FirstSettlementPaysCount(exp: real -> real, s: System, ops: seq<SystemOp>, marketId: nat, outcome: Outcome)
    requires s.books == map[] && s.tables.holdings == map[] && !outcome.Unspecified?
    requires forall id :: id in s.tables.markets ==> s.tables.markets[id].qYes == 0.0 && s.tables.markets[id].qNo == 0.0
    requires CoveredRun(exp, s, ops) && forall op :: op in ops ==> !(op.Settle? && op.marketId == marketId)
    requires marketId in SystemRun(exp, s, ops).tables.markets
    ensures var t := SystemRun(exp, s, ops).tables;
            AllBalances(Settled(t, marketId, outcome)) == AllBalances(t) + Count(t.markets[marketId], outcome)
  {
    forall id: nat, o: Outcome
      ensures AllShares(s.tables.holdings, s.tables.balances.Keys, id, o) == 0.0
    {
      TotalZero(s.tables.balances.Keys, (u: nat) => SharesHeld(s.tables.holdings, Key(u, id, o)));
    }
    RunKeepsMirrored(exp, s, ops);
    RunKeepsUnsettled(exp, s, ops, marketId);
    var t := SystemRun(exp, s, ops).tables;
    UnpaidIsAllShares(t, marketId, outcome);
    SettlementPaysWinners(t, marketId, outcome);
  }

  // ----- where the copies part -----

  /** An executed sell keeps the outcome's count equal to the shares held exactly when it does not exceed the
      count; beyond it the clamp stops the count but not the holdings. */
  lemma SellMirrorsExactly(exp: real -> real, s: System, o: OrderData)
    requires Mirrored(s) && o.marketId in s.tables.markets && o.userId in s.tables.balances
    requires o.side == Sell && !o.outcome.Unspecified? && Executes(BookFor(exp, s, o.marketId)[o.marketId], o)
    ensures var t := TradeStep(exp, s, o).tables;
            Count(t.markets[o.marketId], o.outcome) ==
              AllShares(t.holdings, t.balances.Keys, o.marketId, o.outcome) <==>
              SharesOf(o) <= Count(s.tables.markets[o.marketId], o.outcome)
  {
    TradedTables(exp, s, o);
    AdjustedShares(s.tables.holdings, s.tables.balances.Keys, HoldingKey(o), SignedShares(o), o.marketId, o.outcome);
    AllSharesNonNegative(s.tables.holdings, s.tables.balances.Keys, o.marketId, o.outcome);
  }

  /** An executed sell leaves every holding non-negative exactly when the seller holds the shares sold. */
  lemma SellStaysCoveredExactly(exp: real -> real, s: System, o: OrderData)
    requires SharesNonNegative(s.tables.holdings) && o.marketId in s.tables.markets
    requires o.side == Sell && Executes(BookFor(exp, s, o.marketId)[o.marketId], o)
    ensures SharesNonNegative(TradeStep(exp, s, o).tables.holdings) <==>
              SharesOf(o) <= SharesHeld(s.tables.holdings, HoldingKey(o))
  {
    TradedTables(exp, s, o);
    assert HoldingKey(o) in TradeStep(exp, s, o).tables.holdings;
  }

  /** Start-up feeds the stored open orders through the engine in memory only. */
  function StartupReplay(exp: real -> real, s: System, o: OrderData): System
    requires o.marketId in s.tables.markets
  {
    s.(books := TradeStep(exp, s, o).books)
  }

  /** Replaying a stored order keeps memory equal to the rows exactly when the order does not trade, or sells
      from a count that is already zero. */
  lemma ReplayAgreesExactly(exp: real -> real, s: System, o: OrderData)
    requires Mirrored(s) && o.marketId in s.tables.markets && !o.outcome.Unspecified?
    ensures MemoryAgrees(StartupReplay(exp, s, o)) <==>
              !Executes(BookFor(exp, s, o.marketId)[o.marketId], o) ||
              (o.side == Sell && Count(s.tables.markets[o.marketId], o.outcome) == 0.0)
  {
    var id, row := o.marketId, s.tables.markets[o.marketId];
    var m := BookFor(exp, s, id)[id];
    ReplayTouchesOne(exp, s, o);
    AllSharesNonNegative(s.tables.holdings, s.tables.balances.Keys, id, Yes);
    AllSharesNonNegative(s.tables.holdings, s.tables.balances.Keys, id, No);
    if Executes(m, o) {
      QuotientPositive(o.quantity, o.price);
      MovedInPlaceExactly(m, o);
    }
  }

  /** A replay leaves all other markets in memory alone, so memory agrees after it exactly when the replayed
      market's counts are still the row's. */
  lemma ReplayTouchesOne(exp: real -> real, s: System, o: OrderData)
    requires MemoryAgrees(s) && o.marketId in s.tables.markets
    ensures var m := BookFor(exp, s, o.marketId)[o.marketId]; var row := s.tables.markets[o.marketId];
            var moved := if Executes(m, o) then Moved(m, o) else m;
            && m.qYes == row.qYes && m.qNo == row.qNo
            && (MemoryAgrees(StartupReplay(exp, s, o)) <==> moved.qYes == row.qYes && moved.qNo == row.qNo)
  {
    var after := StartupReplay(exp, s, o).books;
    assert MemoryAgrees(StartupReplay(exp, s, o)) <==>
      && after[o.marketId].qYes == s.tables.markets[o.marketId].qYes
      && after[o.marketId].qNo == s.tables.markets[o.marketId].qNo;
  }

  /** A trade leaves both counts where they are exactly when it sells from a count of zero. */
  lemma MovedInPlaceExactly(m: MarketState, o: OrderData)
    requires m.qYes >= 0.0 && m.qNo >= 0.0 && SharesOf(o) > 0.0
    ensures Moved(m, o).qYes == m.qYes && Moved(m, o).qNo == m.qNo <==>
              o.side == Sell && (if o.outcome.Yes? then m.qYes else m.qNo) == 0.0
  {
  }

  /** An executed trade leaves the row's liquidity alone exactly when that is positive, the market was not in
      memory, or memory had the same figure. Otherwise (all liquidity withdrawn from the row, some still in
      memory) it trades on the old liquidity and writes it back. */
  lemma TradeKeepsLiquidityExactly(exp: real -> real, s: System, o: OrderData)
    requires o.marketId in s.tables.markets && Executes(BookFor(exp, s, o.marketId)[o.marketId], o)
    ensures var b := s.tables.markets[o.marketId].liquidityB;
            TradeStep(exp, s, o).tables.markets[o.marketId].liquidityB == b <==>
              b > 0.0 || o.marketId !in s.books || s.books[o.marketId].liquidityB == b
  {
    TradedTables(exp, s, o);
  }

  /** An executed buy moves the row's count by what the user's holding gains exactly when the row counts: the market
      was not in memory, or gave way to a positive, different liquidity, or memory had the same count. Otherwise
      memory's count is written over the row's. */
  lemma RowCountsExactly(exp: real -> real, s: System, o: OrderData)
    requires o.marketId in s.tables.markets && Executes(BookFor(exp, s, o.marketId)[o.marketId], o)
    requires o.side == Buy && !o.outcome.Unspecified?
    requires forall id :: id in s.books ==> s.books[id].qYes >= 0.0 && s.books[id].qNo >= 0.0
    requires forall id :: id in s.tables.markets ==> s.tables.markets[id].qYes >= 0.0 && s.tables.markets[id].qNo >= 0.0
    ensures var id, row := o.marketId, s.tables.markets[o.marketId]; var after := TradeStep(exp, s, o);
            Count(after.tables.markets[id], o.outcome) == Count(row, o.outcome) + HoldingGain(s, after, o) <==>
              || id !in s.books
              || (row.liquidityB > 0.0 && s.books[id].liquidityB != row.liquidityB)
              || (if o.outcome == Yes then s.books[id].qYes == row.qYes else s.books[id].qNo == row.qNo)
  {
    TradedTables(exp, s, o);
    QuotientPositive(o.quantity, o.price);
  }

  /** After a restart, replayed orders aside, nothing depends on what memory held before. */
  lemma RestartForgetsMemory(exp: real -> real, s: System, other: System, ops: seq<SystemOp>)
    requires s.tables == other.tables
    ensures SystemRun(exp, s, [Restart] + ops) == SystemRun(exp, other, [Restart] + ops)
    ensures SystemStep(exp, s, Restart).tables == s.tables
  {
    assert ([Restart] + ops)[1..] == ops;
    assert SystemStep(exp, s, Restart) == SystemStep(exp, other, Restart);
  }

  /** No run takes a settled mark away. */
  lemma {:induction false} RunKeepsMarks(exp: real -> real, s: System, ops: seq<SystemOp>, k: Key)
    requires k in s.tables.holdings && s.tables.holdings[k].settled
    ensures k in SystemRun(exp, s, ops).tables.holdings && SystemRun(exp, s, ops).tables.holdings[k].settled
    decreases |ops|
  {
    if ops != [] {
      RunKeepsMarks(exp, SystemStep(exp, s, ops[0]), ops[1..], k);
    }
  }
}
