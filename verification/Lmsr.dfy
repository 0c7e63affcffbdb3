/** The automated market maker: order-service/src/order_book/market_book.rs and global_book.rs. The exponential
    is a parameter; what is proved needs it positive and strictly increasing, and in two places that it turns sums
    into products. */
module Lmsr {
  import opened Sums
  import opened Orders

  ghost predicate IsExp(exp: real -> real) {
    && (forall x :: exp(x) > 0.0)
    && (forall x, y :: x < y ==> exp(x) < exp(y))
  }

  datatype MarketState = MarketState(
    liquidityB: real,
    qYes: real,
    qNo: real,
    yesPrice: real,
    noPrice: real,
    yesVolume: real,
    noVolume: real)

  datatype ExecutionResult = ExecutionResult(
    orderId: nat,
    sharesBought: real,
    totalCost: real,
    averagePrice: real,
    newYesPrice: real,
    newNoPrice: real,
    sharesAfter: real,
    qYes: real,
    qNo: real,
    liquidityB: real,
    side: OrderSide)

  datatype Execution = Execution(market: MarketState, order: OrderData, results: seq<ExecutionResult>)

  /** A new market caches one half on both sides, whatever share counts it is given. */
  function NewMarket(b: real, qYes: real, qNo: real): MarketState {
    MarketState(b, qYes, qNo, 0.5, 0.5, 0.0, 0.0)
  }

  function PriceOf(exp: real -> real, b: real, qYes: real, qNo: real, outcome: Outcome): real {
    if b <= 0.0 then 0.5 else
      var yes, no := exp(qYes / b), exp(qNo / b);
      if yes + no <= 0.0 then 0.5 else
        match outcome
        case Yes => yes / (yes + no)
        case No => no / (yes + no)
        case Unspecified => 0.5
  }

  function Repriced(exp: real -> real, m: MarketState): MarketState {
    m.(yesPrice := PriceOf(exp, m.liquidityB, m.qYes, m.qNo, Yes),
       noPrice := PriceOf(exp, m.liquidityB, m.qYes, m.qNo, No))
  }

  /** The order trades: it asks for something at a positive price and the market has liquidity. */
  predicate Executes(m: MarketState, o: OrderData) {
    o.quantity > 0.0 && o.price > 0.0 && m.liquidityB > 0.0
  }

  /** Shares a trade moves. */
  function SharesOf(o: OrderData): real {
    if o.price > 0.0 then o.quantity / o.price else 0.0
  }

  function SignedShares(o: OrderData): real {
    if o.side.Buy? then SharesOf(o) else -SharesOf(o)
  }

  /** Anything but YES counts as NO; a count never drops below zero. */
  function Moved(m: MarketState, o: OrderData): MarketState {
    m.(qYes := Max(0.0, m.qYes + if o.outcome.Yes? then SignedShares(o) else 0.0),
       qNo := Max(0.0, m.qNo + if o.outcome.Yes? then 0.0 else SignedShares(o)),
       yesVolume := m.yesVolume + if o.side.Buy? && o.outcome.Yes? then o.quantity else 0.0,
       noVolume := m.noVolume + if o.side.Buy? && o.outcome.No? then o.quantity else 0.0)
  }

  function ExecuteSpec(exp: real -> real, m: MarketState, o: OrderData): Execution {
    if o.quantity <= 0.0 || o.price <= 0.0 then
      Execution(m, o.(status := Cancelled), [])
    else if m.liquidityB <= 0.0 then
      Execution(Repriced(exp, m), o.(status := Cancelled), [])
    else
      var after := Repriced(exp, Moved(m, o));
      Execution(after, o.(filled := SharesOf(o), status := Filled),
                [ExecutionResult(o.id, SharesOf(o), o.quantity, o.price, after.yesPrice, after.noPrice,
                                 if o.outcome.Yes? then after.qYes else after.qNo,
                                 after.qYes, after.qNo, after.liquidityB, o.side)])
  }

  class MarketBook {
    var liquidityB: real
    var qYes: real
    var qNo: real
    var currentYesPrice: real
    var currentNoPrice: real
    var executedYesBuyVolume: real
    var executedNoBuyVolume: real

    constructor (b: real, yes: real, no: real)
      ensures View() == NewMarket(b, yes, no)
    {
      liquidityB, qYes, qNo := b, yes, no;
      currentYesPrice, currentNoPrice := 0.5, 0.5;
      executedYesBuyVolume, executedNoBuyVolume := 0.0, 0.0;
    }

    function View(): MarketState
      reads this
    {
      MarketState(liquidityB, qYes, qNo, currentYesPrice, currentNoPrice, executedYesBuyVolume, executedNoBuyVolume)
    }

    function CalculatePrice(exp: real -> real, outcome: Outcome): real
      reads this
    {
      PriceOf(exp, liquidityB, qYes, qNo, outcome)
    }

    method UpdateMarketPrice(exp: real -> real)
      modifies this
      ensures View() == Repriced(exp, old(View()))
    {
      currentYesPrice := CalculatePrice(exp, Yes);
      currentNoPrice := CalculatePrice(exp, No);
    }

    /** calculate_lmsr_trade_for_order: moves the share counts, clamps them, caches the new prices. */
    method CalculateTrade(exp: real -> real, order: Order)
      returns (shares: real, cost: real, averagePrice: real, newYes: real, newNo: real, newQ: real)
      modifies this
      ensures old(liquidityB) <= 0.0 ==>
                && View() == old(View())
                && shares == cost == averagePrice == newQ == 0.0
                && newYes == currentYesPrice && newNo == currentNoPrice
      ensures old(liquidityB) > 0.0 ==>
                var after := Repriced(exp, Moved(old(View()), order.Data()));
                && View() == after.(yesVolume := old(executedYesBuyVolume), noVolume := old(executedNoBuyVolume))
                && shares == SharesOf(order.Data()) && cost == order.quantity && averagePrice == order.price
                && newYes == after.yesPrice && newNo == after.noPrice
                && newQ == if order.outcome == Yes then after.qYes else after.qNo
    {
      if liquidityB <= 0.0 {
        return 0.0, 0.0, 0.0, currentYesPrice, currentNoPrice, 0.0;
      }
      var isYes := order.outcome == Yes;
      shares := if order.price > 0.0 then order.quantity / order.price else 0.0;
      cost, averagePrice := order.quantity, order.price;
      var newQYes, newQNo := qYes, qNo;
      match order.side {
        case Buy => if isYes { newQYes := qYes + shares; } else { newQNo := qNo + shares; }
        case Sell => if isYes { newQYes := qYes - shares; } else { newQNo := qNo - shares; }
      }
      newQYes, newQNo := Max(newQYes, 0.0), Max(newQNo, 0.0);
      var yes, no := exp(newQYes / liquidityB), exp(newQNo / liquidityB);
      newYes := if yes + no > 0.0 then yes / (yes + no) else 0.5;
      newNo := if yes + no > 0.0 then no / (yes + no) else 0.5;
      qYes, qNo, currentYesPrice, currentNoPrice := newQYes, newQNo, newYes, newNo;
      newQ := if isYes then newQYes else newQNo;
    }

    /** The budget argument is not looked at. */
    method CreateMarketOrder(exp: real -> real, order: Order, budget: real) returns (results: seq<ExecutionResult>)
      modifies this, order
      ensures Execution(View(), order.Data(), results) == ExecuteSpec(exp, old(View()), old(order.Data()))
    {
      results := [];
      var amount, executionPrice := order.quantity, order.price;
      if amount <= 0.0 || executionPrice <= 0.0 {
        order.status := Cancelled;
        return;
      }
      QuotientPositive(amount, executionPrice);
      var shares, cost, averagePrice, newYes, newNo, newQ := CalculateTrade(exp, order);
      if shares > 0.0 {
        order.filledQuantity := shares;
        order.quantity := amount;
        order.price := averagePrice;
        order.status := Filled;
        if order.side == Buy {
          match order.outcome {
            case Yes => executedYesBuyVolume := executedYesBuyVolume + cost;
            case No => executedNoBuyVolume := executedNoBuyVolume + cost;
            case Unspecified =>
          }
        }
        results := [ExecutionResult(order.id, shares, cost, averagePrice, newYes, newNo, newQ,
                                    qYes, qNo, liquidityB, order.side)];
      } else {
        order.status := Cancelled;
      }
      UpdateMarketPrice(exp);
    }

    method ProcessOrder(exp: real -> real, order: Order) returns (results: seq<ExecutionResult>)
      modifies this, order
      ensures Execution(View(), order.Data(), results) == ExecuteSpec(exp, old(View()), old(order.Data()))
    {
      if order.quantity <= 0.0 || order.price <= 0.0 {
        order.status := Cancelled;
        return [];
      }
      results := CreateMarketOrder(exp, order, order.quantity);
      // an order without results is cancelled already: the source's extra check never fires
      assert results == [] ==> order.status == Cancelled;
    }
  }

  type Markets = map<nat, MarketState>

  /** A known market takes over liquidity and share counts only when it is given a positive, different
      liquidity. */
  function Fetched(exp: real -> real, ms: Markets, id: nat, b: real, qYes: real, qNo: real): Markets {
    if id !in ms then ms[id := NewMarket(b, qYes, qNo)]
    else if b > 0.0 && ms[id].liquidityB != b then
      ms[id := Repriced(exp, ms[id].(liquidityB := b, qYes := qYes, qNo := qNo))]
    else ms
  }

  class GlobalMarketBook {
    var markets: map<nat, MarketBook>

    ghost predicate Valid()
      reads this
    {
      forall i, j :: i in markets && j in markets && i != j ==> markets[i] != markets[j]
    }

    ghost function View(): Markets
      reads this, markets.Values
    {
      map id | id in markets :: markets[id].View()
    }

    constructor ()
      ensures Valid() && View() == map[] && markets == map[]
    {
      markets := map[];
    }

    /** Distinct markets are distinct objects, so changing one changes one entry of the view. */
    lemma OneMarketMoved(before: Markets, id: nat)
      requires id in markets && before.Keys == markets.Keys
      requires forall j :: j in markets && j != id ==> markets[j].View() == before[j]
      ensures View() == before[id := markets[id].View()]
    {
    }

    method GetOrCreateMarket(exp: real -> real, id: nat, b: real, qYes: real, qNo: real) returns (book: MarketBook)
      requires Valid()
      modifies this, markets.Values
      ensures Valid() && id in markets && book == markets[id]
      ensures View() == Fetched(exp, old(View()), id, b, qYes, qNo)
      ensures markets.Values <= old(markets.Values) + {book} && (book in old(markets.Values) || fresh(book))
    {
      if id in markets {
        book := markets[id];
        if b > 0.0 && book.liquidityB != b {
          book.liquidityB := b;
          book.qYes := qYes;
          book.qNo := qNo;
          book.UpdateMarketPrice(exp);
        }
      } else {
        book := new MarketBook(b, qYes, qNo);
        markets := markets[id := book];
      }
    }

    method ProcessOrder(exp: real -> real, order: Order, b: real, qYes: real, qNo: real)
      returns (results: seq<ExecutionResult>)
      requires Valid()
      modifies this, markets.Values, order
      ensures Valid()
      ensures var before := Fetched(exp, old(View()), order.marketId, b, qYes, qNo);
              var done := ExecuteSpec(exp, before[order.marketId], old(order.Data()));
              && View() == before[order.marketId := done.market]
              && order.Data() == done.order && results == done.results
    {
      var book := GetOrCreateMarket(exp, order.marketId, b, qYes, qNo);
      ghost var before := View();
      results := book.ProcessOrder(exp, order);
      OneMarketMoved(before, order.marketId);
    }

    method CreateMarketOrder(exp: real -> real, id: nat, order: Order, budget: real, b: real, qYes: real, qNo: real)
      returns (results: seq<ExecutionResult>)
      requires Valid()
      modifies this, markets.Values, order
      ensures Valid()
      ensures var before := Fetched(exp, old(View()), id, b, qYes, qNo);
              var done := ExecuteSpec(exp, before[id], old(order.Data()));
              && View() == before[id := done.market]
              && order.Data() == done.order && results == done.results
    {
      var book := GetOrCreateMarket(exp, id, b, qYes, qNo);
      ghost var before := View();
      results := book.CreateMarketOrder(exp, order, budget);
      OneMarketMoved(before, id);
    }

    method ProcessOrderWithoutLiquidity(exp: real -> real, order: Order) returns (results: seq<ExecutionResult>)
      requires Valid()
      modifies markets.Values, order
      ensures Valid() && markets == old(markets)
      ensures order.marketId !in markets ==> View() == old(View()) && order.Data() == old(order.Data()) && results == []
      ensures order.marketId in markets ==>
                var done := ExecuteSpec(exp, old(View())[order.marketId], old(order.Data()));
                && View() == old(View())[order.marketId := done.market]
                && order.Data() == done.order && results == done.results
    {
      if order.marketId in markets {
        results := markets[order.marketId].ProcessOrder(exp, order);
      } else {
        results := [];
      }
    }
  }

  // ----- arithmetic -----

  lemma QuotientPositive(a: real, b: real)
    requires a > 0.0 && b > 0.0
    ensures a / b > 0.0
  {
  }

  lemma QuotientMonotone(a: real, c: real, b: real)
    requires a < c && b > 0.0
    ensures a / b < c / b
  {
  }

  lemma TimesMore(p: real, u: real, v: real)
    requires p > 0.0 && u < v
    ensures p * u < p * v
  {
  }

  lemma DivideByMore(r: real, u: real, v: real)
    requires 0.0 < u < v && r > 0.0
    ensures r / v < r / u
  {
    var p, q := r / u, r / v;
    assert p * u == r && q * v == r;
    TimesMore(q, u, v);
    assert q * u < p * u;
  }

  lemma ShareRises(a: real, c: real, rest: real)
    requires 0.0 < a < c && rest > 0.0
    ensures a / (a + rest) < c / (c + rest)
    ensures rest / (c + rest) < rest / (a + rest)
  {
    DivideByMore(rest, a + rest, c + rest);
    FractionsOfWhole(a, rest);
    FractionsOfWhole(c, rest);
  }

  // ----- prices -----

  ghost predicate Distribution(m: MarketState) {
    0.0 < m.yesPrice < 1.0 && 0.0 < m.noPrice < 1.0 && m.yesPrice + m.noPrice == 1.0
  }

  lemma RepricedIsDistribution(exp: real -> real, m: MarketState)
    requires IsExp(exp)
    ensures Distribution(Repriced(exp, m))
  {
    if m.liquidityB > 0.0 {
      var yes, no := exp(m.qYes / m.liquidityB), exp(m.qNo / m.liquidityB);
      FractionsOfWhole(yes, no);
    }
  }

  lemma FractionsOfWhole(a: real, b: real)
    requires a > 0.0 && b > 0.0
    ensures 0.0 < a / (a + b) < 1.0 && 0.0 < b / (a + b) < 1.0 && a / (a + b) + b / (a + b) == 1.0
  {
  }

  /** YES is priced at least as high as NO exactly when at least as many YES shares are out. */
  lemma DearerSideIsLarger(exp: real -> real, m: MarketState)
    requires IsExp(exp) && m.liquidityB > 0.0
    ensures Repriced(exp, m).yesPrice >= Repriced(exp, m).noPrice <==> m.qYes >= m.qNo
  {
    var b := m.liquidityB;
    var yes, no := exp(m.qYes / b), exp(m.qNo / b);
    FractionsOfWhole(yes, no);
    if m.qYes < m.qNo {
      QuotientMonotone(m.qYes, m.qNo, b);
      OrderOfFractions(yes, no);
    } else if m.qYes > m.qNo {
      QuotientMonotone(m.qNo, m.qYes, b);
      OrderOfFractions(no, yes);
    }
  }

  lemma OrderOfFractions(a: real, b: real)
    requires 0.0 < a < b
    ensures a / (a + b) < b / (a + b)
    ensures a / (b + a) < b / (b + a)
  {
  }

  /** The cached prices are those of the current share counts. */
  ghost predicate Fresh(exp: real -> real, m: MarketState) { m == Repriced(exp, m) }

  lemma {:induction false} NewMarketFreshExactly(exp: real -> real, b: real, qYes: real, qNo: real)
    requires IsExp(exp)
    ensures Fresh(exp, NewMarket(b, qYes, qNo)) <==> b <= 0.0 || qYes == qNo
  {
    var m := NewMarket(b, qYes, qNo);
    if b > 0.0 {
      var yes, no := exp(qYes / b), exp(qNo / b);
      FractionsOfWhole(yes, no);
      if qYes < qNo {
        DearerSideIsLarger(exp, m);
      } else if qNo < qYes {
        QuotientMonotone(qNo, qYes, b);
        OrderOfFractions(no, yes);
      } else {
        assert yes / (yes + no) == no / (yes + no);
      }
    }
  }

  datatype GlobalOp =
    | Process(order: OrderData, b: real, qYes: real, qNo: real)   // process_order, add_order, create_market_order
    | ProcessKnown(order: OrderData)                              // process_order_without_liquidity
    | Refresh(id: nat)                                            // a successful update_order or remove_order
    | RemoveMarket(id: nat)

  function GlobalStep(exp: real -> real, ms: Markets, op: GlobalOp): Markets {
    match op
    case Process(o, b, qYes, qNo) =>
      var before := Fetched(exp, ms, o.marketId, b, qYes, qNo);
      before[o.marketId := ExecuteSpec(exp, before[o.marketId], o).market]
    case ProcessKnown(o) =>
      if o.marketId in ms then ms[o.marketId := ExecuteSpec(exp, ms[o.marketId], o).market] else ms
    case Refresh(id) => if id in ms then ms[id := Repriced(exp, ms[id])] else ms
    case RemoveMarket(id) => ms - {id}
  }

  function GlobalRun(exp: real -> real, ms: Markets, ops: seq<GlobalOp>): Markets
    decreases |ops|
  {
    if ops == [] then ms else GlobalRun(exp, GlobalStep(exp, ms, ops[0]), ops[1..])
  }

  ghost predicate Priced(ms: Markets) { forall id :: id in ms ==> Distribution(ms[id]) }

  lemma GlobalStepKeepsPriced(exp: real -> real, ms: Markets, op: GlobalOp)
    requires IsExp(exp) && Priced(ms)
    ensures Priced(GlobalStep(exp, ms, op))
  {
    forall m: MarketState
      ensures Distribution(Repriced(exp, m))
    {
      RepricedIsDistribution(exp, m);
    }
  }

  /** In every reachable market both cached prices are strictly between 0 and 1 and add up to 1. */
  lemma {:induction false} GlobalRunKeepsPriced(exp: real -> real, ms: Markets, ops: seq<GlobalOp>)
    requires IsExp(exp) && Priced(ms)
    ensures Priced(GlobalRun(exp, ms, ops))
    decreases |ops|
  {
    if ops != [] {
      GlobalStepKeepsPriced(exp, ms, ops[0]);
      GlobalRunKeepsPriced(exp, GlobalStep(exp, ms, ops[0]), ops[1..]);
    }
  }

  /** Fresh, or still exactly as it was created. */
  ghost predicate FreshOrNew(exp: real -> real, m: MarketState) {
    Fresh(exp, m) || m == NewMarket(m.liquidityB, m.qYes, m.qNo)
  }

  /** An order with positive price and quantity leaves its market fresh; nothing makes a fresh market stale. */
  lemma GlobalStepFreshens(exp: real -> real, ms: Markets, op: GlobalOp, id: nat)
    requires id in GlobalStep(exp, ms, op)
    ensures id in ms && Fresh(exp, ms[id]) ==> Fresh(exp, GlobalStep(exp, ms, op)[id])
    ensures (id in ms ==> FreshOrNew(exp, ms[id])) ==> FreshOrNew(exp, GlobalStep(exp, ms, op)[id])
    ensures (op.Process? || op.ProcessKnown?) && op.order.marketId == id &&
            op.order.quantity > 0.0 && op.order.price > 0.0 ==>
              Fresh(exp, GlobalStep(exp, ms, op)[id])
  {
  }

  /** In every reachable market the cached prices are those of the current share counts and liquidity, unless
      the market is still as it was created. */
  lemma {:induction false} GlobalRunKeepsFresh(exp: real -> real, ms: Markets, ops: seq<GlobalOp>)
    requires forall id :: id in ms ==> FreshOrNew(exp, ms[id])
    ensures forall id :: id in GlobalRun(exp, ms, ops) ==> FreshOrNew(exp, GlobalRun(exp, ms, ops)[id])
    decreases |ops|
  {
    if ops != [] {
      var next := GlobalStep(exp, ms, ops[0]);
      forall id | id in next
        ensures FreshOrNew(exp, next[id])
      {
        GlobalStepFreshens(exp, ms, ops[0], id);
      }
      GlobalRunKeepsFresh(exp, next, ops[1..]);
    }
  }

  // ----- odds -----

  /** The law of the market maker: with liquidity the two prices add up to 1 and are to each other as the exponentials
      of share count over liquidity; without it both are one half. */
  ghost predicate Odds(exp: real -> real, m: MarketState) {
    if m.liquidityB > 0.0 then
      && m.yesPrice + m.noPrice == 1.0
      && m.yesPrice * exp(m.qNo / m.liquidityB) == m.noPrice * exp(m.qYes / m.liquidityB)
    else m.yesPrice == m.noPrice == 0.5
  }

  lemma OddsOfFractions(a: real, b: real, p: real, r: real)
    requires a > 0.0 && b > 0.0
    ensures p == a / (a + b) && r == b / (a + b) <==> p + r == 1.0 && p * b == r * a
  {
    FractionsOfWhole(a, b);
    var s := a + b;
    assert (a / s) * b == (b / s) * a;
    if p + r == 1.0 && p * b == r * a {
      assert p * s == a && r * s == b;
      QuotientOf(a, s, p);
      QuotientOf(b, s, r);
    }
  }

  lemma QuotientOf(a: real, s: real, p: real)
    requires s > 0.0 && p * s == a
    ensures a / s == p
  {
  }

  /** The odds and the sum determine both prices, so a market is fresh exactly when it follows the law. */
  lemma FreshIsOdds(exp: real -> real, m: MarketState)
    requires IsExp(exp)
    ensures Fresh(exp, m) <==> Odds(exp, m)
  {
    var b := m.liquidityB;
    if b > 0.0 {
      var yes, no := exp(m.qYes / b), exp(m.qNo / b);
      OddsOfFractions(yes, no, m.yesPrice, m.noPrice);
      FreshPrices(exp, m);
    }
  }

  lemma FreshPrices(exp: real -> real, m: MarketState)
    requires IsExp(exp) && m.liquidityB > 0.0
    ensures var yes, no := exp(m.qYes / m.liquidityB), exp(m.qNo / m.liquidityB);
            Fresh(exp, m) <==> m.yesPrice == yes / (yes + no) && m.noPrice == no / (yes + no)
  {
  }

  /** In every reachable market the cached prices follow the law, unless it is still as created with halves. */
  lemma GlobalRunKeepsOdds(exp: real -> real, ops: seq<GlobalOp>, id: nat)
    requires IsExp(exp) && id in GlobalRun(exp, map[], ops)
    ensures var m := GlobalRun(exp, map[], ops)[id];
            Odds(exp, m) || m == MarketState(m.liquidityB, m.qYes, m.qNo, 0.5, 0.5, 0.0, 0.0)
  {
    GlobalRunKeepsFresh(exp, map[], ops);
    FreshIsOdds(exp, GlobalRun(exp, map[], ops)[id]);
  }

  /** What makes it the exponential: sums become products. */
  ghost predicate IsExponential(exp: real -> real) {
    IsExp(exp) && exp(0.0) == 1.0 && forall x, y :: Multiplies(exp, x, y)
  }

  ghost predicate Multiplies(exp: real -> real, x: real, y: real) { exp(x + y) == exp(x) * exp(y) }

  /** Prices depend on the difference of the counts per unit of liquidity only. */
  lemma OddsOfDifference(exp: real -> real, m: MarketState)
    requires IsExponential(exp) && m.liquidityB > 0.0 && Odds(exp, m)
    ensures m.yesPrice == m.noPrice * exp((m.qYes - m.qNo) / m.liquidityB)
  {
    var b := m.liquidityB;
    var d := (m.qYes - m.qNo) / b;
    assert exp(m.qYes / b) == exp(m.qNo / b) * exp(d) by {
      QuotientAdds(m.qNo, m.qYes - m.qNo, b);
      assert Multiplies(exp, m.qNo / b, d);
    }
    OddsCancel(exp(m.qNo / b), exp(m.qYes / b), exp(d), m.yesPrice, m.noPrice);
  }

  lemma QuotientAdds(a: real, c: real, b: real)
    requires b > 0.0
    ensures (a + c) / b == a / b + c / b
  {
  }

  lemma OddsCancel(no: real, yes: real, e: real, p: real, r: real)
    requires no > 0.0 && p * no == r * yes && yes == no * e
    ensures p == r * e
  {
    assert r * (no * e) == (r * e) * no;
    CancelFactor(no, p, r * e);
  }

  lemma CancelFactor(c: real, x: real, y: real)
    requires c > 0.0 && x * c == y * c
    ensures x == y
  {
    if x < y {
      TimesMore(c, x, y);
    } else if y < x {
      TimesMore(c, y, x);
    }
  }

  lemma PriceOfDifference(exp: real -> real, m: MarketState, d: real)
    requires IsExponential(exp) && m.liquidityB > 0.0 && Odds(exp, m) && d == m.qYes - m.qNo
    ensures var e := exp(d / m.liquidityB); m.yesPrice == e / (1.0 + e)
  {
    OddsOfDifference(exp, m);
    OddsRaise(m.yesPrice, exp(d / m.liquidityB));
  }

  lemma MoreThanOne(exp: real -> real, y: real, x: real)
    requires IsExponential(exp) && 0.0 < y < x
    ensures 1.0 < exp(y) < exp(x)
  {
  }

  /** Depth: with the same counts, more YES than NO, a market with more liquidity puts YES strictly nearer to one
      half. */
  lemma DeeperIsFlatter(exp: real -> real, shallow: MarketState, deep: MarketState)
    requires IsExponential(exp) && Odds(exp, shallow) && Odds(exp, deep)
    requires shallow.qYes == deep.qYes > shallow.qNo == deep.qNo
    requires 0.0 < shallow.liquidityB < deep.liquidityB
    ensures 0.5 < deep.yesPrice < shallow.yesPrice
  {
    var d := shallow.qYes - shallow.qNo;
    PriceOfDifference(exp, shallow, d);
    PriceOfDifference(exp, deep, d);
    DepthOrder(exp, d, shallow.liquidityB, deep.liquidityB);
  }

  lemma DepthOrder(exp: real -> real, d: real, b: real, c: real)
    requires IsExponential(exp) && d > 0.0 && 0.0 < b < c
    ensures var x, y := exp(d / b), exp(d / c); 0.5 < y / (1.0 + y) < x / (1.0 + x)
  {
    DivideByMore(d, b, c);
    QuotientPositive(d, c);
    MoreThanOne(exp, d / c, d / b);
    QuotientOrder(exp(d / c), exp(d / b));
  }

  /** A price from its odds. */
  lemma OddsRaise(p: real, e: real)
    requires e > 0.0 && p == (1.0 - p) * e
    ensures p == e / (1.0 + e)
  {
    assert p * (1.0 + e) == e;
    QuotientOf(e, 1.0 + e, p);
  }

  lemma QuotientOrder(a: real, c: real)
    requires 1.0 < a < c
    ensures 0.5 < a / (1.0 + a) < c / (1.0 + c)
  {
    ShareRises(a, c, 1.0);
    ShareRises(1.0, a, 1.0);
  }

  // ----- trades -----

  /** A trade in terms of money and shares. It takes place exactly when amount, price and liquidity are positive; the
      shares are worth the amount at the order's price, and the outcome's count moves by them, down to zero at
      least. */
  lemma TradeInMoney(exp: real -> real, m: MarketState, o: OrderData)
    ensures var r := ExecuteSpec(exp, m, o);
            && (o.quantity > 0.0 && o.price > 0.0 && m.liquidityB > 0.0 <==> r.results != [])
            && (r.results == [] ==>
                  && r.order == o.(status := Cancelled)
                  && r.market == m.(yesPrice := r.market.yesPrice, noPrice := r.market.noPrice))
            && (r.results != [] ==>
                  var x := r.results[0]; var delta := if o.side == Buy then x.sharesBought else -x.sharesBought;
                  && |r.results| == 1 && x.sharesBought > 0.0 && x.sharesBought * o.price == o.quantity
                  && x.orderId == o.id && x.side == o.side && x.totalCost == o.quantity && x.averagePrice == o.price
                  && r.order == o.(filled := x.sharesBought, status := Filled)
                  && r.market.qYes == (if o.outcome == Yes then Max(0.0, m.qYes + delta) else Max(0.0, m.qYes))
                  && r.market.qNo == (if o.outcome == Yes then Max(0.0, m.qNo) else Max(0.0, m.qNo + delta))
                  && r.market.yesVolume == m.yesVolume + (if o.side == Buy && o.outcome == Yes then o.quantity else 0.0)
                  && r.market.noVolume == m.noVolume + (if o.side == Buy && o.outcome == No then o.quantity else 0.0)
                  && r.market.liquidityB == m.liquidityB == x.liquidityB
                  && x.qYes == r.market.qYes && x.qNo == r.market.qNo
                  && x.newYesPrice == r.market.yesPrice && x.newNoPrice == r.market.noPrice
                  && x.sharesAfter == if o.outcome == Yes then x.qYes else x.qNo)
  {
    if Executes(m, o) {
      QuotientPositive(o.quantity, o.price);
      MoneyOfQuotient(o.price, o.quantity);
    }
  }

  /** A market is taken from memory as it is, unless it is not there or the row has liquidity that differs. */
  lemma MemoryGivesWay(exp: real -> real, ms: Markets, id: nat, b: real, qYes: real, qNo: real)
    ensures var after := Fetched(exp, ms, id, b, qYes, qNo);
            && id in after && (forall j :: j != id ==> (j in after <==> j in ms) && (j in ms ==> after[j] == ms[j]))
            && (id !in ms ==> after[id] == MarketState(b, qYes, qNo, 0.5, 0.5, 0.0, 0.0))
            && (id in ms && (b <= 0.0 || ms[id].liquidityB == b) ==> after[id] == ms[id])
            && (id in ms && b > 0.0 && ms[id].liquidityB != b ==>
                  && after[id].liquidityB == b && after[id].qYes == qYes && after[id].qNo == qNo
                  && Fresh(exp, after[id])
                  && after[id].yesVolume == ms[id].yesVolume && after[id].noVolume == ms[id].noVolume)
  {
  }

  /** An executed YES buy strictly raises the YES price and lowers the NO price: the right prices before it always,
      hence fresh cached prices; the cached halves of a market still as created rise exactly when the buy brings
      YES above NO. */
  lemma BuyRaisesPrice(exp: real -> real, m: MarketState, o: OrderData)
    requires IsExp(exp) && m.qYes >= 0.0 && m.qNo >= 0.0
    requires Executes(m, o) && o.side == Buy && o.outcome == Yes
    ensures var after := ExecuteSpec(exp, m, o).market;
            && after.qYes > m.qYes && after.qNo == m.qNo
            && after.yesPrice > Repriced(exp, m).yesPrice && after.noPrice < Repriced(exp, m).noPrice
            && (Fresh(exp, m) ==> after.yesPrice > m.yesPrice && after.noPrice < m.noPrice)
            && (m == NewMarket(m.liquidityB, m.qYes, m.qNo) ==>
                  (after.yesPrice > m.yesPrice <==> m.qYes + SharesOf(o) > m.qNo))
  {
    QuotientPositive(o.quantity, o.price);
    var b, s := m.liquidityB, SharesOf(o);
    QuotientMonotone(m.qYes, m.qYes + s, b);
    ShareRises(exp(m.qYes / b), exp((m.qYes + s) / b), exp(m.qNo / b));
    AboveHalfExactly(exp, Moved(m, o));
  }

  /** A YES price is above one half exactly when more YES than NO shares are out. */
  lemma AboveHalfExactly(exp: real -> real, m: MarketState)
    requires IsExp(exp) && m.liquidityB > 0.0
    ensures Repriced(exp, m).yesPrice > 0.5 <==> m.qYes > m.qNo
  {
    RepricedIsDistribution(exp, m);
    DearerSideIsLarger(exp, m);
    var mirror := m.(qYes := m.qNo, qNo := m.qYes);
    DearerSideIsLarger(exp, mirror);
    assert Repriced(exp, mirror).yesPrice == Repriced(exp, m).noPrice;
    assert Repriced(exp, mirror).noPrice == Repriced(exp, m).yesPrice;
  }

  /** Buying and then selling the same number of shares of one outcome restores share counts and prices. */
  lemma BuyThenSellRestores(exp: real -> real, m: MarketState, buy: OrderData, sell: OrderData)
    requires Fresh(exp, m) && m.qYes >= 0.0 && m.qNo >= 0.0
    requires Executes(m, buy) && Executes(m, sell) && buy.side == Buy && sell.side == Sell
    requires buy.outcome == sell.outcome && SharesOf(buy) == SharesOf(sell)
    ensures var after := ExecuteSpec(exp, ExecuteSpec(exp, m, buy).market, sell).market;
            after == m.(yesVolume := after.yesVolume, noVolume := after.noVolume)
  {
    QuotientPositive(buy.quantity, buy.price);
  }

  function RunOrders(exp: real -> real, m: MarketState, os: seq<OrderData>): MarketState
    decreases |os|
  {
    if os == [] then m else RunOrders(exp, ExecuteSpec(exp, m, os[0]).market, os[1..])
  }

  predicate IsBuy(o: OrderData) { o.side.Buy? && o.quantity > 0.0 && o.price > 0.0 }

  function YesShares(o: OrderData): real { if o.outcome.Yes? then SharesOf(o) else 0.0 }

  function NoShares(o: OrderData): real { if !o.outcome.Yes? then SharesOf(o) else 0.0 }

  function YesMoney(o: OrderData): real { if o.outcome.Yes? then o.quantity else 0.0 }

  function NoMoney(o: OrderData): real { if o.outcome.No? then o.quantity else 0.0 }

  /** A market with more shares and volume, not yet repriced. */
  function Raised(m: MarketState, yes: real, no: real, yesMoney: real, noMoney: real): MarketState {
    m.(qYes := m.qYes + yes, qNo := m.qNo + no, yesVolume := m.yesVolume + yesMoney, noVolume := m.noVolume + noMoney)
  }

  lemma BuyAdds(exp: real -> real, m: MarketState, o: OrderData)
    requires m.liquidityB > 0.0 && m.qYes >= 0.0 && m.qNo >= 0.0 && IsBuy(o)
    ensures ExecuteSpec(exp, m, o).market ==
              Repriced(exp, Raised(m, YesShares(o), NoShares(o), YesMoney(o), NoMoney(o)))
    ensures YesShares(o) >= 0.0 && NoShares(o) >= 0.0
  {
    QuotientPositive(o.quantity, o.price);
  }

  lemma {:induction false} BuysAddUp(exp: real -> real, m: MarketState, os: seq<OrderData>)
    requires m.liquidityB > 0.0 && m.qYes >= 0.0 && m.qNo >= 0.0
    requires forall i :: 0 <= i < |os| ==> IsBuy(os[i])
    ensures RunOrders(exp, m, os) ==
              if os == [] then m
              else Repriced(exp, Raised(m, SumBy(os, YesShares), SumBy(os, NoShares),
                                        SumBy(os, YesMoney), SumBy(os, NoMoney)))
    decreases |os|
  {
    if os != [] {
      var o, rest := os[0], os[1..];
      var next := ExecuteSpec(exp, m, o).market;
      BuyAdds(exp, m, o);
      BuysAddUp(exp, next, rest);
      var raised := Raised(m, YesShares(o), NoShares(o), YesMoney(o), NoMoney(o));
      RaisedTwice(exp, m, raised, YesShares(o), NoShares(o), YesMoney(o), NoMoney(o),
                  SumBy(rest, YesShares), SumBy(rest, NoShares), SumBy(rest, YesMoney), SumBy(rest, NoMoney));
    }
  }

  /** Raising a repriced market is raising it at once, prices aside. */
  lemma RaisedTwice(exp: real -> real, m: MarketState, once: MarketState, a: real, b: real, c: real, d: real,
                    e: real, f: real, g: real, h: real)
    requires once == Raised(m, a, b, c, d)
    ensures Repriced(exp, Raised(Repriced(exp, once), e, f, g, h)) ==
              Repriced(exp, Raised(m, a + e, b + f, c + g, d + h))
    ensures Repriced(exp, Repriced(exp, once)) == Repriced(exp, once)
  {
  }

  lemma BuysArePermuted(os: seq<OrderData>, other: seq<OrderData>)
    requires multiset(os) == multiset(other) && forall o :: o in os ==> IsBuy(o)
    ensures |os| == |other|
    ensures forall i :: 0 <= i < |os| ==> IsBuy(os[i])
    ensures forall i :: 0 <= i < |other| ==> IsBuy(other[i])
  {
    assert |os| == |multiset(os)| == |multiset(other)| == |other|;
    forall i | 0 <= i < |other|
      ensures IsBuy(other[i])
    {
      assert other[i] in multiset(other);
      assert other[i] in os;
    }
    assert forall i :: 0 <= i < |os| ==> os[i] in os;
  }

  lemma SumsArePermuted(os: seq<OrderData>, other: seq<OrderData>)
    requires multiset(os) == multiset(other)
    ensures SumBy(os, YesShares) == SumBy(other, YesShares) && SumBy(os, NoShares) == SumBy(other, NoShares)
    ensures SumBy(os, YesMoney) == SumBy(other, YesMoney) && SumBy(os, NoMoney) == SumBy(other, NoMoney)
  {
    SumByPermutation(os, other, YesShares);
    SumByPermutation(os, other, NoShares);
    SumByPermutation(os, other, YesMoney);
    SumByPermutation(os, other, NoMoney);
  }

  /** Any order of the same buys ends in the same market, prices and volumes included. */
  lemma BuysCommute(exp: real -> real, m: MarketState, os: seq<OrderData>, other: seq<OrderData>)
    requires m.liquidityB > 0.0 && m.qYes >= 0.0 && m.qNo >= 0.0
    requires multiset(os) == multiset(other) && forall o :: o in os ==> IsBuy(o)
    ensures RunOrders(exp, m, os) == RunOrders(exp, m, other)
  {
    BuysArePermuted(os, other);
    SumsArePermuted(os, other);
    BuysAddUp(exp, m, os);
    BuysAddUp(exp, m, other);
  }
}
