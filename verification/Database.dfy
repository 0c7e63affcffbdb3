/** The tables behind the engine: db-service/src/schema/market.rs and user_holdings.rs. Each method is one
    transaction; settling runs its statements in the source's order. */
module Database {
  import opened Sums
  import opened Orders

  datatype MarketStatus = MarketOpen | MarketClosed | MarketSettled

  datatype MarketRow = MarketRow(status: MarketStatus, finalOutcome: Outcome, liquidityB: real, qYes: real, qNo: real)

  datatype Key = Key(userId: nat, marketId: nat, outcome: Outcome)

  datatype Holding = Holding(shares: real, settled: bool)

  type Holdings = map<Key, Holding>

  datatype Tables = Tables(
    markets: map<nat, MarketRow>,
    orders: map<nat, OrderData>,
    balances: map<nat, real>,
    holdings: Holdings)

  // ----- holdings -----

  function SharesHeld(h: Holdings, k: Key): real {
    if k in h then h[k].shares else 0.0
  }

  /** Insert, or add to the row there is; an existing row keeps its settled mark. */
  function Adjusted(h: Holdings, k: Key, delta: real): Holdings {
    h[k := if k in h then h[k].(shares := h[k].shares + delta) else Holding(delta, false)]
  }

  /** Shares of an outcome held by all users together. */
  ghost function AllShares(h: Holdings, users: set<nat>, marketId: nat, outcome: Outcome): real {
    Total(users, (u: nat) => SharesHeld(h, Key(u, marketId, outcome)))
  }

  /** An adjustment moves one total by exactly its delta and no other. */
  lemma AdjustedShares(h: Holdings, users: set<nat>, k: Key, delta: real, marketId: nat, outcome: Outcome)
    requires k.userId in users
    ensures AllShares(Adjusted(h, k, delta), users, marketId, outcome) ==
              AllShares(h, users, marketId, outcome) +
              if marketId == k.marketId && outcome == k.outcome then delta else 0.0
  {
    var f := (u: nat) => SharesHeld(h, Key(u, marketId, outcome));
    var g := (u: nat) => SharesHeld(Adjusted(h, k, delta), Key(u, marketId, outcome));
    if marketId == k.marketId && outcome == k.outcome {
      TotalChange(users, f, g, k.userId);
    } else {
      TotalCongruent(users, f, g);
    }
  }

  // ----- settlement -----

  predicate StaysOpen(s: OrderStatus) {
    s == Open || s == PartialFill || s == PendingUpdate || s == PendingCancel
  }

  /** What settling pays a user: the winning shares not settled before. */
  function Winnings(h: Holdings, marketId: nat, outcome: Outcome, u: nat): real {
    var k := Key(u, marketId, outcome);
    if k in h && !h[k].settled then h[k].shares else 0.0
  }

  function Expire(orders: map<nat, OrderData>, marketId: nat): map<nat, OrderData> {
    map id | id in orders ::
      if orders[id].marketId == marketId && StaysOpen(orders[id].status)
        then orders[id].(status := Expired) else orders[id]
  }

  function Pay(balances: map<nat, real>, h: Holdings, marketId: nat, outcome: Outcome): map<nat, real> {
    map u | u in balances :: balances[u] + Winnings(h, marketId, outcome, u)
  }

  function MarkSettled(h: Holdings, marketId: nat): Holdings {
    map k | k in h :: if k.marketId == marketId then h[k].(settled := true) else h[k]
  }

  function Close(markets: map<nat, MarketRow>, marketId: nat, outcome: Outcome): map<nat, MarketRow> {
    if marketId in markets
      then markets[marketId := markets[marketId].(status := MarketSettled, finalOutcome := outcome)]
      else markets
  }

  function Settled(t: Tables, marketId: nat, outcome: Outcome): Tables {
    Tables(Close(t.markets, marketId, outcome), Expire(t.orders, marketId),
           Pay(t.balances, t.holdings, marketId, outcome), MarkSettled(t.holdings, marketId))
  }

  class Store {
    var markets: map<nat, MarketRow>
    var orders: map<nat, OrderData>
    var balances: map<nat, real>
    var holdings: Holdings

    constructor (t: Tables)
      ensures View() == t
    {
      markets, orders, balances, holdings := t.markets, t.orders, t.balances, t.holdings;
    }

    function View(): Tables
      reads this
    {
      Tables(markets, orders, balances, holdings)
    }

    method UpdateUserHoldings(userId: nat, marketId: nat, quantity: real, outcome: Outcome) returns (row: Holding)
      modifies `holdings
      ensures holdings == Adjusted(old(holdings), Key(userId, marketId, outcome), quantity)
      ensures row == holdings[Key(userId, marketId, outcome)]
    {
      var k := Key(userId, marketId, outcome);
      if k in holdings {
        holdings := holdings[k := holdings[k].(shares := holdings[k].shares + quantity)];
      } else {
        holdings := holdings[k := Holding(quantity, false)];
      }
      row := holdings[k];
    }

    method UpdateLmsrState(marketId: nat, qYes: real, qNo: real, b: real)
      modifies `markets
      ensures marketId !in old(markets) ==> markets == old(markets)
      ensures marketId in old(markets) ==>
                markets == old(markets)[marketId := old(markets)[marketId].(qYes := qYes, qNo := qNo, liquidityB := b)]
    {
      if marketId in markets {
        markets := markets[marketId := markets[marketId].(qYes := qYes, qNo := qNo, liquidityB := b)];
      }
    }

    method UpdateLiquidityB(marketId: nat, amount: real, isAdding: bool)
      modifies `markets
      ensures marketId !in old(markets) ==> markets == old(markets)
      ensures marketId in old(markets) ==>
                markets == old(markets)[marketId := old(markets)[marketId].(liquidityB :=
                  old(markets)[marketId].liquidityB + if isAdding then amount else -amount)]
    {
      var finalAmount := if isAdding then amount else -amount;
      if marketId in markets {
        markets := markets[marketId := markets[marketId].(liquidityB := markets[marketId].liquidityB + finalAmount)];
      }
    }

    /** Four statements: mark the market, expire its orders, pay one per winning share, mark its holdings. */
    method SettleMarket(marketId: nat, outcome: Outcome)
      modifies this
      ensures View() == Settled(old(View()), marketId, outcome)
    {
      if marketId in markets {
        markets := markets[marketId := markets[marketId].(status := MarketSettled, finalOutcome := outcome)];
      }
      orders := Expire(orders, marketId);
      var payouts := map k | k in holdings && k.marketId == marketId && k.outcome == outcome && !holdings[k].settled ::
        holdings[k].shares;
      balances := Credit(balances, payouts, marketId, outcome);
      CreditIsPay(old(balances), holdings, payouts, marketId, outcome);
      holdings := MarkSettled(holdings, marketId);
    }
  }

  /** Adds each user's payout row, found by joining on the user, to the balance. */
  function Credit(balances: map<nat, real>, payouts: map<Key, real>, marketId: nat, outcome: Outcome): map<nat, real> {
    map u | u in balances ::
      if Key(u, marketId, outcome) in payouts then balances[u] + payouts[Key(u, marketId, outcome)] else balances[u]
  }

  lemma CreditIsPay(balances: map<nat, real>, h: Holdings, payouts: map<Key, real>, marketId: nat, outcome: Outcome)
    requires payouts == map k | k in h && k.marketId == marketId && k.outcome == outcome && !h[k].settled :: h[k].shares
    ensures Credit(balances, payouts, marketId, outcome) == Pay(balances, h, marketId, outcome)
  {
    forall u | u in balances
      ensures Credit(balances, payouts, marketId, outcome)[u] == Pay(balances, h, marketId, outcome)[u]
    {
      var k := Key(u, marketId, outcome);
      assert k in payouts <==> k in h && !h[k].settled;
    }
  }

  ghost function AllBalances(t: Tables): real {
    Total(t.balances.Keys, (u: nat) => if u in t.balances then t.balances[u] else 0.0)
  }

  /** The winning shares still to be paid out, over all users. */
  ghost function Unpaid(t: Tables, marketId: nat, outcome: Outcome): real {
    Total(t.balances.Keys, (u: nat) => Winnings(t.holdings, marketId, outcome, u))
  }

  /** Settling raises the balances together by exactly the unpaid winning shares. */
  lemma SettlementPaysWinners(t: Tables, marketId: nat, outcome: Outcome)
    ensures AllBalances(Settled(t, marketId, outcome)) == AllBalances(t) + Unpaid(t, marketId, outcome)
  {
    var after := Settled(t, marketId, outcome);
    assert after.balances.Keys == t.balances.Keys;
    TotalAdds(t.balances.Keys,
              (u: nat) => if u in after.balances then after.balances[u] else 0.0,
              (u: nat) => if u in t.balances then t.balances[u] else 0.0,
              (u: nat) => Winnings(t.holdings, marketId, outcome, u));
  }

  /** Settling again, for any outcome, pays nobody anything and marks nothing new. */
  lemma SecondSettlementPaysNothing(t: Tables, marketId: nat, first: Outcome, second: Outcome)
    ensures var once := Settled(t, marketId, first); var twice := Settled(once, marketId, second);
            && Unpaid(once, marketId, second) == 0.0
            && twice.balances == once.balances && twice.orders == once.orders && twice.holdings == once.holdings
  {
    var once := Settled(t, marketId, first);
    var twice := Settled(once, marketId, second);
    TotalZero(once.balances.Keys, (u: nat) => Winnings(once.holdings, marketId, second, u));
    assert twice.balances == once.balances;
    assert twice.orders == once.orders;
    assert twice.holdings == once.holdings;
  }

  /** The market is closed with its outcome; its orders that were still open expire; no other order and nothing of
      another market changes. */
  lemma SettlementIsLocal(t: Tables, marketId: nat, outcome: Outcome)
    ensures var after := Settled(t, marketId, outcome);
            && after.orders.Keys == t.orders.Keys
            && (forall id :: id in t.orders ==>
                  var o := t.orders[id];
                  var stillOpen := o.status in {Open, PartialFill, PendingUpdate, PendingCancel};
                  after.orders[id] == if o.marketId == marketId && stillOpen then o.(status := Expired) else o)
            && (marketId in t.markets ==>
                  && marketId in after.markets && after.markets[marketId] ==
                       t.markets[marketId].(status := MarketSettled, finalOutcome := outcome))
            && (forall m :: m in t.markets && m != marketId ==> m in after.markets && after.markets[m] == t.markets[m])
            && (forall k :: k in t.holdings && k.marketId != marketId ==>
                  k in after.holdings && after.holdings[k] == t.holdings[k])
            && (forall m, o :: m != marketId ==> Unpaid(after, m, o) == Unpaid(t, m, o))
  {
    var after := Settled(t, marketId, outcome);
    assert after.balances.Keys == t.balances.Keys;
    forall m, o | m != marketId
      ensures Unpaid(after, m, o) == Unpaid(t, m, o)
    {
      TotalCongruent(t.balances.Keys,
                     (u: nat) => Winnings(after.holdings, m, o, u), (u: nat) => Winnings(t.holdings, m, o, u));
    }
  }

  /** Several settlements of one market, one after the other. */
  function SettledAgain(t: Tables, marketId: nat, outcomes: seq<Outcome>): Tables
    decreases |outcomes|
  {
    if outcomes == [] then t else SettledAgain(Settled(t, marketId, outcomes[0]), marketId, outcomes[1..])
  }

  lemma {:induction false} AllMarkedPaysNothing(t: Tables, marketId: nat, outcomes: seq<Outcome>)
    requires forall k :: k in t.holdings && k.marketId == marketId ==> t.holdings[k].settled
    ensures SettledAgain(t, marketId, outcomes).balances == t.balances
    ensures SettledAgain(t, marketId, outcomes).holdings == t.holdings
    decreases |outcomes|
  {
    if outcomes != [] {
      var next := Settled(t, marketId, outcomes[0]);
      assert next.balances == t.balances && next.holdings == t.holdings;
      AllMarkedPaysNothing(next, marketId, outcomes[1..]);
    }
  }

  /** However often a market is settled and with whatever outcomes, all of it together pays each user one per share
      of the first outcome that had not been settled before, and changes no share. */
  lemma SettlementsPayOnce(t: Tables, marketId: nat, outcomes: seq<Outcome>, u: nat)
    requires outcomes != [] && u in t.balances
    ensures var after := SettledAgain(t, marketId, outcomes); var k := Key(u, marketId, outcomes[0]);
            && u in after.balances
            && after.balances[u] == t.balances[u] +
                 (if k in t.holdings && !t.holdings[k].settled then t.holdings[k].shares else 0.0)
            && after.holdings.Keys == t.holdings.Keys
            && (forall j :: j in t.holdings ==> after.holdings[j].shares == t.holdings[j].shares)
            && (forall j :: j in t.holdings ==>
                  (after.holdings[j].settled <==> t.holdings[j].settled || j.marketId == marketId))
  {
    AllMarkedPaysNothing(Settled(t, marketId, outcomes[0]), marketId, outcomes[1..]);
  }

  /** When none of the winning holdings is settled yet, what settling pays is all winning shares. */
  lemma UnpaidIsAllShares(t: Tables, marketId: nat, outcome: Outcome)
    requires forall k :: k in t.holdings && k.marketId == marketId && k.outcome == outcome ==> !t.holdings[k].settled
    ensures Unpaid(t, marketId, outcome) == AllShares(t.holdings, t.balances.Keys, marketId, outcome)
  {
    TotalCongruent(t.balances.Keys,
                   (u: nat) => Winnings(t.holdings, marketId, outcome, u),
                   (u: nat) => SharesHeld(t.holdings, Key(u, marketId, outcome)));
  }
}
