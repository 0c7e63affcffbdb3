/** The payout of an executed sell (order-service/src/utils/update_matched_orders.rs): lots are rebuilt from the
    order history, the profit is taken from them, and fees are charged on the profit only. */
module SellPayout {
  import opened Sums
  import opened Orders
  import opened FifoLots

  datatype Payout = Payout(profit: real, tradingFee: real, platformFee: real, credited: real)

  /** Shares a past sell order stands for. Dividing by its price is the source's own step. */
  function PastShares(sells: seq<OrderData>): seq<real>
    requires forall s :: s in sells ==> s.price != 0.0
  {
    if sells == [] then [] else
      assert sells[0] in sells;
      [sells[0].quantity / sells[0].price] + PastShares(sells[1..])
  }

  /** The user's lots at the moment of a sell. */
  function LotsHeld(buys: seq<OrderData>, sells: seq<OrderData>): seq<BuyLot>
    requires forall s :: s in sells ==> s.price != 0.0
  {
    Replay(LotsOf(buys), PastShares(sells))
  }

  method SettleSell(buys: seq<OrderData>, sells: seq<OrderData>, sharesSold: real, averagePrice: real, totalCost: real)
      returns (r: Payout)
    requires forall s :: s in sells ==> s.price != 0.0
    ensures r.profit == Profit(LotsHeld(buys, sells), Sale(averagePrice, sharesSold))
    ensures |buys| == 1 && sells == [] && buys[0].price > 0.0 && buys[0].quantity >= 0.0 && sharesSold >= 0.0 &&
            sharesSold * buys[0].price == buys[0].quantity ==>
              r.profit * buys[0].price == buys[0].quantity * (averagePrice - buys[0].price)
    ensures r == SplitFees(totalCost, r.profit)
  {
    if |buys| == 1 && sells == [] && buys[0].price > 0.0 && buys[0].quantity >= 0.0 && sharesSold >= 0.0 &&
       sharesSold * buys[0].price == buys[0].quantity {
      SoldBackProfit(buys[0], averagePrice, sharesSold);
      assert buys == [buys[0]];
    }
    var queue := new LotQueue(buys);
    for i := 0 to |sells|
      invariant Replay(queue.lots, PastShares(sells[i..])) == LotsHeld(buys, sells)
    {
      assert sells[i] in sells && sells[i..][1..] == sells[i + 1..];
      var past := sells[i].quantity / sells[i].price;
      queue.ApplySell(past);
    }
    var profit := queue.RealizedProfit(averagePrice, sharesSold);
    r := Payout(profit, 0.0, 0.0, totalCost);
    if profit > 0.0 {
      var tradingFee := profit * 0.01;
      var platformFee := (profit - tradingFee) * 0.05;
      var profitAfterFees := profit - tradingFee - platformFee;
      r := Payout(profit, tradingFee, platformFee, (totalCost - profit) + profitAfterFees);
    }
  }

  /** One per cent of a profit to trading, five per cent of the rest to the platform. */
  function SplitFees(totalCost: real, profit: real): Payout {
    var gain := Max(0.0, profit);
    Payout(profit, 0.01 * gain, 0.0495 * gain, totalCost - 0.0595 * gain)
  }

  lemma {:induction false} ReplayNonNegative(lots: seq<BuyLot>, sells: seq<real>)
    requires NonNegative(lots)
    ensures NonNegative(Replay(lots, sells))
    decreases |sells|
  {
    if sells != [] {
      ConsumeKeepsNonNegative(lots, sells[0]);
      ReplayNonNegative(Consume(lots, sells[0]), sells[1..]);
    }
  }

  ghost predicate PricesNonNegative(lots: seq<BuyLot>) {
    forall l :: l in lots ==> l.price >= 0.0
  }

  lemma {:induction false} ConsumedCostNonNegative(lots: seq<BuyLot>, sold: real)
    requires NonNegative(lots) && PricesNonNegative(lots)
    ensures ConsumedCost(lots, sold) >= 0.0
    ensures PricesNonNegative(Consume(lots, sold))
  {
    if !(sold <= 0.0 || lots == []) {
      assert lots[0] in lots && forall l :: l in lots[1..] ==> l in lots;
      MoneyAdds(lots[0].price, 0.0, 0.0);
      MoneyMonotone(lots[0].price, 0.0, lots[0].shares);
      if sold < lots[0].shares {
        MoneyMonotone(lots[0].price, 0.0, sold);
      } else {
        ConsumedCostNonNegative(lots[1..], sold - lots[0].shares);
      }
    }
  }

  lemma {:induction false} ReplayPrices(lots: seq<BuyLot>, sells: seq<real>)
    requires NonNegative(lots) && PricesNonNegative(lots)
    ensures PricesNonNegative(Replay(lots, sells))
    decreases |sells|
  {
    if sells != [] {
      ConsumeKeepsNonNegative(lots, sells[0]);
      ConsumedCostNonNegative(lots, sells[0]);
      ReplayPrices(Consume(lots, sells[0]), sells[1..]);
    }
  }

  lemma {:induction false} LotsOfPrices(buys: seq<OrderData>)
    requires forall b :: b in buys ==> b.price >= 0.0
    ensures PricesNonNegative(LotsOf(buys))
  {
    if buys != [] {
      assert buys[0] in buys && forall b :: b in buys[1..] ==> b in buys;
      LotsOfPrices(buys[1..]);
    }
  }

  /** For every executed sell of `quantity` money at `price` per share: payout and fees add up to the money, the
      payout is between 94.05% of it and all of it, all of it exactly without a profit, and after a profit it
      still covers what the shares had cost. */
  lemma SellPayoutBounds(buys: seq<OrderData>, sells: seq<OrderData>, quantity: real, price: real)
    requires quantity > 0.0 && price > 0.0
    requires forall b :: b in buys ==> b.quantity >= 0.0 && b.price >= 0.0
    requires forall s :: s in sells ==> s.price != 0.0
    ensures var lots := LotsHeld(buys, sells); var shares := quantity / price;
            var r := SplitFees(quantity, Profit(lots, Sale(price, shares)));
            && r.credited + r.tradingFee + r.platformFee == quantity
            && 0.9405 * quantity <= r.credited <= quantity
            && (r.credited == quantity <==> r.profit <= 0.0)
            && (r.profit > 0.0 ==> r.credited > ConsumedCost(lots, shares))
            && (r.profit > 0.0 ==> 100.0 * r.tradingFee == r.profit && 20.0 * r.platformFee == r.profit - r.tradingFee)
            && (r.profit <= 0.0 ==> r.tradingFee == r.platformFee == 0.0)
  {
    var lots, shares := LotsHeld(buys, sells), quantity / price;
    LotsNonNegative(buys);
    LotsOfPrices(buys);
    ReplayNonNegative(LotsOf(buys), PastShares(sells));
    ReplayPrices(LotsOf(buys), PastShares(sells));
    QuotientNonNegative(quantity, price);
    SharesLeft(lots, shares);
    ConsumedCostNonNegative(lots, shares);
    MoneyMonotone(price, ConsumedShares(lots, shares), shares);
    MoneyOfQuotient(price, quantity);
  }

  // ----- the profit itself -----

  /** The shares each past sell stands for, by what they brought in. */
  ghost predicate SoldBefore(past: seq<real>, sells: seq<OrderData>) {
    && |past| == |sells|
    && forall i :: 0 <= i < |sells| ==> past[i] >= 0.0 && Money(sells[i].price, past[i]) == sells[i].quantity
  }

  lemma {:induction false} PastSharesAre(past: seq<real>, sells: seq<OrderData>)
    requires SoldBefore(past, sells) && forall s :: s in sells ==> s.price != 0.0
    ensures PastShares(sells) == past
  {
    if sells != [] {
      assert sells[0] in sells && forall s :: s in sells[1..] ==> s in sells;
      PastSharesAre(past[1..], sells[1..]);
      QuotientIs(past[0], sells[0].price, sells[0].quantity);
    }
  }

  lemma QuotientIs(x: real, p: real, q: real)
    requires p != 0.0 && Money(p, x) == q
    ensures q / p == x
  {
  }

  /** The profit for any history: the price times the shares there still are, less what those shares cost when the
      buys are drawn on in order behind everything sold before. */
  lemma ProfitIsFifo(buys: seq<OrderData>, sells: seq<OrderData>, lots: seq<BuyLot>, past: seq<real>, r: real, x: real)
    requires forall b :: b in buys ==> b.quantity >= 0.0
    requires forall s :: s in sells ==> s.price != 0.0
    requires LotsOfBuys(lots, buys) && SoldBefore(past, sells) && x >= 0.0
    ensures var done := Sum(past);
            Profit(LotsHeld(buys, sells), Sale(r, x)) ==
              Money(r, Min(x, Max(0.0, TotalShares(lots) - done))) -
              (CostOfFirst(lots, done + x) - CostOfFirst(lots, done))
  {
    var held := LotsOf(buys);
    LotsNonNegative(buys);
    LotsMirrorBuys(buys);
    SumNonNegative(past);
    assert LotsHeld(buys, sells) == Consume(held, Sum(past)) by {
      PastSharesAre(past, sells);
      ReplayIsOneSell(held, past);
    }
    LaterCost(held, Sum(past), x);
    SameTotal(buys, held, lots);
    SameCost(buys, held, lots, Sum(past));
    SameCost(buys, held, lots, Sum(past) + x);
  }

  lemma SameShares(buy: OrderData, a: BuyLot, b: BuyLot)
    requires LotsOfBuys([a], [buy]) && LotsOfBuys([b], [buy])
    ensures a.shares == b.shares && (buy.price > 0.0 ==> a.price == b.price)
  {
    assert [a][0] == a && [b][0] == b && [buy][0] == buy;
    if buy.price > 0.0 {
      MoneyCancels(buy.price, a.shares, b.shares);
    }
  }

  /** Two readings of the same buys agree on everything that counts. */
  lemma {:induction false} SameTotal(buys: seq<OrderData>, a: seq<BuyLot>, b: seq<BuyLot>)
    requires LotsOfBuys(a, buys) && LotsOfBuys(b, buys)
    ensures TotalShares(a) == TotalShares(b)
  {
    if buys != [] {
      SameShares(buys[0], a[0], b[0]);
      SameTotal(buys[1..], a[1..], b[1..]);
    }
  }

  lemma {:induction false} SameCost(buys: seq<OrderData>, a: seq<BuyLot>, b: seq<BuyLot>, x: real)
    requires LotsOfBuys(a, buys) && LotsOfBuys(b, buys)
    ensures CostOfFirst(a, x) == CostOfFirst(b, x)
  {
    if buys != [] {
      SameShares(buys[0], a[0], b[0]);
      SameCost(buys[1..], a[1..], b[1..], x - a[0].shares);
      if buys[0].price <= 0.0 {
        MoneyAdds(a[0].price, 0.0, 0.0);
        MoneyAdds(b[0].price, 0.0, 0.0);
      }
    }
  }

  /** With one buy, shares that are still there are sold at the difference of the two prices, whatever was sold
      before. */
  lemma ProfitOfOneBuy(buy: OrderData, sells: seq<OrderData>, past: seq<real>, r: real, x: real)
    requires buy.price > 0.0 && buy.quantity >= 0.0 && x >= 0.0
    requires forall s :: s in sells ==> s.price != 0.0
    requires SoldBefore(past, sells) && Money(buy.price, Sum(past) + x) <= buy.quantity
    ensures Profit(LotsHeld([buy], sells), Sale(r, x)) == Money(r, x) - Money(buy.price, x)
  {
    var n, done := buy.quantity / buy.price, Sum(past);
    var lots := [BuyLot(buy.price, n)];
    SumNonNegative(past);
    MoneyOfQuotient(buy.price, buy.quantity);
    ProfitIsFifo([buy], sells, lots, past, r, x);
    MoneyCancels(buy.price, done + x, n);
    CostOfOneLot(lots[0], done);
    CostOfOneLot(lots[0], done + x);
    MoneyAdds(buy.price, done, x);
    assert TotalShares(lots) == n;
  }

  lemma CostOfOneLot(lot: BuyLot, x: real)
    requires 0.0 <= x <= lot.shares
    ensures CostOfFirst([lot], x) == Money(lot.price, x)
  {
    assert [lot][1..] == [];
  }

  /** Buying for `q` at `p` and selling those very shares at `r` makes `q * (r - p) / p`. */
  lemma SoldBackProfit(buy: OrderData, r: real, x: real)
    requires buy.price > 0.0 && buy.quantity >= 0.0 && x >= 0.0 && x * buy.price == buy.quantity
    ensures Profit(LotsHeld([buy], []), Sale(r, x)) * buy.price == buy.quantity * (r - buy.price)
  {
    ProfitOfOneBuy(buy, [], [], r, x);
    Differences(buy.price, r, x);
  }

  lemma Differences(p: real, r: real, x: real)
    ensures (Money(r, x) - Money(p, x)) * p == (x * p) * (r - p)
  {
  }

  /** The same behind one past sell of the buy: the rest of the shares makes the difference of the prices. */
  lemma SoldRestProfit(buy: OrderData, sell: OrderData, sold: real, r: real, x: real)
    requires buy.price > 0.0 && buy.quantity >= 0.0 && x >= 0.0
    requires sell.price > 0.0 && sold >= 0.0 && sold * sell.price == sell.quantity
    requires (sold + x) * buy.price == buy.quantity
    ensures Profit(LotsHeld([buy], [sell]), Sale(r, x)) * buy.price ==
              (buy.quantity - sold * buy.price) * (r - buy.price)
  {
    assert Sum([sold]) == sold;
    ProfitOfOneBuy(buy, [sell], [sold], r, x);
    Differences(buy.price, r, x);
    assert x * buy.price == buy.quantity - sold * buy.price;
  }
}
