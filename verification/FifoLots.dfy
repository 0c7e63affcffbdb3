/** First-in first-out cost lots behind the profit of a sell (order-service/src/utils/update_matched_orders.rs). */
module FifoLots {
  import opened Sums
  import opened Orders

  datatype BuyLot = BuyLot(price: real, shares: real)

  /** The lots left after selling some shares from the front of the queue. */
  function Consume(lots: seq<BuyLot>, sold: real): seq<BuyLot> {
    if sold <= 0.0 || lots == [] then lots
    else if sold < lots[0].shares then [lots[0].(shares := lots[0].shares - sold)] + lots[1..]
    else Consume(lots[1..], sold - lots[0].shares)
  }

  function ConsumedShares(lots: seq<BuyLot>, sold: real): real {
    if sold <= 0.0 || lots == [] then 0.0
    else if sold < lots[0].shares then sold
    else lots[0].shares + ConsumedShares(lots[1..], sold - lots[0].shares)
  }

  function ConsumedCost(lots: seq<BuyLot>, sold: real): real {
    if sold <= 0.0 || lots == [] then 0.0
    else if sold < lots[0].shares then Money(lots[0].price, sold)
    else Money(lots[0].price, lots[0].shares) + ConsumedCost(lots[1..], sold - lots[0].shares)
  }

  function TotalShares(lots: seq<BuyLot>): real {
    if lots == [] then 0.0 else lots[0].shares + TotalShares(lots[1..])
  }

  function TotalCost(lots: seq<BuyLot>): real {
    if lots == [] then 0.0 else Money(lots[0].price, lots[0].shares) + TotalCost(lots[1..])
  }

  /** A buy order without a positive price leaves an empty lot in the queue. */
  function LotOf(o: OrderData): BuyLot {
    BuyLot(o.price, if o.price > 0.0 then o.quantity / o.price else 0.0)
  }

  function LotsOf(buys: seq<OrderData>): seq<BuyLot> {
    if buys == [] then [] else [LotOf(buys[0])] + LotsOf(buys[1..])
  }

  lemma LotsUnfold(buys: seq<OrderData>, before: seq<BuyLot>, lot: BuyLot)
    requires buys != [] && lot == LotOf(buys[0])
    ensures before + LotsOf(buys) == (before + [lot]) + LotsOf(buys[1..])
  {
  }

  /** A VecDeque of lots, consumed in place. */
  class LotQueue {
    var lots: seq<BuyLot>

    /** build_fifo_buy_lots. */
    constructor (buys: seq<OrderData>)
      ensures lots == LotsOf(buys)
    {
      lots := [];
      new;
      for i := 0 to |buys|
        invariant lots + LotsOf(buys[i..]) == LotsOf(buys)
      {
        var shares := if buys[i].price > 0.0 then buys[i].quantity / buys[i].price else 0.0;
        LotsUnfold(buys[i..], lots, BuyLot(buys[i].price, shares));
        assert buys[i..][1..] == buys[i + 1..];
        lots := lots + [BuyLot(buys[i].price, shares)];
      }
    }

    /** apply_sell_to_lots. Every pass either ends the sell or drops a lot, empty ones included. */
    method ApplySell(sellShares: real)
      modifies this
      ensures lots == Consume(old(lots), sellShares)
    {
      var left := sellShares;
      while left > 0.0 && lots != []
        invariant Consume(lots, left) == Consume(old(lots), sellShares)
        decreases |lots| + if left > 0.0 then 1 else 0
      {
        var lot := lots[0];
        lots := lots[1..];
        var used := Min(left, lot.shares);
        lot := lot.(shares := lot.shares - used);
        left := left - used;
        if lot.shares > 0.0 {
          lots := [lot] + lots;
        }
      }
    }

    /** calculate_realized_profit. */
    method RealizedProfit(sellPrice: real, sellShares: real) returns (profit: real)
      modifies this
      ensures lots == Consume(old(lots), sellShares)
      ensures profit == Money(sellPrice, ConsumedShares(old(lots), sellShares)) - ConsumedCost(old(lots), sellShares)
    {
      profit := 0.0;
      var left := sellShares;
      MoneyAdds(sellPrice, 0.0, 0.0);
      while left > 0.0 && lots != []
        invariant Consume(lots, left) == Consume(old(lots), sellShares)
        invariant profit + Money(sellPrice, ConsumedShares(lots, left)) - ConsumedCost(lots, left) ==
                    Money(sellPrice, ConsumedShares(old(lots), sellShares)) - ConsumedCost(old(lots), sellShares)
        decreases |lots| + if left > 0.0 then 1 else 0
      {
        ghost var entering, wanted := lots, left;
        var lot := lots[0];
        lots := lots[1..];
        var used := Min(left, lot.shares);
        var costBasis := Money(lot.price, used);
        var proceeds := Money(sellPrice, used);
        profit := profit + (proceeds - costBasis);
        lot := lot.(shares := lot.shares - used);
        left := left - used;
        if lot.shares > 0.0 {
          lots := [lot] + lots;
        }
        MoneyAdds(sellPrice, used, ConsumedShares(lots, left));
        assert ConsumedShares(entering, wanted) == used + ConsumedShares(lots, left);
        assert ConsumedCost(entering, wanted) == Money(lot.price, used) + ConsumedCost(lots, left);
      }
    }
  }

  ghost predicate NonNegative(lots: seq<BuyLot>) {
    forall i :: 0 <= i < |lots| ==> lots[i].shares >= 0.0
  }

  // ----- consumption composes -----

  /** `left` is the queue from lot `k` on, with `cut` shares taken out of that lot. */
  ghost predicate CutAt(left: seq<BuyLot>, lots: seq<BuyLot>, k: nat, cut: real) {
    && k <= |lots|
    && if k == |lots| then left == []
       else 0.0 <= cut <= lots[k].shares && left == [lots[k].(shares := lots[k].shares - cut)] + lots[k + 1..]
  }

  /** First in, first out: what is left is a suffix of the queue, only its first lot perhaps reduced. */
  lemma {:induction false} ConsumeLeavesSuffix(lots: seq<BuyLot>, sold: real)
    requires NonNegative(lots)
    ensures exists k: nat, cut: real :: CutAt(Consume(lots, sold), lots, k, cut)
  {
    if sold <= 0.0 || lots == [] {
      assert CutAt(Consume(lots, sold), lots, 0, 0.0);
    } else if sold < lots[0].shares {
      assert CutAt(Consume(lots, sold), lots, 0, sold);
    } else {
      var rest, s := lots[1..], sold - lots[0].shares;
      ConsumeLeavesSuffix(rest, s);
      var k: nat, cut: real :| CutAt(Consume(rest, s), rest, k, cut);
      assert CutAt(Consume(lots, sold), lots, k + 1, cut);
    }
  }

  lemma {:induction false} ConsumeKeepsNonNegative(lots: seq<BuyLot>, sold: real)
    requires NonNegative(lots)
    ensures NonNegative(Consume(lots, sold))
  {
    if !(sold <= 0.0 || lots == []) && sold >= lots[0].shares {
      ConsumeKeepsNonNegative(lots[1..], sold - lots[0].shares);
    }
  }

  /** Selling in two goes leaves the lots of selling all at once. */
  lemma {:induction false} ConsumeComposes(lots: seq<BuyLot>, s: real, r: real)
    requires NonNegative(lots) && s >= 0.0 && r >= 0.0
    ensures Consume(Consume(lots, s), r) == Consume(lots, s + r)
  {
    ConsumeInTwo(lots, s, r, s + r);
  }

  lemma {:induction false} ConsumeInTwo(lots: seq<BuyLot>, s: real, r: real, sum: real)
    requires NonNegative(lots) && s >= 0.0 && r >= 0.0 && sum == s + r
    ensures Consume(Consume(lots, s), r) == Consume(lots, sum)
  {
    if s > 0.0 && lots != [] {
      if s < lots[0].shares {
        var cut := [lots[0].(shares := lots[0].shares - s)] + lots[1..];
        assert Consume(lots, s) == cut && cut[1..] == lots[1..];
        if sum < lots[0].shares {
          assert r > 0.0 ==> Consume(cut, r) == [cut[0].(shares := cut[0].shares - r)] + lots[1..];
        } else {
          assert Consume(cut, r) == Consume(lots[1..], sum - lots[0].shares);
        }
      } else {
        ConsumeInTwo(lots[1..], s - lots[0].shares, r, sum - lots[0].shares);
      }
    }
  }

  lemma {:induction false} TotalSharesNonNegative(lots: seq<BuyLot>)
    requires NonNegative(lots)
    ensures TotalShares(lots) >= 0.0
  {
    if lots != [] {
      TotalSharesNonNegative(lots[1..]);
    }
  }

  /** The shares consumed are the shares sold, as far as there are any; the rest stays. */
  lemma {:induction false} SharesLeft(lots: seq<BuyLot>, sold: real)
    requires NonNegative(lots) && sold >= 0.0
    ensures TotalShares(Consume(lots, sold)) == Max(0.0, TotalShares(lots) - sold)
    ensures ConsumedShares(lots, sold) == Min(sold, TotalShares(lots))
  {
    TotalSharesNonNegative(lots);
    if sold > 0.0 && lots != [] {
      TotalSharesNonNegative(lots[1..]);
      if sold >= lots[0].shares {
        SharesLeft(lots[1..], sold - lots[0].shares);
      }
    }
  }

  function Replay(lots: seq<BuyLot>, sells: seq<real>): seq<BuyLot>
    decreases |sells|
  {
    if sells == [] then lots else Replay(Consume(lots, sells[0]), sells[1..])
  }

  lemma {:induction false} ReplayIsOneSell(lots: seq<BuyLot>, sells: seq<real>)
    requires NonNegative(lots) && forall i :: 0 <= i < |sells| ==> sells[i] >= 0.0
    ensures Replay(lots, sells) == Consume(lots, Sum(sells))
    decreases |sells|
  {
    if sells != [] {
      ConsumeKeepsNonNegative(lots, sells[0]);
      SumNonNegative(sells[1..]);
      ReplayIsOneSell(Consume(lots, sells[0]), sells[1..]);
      ConsumeComposes(lots, sells[0], Sum(sells[1..]));
    }
  }

  /** Past sells may be replayed in any order. */
  lemma ReplayInAnyOrder(lots: seq<BuyLot>, sells: seq<real>, other: seq<real>)
    requires NonNegative(lots) && multiset(sells) == multiset(other)
    requires forall x :: x in sells ==> x >= 0.0
    ensures Replay(lots, sells) == Replay(lots, other)
  {
    forall i | 0 <= i < |other|
      ensures other[i] >= 0.0
    {
      assert other[i] in multiset(other);
      assert other[i] in sells;
    }
    assert forall i :: 0 <= i < |sells| ==> sells[i] in sells;
    SumPermutation(sells, other);
    ReplayIsOneSell(lots, sells);
    ReplayIsOneSell(lots, other);
  }

  // ----- what lots are -----

  /** Lot by lot, the buys: as many shares as the order's money pays for at the order's price, none without one. */
  ghost predicate LotsOfBuys(lots: seq<BuyLot>, buys: seq<OrderData>) {
    && |lots| == |buys|
    && forall i :: 0 <= i < |buys| ==>
         if buys[i].price > 0.0
           then lots[i].price == buys[i].price && Money(lots[i].price, lots[i].shares) == buys[i].quantity
           else lots[i].shares == 0.0
  }

  lemma {:induction false} LotsMirrorBuys(buys: seq<OrderData>)
    ensures LotsOfBuys(LotsOf(buys), buys)
  {
    if buys != [] {
      LotsMirrorBuys(buys[1..]);
      if buys[0].price > 0.0 {
        MoneyOfQuotient(buys[0].price, buys[0].quantity);
      }
    }
  }

  /** What the first `x` shares of the queue cost: every lot covers as much of `x` as is left behind the lots ahead
      of it, up to its size. */
  function CostOfFirst(lots: seq<BuyLot>, x: real): real {
    if lots == [] then 0.0
    else Money(lots[0].price, Max(0.0, Min(lots[0].shares, x))) + CostOfFirst(lots[1..], x - lots[0].shares)
  }

  lemma {:induction false} NothingCostsNothing(lots: seq<BuyLot>, x: real)
    requires NonNegative(lots) && x <= 0.0
    ensures CostOfFirst(lots, x) == 0.0
  {
    if lots != [] {
      MoneyAdds(lots[0].price, 0.0, 0.0);
      NothingCostsNothing(lots[1..], x - lots[0].shares);
    }
  }

  lemma {:induction false} ConsumedCostsFirst(lots: seq<BuyLot>, sold: real)
    requires NonNegative(lots)
    ensures ConsumedCost(lots, sold) == CostOfFirst(lots, sold)
  {
    if sold <= 0.0 || lots == [] {
      NothingCostsNothing(lots, Min(sold, 0.0));
    } else if sold < lots[0].shares {
      NothingCostsNothing(lots[1..], sold - lots[0].shares);
    } else {
      ConsumedCostsFirst(lots[1..], sold - lots[0].shares);
    }
  }

  /** First in, first out in closed form: behind earlier sells of `done` shares, the next `x` shares cost what lies
      between `done` and `done + x` in the queue. */
  lemma LaterCost(lots: seq<BuyLot>, done: real, x: real)
    requires NonNegative(lots) && done >= 0.0 && x >= 0.0
    ensures var left := Consume(lots, done);
            && ConsumedCost(left, x) == CostOfFirst(lots, done + x) - CostOfFirst(lots, done)
            && ConsumedShares(left, x) == Min(x, Max(0.0, TotalShares(lots) - done))
  {
    ConsumeKeepsNonNegative(lots, done);
    CostSplits(lots, done);
    CostSplits(Consume(lots, done), x);
    CostSplits(lots, done + x);
    ConsumeComposes(lots, done, x);
    ConsumedCostsFirst(lots, done);
    ConsumedCostsFirst(lots, done + x);
    SharesLeft(lots, done);
    SharesLeft(Consume(lots, done), x);
  }

  // ----- cost is conserved -----

  lemma {:induction false} CostSplits(lots: seq<BuyLot>, sold: real)
    ensures ConsumedCost(lots, sold) + TotalCost(Consume(lots, sold)) == TotalCost(lots)
  {
    if !(sold <= 0.0 || lots == []) {
      if sold < lots[0].shares {
        MoneyAdds(lots[0].price, lots[0].shares, sold);
        assert Consume(lots, sold)[1..] == lots[1..];
      } else {
        CostSplits(lots[1..], sold - lots[0].shares);
      }
    }
  }

  datatype Sale = Sale(price: real, shares: real)

  function Profit(lots: seq<BuyLot>, s: Sale): real {
    Money(s.price, ConsumedShares(lots, s.shares)) - ConsumedCost(lots, s.shares)
  }

  function LotsAfter(lots: seq<BuyLot>, sales: seq<Sale>): seq<BuyLot>
    decreases |sales|
  {
    if sales == [] then lots else LotsAfter(Consume(lots, sales[0].shares), sales[1..])
  }

  function Profits(lots: seq<BuyLot>, sales: seq<Sale>): real
    decreases |sales|
  {
    if sales == [] then 0.0 else Profit(lots, sales[0]) + Profits(Consume(lots, sales[0].shares), sales[1..])
  }

  function Proceeds(lots: seq<BuyLot>, sales: seq<Sale>): real
    decreases |sales|
  {
    if sales == [] then 0.0
    else
      Money(sales[0].price, ConsumedShares(lots, sales[0].shares)) +
      Proceeds(Consume(lots, sales[0].shares), sales[1..])
  }

  /** Money the priced buy orders were placed for. */
  function MoneySpent(buys: seq<OrderData>): real {
    if buys == [] then 0.0 else (if buys[0].price > 0.0 then buys[0].quantity else 0.0) + MoneySpent(buys[1..])
  }

  lemma {:induction false} LotsCostMoneySpent(buys: seq<OrderData>)
    ensures TotalCost(LotsOf(buys)) == MoneySpent(buys)
  {
    if buys != [] {
      LotsCostMoneySpent(buys[1..]);
      MoneyAdds(buys[0].price, 0.0, 0.0);
      if buys[0].price > 0.0 {
        MoneyOfQuotient(buys[0].price, buys[0].quantity);
      }
    }
  }

  lemma {:induction false} LotsNonNegative(buys: seq<OrderData>)
    requires forall b :: b in buys ==> b.quantity >= 0.0
    ensures NonNegative(LotsOf(buys))
  {
    if buys != [] {
      assert buys[0] in buys;
      if buys[0].price > 0.0 {
        QuotientNonNegative(buys[0].quantity, buys[0].price);
      }
      LotsNonNegative(buys[1..]);
    }
  }

  lemma QuotientNonNegative(q: real, p: real)
    requires q >= 0.0 && p > 0.0
    ensures q / p >= 0.0
    ensures q > 0.0 ==> q / p > 0.0
  {
  }

  lemma {:induction false} SalesAccount(lots: seq<BuyLot>, sales: seq<Sale>)
    ensures Proceeds(lots, sales) - Profits(lots, sales) + TotalCost(LotsAfter(lots, sales)) == TotalCost(lots)
    decreases |sales|
  {
    if sales != [] {
      CostSplits(lots, sales[0].shares);
      SalesAccount(Consume(lots, sales[0].shares), sales[1..]);
    }
  }

  /** Over any sales: what the consumed shares brought in, less the profit booked, plus the cost of the lots
      still held is the money the buys were placed for. */
  lemma ProfitAccounts(buys: seq<OrderData>, sales: seq<Sale>)
    ensures Proceeds(LotsOf(buys), sales) - Profits(LotsOf(buys), sales) + TotalCost(LotsAfter(LotsOf(buys), sales)) ==
              MoneySpent(buys)
  {
    SalesAccount(LotsOf(buys), sales);
    LotsCostMoneySpent(buys);
  }
}
