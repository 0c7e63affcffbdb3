/** Market orders: the budget pass and the matching pass agree, and the budget pass is the best there is. */
module BookMarket {
  import opened Sums
  import opened Orders
  import opened BookSpec
  import opened BookGreedy

  // ----- the budget pass -----

  /** One step of the pass: what is taken from a maker and what is left to spend. */
  lemma SpendStep(t: OrderData, m: Maker, budget: real)
    ensures var a := Affordable(t, m); var x := SpendOn(t, m, budget); var left := LeftAfter(t, m, budget);
            && 0.0 <= x <= a
            && (budget <= 0.0 ==> x == 0.0 && left == budget)
            && (budget > 0.0 ==> left >= 0.0)
            && (budget > 0.0 && left > 0.0 ==> x == a)
            && (budget > 0.0 && left == 0.0 ==> m.price > 0.0)
  {
    var a, x := Affordable(t, m), SpendOn(t, m, budget);
    MoneyAdds(m.price, 0.0, 0.0);
    if budget > 0.0 && a > 0.0 {
      if budget <= Money(m.price, a) {
        PositiveMoney(m.price, a);
      }
      if budget < Money(m.price, a) {
        MoneyOfQuotient(m.price, budget);
        MoneyCancels(m.price, x, a);
        MoneyCancels(m.price, 0.0, x);
      }
    }
  }

  lemma SpendUnfold(t: OrderData, q: seq<Maker>, budget: real)
    requires q != []
    ensures var x := SpendOn(t, q[0], budget); var rest := Spend(t, q[1..], LeftAfter(t, q[0], budget));
            && Spend(t, q, budget) == [x] + rest
            && Sum(Spend(t, q, budget)) == x + Sum(rest)
            && Cost(q, Spend(t, q, budget)) == Money(q[0].price, x) + Cost(q[1..], rest)
            && budget - Cost(q, Spend(t, q, budget)) == LeftAfter(t, q[0], budget) - Cost(q[1..], rest)
  {
    assert Spend(t, q, budget)[1..] == Spend(t, q[1..], LeftAfter(t, q[0], budget));
  }

  lemma {:induction false} SpendBounds(t: OrderData, q: seq<Maker>, budget: real)
    ensures forall i :: 0 <= i < |q| ==> 0.0 <= Spend(t, q, budget)[i] <= Affordable(t, q[i])
    ensures Sum(Spend(t, q, budget)) >= 0.0
    ensures budget <= 0.0 ==> Sum(Spend(t, q, budget)) == 0.0 && Cost(q, Spend(t, q, budget)) == 0.0
    ensures budget > 0.0 ==> Cost(q, Spend(t, q, budget)) <= budget
    ensures budget > Cost(q, Spend(t, q, budget)) && budget > 0.0 ==>
              forall i :: 0 <= i < |q| ==> Spend(t, q, budget)[i] == Affordable(t, q[i])
  {
    if q != [] {
      SpendUnfold(t, q, budget);
      SpendStep(t, q[0], budget);
      SpendBounds(t, q[1..], LeftAfter(t, q[0], budget));
    }
  }

  lemma {:induction false} CostConcat(a: seq<Maker>, f: seq<real>, b: seq<Maker>, g: seq<real>)
    requires |a| == |f| && |b| == |g|
    ensures Cost(a + b, f + g) == Cost(a, f) + Cost(b, g)
  {
    if a == [] {
      assert a + b == b && f + g == g;
    } else {
      assert (a + b)[1..] == a[1..] + b && (f + g)[1..] == f[1..] + g;
      CostConcat(a[1..], f[1..], b, g);
    }
  }

  lemma {:induction false} SpendConcat(t: OrderData, a: seq<Maker>, b: seq<Maker>, budget: real, left: real)
    requires left == budget - Cost(a, Spend(t, a, budget))
    ensures Spend(t, a + b, budget) == Spend(t, a, budget) + Spend(t, b, left)
  {
    if a == [] {
      assert a + b == b;
    } else {
      assert (a + b)[0] == a[0] && (a + b)[1..] == a[1..] + b;
      assert left == LeftAfter(t, a[0], budget) - Cost(a[1..], Spend(t, a[1..], LeftAfter(t, a[0], budget))) by {
        SpendUnfold(t, a, budget);
      }
      SpendConcat(t, a[1..], b, LeftAfter(t, a[0], budget), left);
    }
  }

  lemma SpendConcatSums(t: OrderData, a: seq<Maker>, b: seq<Maker>, budget: real, left: real)
    requires left == budget - Cost(a, Spend(t, a, budget))
    ensures var f := Spend(t, a, budget); var g := Spend(t, b, left); var h := Spend(t, a + b, budget);
            Sum(h) == Sum(f) + Sum(g) && Cost(a + b, h) == Cost(a, f) + Cost(b, g)
  {
    var f := Spend(t, a, budget);
    var g := Spend(t, b, left);
    SpendConcat(t, a, b, budget, left);
    SumConcat(f, g);
    CostConcat(a, f, b, g);
  }

  function LevelDepth(t: OrderData, price: real, es: seq<Entry>): real {
    if es == [] then 0.0 else Affordable(t, Maker(price, es[0])) + LevelDepth(t, price, es[1..])
  }

  lemma {:induction false} LevelDepthNonNegative(t: OrderData, price: real, es: seq<Entry>)
    ensures LevelDepth(t, price, es) >= 0.0
  {
    if es != [] {
      LevelDepthNonNegative(t, price, es[1..]);
    }
  }

  lemma {:induction false} LevelDepthAppend(t: OrderData, price: real, es: seq<Entry>, e: Entry)
    ensures LevelDepth(t, price, es + [e]) == LevelDepth(t, price, es) + Affordable(t, Maker(price, e))
  {
    if es == [] {
      assert es + [e] == [e];
    } else {
      assert (es + [e])[1..] == es[1..] + [e];
      LevelDepthAppend(t, price, es[1..], e);
    }
  }

  /** Spending on a level as a whole is spending on its orders one by one. */
  lemma {:induction false} LevelSpend(t: OrderData, price: real, es: seq<Entry>, budget: real)
    requires budget > 0.0
    ensures var q := Makers(price, es); var f := Spend(t, q, budget); var depth := LevelDepth(t, price, es);
            && Cost(q, f) == Money(price, Sum(f))
            && (budget >= Money(price, depth) ==> Sum(f) == depth)
            && (budget < Money(price, depth) ==> price > 0.0 && Cost(q, f) == budget)
  {
    var q, f, depth := Makers(price, es), Spend(t, Makers(price, es), budget), LevelDepth(t, price, es);
    UniformCost(price, es, f);
    LevelDepthNonNegative(t, price, es);
    SpendBounds(t, q, budget);
    SpendWithinDepth(t, price, es, f);
    if budget < Money(price, depth) {
      PositiveMoney(price, depth);
      if Cost(q, f) < budget {
        SpendAllDepth(t, price, es, f);
      }
    } else if Sum(f) < depth {
      if Cost(q, f) < budget {
        SpendAllDepth(t, price, es, f);
      } else {
        SumNonNegative(f);
        PositiveMoney(price, Sum(f));
        MoneyCancels(price, depth, Sum(f));
      }
    }
  }

  lemma {:induction false} UniformCost(price: real, es: seq<Entry>, f: seq<real>)
    requires |es| == |f|
    ensures Cost(Makers(price, es), f) == Money(price, Sum(f))
  {
    MoneyAdds(price, 0.0, 0.0);
    if es != [] {
      assert Makers(price, es)[1..] == Makers(price, es[1..]);
      UniformCost(price, es[1..], f[1..]);
      MoneyAdds(price, f[0], Sum(f[1..]));
    }
  }

  lemma {:induction false} SpendWithinDepth(t: OrderData, price: real, es: seq<Entry>, f: seq<real>)
    requires |es| == |f| && forall i :: 0 <= i < |f| ==> f[i] <= Affordable(t, Makers(price, es)[i])
    ensures Sum(f) <= LevelDepth(t, price, es)
  {
    if es != [] {
      assert forall i :: 0 <= i < |f[1..]| ==>
          Makers(price, es[1..])[i] == Makers(price, es)[i + 1] && f[1..][i] == f[i + 1];
      assert Makers(price, es)[0] == Maker(price, es[0]);
      SpendWithinDepth(t, price, es[1..], f[1..]);
    }
  }

  lemma {:induction false} SpendAllDepth(t: OrderData, price: real, es: seq<Entry>, f: seq<real>)
    requires |es| == |f| && forall i :: 0 <= i < |f| ==> f[i] == Affordable(t, Makers(price, es)[i])
    ensures Sum(f) == LevelDepth(t, price, es)
  {
    if es != [] {
      assert forall i :: 0 <= i < |f[1..]| ==>
          Makers(price, es[1..])[i] == Makers(price, es)[i + 1] && f[1..][i] == f[i + 1];
      assert Makers(price, es)[0] == Maker(price, es[0]);
      SpendAllDepth(t, price, es[1..], f[1..]);
    }
  }

  // ----- the two passes agree -----

  /** No other user's resting order carries the taker's id. */
  ghost predicate IdIsOwn(t: OrderData, q: seq<Maker>) {
    forall x :: x in q && x.entry.orderId == t.id ==> x.entry.userId == t.userId
  }

  /** Asking the matching pass for the quantity of the budget pass gives the same allocation, maker by maker. */
  lemma {:induction false} PassesAgree(t: OrderData, taker: OrderData, q: seq<Maker>, budget: real)
    requires IdIsOwn(t, q) && taker.orderType == Market && taker.id == t.id && taker.userId == t.userId
    ensures Fills(taker, q, Sum(Spend(t, q, budget))) == Spend(t, q, budget)
  {
    if q != [] {
      var x, left := SpendOn(t, q[0], budget), LeftAfter(t, q[0], budget);
      var s := Sum(Spend(t, q[1..], left));
      assert Spend(t, q, budget) == [x] + Spend(t, q[1..], left) && Sum(Spend(t, q, budget)) == x + s by {
        SpendUnfold(t, q, budget);
      }
      assert Available(taker, q[0]) == Affordable(t, q[0]) by {
        assert q[0] in q;
      }
      assert 0.0 <= x <= Affordable(t, q[0]) && s >= 0.0 && (s == 0.0 || x == Affordable(t, q[0])) by {
        SpendStep(t, q[0], budget);
        SpendBounds(t, q[1..], left);
      }
      FillsFirst(taker, q, x, s, Sum(Spend(t, q, budget)));
      assert forall y :: y in q[1..] ==> y in q;
      PassesAgree(t, taker, q[1..], left);
    }
  }

  lemma FillsFirst(taker: OrderData, q: seq<Maker>, x: real, s: real, wanted: real)
    requires q != [] && 0.0 <= x <= Available(taker, q[0]) && s >= 0.0 && (s == 0.0 || x == Available(taker, q[0]))
    requires wanted == x + s
    ensures Fills(taker, q, wanted) == [x] + Fills(taker, q[1..], s)
  {
  }

  // ----- the budget pass is optimal -----

  /** A way of taking shares from other users' orders. */
  ghost predicate Selection(t: OrderData, q: seq<Maker>, x: seq<real>) {
    && |x| == |q|
    && forall i :: 0 <= i < |q| ==>
         x[i] == 0.0 ||
         (q[i].entry.userId != t.userId && 0.0 < x[i] <= q[i].entry.total - q[i].entry.filled)
  }

  ghost predicate SortedFor(side: OrderSide, q: seq<Maker>) {
    forall i, j :: 0 <= i < j < |q| ==> AtLeastAsGood(side, q[i].price, q[j].price)
  }

  /** Beyond a price, shares cost at least (raise at most) that price each. */
  lemma {:induction false} CostBeyond(side: OrderSide, q: seq<Maker>, x: seq<real>, p: real)
    requires |x| == |q| && forall i :: 0 <= i < |q| ==> x[i] >= 0.0 && AtLeastAsGood(side, p, q[i].price)
    ensures AtLeastAsGood(side, Money(p, Sum(x)), Cost(q, x))
  {
    MoneyAdds(p, 0.0, 0.0);
    if q != [] {
      CostBeyond(side, q[1..], x[1..], p);
      MoneyAdds(p, x[0], Sum(x[1..]));
      if side.Buy? {
        PricesMonotone(p, q[0].price, x[0]);
      } else {
        PricesMonotone(q[0].price, p, x[0]);
      }
    }
  }

  /** Exchange argument. When the budget is used up there is a positive marginal price at which the difference
      in money between the greedy allocation and any other is bounded by the difference in shares. */
  lemma {:induction false} MarginalPrice(t: OrderData, q: seq<Maker>, budget: real, x: seq<real>) returns (p: real)
    requires SortedFor(t.side, q) && Selection(t, q, x)
    requires budget > 0.0 && Cost(q, Spend(t, q, budget)) == budget
    ensures p > 0.0 && (q != [] ==> AtLeastAsGood(t.side, q[0].price, p))
    ensures AtLeastAsGood(t.side, budget - Cost(q, x), Money(p, Sum(Spend(t, q, budget)) - Sum(x)))
  {
    if q == [] {
      p := 1.0;
    } else {
      var g, left := SpendOn(t, q[0], budget), LeftAfter(t, q[0], budget);
      var gain, other := Sum(Spend(t, q[1..], left)), Sum(x[1..]);
      SpendUnfold(t, q, budget);
      SpendStep(t, q[0], budget);
      SpendBounds(t, q[1..], left);
      MoneyAdds(q[0].price, g, x[0]);
      assert Selection(t, q[1..], x[1..]);
      if left > 0.0 {
        p := MarginalPrice(t, q[1..], left, x[1..]);
        MarginalStep(t.side, q[0].price, p, g, x[0]);
        MoneyAdds(p, g - x[0], gain - other);
        assert (g - x[0]) + (gain - other) == Sum(Spend(t, q, budget)) - Sum(x);
      } else {
        p := q[0].price;
        CostBeyond(t.side, q[1..], x[1..], p);
        MoneyAdds(p, g - x[0], other);
        assert g - x[0] - other == Sum(Spend(t, q, budget)) - Sum(x);
      }
    }
  }

  lemma MarginalStep(side: OrderSide, price: real, p: real, g: real, x: real)
    requires AtLeastAsGood(side, price, p) && x <= g
    ensures AtLeastAsGood(side, Money(price, g - x), Money(p, g - x))
  {
    if side.Buy? {
      PricesMonotone(price, p, g - x);
    } else {
      PricesMonotone(p, price, g - x);
    }
  }

  lemma {:induction false} SumMonotone(x: seq<real>, y: seq<real>)
    requires |x| == |y| && forall i :: 0 <= i < |x| ==> x[i] <= y[i]
    ensures Sum(x) <= Sum(y)
  {
    if x != [] {
      SumMonotone(x[1..], y[1..]);
    }
  }

  /** No way of buying within the budget gets more shares than the quote. */
  lemma QuoteIsBestBuy(book: Book, o: OrderData, budget: real, x: seq<real>)
    requires o.side == Buy && o.price == 0.0 && budget > 0.0
    requires var q := QueueFor(o.side, book.Against(o.side)); Selection(o, q, x) && Cost(q, x) <= budget
    ensures Sum(x) <= QuoteSpec(book, o, budget).quantity
  {
    var q := QueueFor(o.side, book.Against(o.side));
    var f := Spend(o, q, budget);
    SpendBounds(o, q, budget);
    if Cost(q, f) < budget {
      SumMonotone(x, f);
    } else {
      BestFirstOrdered(o.side, book.Against(o.side).Keys);
      QueueSorted(o.side, book.Against(o.side), BestFirst(o.side, book.Against(o.side).Keys));
      var p := MarginalPrice(o, q, budget, x);
      MoneyCancels(p, 0.0, Sum(f) - Sum(x));
      MoneyAdds(p, 0.0, 0.0);
    }
  }

  /** No way of raising the budget by selling gives up fewer shares than a quote that is not cancelled. */
  lemma QuoteIsBestSell(book: Book, o: OrderData, budget: real, x: seq<real>)
    requires o.side == Sell && o.price == 0.0 && budget > 0.0
    requires o.status != Cancelled && QuoteSpec(book, o, budget).status != Cancelled
    requires var q := QueueFor(o.side, book.Against(o.side)); Selection(o, q, x) && Cost(q, x) >= budget
    ensures Sum(x) >= QuoteSpec(book, o, budget).quantity
  {
    var q := QueueFor(o.side, book.Against(o.side));
    var f := Spend(o, q, budget);
    SpendBounds(o, q, budget);
    BestFirstOrdered(o.side, book.Against(o.side).Keys);
    QueueSorted(o.side, book.Against(o.side), BestFirst(o.side, book.Against(o.side).Keys));
    var p := MarginalPrice(o, q, budget, x);
    MoneyCancels(p, Sum(f) - Sum(x), 0.0);
    MoneyAdds(p, 0.0, 0.0);
  }

  /** The quote is itself a selection that spends within the budget: the optimum is attained. */
  lemma QuoteIsAttained(book: Book, o: OrderData, budget: real)
    requires o.price == 0.0 && budget > 0.0
    ensures var q := QueueFor(o.side, book.Against(o.side)); var f := Spend(o, q, budget);
            && Selection(o, q, f) && Cost(q, f) <= budget && Sum(f) == QuoteSpec(book, o, budget).quantity
            && (QuoteSpec(book, o, budget).status == Cancelled || Cost(q, f) == budget)
  {
    SpendBounds(o, QueueFor(o.side, book.Against(o.side)), budget);
  }

  // ----- all or nothing -----

  /** A fresh market order with a budget either leaves the book alone and is CANCELLED, or is FILLED for exactly
      the quoted quantity, trading exactly the budget, with the very allocation of the budget pass. */
  lemma MarketOrderAllOrNothing(book: Book, o: OrderData, budget: real)
    requires o.orderType == Market && o.status == Open && o.price == 0.0 && o.filled == 0.0 && budget > 0.0
    requires IdIsOwn(o, QueueFor(o.side, book.Against(o.side)))
    ensures var r := MarketSpec(book, o, budget); var quote := QuoteSpec(book, o, budget);
            var q := QueueFor(o.side, book.Against(o.side)); var f := Spend(o, q, budget);
            if quote.status == Cancelled then
              && r.book == book && r.reports == [] && r.order.status == Cancelled && r.order.filled == 0.0
            else
              && r.order.status == Filled && r.order.filled == r.order.quantity == quote.quantity > 0.0
              && ReportedMoney(r.reports) == budget
              && ReportedQuantity(r.reports) == quote.quantity
              && r.reports == Reports(r.order, q, f)
              && LiveOnly(QueueFor(o.side, r.book.Against(o.side))) == LiveOnly(Apply(q, f))
  {
    var q := QueueFor(o.side, book.Against(o.side));
    var f := Spend(o, q, budget);
    var taker := Quoted(book, o, budget);
    SpendBounds(o, q, budget);
    if taker.status != Cancelled {
      assert Cost(q, f) == budget;
      if Sum(f) == 0.0 {
        NonNegativeTermsOfZero(f);
        NothingCosts(q, f);
      }
      assert Walks(taker);
      PassesAgree(o, taker, q, budget);
      MatchRefinesGreedy(book, taker);
      ReportsAddUp(taker, q, f);
      SameTaker(taker, MarketSpec(book, o, budget).order, q, f);
    }
  }

  /** A fresh market order ends FILLED or CANCELLED exactly when it comes without a price and its budget is not
      negative; any other keeps its status, with a quantity of zero and nothing traded. */
  lemma MarketOrderDecidedExactly(book: Book, o: OrderData, budget: real)
    requires o.orderType == Market && o.status == Open && o.filled == 0.0
    requires IdIsOwn(o, QueueFor(o.side, book.Against(o.side)))
    ensures var r := MarketSpec(book, o, budget);
            && (r.order.status == Filled || r.order.status == Cancelled <==> o.price == 0.0 && budget >= 0.0)
            && (o.price != 0.0 || budget < 0.0 ==>
                  r == MatchResult(book, o.(quantity := 0.0, price := budget), []))
  {
    var q := QueueFor(o.side, book.Against(o.side));
    SpendBounds(o, q, budget);
    if o.price == 0.0 && budget > 0.0 {
      MarketOrderAllOrNothing(book, o, budget);
    }
  }

  lemma {:induction false} NothingCosts(q: seq<Maker>, f: seq<real>)
    requires |q| == |f| && forall i :: 0 <= i < |f| ==> f[i] == 0.0
    ensures Cost(q, f) == 0.0
  {
    if q != [] {
      NothingCosts(q[1..], f[1..]);
    }
  }

  lemma {:induction false} SameTaker(t: OrderData, u: OrderData, q: seq<Maker>, f: seq<real>)
    requires |q| == |f| && t.id == u.id
    ensures Reports(t, q, f) == Reports(u, q, f)
  {
    if q != [] {
      SameTaker(t, u, q[1..], f[1..]);
    }
  }

  /** What buying out (selling into) every other user's order on the opposite side is worth. */
  function WholeValue(t: OrderData, q: seq<Maker>): real {
    if q == [] then 0.0 else
      (if q[0].entry.userId != t.userId && q[0].entry.filled < q[0].entry.total
         then Money(q[0].price, q[0].entry.total - q[0].entry.filled) else 0.0)
      + WholeValue(t, q[1..])
  }

  lemma {:induction false} WholeValueIsCost(t: OrderData, q: seq<Maker>, budget: real)
    requires forall i :: 0 <= i < |q| ==> q[i].price >= 0.0
    ensures Cost(q, Spend(t, q, budget)) <= WholeValue(t, q)
    ensures budget > 0.0 && Cost(q, Spend(t, q, budget)) < budget ==> Cost(q, Spend(t, q, budget)) == WholeValue(t, q)
  {
    if q != [] {
      SpendUnfold(t, q, budget);
      SpendStep(t, q[0], budget);
      WholeValueIsCost(t, q[1..], LeftAfter(t, q[0], budget));
      MoneyMonotone(q[0].price, SpendOn(t, q[0], budget), Affordable(t, q[0]));
      SpendBounds(t, q[1..], LeftAfter(t, q[0], budget));
    }
  }

  /** With prices that are not negative, a market order is cancelled exactly when the other users' orders on
      the opposite side are together worth less than its budget. */
  lemma CancelledExactly(book: Book, o: OrderData, budget: real)
    requires o.price == 0.0 && o.status == Open && budget > 0.0
    requires forall p :: p in book.Against(o.side) ==> p >= 0.0
    ensures QuoteSpec(book, o, budget).status == Cancelled <==>
              WholeValue(o, QueueFor(o.side, book.Against(o.side))) < budget
  {
    var q := QueueFor(o.side, book.Against(o.side));
    forall i | 0 <= i < |q|
      ensures q[i].price >= 0.0
    {
      QueueForMembers(o.side, book.Against(o.side), q[i]);
    }
    WholeValueIsCost(o, q, budget);
    SpendBounds(o, q, budget);
  }

  /** With nothing to spend the pass takes nothing, free asks included: it is then optimal exactly when no
      other user offers shares at a price of zero or less. */
  lemma FreeAsksAreIgnored(book: Book, o: OrderData)
    requires o.side == Buy && o.price == 0.0
    ensures var q := QueueFor(o.side, book.Against(o.side));
            (forall x :: Selection(o, q, x) && Cost(q, x) <= 0.0 ==> Sum(x) <= QuoteSpec(book, o, 0.0).quantity) <==>
            !OffersForFree(o, q)
  {
    var q := QueueFor(o.side, book.Against(o.side));
    SpendBounds(o, q, 0.0);
    if OffersForFree(o, q) {
      var x := FreeSelection(o, q);
    } else {
      forall x | Selection(o, q, x) && Cost(q, x) <= 0.0
        ensures Sum(x) <= 0.0
      {
        NothingFree(o, q, x);
      }
    }
  }

  ghost predicate OffersForFree(t: OrderData, q: seq<Maker>) {
    exists k :: 0 <= k < |q| &&
      q[k].entry.userId != t.userId && q[k].entry.filled < q[k].entry.total && q[k].price <= 0.0
  }

  lemma FreeSelection(t: OrderData, q: seq<Maker>) returns (x: seq<real>)
    requires OffersForFree(t, q)
    ensures Selection(t, q, x) && Cost(q, x) <= 0.0 && Sum(x) > 0.0
  {
    var k :| 0 <= k < |q| && q[k].entry.userId != t.userId && q[k].entry.filled < q[k].entry.total && q[k].price <= 0.0;
    x := seq(|q|, i => if i == k then Affordable(t, q[k]) else 0.0);
    SingleTerm(q, x, k);
    PricesMonotone(q[k].price, 0.0, Affordable(t, q[k]));
  }

  lemma NothingFree(t: OrderData, q: seq<Maker>, x: seq<real>)
    requires !OffersForFree(t, q) && Selection(t, q, x) && Cost(q, x) <= 0.0
    ensures Sum(x) == 0.0
  {
    CostlyTerms(q, x);
  }

  lemma {:induction false} SingleTerm(q: seq<Maker>, x: seq<real>, k: nat)
    requires |q| == |x| && k < |q|
    requires forall i :: 0 <= i < |x| && i != k ==> x[i] == 0.0
    ensures Sum(x) == x[k] && Cost(q, x) == Money(q[k].price, x[k])
  {
    if k == 0 {
      NothingCosts(q[1..], x[1..]);
      NothingWantedSum(x[1..]);
    } else {
      SingleTerm(q[1..], x[1..], k - 1);
    }
  }

  lemma {:induction false} NothingWantedSum(f: seq<real>)
    requires forall i :: 0 <= i < |f| ==> f[i] == 0.0
    ensures Sum(f) == 0.0
  {
    if f != [] {
      NothingWantedSum(f[1..]);
    }
  }

  lemma {:induction false} CostlyTerms(q: seq<Maker>, x: seq<real>)
    requires |q| == |x|
    requires forall i :: 0 <= i < |q| ==> x[i] >= 0.0 && (x[i] > 0.0 ==> q[i].price > 0.0)
    ensures Cost(q, x) >= 0.0
    ensures Cost(q, x) == 0.0 ==> Sum(x) == 0.0
  {
    if q != [] {
      CostlyTerms(q[1..], x[1..]);
      MoneyAdds(q[0].price, 0.0, 0.0);
      if x[0] > 0.0 {
        MoneyCancels(q[0].price, 0.0, x[0]);
      }
    }
  }
}
