/** The outcome book as the engine runs it (order-service/src/order_book/outcome_book.rs): two ladders of price
    levels updated in place, loops over levels and orders. Every method is proved against `BookSpec`. */
module OutcomeBooks {
  import opened Options
  import opened Sums
  import opened Orders
  import opened BookSpec
  import opened BookGreedy
  import opened BookMarket

  /** One line of the snapshot sent to clients. */
  datatype OrderLevel = OrderLevel(price: real, shares: real, users: nat)

  class OutcomeBook {
    var bids: Ladder
    var asks: Ladder

    constructor ()
      ensures View() == EMPTY_BOOK
    {
      bids, asks := map[], map[];
    }

    function View(): Book
      reads this
    {
      Book(bids, asks)
    }

    method BestBid() returns (r: Option<real>)
      ensures r.None? <==> bids == map[]
      ensures r.Some? ==> r.value in bids && forall p :: p in bids ==> p <= r.value
    {
      r := if bids.Keys == {} then None else Some(Best(Sell, bids.Keys));
    }

    method BestAsk() returns (r: Option<real>)
      ensures r.None? <==> asks == map[]
      ensures r.Some? ==> r.value in asks && forall p :: p in asks ==> p >= r.value
    {
      r := if asks.Keys == {} then None else Some(Best(Buy, asks.Keys));
    }

    method AddOrder(order: Order)
      modifies this
      ensures View() == AddSpec(old(View()), order.Data())
    {
      if order.status == Filled || order.status == Cancelled {
        return;
      }
      if order.price > 1.0 {
        return;
      }
      var side := if order.side == Buy then bids else asks;
      if order.price !in side {
        side := side[order.price := Level([], 0.0)];
      }
      var level := side[order.price];
      var entry := Entry(order.userId, order.id, order.quantity, order.filledQuantity);
      level := level.(orders := level.orders + [entry]);
      level := level.(total := level.total + (order.quantity - order.filledQuantity));
      side := side[order.price := level];
      if order.side == Buy { bids := side; } else { asks := side; }
    }

    method RemoveOrder(id: nat, orderSide: OrderSide, price: real) returns (found: bool)
      modifies this
      ensures found == Finds(old(View()).On(orderSide), price, id)
      ensures View() == RemoveSpec(old(View()), id, orderSide, price)
    {
      if price > 1.0 {
        return false;
      }
      var side := if orderSide == Buy then bids else asks;
      if price !in side {
        return false;
      }
      var level := side[price];
      var pos := Position(level.orders, id);
      if pos == |level.orders| {
        return false;
      }
      var removed := level.orders[pos];
      level := Level(level.orders[..pos] + level.orders[pos + 1..], level.total - (removed.total - removed.filled));
      side := side[price := level];
      if level.orders == [] {
        side := side - {price};
      }
      if orderSide == Buy { bids := side; } else { asks := side; }
      assert side == Withdraw(old(View()).On(orderSide), price, id);
      return true;
    }

    method UpdateOrder(order: Order, updatedPrice: real, newQuantity: real) returns (ok: bool)
      modifies this, order
      ensures UpdateResult(View(), order.Data(), ok) ==
                UpdateSpec(old(View()), old(order.Data()), updatedPrice, newQuantity)
    {
      if order.price > 1.0 {
        return false;
      }
      if order.quantity == newQuantity && order.price == updatedPrice {
        return true;
      }
      var found := RemoveOrder(order.id, order.side, order.price);
      if !found {
        return false;
      }
      order.price := updatedPrice;
      order.quantity := newQuantity;
      order.status := Open;
      AddOrder(order);
      return true;
    }

    /** One resting order met by the taker: skipped if it is the taker's own or has nothing left. */
    static method FillOne(order: Order, price: real, opposite: Entry, wanted: real, ghost t: OrderData)
      returns (after: Entry, remaining: real, reports: seq<MatchReport>)
      requires wanted > 0.0 && WithinLimit(t, price)
      requires order.Data() == t.(filled := order.filledQuantity)
      modifies order`filledQuantity
      ensures var m := Maker(price, opposite); var taken := Min(Available(t, m), wanted);
              && after == opposite.(filled := opposite.filled + taken)
              && remaining == wanted - taken
              && reports == (if taken > 0.0 then [ReportOf(t, m, taken)] else [])
              && order.filledQuantity == old(order.filledQuantity) + taken
    {
      if order.id == opposite.orderId || order.userId == opposite.userId {
        return opposite, wanted, [];
      }
      var oppositeRemaining := opposite.total - opposite.filled;
      if oppositeRemaining <= 0.0 {
        return opposite, wanted, [];
      }
      var matched := Min(wanted, oppositeRemaining);
      after := opposite.(filled := opposite.filled + matched);
      order.filledQuantity := order.filledQuantity + matched;
      remaining := wanted - matched;
      reports := [MatchReport(order.id, opposite.orderId, matched, price, after.total, after.filled)];
    }

    /** The inner loop: one level's orders are filled in turn until the taker wants nothing more. */
    static method FillLevel(order: Order, price: real, levelOrders: seq<Entry>, wanted: real, ghost t: OrderData)
      returns (orders: seq<Entry>, remaining: real, reports: seq<MatchReport>)
      requires wanted > 0.0 && WithinLimit(t, price)
      requires order.Data() == t.(filled := order.filledQuantity)
      modifies order`filledQuantity
      ensures order.filledQuantity == old(order.filledQuantity) + (wanted - remaining) && remaining >= 0.0
      ensures var q := Makers(price, levelOrders); var f := Fills(t, q, wanted);
              && orders == Entries(Apply(q, f))
              && remaining == wanted - Sum(f)
              && reports == Reports(t, q, f)
    {
      ghost var q := Makers(price, levelOrders);
      orders, remaining, reports := levelOrders, wanted, [];
      var i := 0;
      FilledNone(t, q, wanted);
      assert orders == Entries(q);
      while i < |orders|
        invariant FilledTo(t, q, i, wanted, orders, remaining, reports) && 0.0 < remaining
        invariant order.filledQuantity == old(order.filledQuantity) + (wanted - remaining)
      {
        FilledNext(t, q, i, wanted, orders, remaining, reports);
        var after, left, found := FillOne(order, price, orders[i], remaining, t);
        orders, remaining, reports := orders[i := after], left, reports + found;
        i := i + 1;
        if remaining == 0.0 {
          break;
        }
      }
      UntouchedTail(t, q, i, wanted, orders, remaining, reports);
    }

    /** The outer loop: the price levels are visited best first until the taker wants nothing more. */
    static method WalkLevels(order: Order, ladder: Ladder, keys: seq<real>, wanted: real, ghost t: OrderData)
      returns (book: Ladder, remaining: real, reports: seq<MatchReport>)
      requires wanted > 0.0
      requires order.Data() == t.(filled := order.filledQuantity)
      modifies order`filledQuantity
      ensures order.filledQuantity == old(order.filledQuantity) + (wanted - remaining)
      ensures LadderMatch(book, remaining, reports) == MatchLadder(ladder, keys, t, wanted)
    {
      book, remaining, reports := ladder, wanted, [];
      for k := 0 to |keys|
        invariant remaining > 0.0
        invariant order.filledQuantity == old(order.filledQuantity) + (wanted - remaining)
        invariant MatchLadder(ladder, keys, t, wanted) == After(reports, MatchLadder(book, keys[k..], t, remaining))
      {
        var price := keys[k];
        ghost var rest := keys[k..];
        assert rest[0] == price && rest[1..] == keys[k + 1..];
        if price in book &&
           (order.orderType == Market || (if order.side == Buy then price <= order.price else price >= order.price)) {
          AfterVisit(book, rest, t, remaining, reports);
          var found;
          book, remaining, found := VisitLevel(order, book, price, remaining, t);
          reports := reports + found;
        } else {
          SkippedLevel(book, rest, t, remaining);
        }
        if remaining == 0.0 {
          return;
        }
      }
    }

    /** One price level: filled, swept of its filled orders, re-totalled, and dropped when nothing is left. */
    static method VisitLevel(order: Order, ladder: Ladder, price: real, wanted: real, ghost t: OrderData)
      returns (book: Ladder, remaining: real, reports: seq<MatchReport>)
      requires wanted > 0.0 && WithinLimit(t, price) && price in ladder
      requires order.Data() == t.(filled := order.filledQuantity)
      modifies order`filledQuantity
      ensures order.filledQuantity == old(order.filledQuantity) + (wanted - remaining) && remaining >= 0.0
      ensures var q := Makers(price, ladder[price].orders); var f := Fills(t, q, wanted);
              && book == Store(ladder, price, Entries(LiveOnly(Apply(q, f))))
              && remaining == wanted - Sum(f)
              && reports == Reports(t, q, f)
    {
      var level := ladder[price];
      var orders;
      orders, remaining, reports := FillLevel(order, price, level.orders, wanted, t);
      RetainIsLiveOnly(Apply(Makers(price, level.orders), Fills(t, Makers(price, level.orders), wanted)));
      level := level.(orders := RetainUnfilled(orders));
      level := level.(total := SumRemaining(level.orders));
      book := ladder[price := level];
      if level.orders == [] {
        book := book - {price};
      }
      assert book == Store(ladder, price, level.orders);
    }

    /** Matches an order against the opposite side, level by level from the best price. */
    method MatchOrder(order: Order) returns (reports: seq<MatchReport>)
      modifies this, order
      ensures MatchResult(View(), order.Data(), reports) == MatchSpec(old(View()), old(order.Data()))
    {
      reports := [];
      if order.status != Open {
        return;
      }
      if order.price > 1.0 && order.orderType != Market {
        return;
      }
      if order.price != 0.0 && order.orderType != Market {
        if order.quantity == 0.0 {
          order.status := Filled;
          order.filledQuantity := 0.0;
          return;
        }
      }
      var isBuy := order.side == Buy;
      var book := if isBuy then asks else bids;
      var keys := BestFirst(order.side, book.Keys);
      var remaining := order.quantity - order.filledQuantity;
      if remaining <= 0.0 {
        return;
      }
      book, remaining, reports := WalkLevels(order, book, keys, remaining, order.Data());
      if isBuy { asks := book; } else { bids := book; }
      if order.filledQuantity == order.quantity {
        order.status := Filled;
      }
    }

    /** How many shares a budget pays for (raises), level by level; marks the order CANCELLED when the opposite
        side cannot absorb the whole budget. */
    method GetAvailableMatchQuantity(order: Order, budget: real) returns (available: real)
      modifies order
      ensures var quote := QuoteSpec(View(), old(order.Data()), budget);
              available == quote.quantity && order.Data() == old(order.Data()).(status := quote.status)
    {
      available := 0.0;
      if order.price != 0.0 {
        return;
      }
      var book := if order.side == Buy then asks else bids;
      var keys := BestFirst(order.side, book.Keys);
      BestFirstInside(order.side, book.Keys);
      var remainingBudget;
      available, remainingBudget := WalkBudget(order.userId, book, keys, budget, order.Data());
      if remainingBudget > 0.0 || budget == 0.0 {
        order.status := Cancelled;
      }
    }

    /** The outer loop of the budget pass: levels are visited best first while the budget lasts. */
    static method WalkBudget(userId: nat, book: Ladder, keys: seq<real>, budget: real, ghost t: OrderData)
      returns (available: real, left: real)
      requires t.userId == userId && forall i :: 0 <= i < |keys| ==> keys[i] in book
      ensures var q := Queue(book, keys); var f := Spend(t, q, budget);
              available == Sum(f) && left == budget - Cost(q, f)
    {
      available, left := 0.0, budget;
      for k := 0 to |keys|
        invariant SpentTo(t, book, keys, k, budget, available, left)
      {
        if left <= 0.0 {
          SpentOut(t, book, keys, k, budget, available, left);
          break;
        }
        SpentNext(t, book, keys, k, budget, available, left);
        var gained;
        gained, left := SpendOnLevel(userId, book[keys[k]].orders, keys[k], left, t);
        available := available + gained;
      }
      SpentAll(t, book, keys, budget, available, left);
    }

    /** One level of the budget pass: bought out if the budget lasts, else as many shares as it pays for. In the
        second case nothing is left, which ends the pass. */
    static method SpendOnLevel(userId: nat, orders: seq<Entry>, price: real, budget: real, ghost t: OrderData)
      returns (gained: real, left: real)
      requires t.userId == userId && budget > 0.0
      requires budget < Money(price, LevelDepth(t, price, orders)) ==> price > 0.0
      ensures var depth := LevelDepth(t, price, orders);
              if budget >= Money(price, depth) then gained == depth && left == budget - Money(price, depth)
              else gained == budget / price && left == 0.0
    {
      var totalLevelQuantity := LevelQuantity(userId, orders, price, t);
      var costToConsumeLevel := Money(price, totalLevelQuantity);
      if budget >= costToConsumeLevel {
        return totalLevelQuantity, budget - costToConsumeLevel;
      }
      var partial := budget / price;
      MoneyOfQuotient(price, budget);
      return partial, budget - Money(price, partial);
    }

    /** The inner loop of the budget pass: what other users still offer at a level. */
    static method LevelQuantity(userId: nat, orders: seq<Entry>, ghost price: real, ghost t: OrderData)
      returns (total: real)
      requires t.userId == userId
      ensures total == LevelDepth(t, price, orders)
    {
      total := 0.0;
      for i := 0 to |orders|
        invariant total == LevelDepth(t, price, orders[..i])
      {
        var entry := orders[i];
        LevelDepthAppend(t, price, orders[..i], entry);
        assert orders[..i + 1] == orders[..i] + [entry];
        if entry.userId == userId {
          continue;
        }
        var left := entry.total - entry.filled;
        if left > 0.0 {
          total := total + left;
        }
      }
      assert orders[..|orders|] == orders;
    }

    method CreateMarketOrder(order: Order, budget: real) returns (reports: seq<MatchReport>)
      modifies this, order
      ensures MatchResult(View(), order.Data(), reports) == MarketSpec(old(View()), old(order.Data()), budget)
    {
      if order.orderType != Market {
        return [];
      }
      var orderQuantity := GetAvailableMatchQuantity(order, budget);
      order.quantity := orderQuantity;
      order.price := budget;
      assert order.Data() == Quoted(old(View()), old(order.Data()), budget);
      reports := MatchOrder(order);
    }

    /** The snapshot lists the non-empty levels of each side in ascending price order. */
    method GetOrderBook() returns (bidRows: seq<OrderLevel>, askRows: seq<OrderLevel>)
      ensures bidRows == Snapshot(bids, BestFirst(Buy, bids.Keys))
      ensures askRows == Snapshot(asks, BestFirst(Buy, asks.Keys))
    {
      bidRows := SideRows(bids);
      askRows := SideRows(asks);
    }
  }

  function Snapshot(m: Ladder, keys: seq<real>): seq<OrderLevel> {
    if keys == [] then []
    else if LevelAt(m, keys[0]).orders == [] then Snapshot(m, keys[1..])
    else [OrderLevel(keys[0], LevelAt(m, keys[0]).total, |LevelAt(m, keys[0]).orders|)] + Snapshot(m, keys[1..])
  }

  method SideRows(side: Ladder) returns (rows: seq<OrderLevel>)
    ensures rows == Snapshot(side, BestFirst(Buy, side.Keys))
  {
    var keys := BestFirst(Buy, side.Keys);
    BestFirstInside(Buy, side.Keys);
    rows := [];
    for k := 0 to |keys|
      invariant rows + Snapshot(side, keys[k..]) == Snapshot(side, keys)
    {
      var level := side[keys[k]];
      SnapshotNext(side, keys[k..], rows);
      if level.orders != [] {
        rows := rows + [OrderLevel(keys[k], level.total, |level.orders|)];
      }
    }
  }

  lemma SnapshotNext(m: Ladder, keys: seq<real>, rows: seq<OrderLevel>)
    requires keys != []
    ensures var level := LevelAt(m, keys[0]);
            rows + Snapshot(m, keys) ==
              (if level.orders == [] then rows else rows + [OrderLevel(keys[0], level.total, |level.orders|)]) +
              Snapshot(m, keys[1..])
  {
  }

  /** The snapshot of a sound ladder: every level is in it, prices strictly ascend, and each line has exactly the
      shares the level's orders still have and their number. */
  lemma SnapshotIsExact(m: Ladder)
    requires Sound(m)
    ensures var rows := Snapshot(m, BestFirst(Buy, m.Keys));
            && (forall i, j :: 0 <= i < j < |rows| ==> rows[i].price < rows[j].price)
            && (forall x :: x in rows <==>
                  x.price in m && x == OrderLevel(x.price, SumRemaining(m[x.price].orders), |m[x.price].orders|))
  {
    var keys := BestFirst(Buy, m.Keys);
    var rows := Snapshot(m, keys);
    BestFirstOrdered(Buy, m.Keys);
    BestFirstInside(Buy, m.Keys);
    SnapshotLines(m, keys);
    forall x: OrderLevel |
      x.price in m && x == OrderLevel(x.price, SumRemaining(m[x.price].orders), |m[x.price].orders|)
      ensures x in rows
    {
      var i :| 0 <= i < |keys| && keys[i] == x.price;
      assert rows[i] == x;
    }
  }

  lemma {:induction false} SnapshotLines(m: Ladder, keys: seq<real>)
    requires Sound(m) && forall i :: 0 <= i < |keys| ==> keys[i] in m
    ensures |Snapshot(m, keys)| == |keys|
    ensures forall i :: 0 <= i < |keys| ==>
              Snapshot(m, keys)[i] == OrderLevel(keys[i], SumRemaining(m[keys[i]].orders), |m[keys[i]].orders|)
  {
    if keys != [] {
      SnapshotLines(m, keys[1..]);
    }
  }

  function RetainUnfilled(es: seq<Entry>): seq<Entry> {
    if es == [] then []
    else if es[0].filled < es[0].total then [es[0]] + RetainUnfilled(es[1..])
    else RetainUnfilled(es[1..])
  }

  lemma {:induction false} RetainIsLiveOnly(q: seq<Maker>)
    ensures RetainUnfilled(Entries(q)) == Entries(LiveOnly(q))
  {
    if q != [] {
      assert Entries(q)[1..] == Entries(q[1..]);
      RetainIsLiveOnly(q[1..]);
    }
  }

  /** Reports already made, put in front of those still to come. */
  ghost function After(reports: seq<MatchReport>, rest: LadderMatch): LadderMatch {
    rest.(reports := reports + rest.reports)
  }

  lemma AfterVisit(m: Ladder, keys: seq<real>, t: OrderData, wanted: real, reports: seq<MatchReport>)
    requires keys != [] && wanted != 0.0 && keys[0] in m && WithinLimit(t, keys[0])
    ensures var q := Makers(keys[0], m[keys[0]].orders); var f := Fills(t, q, wanted);
            var after := Store(m, keys[0], Entries(LiveOnly(Apply(q, f))));
            After(reports, MatchLadder(m, keys, t, wanted)) ==
              After(reports + Reports(t, q, f), MatchLadder(after, keys[1..], t, wanted - Sum(f)))
  {
    var q := Makers(keys[0], m[keys[0]].orders);
    var f := Fills(t, q, wanted);
    var rest := MatchLadder(Store(m, keys[0], Entries(LiveOnly(Apply(q, f)))), keys[1..], t, wanted - Sum(f));
    assert reports + (Reports(t, q, f) + rest.reports) == reports + Reports(t, q, f) + rest.reports;
  }

  lemma SkippedLevel(m: Ladder, keys: seq<real>, t: OrderData, wanted: real)
    requires keys != [] && (keys[0] !in m || !WithinLimit(t, keys[0]))
    ensures MatchLadder(m, keys, t, wanted) == MatchLadder(m, keys[1..], t, wanted)
  {
  }

  /** One more maker at the end of a filled prefix. */
  lemma OneMore(t: OrderData, q: seq<Maker>, i: nat, wanted: real, remaining: real)
    requires i < |q| && remaining > 0.0 && remaining == wanted - Sum(Fills(t, q[..i], wanted))
    ensures var taken := Min(Available(t, q[i]), remaining);
            var f := Fills(t, q[..i], wanted); var g := Fills(t, q[..i + 1], wanted);
            && Sum(g) == Sum(f) + taken
            && Reports(t, q[..i + 1], g) ==
                 Reports(t, q[..i], f) + (if taken > 0.0 then [ReportOf(t, q[i], taken)] else [])
            && Entries(Apply(q[..i + 1], g)) ==
                 Entries(Apply(q[..i], f)) + [q[i].entry.(filled := q[i].entry.filled + taken)]
  {
    var taken := Min(Available(t, q[i]), remaining);
    assert q[..i + 1] == q[..i] + [q[i]];
    AllocationConcat(t, q[..i], [q[i]], wanted, remaining);
    assert Fills(t, [q[i]], remaining) == [taken];
    assert Sum([taken]) == taken;
    assert Reports(t, [q[i]], [taken]) == if taken > 0.0 then [ReportOf(t, q[i], taken)] else [];
    assert Apply([q[i]], [taken]) == [Maker(q[i].price, q[i].entry.(filled := q[i].entry.filled + taken))];
  }

  /** The first `i` makers of a level have been filled. */
  ghost predicate FilledTo(t: OrderData, q: seq<Maker>, i: nat, wanted: real,
                           orders: seq<Entry>, remaining: real, reports: seq<MatchReport>) {
    && i <= |q| == |orders|
    && var f := Fills(t, q[..i], wanted);
       && remaining == wanted - Sum(f)
       && reports == Reports(t, q[..i], f)
       && orders == Entries(Apply(q[..i], f)) + Entries(q[i..])
  }

  lemma FilledNone(t: OrderData, q: seq<Maker>, wanted: real)
    ensures FilledTo(t, q, 0, wanted, Entries(q), wanted, [])
  {
    assert q[..0] == [] && q[0..] == q;
  }

  lemma FilledNext(t: OrderData, q: seq<Maker>, i: nat, wanted: real,
                   orders: seq<Entry>, remaining: real, reports: seq<MatchReport>)
    requires FilledTo(t, q, i, wanted, orders, remaining, reports) && i < |q| && remaining > 0.0
    ensures orders[i] == q[i].entry
    ensures var taken := Min(Available(t, q[i]), remaining);
            FilledTo(t, q, i + 1, wanted,
                     orders[i := orders[i].(filled := orders[i].filled + taken)], remaining - taken,
                     reports + (if taken > 0.0 then [ReportOf(t, q[i], taken)] else []))
  {
    OneMore(t, q, i, wanted, remaining);
    var done := Entries(Apply(q[..i], Fills(t, q[..i], wanted)));
    var taken := Min(Available(t, q[i]), remaining);
    var e := q[i].entry.(filled := q[i].entry.filled + taken);
    assert |done| == i && Entries(q[i..])[0] == q[i].entry && Entries(q[i..])[1..] == Entries(q[i + 1..]);
    assert orders[i := e] == (done + [e]) + Entries(q[i + 1..]);
  }

  /** When the walk of a level stops at `i`, the orders behind it get nothing. */
  lemma UntouchedTail(t: OrderData, q: seq<Maker>, i: nat, wanted: real,
                      orders: seq<Entry>, remaining: real, reports: seq<MatchReport>)
    requires FilledTo(t, q, i, wanted, orders, remaining, reports) && (i < |q| ==> remaining == 0.0)
    ensures var h := Fills(t, q, wanted);
            orders == Entries(Apply(q, h)) && remaining == wanted - Sum(h) && reports == Reports(t, q, h)
  {
    assert q == q[..i] + q[i..];
    var g := Fills(t, q[i..], remaining);
    AllocationConcat(t, q[..i], q[i..], wanted, remaining);
    assert forall k :: 0 <= k < |g| ==> g[k] == 0.0 by {
      FillsBounds(t, q[i..], remaining);
      if i < |q| {
        NonNegativeTermsOfZero(g);
      }
    }
    NothingWanted(t, q[i..], g);
  }

  /** The first `k` levels have been spent on. */
  ghost predicate SpentTo(t: OrderData, m: Ladder, keys: seq<real>, k: nat, budget: real, available: real, left: real) {
    && k <= |keys|
    && var rest := Queue(m, keys[k..]);
       var f, whole := Spend(t, rest, left), Spend(t, Queue(m, keys), budget);
       && Sum(whole) == available + Sum(f)
       && budget - Cost(Queue(m, keys), whole) == left - Cost(rest, f)
  }

  lemma SpentNext(t: OrderData, m: Ladder, keys: seq<real>, k: nat, budget: real, available: real, left: real)
    requires SpentTo(t, m, keys, k, budget, available, left) && k < |keys| && left > 0.0
    ensures var depth := LevelDepth(t, keys[k], LevelAt(m, keys[k]).orders);
            if left >= Money(keys[k], depth) then
              SpentTo(t, m, keys, k + 1, budget, available + depth, left - Money(keys[k], depth))
            else
              keys[k] > 0.0 && SpentTo(t, m, keys, k + 1, budget, available + left / keys[k], 0.0)
  {
    var price, es := keys[k], LevelAt(m, keys[k]).orders;
    var here, tail := Makers(price, es), Queue(m, keys[k + 1..]);
    assert keys[k..][1..] == keys[k + 1..];
    assert Queue(m, keys[k..]) == here + tail;
    LevelTaken(t, price, es, left);
    var depth := LevelDepth(t, price, es);
    SpendConcatSums(t, here, tail, left, if left >= Money(price, depth) then left - Money(price, depth) else 0.0);
  }

  lemma LevelTaken(t: OrderData, price: real, es: seq<Entry>, budget: real)
    requires budget > 0.0
    ensures var q := Makers(price, es); var f := Spend(t, q, budget); var depth := LevelDepth(t, price, es);
            if budget >= Money(price, depth) then Sum(f) == depth && Cost(q, f) == Money(price, depth)
            else price > 0.0 && Sum(f) == budget / price && Cost(q, f) == budget
  {
    LevelSpend(t, price, es, budget);
    if budget < Money(price, LevelDepth(t, price, es)) {
      MoneyOfQuotient(price, budget);
      MoneyCancels(price, budget / price, Sum(Spend(t, Makers(price, es), budget)));
    }
  }

  lemma SpentAll(t: OrderData, m: Ladder, keys: seq<real>, budget: real, available: real, left: real)
    requires SpentTo(t, m, keys, |keys|, budget, available, left)
    ensures var q := Queue(m, keys); var f := Spend(t, q, budget); available == Sum(f) && left == budget - Cost(q, f)
  {
    assert keys[|keys|..] == [];
  }

  lemma SpentOut(t: OrderData, m: Ladder, keys: seq<real>, k: nat, budget: real, available: real, left: real)
    requires SpentTo(t, m, keys, k, budget, available, left) && left <= 0.0
    ensures SpentTo(t, m, keys, |keys|, budget, available, left)
  {
    SpendBounds(t, Queue(m, keys[k..]), left);
    assert keys[|keys|..] == [];
  }
}
