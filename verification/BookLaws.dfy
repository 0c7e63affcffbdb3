/** What the operations of an outcome book mean in terms of prices, users and quantities alone. */
module BookLaws {
  import opened Sums
  import opened Orders
  import opened BookSpec
  import opened BookGreedy
  import opened BookMarket
  import opened BookRuns

  // ----- matching -----

  /** The guards of match_order: what it does to orders it does not walk the book for, and which those are. */
  lemma MatchGuards(book: Book, o: OrderData)
    ensures var r := MatchSpec(book, o);
            var idle := o.status != Open || (o.price > 1.0 && o.orderType != Market);
            var forNothing := o.price != 0.0 && o.orderType != Market && o.quantity == 0.0;
            && (idle ==> r == MatchResult(book, o, []))
            && (!idle && forNothing ==> r == MatchResult(book, o.(status := Filled, filled := 0.0), []))
            && (!idle && !forNothing && o.quantity <= o.filled ==> r == MatchResult(book, o, []))
            && (!idle && !forNothing && o.filled < o.quantity <==> Walks(o))
  {
  }

  /** The report is about this resting order: another user's, with that much left. */
  ghost predicate ReportsOn(o: OrderData, m: Ladder, x: MatchReport, e: Entry) {
    && x.price in m && e in m[x.price].orders
    && e.userId != o.userId && e.orderId != o.id
    && x.orderId == o.id && x.oppositeOrderId == e.orderId
    && 0.0 < x.quantity <= e.total - e.filled
    && x.oppositeTotal == e.total && x.oppositeFilled == e.filled + x.quantity
  }

  /** Every report keeps the taker's limit and is about a resting order of another user. */
  lemma ReportsKeepLimit(book: Book, o: OrderData)
    ensures o.orderType != Market && o.side == Buy ==>
              forall x :: x in MatchSpec(book, o).reports ==> x.price <= o.price
    ensures o.orderType != Market && o.side == Sell ==>
              forall x :: x in MatchSpec(book, o).reports ==> x.price >= o.price
    ensures forall x :: x in MatchSpec(book, o).reports ==> exists e :: ReportsOn(o, book.Against(o.side), x, e)
  {
    if Walks(o) {
      MatchRefinesGreedy(book, o);
      forall x | x in MatchSpec(book, o).reports
        ensures o.orderType != Market ==> if o.side == Buy then x.price <= o.price else x.price >= o.price
        ensures exists e :: ReportsOn(o, book.Against(o.side), x, e)
      {
        var i := ReportedMaker(book, o, x);
        var m := QueueFor(o.side, book.Against(o.side))[i];
        assert ReportsOn(o, book.Against(o.side), x, m.entry);
      }
    }
  }

  /** The maker behind a report of the pass. */
  lemma ReportedMaker(book: Book, o: OrderData, x: MatchReport) returns (i: nat)
    requires Walks(o) && x in MatchSpec(book, o).reports
    ensures var q := QueueFor(o.side, book.Against(o.side)); var f := Fills(o, q, o.quantity - o.filled);
            && i < |q| && 0.0 < f[i] <= Available(o, q[i]) && x == ReportOf(o, q[i], f[i])
            && q[i].price in book.Against(o.side) && q[i].entry in book.Against(o.side)[q[i].price].orders
  {
    var q := QueueFor(o.side, book.Against(o.side));
    var f := Fills(o, q, o.quantity - o.filled);
    MatchRefinesGreedy(book, o);
    FillsBounds(o, q, o.quantity - o.filled);
    ReportsWithinMakers(o, q, f, x);
    i :| 0 <= i < |q| && f[i] > 0.0 && x == ReportOf(o, q[i], f[i]);
    assert q[i] in q;
    QueueForMembers(o.side, book.Against(o.side), q[i]);
  }

  /** A live order that is left on the opposite side, as the maker it was before the match. */
  lemma LeftMaker(book: Book, o: OrderData, p: real, e: Entry) returns (i: nat)
    requires Walks(o) && Rests(MatchSpec(book, o).book.Against(o.side), p, e) && e.Live()
    ensures var q := QueueFor(o.side, book.Against(o.side)); var f := Fills(o, q, o.quantity - o.filled);
            && i < |q| && q[i].price == p && e == q[i].entry.(filled := q[i].entry.filled + f[i])
  {
    var q := QueueFor(o.side, book.Against(o.side));
    var f := Fills(o, q, o.quantity - o.filled);
    var left := MatchSpec(book, o).book.Against(o.side);
    var x := Maker(p, e);
    MatchRefinesGreedy(book, o);
    QueueForMembers(o.side, left, x);
    LiveMembers(QueueFor(o.side, left), x);
    LiveMembers(Apply(q, f), x);
    i :| 0 <= i < |q| && Apply(q, f)[i] == x;
  }

  /** Levels on the wrong side of the limit are not touched at all. */
  lemma MatchSparesWorseLevels(book: Book, o: OrderData, p: real)
    requires o.orderType != Market && (if o.side == Buy then p > o.price else p < o.price)
    ensures var m, left := book.Against(o.side), MatchSpec(book, o).book.Against(o.side);
            (p in left <==> p in m) && (p in m ==> left[p] == m[p])
  {
    if Walks(o) {
      var m := book.Against(o.side);
      WalkSparesWorseLevels(m, BestFirst(o.side, m.Keys), o, o.quantity - o.filled, p);
    }
  }

  lemma {:induction false} WalkSparesWorseLevels(m: Ladder, keys: seq<real>, t: OrderData, wanted: real, p: real)
    requires t.orderType != Market && (if t.side == Buy then p > t.price else p < t.price)
    ensures var left := MatchLadder(m, keys, t, wanted).ladder; (p in left <==> p in m) && (p in m ==> left[p] == m[p])
    decreases |keys|
  {
    if keys == [] || wanted == 0.0 {
    } else if keys[0] !in m || !WithinLimit(t, keys[0]) {
      WalkSparesWorseLevels(m, keys[1..], t, wanted, p);
    } else {
      var q := Makers(keys[0], m[keys[0]].orders);
      var f := Fills(t, q, wanted);
      WalkSparesWorseLevels(Store(m, keys[0], Entries(LiveOnly(Apply(q, f)))), keys[1..], t, wanted - Sum(f), p);
    }
  }

  /** The taker's own resting orders come out of a match as they went in. */
  lemma MatchSparesOwnOrders(book: Book, o: OrderData, p: real, e: Entry)
    requires Rests(book.Against(o.side), p, e) && e.filled < e.total && e.userId == o.userId
    ensures Rests(MatchSpec(book, o).book.Against(o.side), p, e)
  {
    if Walks(o) {
      var q := QueueFor(o.side, book.Against(o.side));
      var f := Fills(o, q, o.quantity - o.filled);
      var left := MatchSpec(book, o).book.Against(o.side);
      var x := Maker(p, e);
      QueueForMembers(o.side, book.Against(o.side), x);
      var i :| 0 <= i < |q| && q[i] == x;
      FillsBounds(o, q, o.quantity - o.filled);
      assert 0.0 <= f[i] <= Available(o, q[i]);
      assert Apply(q, f)[i] == x;
      MatchRefinesGreedy(book, o);
      LiveMembers(Apply(q, f), x);
      LiveMembers(QueueFor(o.side, left), x);
      QueueForMembers(o.side, left, x);
    }
  }

  /** A taker that is not filled has left no other user's order behind that its limit reaches. */
  lemma MatchExhausts(book: Book, o: OrderData, p: real, e: Entry)
    requires o.status == Open && (o.price <= 1.0 || o.orderType == Market) && o.filled < o.quantity
    requires o.price == 0.0 || o.orderType == Market || o.quantity != 0.0
    requires MatchSpec(book, o).order.filled < o.quantity
    requires Rests(MatchSpec(book, o).book.Against(o.side), p, e) && e.filled < e.total
    requires e.userId != o.userId && e.orderId != o.id
    ensures o.orderType != Market && if o.side == Buy then p > o.price else p < o.price
  {
    MatchGuards(book, o);
    var i := LeftMaker(book, o, p, e);
    UnfilledTakesAll(book, o, i);
  }

  lemma UnfilledTakesAll(book: Book, o: OrderData, i: nat)
    requires Walks(o) && MatchSpec(book, o).order.filled < o.quantity
    requires i < |QueueFor(o.side, book.Against(o.side))|
    ensures var q := QueueFor(o.side, book.Against(o.side));
            Fills(o, q, o.quantity - o.filled)[i] == Available(o, q[i])
  {
    var q := QueueFor(o.side, book.Against(o.side));
    var wanted := o.quantity - o.filled;
    assert Sum(Fills(o, q, wanted)) < wanted by {
      MatchRefinesGreedy(book, o);
    }
    FillsBounds(o, q, wanted);
  }

  /** Price priority: whoever trades, no other user's order at a strictly better price has anything left. */
  lemma BetterPricesFirst(book: Book, o: OrderData, x: MatchReport, p: real, e: Entry)
    requires x in MatchSpec(book, o).reports
    requires Rests(MatchSpec(book, o).book.Against(o.side), p, e) && e.filled < e.total
    requires e.userId != o.userId && e.orderId != o.id
    ensures if o.side == Buy then x.price <= p else x.price >= p
  {
    MatchGuards(book, o);
    var m := book.Against(o.side);
    var q := QueueFor(o.side, m);
    var k := ReportedMaker(book, o, x);
    var i := LeftMaker(book, o, p, e);
    BestFirstOrdered(o.side, m.Keys);
    QueueSorted(o.side, m, BestFirst(o.side, m.Keys));
    if i < k {
      FillsInTurn(o, q, o.quantity - o.filled, i, k);
    }
  }

  // ----- own orders -----

  function OthersOf(es: seq<Entry>, userId: nat): seq<Entry> {
    if es == [] then []
    else (if es[0].userId == userId then [] else [es[0]]) + OthersOf(es[1..], userId)
  }

  /** The ladder without a user's orders; a level that had no others goes with them. */
  function WithoutUser(m: Ladder, userId: nat): Ladder {
    map p | p in m && OthersOf(m[p].orders, userId) != [] ::
      Level(OthersOf(m[p].orders, userId), SumRemaining(OthersOf(m[p].orders, userId)))
  }

  function OtherMakers(q: seq<Maker>, userId: nat): seq<Maker> {
    if q == [] then []
    else (if q[0].entry.userId == userId then [] else [q[0]]) + OtherMakers(q[1..], userId)
  }

  lemma {:induction false} OtherMakersConcat(a: seq<Maker>, b: seq<Maker>, userId: nat)
    ensures OtherMakers(a + b, userId) == OtherMakers(a, userId) + OtherMakers(b, userId)
  {
    if a == [] {
      assert a + b == b;
    } else {
      assert (a + b)[0] == a[0] && (a + b)[1..] == a[1..] + b;
      OtherMakersConcat(a[1..], b, userId);
    }
  }

  lemma {:induction false} OtherMakersOfLevel(p: real, es: seq<Entry>, userId: nat)
    ensures OtherMakers(Makers(p, es), userId) == Makers(p, OthersOf(es, userId))
  {
    if es != [] {
      assert Makers(p, es)[1..] == Makers(p, es[1..]);
      OtherMakersOfLevel(p, es[1..], userId);
      var one := if es[0].userId == userId then [] else [es[0]];
      assert Makers(p, one + OthersOf(es[1..], userId)) == Makers(p, one) + Makers(p, OthersOf(es[1..], userId));
    }
  }

  lemma {:induction false} QueueWithoutUser(m: Ladder, keys: seq<real>, userId: nat)
    ensures Queue(WithoutUser(m, userId), keys) == OtherMakers(Queue(m, keys), userId)
  {
    if keys != [] {
      QueueWithoutUser(m, keys[1..], userId);
      OtherMakersConcat(MakersAt(m, keys[0]), Queue(m, keys[1..]), userId);
      OtherMakersOfLevel(keys[0], LevelAt(m, keys[0]).orders, userId);
      assert LevelAt(WithoutUser(m, userId), keys[0]).orders == OthersOf(LevelAt(m, keys[0]).orders, userId);
    }
  }

  lemma QueueForWithoutUser(side: OrderSide, m: Ladder, userId: nat)
    ensures QueueFor(side, WithoutUser(m, userId)) == OtherMakers(QueueFor(side, m), userId)
  {
    var keys := BestFirst(side, m.Keys);
    BestFirstOrdered(side, m.Keys);
    QueueWithoutUser(m, keys, userId);
    QueueCovers(side, WithoutUser(m, userId), keys);
  }

  lemma {:induction false} SpendOnOthers(t: OrderData, q: seq<Maker>, budget: real)
    ensures var rest := OtherMakers(q, t.userId);
            && Sum(Spend(t, rest, budget)) == Sum(Spend(t, q, budget))
            && Cost(rest, Spend(t, rest, budget)) == Cost(q, Spend(t, q, budget))
  {
    if q != [] {
      var rest := OtherMakers(q, t.userId);
      SpendUnfold(t, q, budget);
      SpendOnOthers(t, q[1..], LeftAfter(t, q[0], budget));
      if q[0].entry.userId == t.userId {
        MoneyAdds(q[0].price, 0.0, 0.0);
        assert LeftAfter(t, q[0], budget) == budget;
        assert rest == OtherMakers(q[1..], t.userId);
      } else {
        assert rest[0] == q[0] && rest[1..] == OtherMakers(q[1..], t.userId);
        SpendUnfold(t, rest, budget);
      }
    }
  }

  /** A quote is what it would be without the user's own orders. */
  lemma QuoteIgnoresOwnOrders(book: Book, o: OrderData, budget: real)
    ensures var others := book.WithAgainst(o.side, WithoutUser(book.Against(o.side), o.userId));
            QuoteSpec(others, o, budget) == QuoteSpec(book, o, budget)
  {
    var m := book.Against(o.side);
    QueueForWithoutUser(o.side, m, o.userId);
    SpendOnOthers(o, QueueFor(o.side, m), budget);
    assert book.WithAgainst(o.side, WithoutUser(m, o.userId)).Against(o.side) == WithoutUser(m, o.userId);
  }

  lemma {:induction false} FillsOfOthers(t: OrderData, q: seq<Maker>, wanted: real)
    ensures var rest := OtherMakers(q, t.userId);
            && Sum(Fills(t, rest, wanted)) == Sum(Fills(t, q, wanted))
            && Reports(t, rest, Fills(t, rest, wanted)) == Reports(t, q, Fills(t, q, wanted))
  {
    if q != [] {
      var x, rest := Fills(t, q, wanted)[0], OtherMakers(q, t.userId);
      FillsOfOthers(t, q[1..], wanted - x);
      assert Fills(t, q, wanted)[1..] == Fills(t, q[1..], wanted - x);
      if q[0].entry.userId == t.userId {
        assert x == 0.0 && rest == OtherMakers(q[1..], t.userId);
      } else {
        assert rest[0] == q[0] && rest[1..] == OtherMakers(q[1..], t.userId);
        assert Fills(t, rest, wanted)[1..] == Fills(t, rest[1..], wanted - x);
      }
    }
  }

  /** A match reports and fills what it would without the user's own orders. */
  lemma MatchIgnoresOwnOrders(book: Book, o: OrderData)
    ensures var others := book.WithAgainst(o.side, WithoutUser(book.Against(o.side), o.userId));
            && MatchSpec(others, o).reports == MatchSpec(book, o).reports
            && MatchSpec(others, o).order == MatchSpec(book, o).order
  {
    if Walks(o) {
      var m := book.Against(o.side);
      var others := book.WithAgainst(o.side, WithoutUser(m, o.userId));
      var q, rest := QueueFor(o.side, m), OtherMakers(QueueFor(o.side, m), o.userId);
      assert QueueFor(o.side, others.Against(o.side)) == rest by {
        QueueForWithoutUser(o.side, m, o.userId);
      }
      MatchByQueue(book, o, q);
      MatchByQueue(others, o, rest);
      FillsOfOthers(o, q, o.quantity - o.filled);
    }
  }

  /** The taker with so much more filled. */
  function FilledBy(o: OrderData, x: real): OrderData {
    o.(filled := o.filled + x, status := if o.filled + x == o.quantity then Filled else Open)
  }

  /** Reports and fill depend on the opposite queue only. */
  lemma MatchByQueue(book: Book, o: OrderData, q: seq<Maker>)
    requires Walks(o) && q == QueueFor(o.side, book.Against(o.side))
    ensures var f := Fills(o, q, o.quantity - o.filled);
            && MatchSpec(book, o).reports == Reports(o, q, f)
            && MatchSpec(book, o).order == FilledBy(o, Sum(f))
  {
    MatchRefinesGreedy(book, o);
  }

  /** A market order ends as it would without the user's own orders and leaves those alone; orders of other types
      are not looked at. */
  lemma MarketOrderIgnoresOwnOrders(book: Book, o: OrderData, budget: real)
    ensures var others := book.WithAgainst(o.side, WithoutUser(book.Against(o.side), o.userId));
            && MarketSpec(others, o, budget).reports == MarketSpec(book, o, budget).reports
            && MarketSpec(others, o, budget).order == MarketSpec(book, o, budget).order
    ensures forall p, e :: Rests(book.Against(o.side), p, e) && e.filled < e.total && e.userId == o.userId ==>
              Rests(MarketSpec(book, o, budget).book.Against(o.side), p, e)
    ensures o.orderType != Market ==> MarketSpec(book, o, budget) == MatchResult(book, o, [])
  {
    var taker := Quoted(book, o, budget);
    QuoteIgnoresOwnOrders(book, o, budget);
    MatchIgnoresOwnOrders(book, taker);
    forall p, e | Rests(book.Against(o.side), p, e) && e.filled < e.total && e.userId == o.userId
      ensures Rests(MarketSpec(book, o, budget).book.Against(o.side), p, e)
    {
      MatchSparesOwnOrders(book, taker, p, e);
    }
  }

  // ----- adding, removing, updating -----

  /** Every other level, and the other side, are as they were. */
  ghost predicate OnlyLevel(before: Book, after: Book, side: OrderSide, price: real) {
    && after.Against(side) == before.Against(side)
    && after.On(side) - {price} == before.On(side) - {price}
  }

  /** remove_order takes out the first order with the id and closes the gap; everything behind it stays. */
  lemma RemoveClosesGap(book: Book, id: nat, side: OrderSide, price: real, a: seq<Entry>, x: Entry, b: seq<Entry>)
    requires price <= 1.0 && price in book.On(side) && book.On(side)[price].orders == a + [x] + b
    requires x.orderId == id && forall e :: e in a ==> e.orderId != id
    ensures var after := RemoveSpec(book, id, side, price);
            && Finds(book.On(side), price, id)
            && OnlyLevel(book, after, side, price)
            && LevelAt(after.On(side), price).orders == a + b
            && (price in after.On(side) <==> a + b != [])
            && (a + b != [] ==>
                  after.On(side)[price].total == book.On(side)[price].total - (x.total - x.filled))
  {
    FirstPosition(a, x, b, id);
    var es := a + [x] + b;
    assert es[..|a|] + es[|a| + 1..] == a + b;
  }

  lemma {:induction false} FirstPosition(a: seq<Entry>, x: Entry, b: seq<Entry>, id: nat)
    requires x.orderId == id && forall e :: e in a ==> e.orderId != id
    ensures Position(a + [x] + b, id) == |a| && (a + [x] + b)[|a|] == x
  {
    var es, k := a + [x] + b, Position(a + [x] + b, id);
    assert es[|a|] == x;
    assert forall i :: 0 <= i < |a| ==> es[i] == a[i] && a[i] in a;
  }

  /** Without the id at that price, or at a price above one, nothing is removed. */
  lemma RemoveFindsExactly(book: Book, id: nat, side: OrderSide, price: real)
    ensures Finds(book.On(side), price, id) <==>
              price <= 1.0 && price in book.On(side) && exists e :: e in book.On(side)[price].orders && e.orderId == id
    ensures !Finds(book.On(side), price, id) ==> RemoveSpec(book, id, side, price) == book
  {
    if price in book.On(side) {
      var es := book.On(side)[price].orders;
      var k := Position(es, id);
      if k < |es| {
        assert es[k] in es;
      }
    }
  }

  /** update_order: the order leaves its place and joins the back of its new level with the new quantity; all other
      orders keep their places. A new price above one only takes it out. */
  lemma UpdateMovesToBack(book: Book, o: OrderData, price: real, quantity: real, a: seq<Entry>, x: Entry, b: seq<Entry>)
    requires o.price <= 1.0 && o.price in book.On(o.side) && book.On(o.side)[o.price].orders == a + [x] + b
    requires x.orderId == o.id && forall e :: e in a ==> e.orderId != o.id
    requires o.quantity != quantity || o.price != price
    ensures var r := UpdateSpec(book, o, price, quantity); var m := book.On(o.side);
            && r.ok && r.order == o.(price := price, quantity := quantity, status := Open)
            && r.book.Against(o.side) == book.Against(o.side)
            && forall p :: LevelAt(r.book.On(o.side), p).orders ==
                 (if p == o.price then a + b else LevelAt(m, p).orders) +
                 (if p == price && price <= 1.0 then [Entry(o.userId, o.id, quantity, o.filled)] else [])
  {
    RemoveClosesGap(book, o.id, o.side, o.price, a, x, b);
    var removed := RemoveSpec(book, o.id, o.side, o.price);
    var o' := o.(price := price, quantity := quantity, status := Open);
    forall p
      ensures LevelAt(UpdateSpec(book, o, price, quantity).book.On(o.side), p).orders ==
                LevelAt(removed.On(o.side), p).orders +
                (if p == price && price <= 1.0 then [Entry(o.userId, o.id, quantity, o.filled)] else [])
    {
      AddJoinsLevel(removed, o', p);
    }
  }

  /** It fails exactly when the old price is above one, or the order is to change and is not found at that price. */
  lemma UpdateFailsExactly(book: Book, o: OrderData, price: real, quantity: real)
    ensures var r := UpdateSpec(book, o, price, quantity); var same := o.quantity == quantity && o.price == price;
            && (r.ok <==> o.price <= 1.0 && (same || Finds(book.On(o.side), o.price, o.id)))
            && (!r.ok || same ==> r.book == book && r.order == o)
  {
  }
}
