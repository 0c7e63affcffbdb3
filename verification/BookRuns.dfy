/** What every run of operations keeps of an outcome book. */
module BookRuns {
  import opened Sums
  import opened Orders
  import opened BookSpec
  import opened BookGreedy

  datatype BookOp =
    | Add(order: OrderData)
    | Remove(id: nat, side: OrderSide, price: real)
    | Update(order: OrderData, newPrice: real, newQuantity: real)
    | Match(order: OrderData)
    | Submit(order: OrderData)  // matched, then added if it is not filled
    | MarketOrder(order: OrderData, budget: real)

  function Step(book: Book, op: BookOp): Book {
    match op
    case Add(o) => AddSpec(book, o)
    case Remove(id, side, price) => RemoveSpec(book, id, side, price)
    case Update(o, price, quantity) => UpdateSpec(book, o, price, quantity).book
    case Match(o) => MatchSpec(book, o).book
    case Submit(o) => var r := MatchSpec(book, o); AddSpec(r.book, r.order)
    case MarketOrder(o, budget) => MarketSpec(book, o, budget).book
  }

  function Run(book: Book, ops: seq<BookOp>): Book
    decreases |ops|
  {
    if ops == [] then book else Run(Step(book, ops[0]), ops[1..])
  }

  // ----- cached totals -----

  ghost predicate SoundBook(book: Book) { Sound(book.bids) && Sound(book.asks) }

  ghost predicate LiveBook(book: Book) { AllLive(book.bids) && AllLive(book.asks) }

  lemma {:induction false} SumRemainingConcat(a: seq<Entry>, b: seq<Entry>)
    ensures SumRemaining(a + b) == SumRemaining(a) + SumRemaining(b)
  {
    if a == [] {
      assert a + b == b;
    } else {
      assert (a + b)[1..] == a[1..] + b;
      SumRemainingConcat(a[1..], b);
    }
  }

  lemma AddKeepsSound(book: Book, o: OrderData)
    requires SoundBook(book)
    ensures SoundBook(AddSpec(book, o))
    ensures LiveBook(book) && o.filled < o.quantity ==> LiveBook(AddSpec(book, o))
  {
    var es, e := LevelAt(book.On(o.side), o.price).orders, EntryOf(o);
    SumRemainingConcat(es, [e]);
    assert SumRemaining([e]) == e.Remaining();
  }

  lemma RemoveKeepsSound(book: Book, id: nat, side: OrderSide, price: real)
    requires SoundBook(book)
    ensures SoundBook(RemoveSpec(book, id, side, price))
    ensures LiveBook(book) ==> LiveBook(RemoveSpec(book, id, side, price))
  {
    var m := book.On(side);
    if Finds(m, price, id) {
      var es := m[price].orders;
      var k := Position(es, id);
      var n := Withdraw(m, price, id);
      SumRemainingWithout(es, k);
      WithdrawShrinks(m, price, id);
      assert forall p :: p in n ==> p in m && (p != price ==> n[p] == m[p]);
      if AllLive(m) {
        forall p, e | p in n && e in n[p].orders
          ensures e.Live()
        {
          assert Rests(n, p, e);
        }
      }
    }
  }

  lemma {:induction false} SumRemainingWithout(es: seq<Entry>, k: nat)
    requires k < |es|
    ensures SumRemaining(es[..k] + es[k + 1..]) == SumRemaining(es) - es[k].Remaining()
  {
    if k == 0 {
      assert es[..0] + es[1..] == es[1..];
    } else {
      var rest := es[1..];
      SumRemainingWithout(rest, k - 1);
      assert (es[..k] + es[k + 1..])[1..] == rest[..k - 1] + rest[k..];
    }
  }

  lemma MatchKeepsSound(book: Book, o: OrderData)
    requires SoundBook(book)
    ensures SoundBook(MatchSpec(book, o).book)
    ensures LiveBook(book) ==> LiveBook(MatchSpec(book, o).book)
  {
    if Walks(o) {
      var m := book.Against(o.side);
      MatchLadderSound(m, BestFirst(o.side, m.Keys), o, o.quantity - o.filled);
    }
  }

  /** Quantities the engine is meant to be given: an order comes to rest with something left to trade. */
  predicate ValidQuantity(op: BookOp) {
    match op
    case Add(o) => o.filled < o.quantity
    case Submit(o) => o.filled < o.quantity
    case Update(o, _, quantity) => o.filled < quantity
    case _ => true
  }

  lemma StepKeepsSound(book: Book, op: BookOp)
    requires SoundBook(book)
    ensures SoundBook(Step(book, op))
    ensures LiveBook(book) && ValidQuantity(op) ==> LiveBook(Step(book, op))
  {
    match op
    case Add(o) => AddKeepsSound(book, o);
    case Remove(id, side, price) => RemoveKeepsSound(book, id, side, price);
    case Update(o, price, quantity) =>
      RemoveKeepsSound(book, o.id, o.side, o.price);
      AddKeepsSound(RemoveSpec(book, o.id, o.side, o.price), o.(price := price, quantity := quantity, status := Open));
    case Match(o) => MatchKeepsSound(book, o);
    case Submit(o) =>
      MatchKeepsSound(book, o);
      var r := MatchSpec(book, o);
      if Walks(o) {
        MatchConserves(book, o);
      }
      AddKeepsSound(r.book, r.order);
    case MarketOrder(o, budget) => MatchKeepsSound(book, Quoted(book, o, budget));
  }

  /** Every run keeps each cached level total equal to the sum over its orders, no level empty and no price
      above one; with valid quantities every resting order also has something left to trade. */
  lemma {:induction false} RunKeepsSound(book: Book, ops: seq<BookOp>)
    requires SoundBook(book)
    ensures SoundBook(Run(book, ops))
    ensures LiveBook(book) && (forall op :: op in ops ==> ValidQuantity(op)) ==> LiveBook(Run(book, ops))
    decreases |ops|
  {
    if ops != [] {
      StepKeepsSound(book, ops[0]);
      assert ops[0] in ops && forall op :: op in ops[1..] ==> op in ops;
      RunKeepsSound(Step(book, ops[0]), ops[1..]);
    }
  }

  // ----- arrival order -----

  /** add_order takes any order that is neither filled nor cancelled, at a price of at most one. */
  lemma AddJoinsLevel(book: Book, o: OrderData, price: real)
    ensures var taken := o.status != Filled && o.status != Cancelled && o.price <= 1.0;
            && LevelAt(AddSpec(book, o).On(o.side), price).orders ==
                 LevelAt(book.On(o.side), price).orders +
                 (if taken && price == o.price then [Entry(o.userId, o.id, o.quantity, o.filled)] else [])
            && AddSpec(book, o).Against(o.side) == book.Against(o.side)
            && (!taken ==> AddSpec(book, o) == book)
  {
  }

  /** An added order queues behind everything at its price and nothing else moves. */
  lemma AddJoinsEndOfLevel(book: Book, o: OrderData, taker: OrderSide, price: real)
    ensures var taken := o.status != Filled && o.status != Cancelled && o.price <= 1.0;
            && AtPrice(QueueFor(taker, AddSpec(book, o).On(o.side)), price) ==
                 AtPrice(QueueFor(taker, book.On(o.side)), price) +
                 (if taken && price == o.price
                    then [Maker(price, Entry(o.userId, o.id, o.quantity, o.filled))] else [])
            && AddSpec(book, o).Against(o.side) == book.Against(o.side)
            && (!taken ==> AddSpec(book, o) == book)
  {
    LevelOfQueue(taker, book.On(o.side), price);
    LevelOfQueue(taker, AddSpec(book, o).On(o.side), price);
    AddJoinsLevel(book, o, price);
  }

  /** Removing an order right after adding it gives back the book, cached totals and absent levels included. */
  lemma RemoveUndoesAdd(book: Book, o: OrderData)
    requires Accepts(o) && Sound(book.On(o.side))
    requires forall e :: e in LevelAt(book.On(o.side), o.price).orders ==> e.orderId != o.id
    ensures Finds(AddSpec(book, o).On(o.side), o.price, o.id)
    ensures RemoveSpec(AddSpec(book, o), o.id, o.side, o.price) == book
  {
    var m, n := book.On(o.side), AddSpec(book, o).On(o.side);
    var es := LevelAt(m, o.price).orders;
    var k := Position(es + [EntryOf(o)], o.id);
    assert (es + [EntryOf(o)])[|es|].orderId == o.id;
    assert k == |es| by {
      assert forall i :: 0 <= i < |es| ==> es[i] in es;
    }
    assert (es + [EntryOf(o)])[..k] + (es + [EntryOf(o)])[k + 1..] == es;
    assert Withdraw(n, o.price, o.id) == m;
  }

  // ----- no crossed book -----

  ghost predicate Rests(m: Ladder, p: real, e: Entry) {
    p in m && e in m[p].orders
  }

  /** No live bid is priced at or above a live ask of another user. */
  ghost predicate Uncrossed(book: Book) {
    forall p, e, r, f ::
      Rests(book.bids, p, e) && Rests(book.asks, r, f) && e.Live() && f.Live() && e.userId != f.userId
      ==> p < r
  }

  /** An order id belongs to one user. */
  ghost predicate Owned(book: Book, owner: nat -> nat) {
    && (forall p, e :: Rests(book.bids, p, e) ==> e.userId == owner(e.orderId))
    && (forall p, e :: Rests(book.asks, p, e) ==> e.userId == owner(e.orderId))
  }

  /** The price is clear of the other users' live orders on the opposite side. */
  ghost predicate Clear(book: Book, side: OrderSide, userId: nat, price: real) {
    forall r, f :: Rests(book.Against(side), r, f) && f.Live() && f.userId != userId ==> !AtLeastAsGood(side, r, price)
  }

  ghost predicate SubLadder(n: Ladder, m: Ladder) {
    forall p, e :: Rests(n, p, e) && e.Live() ==>
      exists f :: Rests(m, p, f) && f.Live() && f.userId == e.userId && f.orderId == e.orderId
  }

  lemma RestAddsOne(m: Ladder, price: real, e: Entry, p: real, x: Entry)
    ensures Rests(Rest(m, price, e), p, x) <==> Rests(m, p, x) || (p == price && x == e)
  {
    var es := LevelAt(m, price).orders;
    if p == price {
      assert x in es + [e] <==> x in es || x == e;
    }
  }

  /** Adding without matching keeps the book uncrossed exactly when the order has nothing left or is clear. */
  lemma AddUncrossedExactly(book: Book, o: OrderData)
    requires Uncrossed(book)
    ensures Uncrossed(AddSpec(book, o)) <==>
              !Accepts(o) || o.quantity <= o.filled || Clear(book, o.side, o.userId, o.price)
  {
    if Accepts(o) {
      var m, e := book.On(o.side), EntryOf(o);
      RestAddsOne(m, o.price, e, o.price, e);
      var after := AddSpec(book, o);
      assert after.On(o.side) == Rest(m, o.price, e) && after.Against(o.side) == book.Against(o.side);
      if e.Live() && !Clear(book, o.side, o.userId, o.price) {
        var r, f :|
          Rests(book.Against(o.side), r, f) && f.Live() && f.userId != o.userId && AtLeastAsGood(o.side, r, o.price);
        assert Rests(after.Against(o.side), r, f) && Rests(after.On(o.side), o.price, e);
      } else {
        AddKeepsUncrossed(book, o);
      }
    }
  }

  lemma AddKeepsUncrossed(book: Book, o: OrderData)
    requires Uncrossed(book) && Accepts(o)
    requires o.quantity <= o.filled || Clear(book, o.side, o.userId, o.price)
    ensures Uncrossed(AddSpec(book, o))
  {
    var m, after := book.On(o.side), AddSpec(book, o);
    forall p, e, r, f |
      Rests(after.bids, p, e) && Rests(after.asks, r, f) && e.Live() && f.Live() && e.userId != f.userId
      ensures p < r
    {
      if o.side.Buy? {
        RestAddsOne(m, o.price, EntryOf(o), p, e);
        assert Rests(book.Against(o.side), r, f);
      } else {
        RestAddsOne(m, o.price, EntryOf(o), r, f);
        assert Rests(book.Against(o.side), p, e);
      }
    }
  }

  lemma WithdrawShrinks(m: Ladder, price: real, id: nat)
    requires Finds(m, price, id)
    ensures forall p, e :: Rests(Withdraw(m, price, id), p, e) ==> Rests(m, p, e)
  {
    var es := m[price].orders;
    var k := Position(es, id);
    assert forall e :: e in es[..k] + es[k + 1..] ==> e in es;
  }

  lemma RemoveKeepsUncrossed(book: Book, id: nat, side: OrderSide, price: real, owner: nat -> nat)
    ensures Uncrossed(book) ==> Uncrossed(RemoveSpec(book, id, side, price))
    ensures Owned(book, owner) ==> Owned(RemoveSpec(book, id, side, price), owner)
  {
    if Finds(book.On(side), price, id) {
      WithdrawShrinks(book.On(side), price, id);
    }
  }

  /** update_order puts an order at its new price without matching it. It keeps the book uncrossed exactly when
      that price is refused, the order has nothing left, or the price is clear of the other users' orders. */
  lemma UpdateUncrossedExactly(book: Book, o: OrderData, price: real, quantity: real)
    requires Uncrossed(book)
    requires UpdateSpec(book, o, price, quantity).book != book
    ensures Uncrossed(UpdateSpec(book, o, price, quantity).book) <==>
              price > 1.0 || quantity <= o.filled || Clear(book, o.side, o.userId, price)
  {
    var removed := RemoveSpec(book, o.id, o.side, o.price);
    RemoveKeepsUncrossed(book, o.id, o.side, o.price, x => 0);
    AddUncrossedExactly(removed, o.(price := price, quantity := quantity, status := Open));
    assert removed.Against(o.side) == book.Against(o.side);
  }

  /** update_order reports success, yet with a new price above one the order no longer rests anywhere it was
      put: success with a change leaves the order resting at the new price exactly when that price is at most
      one. */
  lemma UpdateKeepsOrderExactly(book: Book, o: OrderData, price: real, quantity: real)
    requires UpdateSpec(book, o, price, quantity).ok && !(o.quantity == quantity && o.price == price)
    ensures var r := UpdateSpec(book, o, price, quantity);
            SoundBook(book) ==> (Rests(r.book.On(o.side), price, EntryOf(r.order)) <==> price <= 1.0)
  {
    var r := UpdateSpec(book, o, price, quantity);
    var removed := RemoveSpec(book, o.id, o.side, o.price);
    if price <= 1.0 {
      RestAddsOne(removed.On(o.side), price, EntryOf(r.order), price, EntryOf(r.order));
    } else if SoundBook(book) {
      RemoveKeepsSound(book, o.id, o.side, o.price);
    }
  }

  lemma OneOrderLadder(p: real, e: Entry)
    requires p <= 1.0 && e.Live()
    ensures var m: Ladder := map[p := Level([e], e.Remaining())];
            && Sound(m) && AllLive(m) && (forall r, f :: Rests(m, r, f) <==> r == p && f == e)
  {
    assert SumRemaining([e]) == e.Remaining();
  }

  /** A concrete crossing: a bid at one tenth, repriced to one half over another user's ask at one half. */
  lemma UpdateCanCross()
    ensures exists book, o, price, quantity ::
              && SoundBook(book) && LiveBook(book) && Uncrossed(book)
              && !Uncrossed(UpdateSpec(book, o, price, quantity).book)
  {
    var bid, ask := Entry(1, 1, 5.0, 0.0), Entry(2, 2, 5.0, 0.0);
    var book := Book(map[0.1 := Level([bid], bid.Remaining())], map[0.5 := Level([ask], ask.Remaining())]);
    var o := OrderData(1, 1, 0, Yes, Buy, Limit, 0.1, 5.0, 0.0, Open);
    OneOrderLadder(0.1, bid);
    OneOrderLadder(0.5, ask);
    assert Finds(book.bids, 0.1, 1) by { assert Position([bid], 1) == 0; }
    UpdateKeepsOrderExactly(book, o, 0.5, 5.0);
    assert !Rests(book.bids, 0.5, bid);
    assert Rests(book.Against(Buy), 0.5, ask);
    UpdateUncrossedExactly(book, o, 0.5, 5.0);
  }

  /** What rests after a match rested before it, and a taker left unfilled has exhausted the other users. */
  lemma MatchClears(book: Book, o: OrderData, owner: nat -> nat)
    requires Walks(o) && Owned(book, owner) && o.userId == owner(o.id)
    ensures var r := MatchSpec(book, o);
            && SubLadder(r.book.Against(o.side), book.Against(o.side))
            && (r.order.filled < o.quantity ==> Clear(r.book, o.side, o.userId, o.price))
  {
    var r := MatchSpec(book, o);
    var m, left := book.Against(o.side), r.book.Against(o.side);
    var q := QueueFor(o.side, m);
    var f := Fills(o, q, o.quantity - o.filled);
    MatchRefinesGreedy(book, o);
    FillsBounds(o, q, o.quantity - o.filled);
    forall p, e | Rests(left, p, e) && e.Live()
      ensures exists g :: Rests(m, p, g) && g.Live() && g.userId == e.userId && g.orderId == e.orderId
      ensures r.order.filled < o.quantity && e.userId != o.userId ==> !AtLeastAsGood(o.side, p, o.price)
    {
      var x := Maker(p, e);
      QueueForMembers(o.side, left, x);
      LiveMembers(QueueFor(o.side, left), x);
      LiveMembers(Apply(q, f), x);
      var i :| 0 <= i < |q| && Apply(q, f)[i] == x;
      assert q[i] in q;
      QueueForMembers(o.side, m, q[i]);
      assert 0.0 <= f[i] <= Available(o, q[i]);
      assert Rests(m, p, q[i].entry) && q[i].entry.Live();
      assert q[i].entry.userId == owner(q[i].entry.orderId);
    }
  }

  lemma MatchKeepsOwned(book: Book, o: OrderData, owner: nat -> nat)
    requires Owned(book, owner)
    ensures Owned(MatchSpec(book, o).book, owner)
  {
    if Walks(o) {
      var m := book.Against(o.side);
      MatchLadderOwned(m, BestFirst(o.side, m.Keys), o, o.quantity - o.filled, owner);
    }
  }

  lemma {:induction false} MatchLadderOwned(m: Ladder, keys: seq<real>, t: OrderData, wanted: real, owner: nat -> nat)
    requires forall p, e :: Rests(m, p, e) ==> e.userId == owner(e.orderId)
    ensures forall p, e :: Rests(MatchLadder(m, keys, t, wanted).ladder, p, e) ==> e.userId == owner(e.orderId)
    decreases |keys|
  {
    if keys == [] || wanted == 0.0 {
    } else if keys[0] !in m || !WithinLimit(t, keys[0]) {
      MatchLadderOwned(m, keys[1..], t, wanted, owner);
    } else {
      var q := Makers(keys[0], m[keys[0]].orders);
      var f := Fills(t, q, wanted);
      var kept := LiveOnly(Apply(q, f));
      var after := Store(m, keys[0], Entries(kept));
      forall p, e | Rests(after, p, e)
        ensures e.userId == owner(e.orderId)
      {
        if p == keys[0] {
          var i :| 0 <= i < |kept| && Entries(kept)[i] == e;
          LiveMembers(Apply(q, f), kept[i]);
          var j :| 0 <= j < |q| && Apply(q, f)[j] == kept[i];
          assert Rests(m, p, q[j].entry);
        } else {
          assert Rests(m, p, e);
        }
      }
      MatchLadderOwned(after, keys[1..], t, wanted - Sum(f), owner);
    }
  }

  lemma ShrinkKeepsUncrossed(book: Book, side: OrderSide, left: Ladder)
    requires Uncrossed(book) && SubLadder(left, book.Against(side))
    ensures Uncrossed(book.WithAgainst(side, left))
  {
    var after := book.WithAgainst(side, left);
    forall p, e, r, f |
      Rests(after.bids, p, e) && Rests(after.asks, r, f) && e.Live() && f.Live() && e.userId != f.userId
      ensures p < r
    {
      if side.Buy? {
        var g :| Rests(book.asks, r, g) && g.Live() && g.userId == f.userId;
        assert Rests(book.bids, p, e);
      } else {
        var g :| Rests(book.bids, p, g) && g.Live() && g.userId == e.userId;
        assert Rests(book.asks, r, f);
      }
    }
  }

  lemma MatchKeepsUncrossed(book: Book, o: OrderData, owner: nat -> nat)
    requires Uncrossed(book) && Owned(book, owner) && o.userId == owner(o.id)
    ensures Uncrossed(MatchSpec(book, o).book)
  {
    if Walks(o) {
      MatchClears(book, o, owner);
      ShrinkKeepsUncrossed(book, o.side, MatchSpec(book, o).book.Against(o.side));
    }
  }

  /** The operations of a run that should stay uncrossed, in the state each one meets: orders are submitted
      while OPEN, and one that is added or updated without matching must be clear of the other users. */
  ghost predicate Disciplined(book: Book, op: BookOp, owner: nat -> nat) {
    match op
    case Remove(_, _, _) => true
    case Match(o) => o.userId == owner(o.id)
    case MarketOrder(o, _) => o.userId == owner(o.id)
    case Submit(o) => o.userId == owner(o.id) && o.status == Open
    case Add(o) => o.userId == owner(o.id) && (o.quantity <= o.filled || Clear(book, o.side, o.userId, o.price))
    case Update(o, price, quantity) =>
      && o.userId == owner(o.id)
      && (quantity <= o.filled || price > 1.0 || Clear(book, o.side, o.userId, price))
  }

  ghost predicate DisciplinedRun(book: Book, ops: seq<BookOp>, owner: nat -> nat)
    decreases |ops|
  {
    ops == [] || (Disciplined(book, ops[0], owner) && DisciplinedRun(Step(book, ops[0]), ops[1..], owner))
  }

  lemma AddKeepsOwned(book: Book, o: OrderData, owner: nat -> nat)
    requires Owned(book, owner) && o.userId == owner(o.id)
    ensures Owned(AddSpec(book, o), owner)
  {
    if Accepts(o) {
      forall p, x | Rests(Rest(book.On(o.side), o.price, EntryOf(o)), p, x)
        ensures x.userId == owner(x.orderId)
      {
        RestAddsOne(book.On(o.side), o.price, EntryOf(o), p, x);
      }
    }
  }

  lemma SubmitKeepsUncrossed(book: Book, o: OrderData, owner: nat -> nat)
    requires Uncrossed(book) && Owned(book, owner) && o.userId == owner(o.id) && o.status == Open
    ensures Uncrossed(Step(book, Submit(o)))
  {
    var r := MatchSpec(book, o);
    MatchKeepsUncrossed(book, o, owner);
    if Walks(o) {
      MatchConserves(book, o);
      MatchClears(book, o, owner);
    }
    AddUncrossedExactly(r.book, r.order);
  }

  lemma StepKeepsUncrossed(book: Book, op: BookOp, owner: nat -> nat)
    requires Uncrossed(book) && Owned(book, owner) && Disciplined(book, op, owner)
    ensures Uncrossed(Step(book, op)) && Owned(Step(book, op), owner)
  {
    match op
    case Add(o) =>
      AddUncrossedExactly(book, o);
      AddKeepsOwned(book, o, owner);
    case Remove(id, side, price) => RemoveKeepsUncrossed(book, id, side, price, owner);
    case Update(o, price, quantity) =>
      RemoveKeepsUncrossed(book, o.id, o.side, o.price, owner);
      if UpdateSpec(book, o, price, quantity).book != book {
        UpdateUncrossedExactly(book, o, price, quantity);
      }
      AddKeepsOwned(RemoveSpec(book, o.id, o.side, o.price),
                    o.(price := price, quantity := quantity, status := Open), owner);
    case Match(o) =>
      MatchKeepsUncrossed(book, o, owner);
      MatchKeepsOwned(book, o, owner);
    case Submit(o) =>
      SubmitKeepsUncrossed(book, o, owner);
      MatchKeepsOwned(book, o, owner);
      AddKeepsOwned(MatchSpec(book, o).book, MatchSpec(book, o).order, owner);
    case MarketOrder(o, budget) =>
      MatchKeepsUncrossed(book, Quoted(book, o, budget), owner);
      MatchKeepsOwned(book, Quoted(book, o, budget), owner);
  }

  /** No run of submitted, removed and market orders, whatever their quantities, ever crosses the book. */
  lemma {:induction false} RunKeepsUncrossed(book: Book, ops: seq<BookOp>, owner: nat -> nat)
    requires Uncrossed(book) && Owned(book, owner) && DisciplinedRun(book, ops, owner)
    ensures Uncrossed(Run(book, ops)) && Owned(Run(book, ops), owner)
    decreases |ops|
  {
    if ops != [] {
      StepKeepsUncrossed(book, ops[0], owner);
      RunKeepsUncrossed(Step(book, ops[0]), ops[1..], owner);
    }
  }

  /** Updating the quantity alone needs no discipline: in an uncrossed book of live orders the order's own
      price is clear already. */
  lemma SamePriceUpdateIsClear(book: Book, o: OrderData, quantity: real, owner: nat -> nat)
    requires Uncrossed(book) && LiveBook(book) && Owned(book, owner) && o.userId == owner(o.id)
    requires Finds(book.On(o.side), o.price, o.id)
    ensures Disciplined(book, Update(o, o.price, quantity), owner)
  {
    var es := book.On(o.side)[o.price].orders;
    var e := es[Position(es, o.id)];
    assert Rests(book.On(o.side), o.price, e) && e.userId == o.userId;
    forall r, f | Rests(book.Against(o.side), r, f) && f.Live() && f.userId != o.userId
      ensures !AtLeastAsGood(o.side, r, o.price)
    {
      assert e.Live();
    }
  }
}
