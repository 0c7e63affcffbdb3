/** The values an outcome book holds and what each operation does to them
    (order-service/src/order_book/outcome_book.rs). Amounts are exact reals. */
module BookSpec {
  import opened Sums
  import opened Orders

  datatype Entry = Entry(userId: nat, orderId: nat, total: real, filled: real) {
    function Remaining(): real { total - filled }

    predicate Live() { filled < total }
  }

  datatype Level = Level(orders: seq<Entry>, total: real)

  /** One side of a book: a price level for every price at which orders rest. */
  type Ladder = map<real, Level>

  datatype Book = Book(bids: Ladder, asks: Ladder) {
    function On(side: OrderSide): Ladder { if side.Buy? then bids else asks }

    /** The ladder an order of this side trades against. */
    function Against(side: OrderSide): Ladder { if side.Buy? then asks else bids }

    function WithOn(side: OrderSide, m: Ladder): Book {
      if side.Buy? then this.(bids := m) else this.(asks := m)
    }

    function WithAgainst(side: OrderSide, m: Ladder): Book {
      if side.Buy? then this.(asks := m) else this.(bids := m)
    }
  }

  const EMPTY_BOOK := Book(map[], map[])

  datatype MatchReport = MatchReport(
    orderId: nat,
    oppositeOrderId: nat,
    quantity: real,
    price: real,
    oppositeTotal: real,
    oppositeFilled: real)

  // ----- price order -----

  /** `p` is at least as good a price as `q` for a taker of this side. */
  predicate AtLeastAsGood(side: OrderSide, p: real, q: real) {
    if side.Buy? then p <= q else p >= q
  }

  predicate IsBest(side: OrderSide, s: set<real>, p: real) {
    p in s && forall q :: q in s ==> AtLeastAsGood(side, p, q)
  }

  lemma {:induction false} BestExists(side: OrderSide, s: set<real>)
    requires s != {}
    ensures exists p :: IsBest(side, s, p)
    decreases |s|
  {
    var x := Pick(s);
    if s - {x} == {} {
      assert s == {x};
      assert IsBest(side, s, x);
    } else {
      BestExists(side, s - {x});
      var p :| IsBest(side, s - {x}, p);
      assert s == (s - {x}) + {x};
      assert IsBest(side, s, if AtLeastAsGood(side, p, x) then p else x);
    }
  }

  function Best(side: OrderSide, s: set<real>): (p: real)
    requires s != {}
    ensures IsBest(side, s, p)
  {
    BestExists(side, s);
    var p :| p in s && IsBest(side, s, p);
    p
  }

  /** The prices of a ladder, best first for a taker of this side. */
  function BestFirst(side: OrderSide, s: set<real>): (keys: seq<real>)
    decreases |s|
  {
    if s == {} then [] else
      var p := Best(side, s);
      [p] + BestFirst(side, s - {p})
  }

  ghost predicate Ordered(side: OrderSide, keys: seq<real>) {
    forall i, j :: 0 <= i < j < |keys| ==> AtLeastAsGood(side, keys[i], keys[j]) && keys[i] != keys[j]
  }

  // ----- resting and removing -----

  function SumRemaining(es: seq<Entry>): real {
    if es == [] then 0.0 else es[0].Remaining() + SumRemaining(es[1..])
  }

  function LevelAt(m: Ladder, price: real): Level {
    if price in m then m[price] else Level([], 0.0)
  }

  function EntryOf(o: OrderData): Entry {
    Entry(o.userId, o.id, o.quantity, o.filled)
  }

  function Rest(m: Ladder, price: real, e: Entry): Ladder {
    var level := LevelAt(m, price);
    m[price := Level(level.orders + [e], level.total + e.Remaining())]
  }

  /** An order add_order accepts. */
  predicate Accepts(o: OrderData) {
    o.status != Filled && o.status != Cancelled && o.price <= 1.0
  }

  function AddSpec(book: Book, o: OrderData): Book {
    if Accepts(o) then book.WithOn(o.side, Rest(book.On(o.side), o.price, EntryOf(o))) else book
  }

  /** The first position of an order in a level's queue, or the length of the queue. */
  function Position(es: seq<Entry>, id: nat): (k: nat)
    ensures k <= |es|
    ensures k < |es| ==> es[k].orderId == id
    ensures forall i :: 0 <= i < k ==> es[i].orderId != id
  {
    if es == [] || es[0].orderId == id then 0 else 1 + Position(es[1..], id)
  }

  predicate Finds(m: Ladder, price: real, id: nat) {
    price <= 1.0 && price in m && Position(m[price].orders, id) < |m[price].orders|
  }

  function Withdraw(m: Ladder, price: real, id: nat): Ladder
    requires Finds(m, price, id)
  {
    var es := m[price].orders;
    var k := Position(es, id);
    var rest := es[..k] + es[k + 1..];
    if rest == [] then m - {price} else m[price := Level(rest, m[price].total - es[k].Remaining())]
  }

  function RemoveSpec(book: Book, id: nat, side: OrderSide, price: real): Book {
    if Finds(book.On(side), price, id) then book.WithOn(side, Withdraw(book.On(side), price, id)) else book
  }

  datatype UpdateResult = UpdateResult(book: Book, order: OrderData, ok: bool)

  /** The guard at the top of update_order looks at the old price only. */
  function UpdateSpec(book: Book, o: OrderData, price: real, quantity: real): UpdateResult {
    if o.price > 1.0 then UpdateResult(book, o, false)
    else if o.quantity == quantity && o.price == price then UpdateResult(book, o, true)
    else if !Finds(book.On(o.side), o.price, o.id) then UpdateResult(book, o, false)
    else
      var o' := o.(price := price, quantity := quantity, status := Open);
      UpdateResult(AddSpec(RemoveSpec(book, o.id, o.side, o.price), o'), o', true)
  }

  // ----- matching -----

  /** A resting order together with the price of its level. */
  datatype Maker = Maker(price: real, entry: Entry)

  function Makers(price: real, es: seq<Entry>): seq<Maker> {
    seq(|es|, i requires 0 <= i < |es| => Maker(price, es[i]))
  }

  function Entries(q: seq<Maker>): seq<Entry> {
    seq(|q|, i requires 0 <= i < |q| => q[i].entry)
  }

  predicate WithinLimit(t: OrderData, price: real) {
    t.orderType == Market || AtLeastAsGood(t.side, price, t.price)
  }

  predicate SelfTrade(t: OrderData, e: Entry) {
    t.id == e.orderId || t.userId == e.userId
  }

  /** What the taker may take from one maker: everything left of another user's order within the limit. */
  function Available(t: OrderData, m: Maker): (a: real)
    ensures a >= 0.0
  {
    if WithinLimit(t, m.price) && !SelfTrade(t, m.entry) then Max(0.0, m.entry.Remaining()) else 0.0
  }

  /** Greedy allocation: every maker in turn gives the lesser of what it has and what is still wanted. */
  function Fills(t: OrderData, q: seq<Maker>, wanted: real): (f: seq<real>)
    ensures |f| == |q|
  {
    if q == [] then [] else
      var x := Min(Available(t, q[0]), Max(0.0, wanted));
      [x] + Fills(t, q[1..], wanted - x)
  }

  function Apply(q: seq<Maker>, f: seq<real>): seq<Maker>
    requires |q| == |f|
  {
    seq(|q|, i requires 0 <= i < |q| =>
      Maker(q[i].price, q[i].entry.(filled := q[i].entry.filled + f[i])))
  }

  function LiveOnly(q: seq<Maker>): seq<Maker> {
    if q == [] then []
    else if q[0].entry.Live() then [q[0]] + LiveOnly(q[1..])
    else LiveOnly(q[1..])
  }

  function ReportOf(t: OrderData, m: Maker, x: real): MatchReport {
    MatchReport(t.id, m.entry.orderId, x, m.price, m.entry.total, m.entry.filled + x)
  }

  function Reports(t: OrderData, q: seq<Maker>, f: seq<real>): seq<MatchReport>
    requires |q| == |f|
  {
    if q == [] then []
    else (if f[0] > 0.0 then [ReportOf(t, q[0], f[0])] else []) + Reports(t, q[1..], f[1..])
  }

  function Store(m: Ladder, price: real, es: seq<Entry>): Ladder {
    if es == [] then m - {price} else m[price := Level(es, SumRemaining(es))]
  }

  datatype LadderMatch = LadderMatch(ladder: Ladder, remaining: real, reports: seq<MatchReport>)

  /** One ladder walked level by level; a level that is visited is swept of its filled orders. */
  function MatchLadder(m: Ladder, keys: seq<real>, t: OrderData, wanted: real): LadderMatch {
    if keys == [] || wanted == 0.0 then LadderMatch(m, wanted, [])
    else if keys[0] !in m || !WithinLimit(t, keys[0]) then MatchLadder(m, keys[1..], t, wanted)
    else
      var q := Makers(keys[0], m[keys[0]].orders);
      var f := Fills(t, q, wanted);
      var after := Store(m, keys[0], Entries(LiveOnly(Apply(q, f))));
      var rest := MatchLadder(after, keys[1..], t, wanted - Sum(f));
      rest.(reports := Reports(t, q, f) + rest.reports)
  }

  datatype MatchResult = MatchResult(book: Book, order: OrderData, reports: seq<MatchReport>)

  /** The order gets past the guards at the top of match_order. */
  predicate Walks(o: OrderData) {
    && o.status == Open
    && (o.price > 1.0 ==> o.orderType == Market)
    && !ZeroQuantityLimit(o)
    && o.filled < o.quantity
  }

  /** A priced order for nothing counts as filled. */
  predicate ZeroQuantityLimit(o: OrderData) {
    o.price != 0.0 && o.orderType != Market && o.quantity == 0.0
  }

  /** The book and the taker after a walk of the opposite side. */
  function Finish(book: Book, o: OrderData, walk: LadderMatch): MatchResult {
    var filled := o.quantity - walk.remaining;
    MatchResult(book.WithAgainst(o.side, walk.ladder),
                o.(filled := filled, status := if filled == o.quantity then Filled else o.status),
                walk.reports)
  }

  function WholeWalk(m: Ladder, o: OrderData): LadderMatch {
    MatchLadder(m, BestFirst(o.side, m.Keys), o, o.quantity - o.filled)
  }

  function MatchSpec(book: Book, o: OrderData): MatchResult {
    if Walks(o) then
      Finish(book, o, WholeWalk(book.Against(o.side), o))
    else if o.status == Open && o.price <= 1.0 && ZeroQuantityLimit(o) then
      MatchResult(book, o.(status := Filled, filled := 0.0), [])
    else
      MatchResult(book, o, [])
  }

  // ----- market orders -----

  /** What one maker sells for a budget. The budget pass skips the taker's own user only. */
  function Affordable(t: OrderData, m: Maker): (a: real)
    ensures a >= 0.0
  {
    if m.entry.userId == t.userId then 0.0 else Max(0.0, m.entry.Remaining())
  }

  /** What is taken from one maker: all it has while the budget lasts, else what the budget pays for. */
  function SpendOn(t: OrderData, m: Maker, budget: real): real {
    var a := Affordable(t, m);
    if budget <= 0.0 || a == 0.0 then 0.0
    else if budget >= Money(m.price, a) then a
    else budget / m.price
  }

  function LeftAfter(t: OrderData, m: Maker, budget: real): real {
    budget - Money(m.price, SpendOn(t, m, budget))
  }

  /** Greedy spending: every maker in turn is bought out while the budget lasts, the last one in part. */
  function Spend(t: OrderData, q: seq<Maker>, budget: real): (f: seq<real>)
    ensures |f| == |q|
  {
    if q == [] then [] else
      [SpendOn(t, q[0], budget)] + Spend(t, q[1..], LeftAfter(t, q[0], budget))
  }

  function Cost(q: seq<Maker>, f: seq<real>): real
    requires |q| == |f|
  {
    if q == [] then 0.0 else Money(q[0].price, f[0]) + Cost(q[1..], f[1..])
  }

  function MakersAt(m: Ladder, price: real): seq<Maker> { Makers(price, LevelAt(m, price).orders) }

  /** The whole ladder as one queue, best price first and oldest order first within a price. */
  function Queue(m: Ladder, keys: seq<real>): seq<Maker> {
    if keys == [] then [] else MakersAt(m, keys[0]) + Queue(m, keys[1..])
  }

  function QueueFor(side: OrderSide, m: Ladder): seq<Maker> {
    Queue(m, BestFirst(side, m.Keys))
  }

  datatype Quote = Quote(quantity: real, status: OrderStatus)

  /** get_available_match_quantity. */
  function QuoteSpec(book: Book, o: OrderData, budget: real): Quote {
    if o.price != 0.0 then Quote(0.0, o.status) else
      var q := QueueFor(o.side, book.Against(o.side));
      var f := Spend(o, q, budget);
      Quote(Sum(f), if budget - Cost(q, f) > 0.0 || budget == 0.0 then Cancelled else o.status)
  }

  function Quoted(book: Book, o: OrderData, budget: real): OrderData {
    var quote := QuoteSpec(book, o, budget);
    o.(quantity := quote.quantity, price := budget, status := quote.status)
  }

  function MarketSpec(book: Book, o: OrderData, budget: real): MatchResult {
    if o.orderType != Market then MatchResult(book, o, []) else MatchSpec(book, Quoted(book, o, budget))
  }
}
