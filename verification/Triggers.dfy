/** The trigger pass that follows each trade: open limit and stop orders whose price condition is met are marked
    and published (order-service/src/utils/update_matched_orders.rs, trigger_eligible_limit_orders). What the
    database and the message queue do with each order is given as an `Effect`. */
module Triggers {
  import opened Orders

  datatype Effect =
    | MarkFails                         // the update to PendingUpdate fails: the order is skipped
    | SerializeFails(reverted: bool)    // then the order is set back to OPEN, if that succeeds
    | PublishFails(reverted: bool)
    | Publishes

  /** A message sent, with the order as it was fetched and the prices of the pass. */
  datatype Publication = Publication(order: OrderData, yesPrice: real, noPrice: real)

  datatype Engine = Engine(rows: map<nat, OrderData>, outbox: seq<Publication>)

  /** The price condition; stop orders use the opposite comparison. An order without an outcome never meets it. */
  predicate Met(o: OrderData, yesPrice: real, noPrice: real) {
    var current := if o.outcome.Yes? then yesPrice else noPrice;
    && !o.outcome.Unspecified?
    && match o.orderType
       case Limit => if o.side.Buy? then current <= o.price else current >= o.price
       case StopLoss => if o.side.Buy? then current >= o.price else current <= o.price
       case _ => false
  }

  /** The price of the order's outcome is where the order waits for it: at or below a limit to buy and a stop to sell,
      at or above a limit to sell and a stop to buy. */
  predicate Reached(o: OrderData, yesPrice: real, noPrice: real) {
    (o.outcome == Yes && ReachedAt(o, yesPrice)) || (o.outcome == No && ReachedAt(o, noPrice))
  }

  predicate ReachedAt(o: OrderData, price: real) {
    || (o.orderType == Limit && o.side == Buy && price <= o.price)
    || (o.orderType == Limit && o.side == Sell && price >= o.price)
    || (o.orderType == StopLoss && o.side == Buy && price >= o.price)
    || (o.orderType == StopLoss && o.side == Sell && price <= o.price)
  }

  lemma MetIsReached(o: OrderData, yesPrice: real, noPrice: real)
    ensures Met(o, yesPrice, noPrice) <==> Reached(o, yesPrice, noPrice)
  {
  }

  /** What a pass leaves in the status of an order it fetched. */
  function StatusAfter(o: OrderData, yesPrice: real, noPrice: real, effect: Effect): OrderStatus {
    if !Met(o, yesPrice, noPrice) then Open else
      match effect
      case MarkFails => Open
      case SerializeFails(reverted) => if reverted then Open else PendingUpdate
      case PublishFails(reverted) => if reverted then Open else PendingUpdate
      case Publishes => PendingUpdate
  }

  /** The rows an open-orders query returns, in whatever order. */
  ghost predicate IsFetch(rows: map<nat, OrderData>, marketId: nat, orderType: OrderType, ids: seq<nat>) {
    && (forall i, j :: 0 <= i < j < |ids| ==> ids[i] != ids[j])
    && (forall id :: id in ids <==>
          id in rows && rows[id].marketId == marketId && rows[id].status == Open && rows[id].orderType == orderType)
  }

  /** The messages a pass sends for a list of fetched orders, in list order. */
  function Sent(rows: map<nat, OrderData>, ids: seq<nat>, yesPrice: real, noPrice: real, effects: nat -> Effect)
    : seq<Publication>
  {
    if ids == [] then []
    else
      (if ids[0] in rows && Met(rows[ids[0]], yesPrice, noPrice) && effects(ids[0]) == Publishes
         then [Publication(rows[ids[0]], yesPrice, noPrice)] else [])
      + Sent(rows, ids[1..], yesPrice, noPrice, effects)
  }

  function Marked(rows: map<nat, OrderData>, ids: seq<nat>, yesPrice: real, noPrice: real, effects: nat -> Effect)
    : map<nat, OrderData>
  {
    map id | id in rows ::
      if id in ids then rows[id].(status := StatusAfter(rows[id], yesPrice, noPrice, effects(id))) else rows[id]
  }

  class OrderTable {
    var rows: map<nat, OrderData>
    var outbox: seq<Publication>

    constructor ()
      ensures rows == map[] && outbox == []
    {
      rows, outbox := map[], [];
    }

    function View(): Engine
      reads this
    {
      Engine(rows, outbox)
    }

    method UpdateOrderStatus(id: nat, status: OrderStatus)
      requires id in rows
      modifies `rows
      ensures rows == old(rows)[id := old(rows)[id].(status := status)]
    {
      rows := rows[id := rows[id].(status := status)];
    }

    /** One fetched order: marked and published when its condition is met, set back when sending fails. */
    method TriggerOne(pending: OrderData, yesPrice: real, noPrice: real, effect: Effect)
      requires pending.id in rows && rows[pending.id] == pending && pending.status == Open
      modifies this
      ensures rows == old(rows)[pending.id := pending.(status := StatusAfter(pending, yesPrice, noPrice, effect))]
      ensures outbox == old(outbox) + if Met(pending, yesPrice, noPrice) && effect == Publishes
                then [Publication(pending, yesPrice, noPrice)] else []
    {
      if !Met(pending, yesPrice, noPrice) || effect == MarkFails {
        return;
      }
      UpdateOrderStatus(pending.id, PendingUpdate);
      match effect {
        case Publishes => outbox := outbox + [Publication(pending, yesPrice, noPrice)];
        case SerializeFails(reverted) => if reverted { UpdateOrderStatus(pending.id, Open); }
        case PublishFails(reverted) => if reverted { UpdateOrderStatus(pending.id, Open); }
      }
    }

    /** One of the two loops of the pass, over a fetched list. */
    method TriggerAll(ids: seq<nat>, fetched: map<nat, OrderData>, yesPrice: real, noPrice: real,
                      effects: nat -> Effect)
      requires forall i, j :: 0 <= i < j < |ids| ==> ids[i] != ids[j]
      requires forall id :: id in ids ==>
                 && id in rows && id in fetched && fetched[id] == rows[id]
                 && rows[id].status == Open && rows[id].id == id
      modifies this
      ensures rows == Marked(old(rows), ids, yesPrice, noPrice, effects)
      ensures outbox == old(outbox) + Sent(fetched, ids, yesPrice, noPrice, effects)
    {
      for i := 0 to |ids|
        invariant rows == Marked(old(rows), ids[..i], yesPrice, noPrice, effects)
        invariant outbox == old(outbox) + Sent(fetched, ids[..i], yesPrice, noPrice, effects)
      {
        var id := ids[i];
        assert id in ids && id !in ids[..i];
        OneMoreTriggered(old(rows), fetched, ids, i, yesPrice, noPrice, effects);
        TriggerOne(fetched[id], yesPrice, noPrice, effects(id));
      }
      assert ids[..|ids|] == ids;
    }

    /** Both lists are fetched before either is worked on. */
    method TriggerPass(marketId: nat, limits: seq<nat>, stops: seq<nat>, yesPrice: real, noPrice: real,
                       effects: nat -> Effect)
      requires forall id :: id in rows ==> rows[id].id == id
      requires IsFetch(rows, marketId, Limit, limits) && IsFetch(rows, marketId, StopLoss, stops)
      modifies this
      ensures View() == PassStep(old(View()), marketId, limits, stops, yesPrice, noPrice, effects)
    {
      var fetched := rows;
      assert forall id :: id in stops ==> id !in limits;
      TriggerAll(limits, fetched, yesPrice, noPrice, effects);
      TriggerAll(stops, fetched, yesPrice, noPrice, effects);
      assert rows == PassRows(fetched, marketId, yesPrice, noPrice, effects);
    }
  }

  /** One more order of the list: its row is marked, and it is sent if it qualifies. */
  lemma OneMoreTriggered(rows: map<nat, OrderData>, fetched: map<nat, OrderData>, ids: seq<nat>, i: nat,
                         yesPrice: real, noPrice: real, effects: nat -> Effect)
    requires i < |ids| && ids[i] in rows && ids[i] in fetched && rows[ids[i]] == fetched[ids[i]] && ids[i] !in ids[..i]
    ensures var id := ids[i]; var o := fetched[id];
            && Marked(rows, ids[..i + 1], yesPrice, noPrice, effects) ==
                 Marked(rows, ids[..i], yesPrice, noPrice, effects)
                   [id := o.(status := StatusAfter(o, yesPrice, noPrice, effects(id)))]
            && Sent(fetched, ids[..i + 1], yesPrice, noPrice, effects) ==
                 Sent(fetched, ids[..i], yesPrice, noPrice, effects) +
                 if Met(o, yesPrice, noPrice) && effects(id) == Publishes
                   then [Publication(o, yesPrice, noPrice)] else []
  {
    assert ids[..i + 1] == ids[..i] + [ids[i]];
    SentAppend(fetched, ids[..i], ids[i], yesPrice, noPrice, effects);
  }

  lemma {:induction false} SentAppend(rows: map<nat, OrderData>, ids: seq<nat>, id: nat, yesPrice: real,
                                      noPrice: real, effects: nat -> Effect)
    ensures Sent(rows, ids + [id], yesPrice, noPrice, effects) ==
              Sent(rows, ids, yesPrice, noPrice, effects) + Sent(rows, [id], yesPrice, noPrice, effects)
  {
    if ids == [] {
      assert ids + [id] == [id];
    } else {
      assert (ids + [id])[1..] == ids[1..] + [id];
      SentAppend(rows, ids[1..], id, yesPrice, noPrice, effects);
    }
  }

  predicate Considered(o: OrderData, marketId: nat) {
    o.marketId == marketId && o.status == Open && (o.orderType == Limit || o.orderType == StopLoss)
  }

  function PassRows(rows: map<nat, OrderData>, marketId: nat, yesPrice: real, noPrice: real, effects: nat -> Effect)
    : map<nat, OrderData>
  {
    map id | id in rows ::
      if Considered(rows[id], marketId)
        then rows[id].(status := StatusAfter(rows[id], yesPrice, noPrice, effects(id))) else rows[id]
  }

  function PassStep(e: Engine, marketId: nat, limits: seq<nat>, stops: seq<nat>, yesPrice: real, noPrice: real,
                    effects: nat -> Effect): Engine
  {
    Engine(PassRows(e.rows, marketId, yesPrice, noPrice, effects),
           e.outbox + Sent(e.rows, limits, yesPrice, noPrice, effects) +
           Sent(e.rows, stops, yesPrice, noPrice, effects))
  }

  // ----- runs -----

  datatype EngineOp =
    | Pass(marketId: nat, limits: seq<nat>, stops: seq<nat>, yesPrice: real, noPrice: real, effects: nat -> Effect)
    | Place(order: OrderData)      // a new row
    | Change(order: OrderData)     // any other change of a row; a published order is not reopened

  function EngineStep(e: Engine, op: EngineOp): Engine {
    match op
    case Pass(m, limits, stops, yes, no, effects) => PassStep(e, m, limits, stops, yes, no, effects)
    case Place(o) => if o.id in e.rows then e else e.(rows := e.rows[o.id := o])
    case Change(o) =>
      if o.id in e.rows && (o.status != Open || !WasSent(e.outbox, o.id)) then e.(rows := e.rows[o.id := o]) else e
  }

  ghost predicate Fetches(e: Engine, op: EngineOp) {
    op.Pass? ==> IsFetch(e.rows, op.marketId, Limit, op.limits) && IsFetch(e.rows, op.marketId, StopLoss, op.stops)
  }

  function EngineRun(e: Engine, ops: seq<EngineOp>): Engine
    decreases |ops|
  {
    if ops == [] then e else EngineRun(EngineStep(e, ops[0]), ops[1..])
  }

  ghost predicate FetchingRun(e: Engine, ops: seq<EngineOp>)
    decreases |ops|
  {
    ops == [] || (Fetches(e, ops[0]) && FetchingRun(EngineStep(e, ops[0]), ops[1..]))
  }

  predicate WasSent(outbox: seq<Publication>, id: nat) {
    exists x :: x in outbox && x.order.id == id
  }

  ghost predicate SentOnce(outbox: seq<Publication>) {
    forall i, j :: 0 <= i < j < |outbox| ==> outbox[i].order.id != outbox[j].order.id
  }

  /** Rows carry their own id; nothing was sent twice; what was sent had met its condition and is not open. */
  ghost predicate Sane(e: Engine) {
    && (forall id :: id in e.rows ==> e.rows[id].id == id)
    && SentOnce(e.outbox)
    && (forall x :: x in e.outbox ==>
          Reached(x.order, x.yesPrice, x.noPrice) && x.order.id in e.rows && e.rows[x.order.id].status != Open)
  }

  predicate Qualifies(rows: map<nat, OrderData>, ids: seq<nat>, yesPrice: real, noPrice: real,
                      effects: nat -> Effect, x: Publication)
  {
    && x.order.id in ids && x.order.id in rows && x == Publication(rows[x.order.id], yesPrice, noPrice)
    && Met(x.order, yesPrice, noPrice) && effects(x.order.id) == Publishes
  }

  /** A list of fetched orders sends exactly its qualifying orders. */
  lemma {:induction false} SentExactly(rows: map<nat, OrderData>, ids: seq<nat>, yesPrice: real, noPrice: real,
                                       effects: nat -> Effect, x: Publication)
    requires forall id :: id in rows ==> rows[id].id == id
    ensures x in Sent(rows, ids, yesPrice, noPrice, effects) <==> Qualifies(rows, ids, yesPrice, noPrice, effects, x)
  {
    if ids != [] {
      SentExactly(rows, ids[1..], yesPrice, noPrice, effects, x);
      assert ids == [ids[0]] + ids[1..];
    }
  }

  /** Each of them once. */
  lemma {:induction false} SentDistinct(rows: map<nat, OrderData>, ids: seq<nat>, yesPrice: real, noPrice: real,
                                        effects: nat -> Effect)
    requires forall id :: id in rows ==> rows[id].id == id
    requires forall i, j :: 0 <= i < j < |ids| ==> ids[i] != ids[j]
    ensures SentOnce(Sent(rows, ids, yesPrice, noPrice, effects))
  {
    if ids != [] {
      SentDistinct(rows, ids[1..], yesPrice, noPrice, effects);
      forall x | x in Sent(rows, ids[1..], yesPrice, noPrice, effects)
        ensures x.order.id != ids[0]
      {
        SentExactly(rows, ids[1..], yesPrice, noPrice, effects, x);
      }
    }
  }

  /** What a pass adds to the outbox. */
  function NewlySent(e: Engine, op: EngineOp): seq<Publication>
    requires op.Pass?
  {
    Sent(e.rows, op.limits, op.yesPrice, op.noPrice, op.effects) +
    Sent(e.rows, op.stops, op.yesPrice, op.noPrice, op.effects)
  }

  lemma NewlySentExactly(e: Engine, op: EngineOp)
    requires Sane(e) && op.Pass? && Fetches(e, op)
    ensures SentOnce(NewlySent(e, op))
    ensures forall x :: x in NewlySent(e, op) <==>
              && x.order.id in e.rows && x == Publication(e.rows[x.order.id], op.yesPrice, op.noPrice)
              && x.order.marketId == op.marketId && x.order.status == Open
              && op.effects(x.order.id) == Publishes && Reached(x.order, op.yesPrice, op.noPrice)
  {
    forall o: OrderData
      ensures Met(o, op.yesPrice, op.noPrice) <==> Reached(o, op.yesPrice, op.noPrice)
    {
      MetIsReached(o, op.yesPrice, op.noPrice);
    }
    SentDistinct(e.rows, op.limits, op.yesPrice, op.noPrice, op.effects);
    SentDistinct(e.rows, op.stops, op.yesPrice, op.noPrice, op.effects);
    forall x: Publication
      ensures x in Sent(e.rows, op.limits, op.yesPrice, op.noPrice, op.effects) <==>
                Qualifies(e.rows, op.limits, op.yesPrice, op.noPrice, op.effects, x)
      ensures x in Sent(e.rows, op.stops, op.yesPrice, op.noPrice, op.effects) <==>
                Qualifies(e.rows, op.stops, op.yesPrice, op.noPrice, op.effects, x)
    {
      SentExactly(e.rows, op.limits, op.yesPrice, op.noPrice, op.effects, x);
      SentExactly(e.rows, op.stops, op.yesPrice, op.noPrice, op.effects, x);
    }
    OnceConcat(Sent(e.rows, op.limits, op.yesPrice, op.noPrice, op.effects),
               Sent(e.rows, op.stops, op.yesPrice, op.noPrice, op.effects));
  }

  lemma OnceConcat(a: seq<Publication>, b: seq<Publication>)
    requires SentOnce(a) && SentOnce(b)
    requires forall x, y :: x in a && y in b ==> x.order.id != y.order.id
    ensures SentOnce(a + b)
  {
    forall i, j | 0 <= i < j < |a + b|
      ensures (a + b)[i].order.id != (a + b)[j].order.id
    {
      if i < |a| <= j {
        assert a[i] in a && b[j - |a|] in b;
      }
    }
  }

  lemma PassKeepsSane(e: Engine, op: EngineOp)
    requires Sane(e) && op.Pass? && Fetches(e, op)
    ensures Sane(EngineStep(e, op))
  {
    var sent := NewlySent(e, op);
    NewlySentExactly(e, op);
    assert EngineStep(e, op).outbox == e.outbox + sent;
    OnceConcat(e.outbox, sent);
    forall x | x in sent
      ensures Reached(x.order, x.yesPrice, x.noPrice)
      ensures x.order.id in e.rows && EngineStep(e, op).rows[x.order.id].status != Open
    {
      MetIsReached(x.order, op.yesPrice, op.noPrice);
    }
  }

  lemma {:induction false} RunKeepsSane(e: Engine, ops: seq<EngineOp>)
    requires Sane(e) && FetchingRun(e, ops)
    ensures Sane(EngineRun(e, ops))
    decreases |ops|
  {
    if ops != [] {
      if ops[0].Pass? {
        PassKeepsSane(e, ops[0]);
      }
      RunKeepsSane(EngineStep(e, ops[0]), ops[1..]);
    }
  }

  /** Over any sequence of passes, placements and changes that do not reopen a published order (parking an order as
      OPEN included), whatever fails: each order is published at most once, and only at pass prices that had reached
      its limit or stop. */
  lemma PublishedAtMostOnce(ops: seq<EngineOp>)
    requires FetchingRun(Engine(map[], []), ops)
    ensures var outbox := EngineRun(Engine(map[], []), ops).outbox;
            && SentOnce(outbox)
            && forall i :: 0 <= i < |outbox| ==> Reached(outbox[i].order, outbox[i].yesPrice, outbox[i].noPrice)
  {
    RunKeepsSane(Engine(map[], []), ops);
  }

  /** A pass touches the open limit and stop orders of its market only, and of those the status only. */
  lemma PassTouchesStatusOnly(e: Engine, op: EngineOp, id: nat)
    requires op.Pass? && id in e.rows
    ensures var before, after := e.rows[id], EngineStep(e, op).rows;
            && after.Keys == e.rows.Keys
            && after[id] == before.(status := after[id].status)
            && (after[id] != before ==>
                  && before.marketId == op.marketId && before.status == Open && after[id].status == PendingUpdate
                  && Reached(before, op.yesPrice, op.noPrice))
  {
    MetIsReached(e.rows[id], op.yesPrice, op.noPrice);
  }

  predicate RevertFails(effect: Effect) {
    (effect.SerializeFails? || effect.PublishFails?) && !effect.reverted
  }

  /** After a pass an order it fetched as OPEN is either PendingUpdate and published or OPEN and unpublished,
      exactly unless its condition was met and setting it back to OPEN failed. */
  lemma PassDecidesExactly(e: Engine, op: EngineOp, id: nat)
    requires Sane(e) && op.Pass? && Fetches(e, op)
    requires id in e.rows && e.rows[id].marketId == op.marketId && e.rows[id].status == Open
    requires e.rows[id].orderType == Limit || e.rows[id].orderType == StopLoss
    ensures var after := EngineStep(e, op);
            (after.rows[id].status == PendingUpdate && WasSent(after.outbox, id)) ||
            (after.rows[id].status == Open && !WasSent(after.outbox, id))
            <==> !(Reached(e.rows[id], op.yesPrice, op.noPrice) && RevertFails(op.effects(id)))
  {
    NewlySentExactly(e, op);
    assert EngineStep(e, op).outbox == e.outbox + NewlySent(e, op);
    var x := Publication(e.rows[id], op.yesPrice, op.noPrice);
    MetIsReached(e.rows[id], op.yesPrice, op.noPrice);
    assert x.order.id == id;
    assert Met(e.rows[id], op.yesPrice, op.noPrice) && op.effects(id) == Publishes <==> x in NewlySent(e, op);
  }
}
