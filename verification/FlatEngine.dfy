/** The built-in engine of the dashboard (class `MatchingEngine` of dashboard/app.py) for one
    symbol: two flat lists kept sorted by a stable sort, a list of accepted orders, a list of
    trades. It refines the same greedy sweep as the levelled book. */
module FlatEngine {
  import opened Types
  import opened PriceTime

  /** A resting entry of a book list. */
  datatype Entry = Entry(orderId: nat, price: int, remainingQty: nat, side: Side)

  /** An order record. */
  datatype Ticket = Ticket(
    orderId: nat, side: Side, orderType: OrderType, price: int, quantity: nat, remainingQty: nat,
    status: OrderStatus, tif: TimeInForce)

  datatype Deal = Deal(tradeId: nat, price: int, quantity: nat, buyOrderId: nat, sellOrderId: nat)

  datatype FlatState = FlatState(
    bids: seq<Entry>, asks: seq<Entry>, orders: seq<Ticket>, trades: seq<Deal>, nextOrderId: nat)

  // ----- Entries as orders of the common sweep ---------------------------------------------------

  function Shadow(e: Entry): Order {
    Order(e.orderId, 0, 0, e.side, Limit, Day, e.price, 0, e.remainingQty, 0, New, 0)
  }

  function Shadows(es: seq<Entry>): seq<Order> {
    if es == [] then [] else [Shadow(es[0])] + Shadows(es[1..])
  }

  function Unshadow(o: Order): Entry {
    Entry(o.orderId, o.price, o.remainingQty, o.side)
  }

  function Unshadows(book: seq<Order>): seq<Entry> {
    if book == [] then [] else [Unshadow(book[0])] + Unshadows(book[1..])
  }

  lemma {:induction false} UnshadowShadows(es: seq<Entry>)
    ensures Unshadows(Shadows(es)) == es && |Shadows(es)| == |es|
  {
    if es == [] {
    } else {
      UnshadowShadows(es[1..]);
      assert ([Shadow(es[0])] + Shadows(es[1..]))[1..] == Shadows(es[1..]);
    }
  }

  // ----- What one submission does ---------------------------------------------------------------

  function BoundFor(t: Ticket): Bound {
    if t.orderType == Market then Unbounded else if t.side == Buy then AtMost(t.price) else AtLeast(t.price)
  }

  function Facing(s: FlatState, side: Side): seq<Entry> {
    if side == Buy then s.asks else s.bids
  }

  function WithFacing(s: FlatState, side: Side, es: seq<Entry>): FlatState {
    if side == Buy then s.(asks := es) else s.(bids := es)
  }

  /** The record of the order with the given id, after a resting order was filled down to `rem`. */
  function Mark(orders: seq<Ticket>, id: nat, rem: nat): seq<Ticket> {
    if orders == [] then []
    else if orders[0].orderId == id then
      [orders[0].(status := if rem == 0 then Filled else PartiallyFilled, remainingQty := rem)] + orders[1..]
    else [orders[0]] + Mark(orders[1..], id, rem)
  }

  function MarkAll(orders: seq<Ticket>, hits: seq<Hit>): seq<Ticket>
    decreases hits
  {
    if hits == [] then orders
    else MarkAll(Mark(orders, hits[0].resting.orderId, Monus(hits[0].resting.remainingQty, hits[0].qty)), hits[1..])
  }

  function DealOf(t: Ticket, h: Hit, id: nat): Deal {
    Deal(id, h.resting.price, h.qty, if t.side == Buy then t.orderId else h.resting.orderId,
         if t.side == Buy then h.resting.orderId else t.orderId)
  }

  function Deals(t: Ticket, hits: seq<Hit>, id: nat): seq<Deal>
    decreases hits
  {
    if hits == [] then [] else [DealOf(t, hits[0], id)] + Deals(t, hits[1..], id + 1)
  }

  datatype FlatResult = FlatResult(state: FlatState, ticket: Ticket, deals: seq<Deal>)

  function StatusAfter(before: OrderStatus, hits: seq<Hit>, left: nat): OrderStatus {
    if hits == [] then before else if left > 0 then PartiallyFilled else Filled
  }

  /** `_match` without its fill-or-kill check. */
  function Swept(s: FlatState, t: Ticket): FlatResult {
    var m := Match(BoundFor(t), t.remainingQty, Shadows(Facing(s, t.side)));
    var deals := Deals(t, m.hits, |s.trades| + 1);
    FlatResult(
      WithFacing(s, t.side, Unshadows(m.book)).(orders := MarkAll(s.orders, m.hits), trades := s.trades + deals),
      t.(remainingQty := m.left, status := StatusAfter(t.status, m.hits, m.left)), deals)
  }

  /** `_match`. */
  function Matched(s: FlatState, t: Ticket): FlatResult {
    if t.tif == FOK && Reachable(BoundFor(t), Shadows(Facing(s, t.side))) < t.quantity
    then FlatResult(s, t.(status := Rejected), [])
    else Swept(s, t)
  }

  function EntryFor(t: Ticket): Entry {
    Entry(t.orderId, t.price, t.remainingQty, t.side)
  }

  /** Appending an entry and sorting the list stably by priority: the entry ends up behind every
      entry at its price or better. */
  function Queue(es: seq<Entry>, e: Entry): seq<Entry> {
    StableSort(e.side, es + [e])
  }

  /** Insert in front of the first entry that is worse (`after` false: not better). */
  function Place(side: Side, es: seq<Entry>, e: Entry): seq<Entry> {
    if es == [] || !Better(side, es[0].price, e.price) then [e] + es else [es[0]] + Place(side, es[1..], e)
  }

  /** A stable sort, best price first: each element is placed in front of its equals that came
      later. */
  function StableSort(side: Side, es: seq<Entry>): seq<Entry> {
    if es == [] then [] else Place(side, StableSort(side, es[1..]), es[0])
  }

  function Submitted(s: FlatState, side: Side, orderType: OrderType, price: int, quantity: nat,
          tif: TimeInForce): FlatResult {
    var t := Ticket(s.nextOrderId, side, orderType, price, quantity, quantity, New, tif);
    Concluded(Matched(s.(nextOrderId := s.nextOrderId + 1), t))
  }

  /** What becomes of the order after `_match`. */
  function Concluded(m: FlatResult): FlatResult {
    var t := m.ticket;
    if t.remainingQty > 0 && t.status != Cancelled && t.status != Rejected then
      if t.orderType == Market || t.tif == IOC then m.(ticket := t.(status := Cancelled))
      else if t.tif == FOK then m.(ticket := t.(status := Rejected))
      else m.(state := Rested(m.state, t))
    else if t.remainingQty == 0 then m.(ticket := t.(status := Filled))
    else m
  }

  function Rested(s: FlatState, t: Ticket): FlatState {
    var s1 := s.(orders := s.orders + [t]);
    if t.side == Buy then s1.(bids := Queue(s.bids, EntryFor(t))) else s1.(asks := Queue(s.asks, EntryFor(t)))
  }

  // ----- Cancellation -----------------------------------------------------------------------------

  predicate Live(t: Ticket) { t.status == New || t.status == PartiallyFilled }

  /** Position of the first live record with the id, or the number of records. */
  function FindLive(orders: seq<Ticket>, id: nat): (i: nat)
    ensures i <= |orders|
    ensures i < |orders| ==> orders[i].orderId == id && Live(orders[i])
    ensures forall k :: 0 <= k < i ==> !(orders[k].orderId == id && Live(orders[k]))
  {
    if orders == [] then 0
    else if orders[0].orderId == id && Live(orders[0]) then 0
    else 1 + FindLive(orders[1..], id)
  }

  function Drop(es: seq<Entry>, id: nat): seq<Entry> {
    if es == [] then [] else if es[0].orderId == id then es[1..] else [es[0]] + Drop(es[1..], id)
  }

  function Removed(s: FlatState, side: Side, id: nat): FlatState {
    if side == Buy then s.(bids := Drop(s.bids, id)) else s.(asks := Drop(s.asks, id))
  }

  function CancelledState(s: FlatState, id: nat): FlatState {
    var i := FindLive(s.orders, id);
    if i < |s.orders| then
      Removed(s.(orders := s.orders[i := s.orders[i].(status := Cancelled)]), s.orders[i].side, id)
    else s
  }

  // ----- The engine -------------------------------------------------------------------------------

  class MatchingEngine {
    var bids: seq<Entry>
    var asks: seq<Entry>
    var orders: seq<Ticket>
    var trades: seq<Deal>
    var nextOrderId: nat

    ghost function Abs(): FlatState
      reads this
    {
      FlatState(bids, asks, orders, trades, nextOrderId)
    }

    constructor ()
      ensures Abs() == FlatState([], [], [], [], 1000)
    {
      bids, asks, orders, trades, nextOrderId := [], [], [], [], 1000;
    }

    /** Fill-or-kill check: add up every acceptable entry of the whole list. */
    static method Available(opposite: seq<Entry>, incoming: Ticket) returns (available: nat)
      ensures available == Reachable(BoundFor(incoming), Shadows(opposite))
    {
      available := 0;
      for i := 0 to |opposite|
        invariant available + Reachable(BoundFor(incoming), Shadows(opposite[i..]))
               == Reachable(BoundFor(incoming), Shadows(opposite))
      {
        assert opposite[i..][1..] == opposite[i + 1..];
        ShadowFront(opposite[i..]);
        var level := opposite[i];
        if incoming.side == Buy {
          if incoming.orderType == Market || level.price <= incoming.price {
            available := available + level.remainingQty;
          }
        } else {
          if incoming.orderType == Market || level.price >= incoming.price {
            available := available + level.remainingQty;
          }
        }
      }
      assert opposite[|opposite|..] == [];
    }

    /** Update the record of a resting order that has just been hit. */
    method MarkOrder(id: nat, rem: nat)
      modifies this`orders
      ensures orders == Mark(old(orders), id, rem)
    {
      var i := 0;
      while i < |orders|
        invariant i <= |orders| && orders == old(orders)
        invariant forall k :: 0 <= k < i ==> orders[k].orderId != id
      {
        if orders[i].orderId == id {
          MarkAt(orders, id, rem, i);
          orders := orders[i := orders[i].(status := if rem == 0 then Filled else PartiallyFilled,
              remainingQty := rem)];
          return;
        }
        i := i + 1;
      }
      MarkAt(orders, id, rem, |orders|);
    }

    /** One turn of the loop of `_match`: fill against the first entry of the opposite list. */
    method Turn(incoming: Ticket) returns (t: Ticket, trade: Deal)
      requires Facing(Abs(), incoming.side) != [] && incoming.remainingQty > 0
      modifies this`bids, this`asks, this`orders, this`trades
      ensures Abs() == Turned(old(Abs()), incoming)
      ensures t == TurnedTicket(old(Abs()), incoming)
      ensures trade == DealOf(incoming, HitOf(old(Abs()), incoming), |old(trades)| + 1)
    {
      hide Mark;
      var opposite := if incoming.side == Buy then asks else bids;
      var resting := opposite[0];
      var fillQty: nat := Min(incoming.remainingQty, resting.remainingQty);
      t := incoming.(remainingQty := incoming.remainingQty - fillQty);
      resting := resting.(remainingQty := resting.remainingQty - fillQty);
      t := t.(status := if t.remainingQty > 0 then PartiallyFilled else Filled);
      opposite := if resting.remainingQty == 0 then opposite[1..] else [resting] + opposite[1..];
      if incoming.side == Buy { asks := opposite; } else { bids := opposite; }
      MarkOrder(resting.orderId, resting.remainingQty);
      trade := Deal(|trades| + 1, resting.price, fillQty,
                    if incoming.side == Buy then incoming.orderId else resting.orderId,
                    if incoming.side == Buy then resting.orderId else incoming.orderId);
      trades := trades + [trade];
    }

    /** `_match`: the loop looks at position 0 as long as the incoming order has quantity. */
    method Match(incoming: Ticket) returns (t: Ticket, matched: seq<Deal>)
      modifies this`bids, this`asks, this`orders, this`trades
      ensures FlatResult(Abs(), t, matched) == Matched(old(Abs()), incoming)
    {
      hide Swept, Turned, TurnedTicket;
      t, matched := incoming, [];
      if incoming.tif == FOK {
        var available := Available(if incoming.side == Buy then asks else bids, incoming);
        if available < incoming.quantity {
          t := t.(status := Rejected);
          return;
        }
      }
      ghost var target := Swept(Abs(), incoming);
      while t.remainingQty > 0 && (if incoming.side == Buy then asks else bids) != []
        invariant t.side == incoming.side && BoundFor(t) == BoundFor(incoming)
        invariant Resumes(target, matched, Swept(Abs(), t))
        decreases |Facing(Abs(), t.side)|, t.remainingQty
      {
        var resting := (if incoming.side == Buy then asks else bids)[0];
        var priceOk := incoming.orderType == Market
                       || (if incoming.side == Buy then resting.price <= incoming.price
                           else resting.price >= incoming.price);
        if !priceOk {
          break;
        }
        ghost var s, before, m := Abs(), t, matched;
        SweptStep(s, before);
        TurnShrinks(s, before);
        var trade;
        t, trade := Turn(t);
        matched := matched + [trade];
        ResumesTwice(target, m, trade, Swept(Abs(), t));
      }
      SweptOver(Abs(), t);
    }

    /** Append and sort: `list.sort` is stable. */
    method InsertResting(order: Ticket)
      modifies this`bids, this`asks
      ensures order.side == Buy ==> bids == Queue(old(bids), EntryFor(order)) && asks == old(asks)
      ensures order.side == Sell ==> asks == Queue(old(asks), EntryFor(order)) && bids == old(bids)
    {
      var entry := Entry(order.orderId, order.price, order.remainingQty, order.side);
      if order.side == Buy {
        bids := StableSort(Buy, bids + [entry]);
      } else {
        asks := StableSort(Sell, asks + [entry]);
      }
    }

    method SubmitOrder(side: Side, orderType: OrderType, price: int, quantity: nat, tif: TimeInForce)
      returns (order: Ticket, matched: seq<Deal>)
      modifies this
      ensures FlatResult(Abs(), order, matched) == Submitted(old(Abs()), side, orderType, price, quantity, tif)
    {
      hide Matched, Queue;
      var oid := nextOrderId;
      nextOrderId := nextOrderId + 1;
      order := Ticket(oid, side, orderType, price, quantity, quantity, New, tif);
      order, matched := Match(order);
      if order.remainingQty > 0 && order.status != Cancelled && order.status != Rejected {
        if order.orderType == Market || order.tif == IOC {
          order := order.(status := Cancelled);
        } else if order.tif == FOK {
          order := order.(status := Rejected);
        } else {
          orders := orders + [order];
          InsertResting(order);
        }
      } else if order.remainingQty == 0 {
        order := order.(status := Filled);
      }
    }

    /** Remove the entry of an order from the list of its side. */
    method RemoveFromBook(order: Ticket)
      modifies this`bids, this`asks
      ensures Abs() == Removed(old(Abs()), order.side, order.orderId)
    {
      var sideList := if order.side == Buy then bids else asks;
      var i := 0;
      while i < |sideList|
        invariant i <= |sideList|
        invariant forall k :: 0 <= k < i ==> sideList[k].orderId != order.orderId
      {
        if sideList[i].orderId == order.orderId {
          DropAt(sideList, order.orderId, i);
          if order.side == Buy {
            bids := sideList[..i] + sideList[i + 1..];
          } else {
            asks := sideList[..i] + sideList[i + 1..];
          }
          return;
        }
        i := i + 1;
      }
      DropAt(sideList, order.orderId, |sideList|);
    }

    method CancelOrder(orderId: nat) returns (found: bool)
      modifies this`bids, this`asks, this`orders
      ensures Abs() == CancelledState(old(Abs()), orderId)
      ensures found <==> FindLive(old(orders), orderId) < |old(orders)|
    {
      for i := 0 to |orders|
        invariant Abs() == old(Abs())
        invariant forall k :: 0 <= k < i ==> !(orders[k].orderId == orderId && Live(orders[k]))
      {
        var o := orders[i];
        if o.orderId == orderId && (o.status == New || o.status == PartiallyFilled) {
          orders := orders[i := o.(status := Cancelled)];
          RemoveFromBook(o);
          return true;
        }
      }
      found := false;
    }
  }

  // ----- The loop of `_match` one turn at a time ----------------------------------------------------

  ghost predicate Resumes(target: FlatResult, matched: seq<Deal>, r: FlatResult) {
    target == r.(deals := matched + r.deals)
  }

  lemma {:induction false} ResumesTwice(target: FlatResult, matched: seq<Deal>, d: Deal, r: FlatResult)
    requires Resumes(target, matched, r.(deals := [d] + r.deals))
    ensures Resumes(target, matched + [d], r)
  {
    assert matched + ([d] + r.deals) == matched + [d] + r.deals;
  }

  lemma {:induction false} ShadowFront(es: seq<Entry>)
    requires es != []
    ensures Shadows(es) != [] && Shadows(es)[0] == Shadow(es[0]) && Shadows(es)[1..] == Shadows(es[1..])
  {
  }

  lemma {:induction false} MarkAt(orders: seq<Ticket>, id: nat, rem: nat, i: nat)
    requires i <= |orders| && (forall k :: 0 <= k < i ==> orders[k].orderId != id)
    requires i < |orders| ==> orders[i].orderId == id
    ensures Mark(orders, id, rem)
         == if i == |orders| then orders
            else orders[i := orders[i].(status := if rem == 0 then Filled else PartiallyFilled, remainingQty := rem)]
  {
    if orders == [] || i == 0 {
    } else {
      MarkAt(orders[1..], id, rem, i - 1);
      if i < |orders| {
        var t := orders[i].(status := if rem == 0 then Filled else PartiallyFilled, remainingQty := rem);
        assert orders[1..][i - 1] == orders[i];
        assert [orders[0]] + orders[1..][i - 1 := t] == orders[i := t];
      } else {
        assert [orders[0]] + orders[1..] == orders;
      }
    }
  }

  function HitOf(s: FlatState, t: Ticket): Hit
    requires Facing(s, t.side) != []
  {
    var e := Facing(s, t.side)[0];
    Hit(Shadow(e), Min(t.remainingQty, e.remainingQty))
  }

  function KeepEntry(e: Entry): seq<Entry> {
    if e.remainingQty == 0 then [] else [e]
  }

  /** The state after one turn of the loop. */
  function Turned(s: FlatState, t: Ticket): FlatState
    requires Facing(s, t.side) != []
  {
    var es, h := Facing(s, t.side), HitOf(s, t);
    var e := es[0].(remainingQty := Monus(es[0].remainingQty, h.qty));
    WithFacing(s, t.side, KeepEntry(e) + es[1..])
      .(orders := Mark(s.orders, e.orderId, e.remainingQty), trades := s.trades + [DealOf(t, h, |s.trades| + 1)])
  }

  function TurnedTicket(s: FlatState, t: Ticket): Ticket
    requires Facing(s, t.side) != []
  {
    var left := Monus(t.remainingQty, HitOf(s, t).qty);
    t.(remainingQty := left, status := if left > 0 then PartiallyFilled else Filled)
  }

  lemma {:induction false} TurnedFacing(s: FlatState, t: Ticket)
    requires Facing(s, t.side) != []
    ensures var h := HitOf(s, t);
            Shadows(Facing(Turned(s, t), t.side)) == Keep(Residue(h.resting, h.qty)) + Shadows(Facing(s, t.side))[1..]
  {
    var es, h := Facing(s, t.side), HitOf(s, t);
    var e := es[0].(remainingQty := Monus(es[0].remainingQty, h.qty));
    ShadowFront(es);
    if e.remainingQty == 0 {
      assert KeepEntry(e) + es[1..] == es[1..];
      assert Keep(Residue(h.resting, h.qty)) + Shadows(es)[1..] == Shadows(es)[1..];
    } else {
      ShadowFront([e] + es[1..]);
      assert ([e] + es[1..])[1..] == es[1..];
    }
  }

  lemma {:induction false} SweptStep(s: FlatState, t: Ticket)
    requires t.remainingQty > 0 && Facing(s, t.side) != [] && Within(BoundFor(t), Facing(s, t.side)[0].price)
    ensures var r := Swept(Turned(s, t), TurnedTicket(s, t));
            Swept(s, t) == r.(deals := [DealOf(t, HitOf(s, t), |s.trades| + 1)] + r.deals)
  {
    hide Match;
    var h, bd, t1 := HitOf(s, t), BoundFor(t), TurnedTicket(s, t);
    var book := Shadows(Facing(s, t.side));
    ShadowFront(Facing(s, t.side));
    TurnedFacing(s, t);
    MatchStep(bd, t.remainingQty, book);
    var r := Match(bd, t1.remainingQty, Shadows(Facing(Turned(s, t), t.side)));
    var m := Match(bd, t.remainingQty, book);
    assert m == Sweep(r.left, r.book, [h] + r.hits);
    SweptHits(s, t, h, r);
  }

  lemma {:induction false} SweptHits(s: FlatState, t: Ticket, h: Hit, r: Sweep)
    requires Facing(s, t.side) != [] && h == HitOf(s, t)
    requires r.left + HitQty(r.hits) == TurnedTicket(s, t).remainingQty
    ensures var hits := [h] + r.hits;
            var d := DealOf(t, h, |s.trades| + 1);
            && Deals(t, hits, |s.trades| + 1) == [d] + Deals(TurnedTicket(s, t), r.hits, |s.trades + [d]| + 1)
            && MarkAll(s.orders, hits) == MarkAll(Turned(s, t).orders, r.hits)
            && StatusAfter(t.status, hits, r.left) == StatusAfter(TurnedTicket(s, t).status, r.hits, r.left)
            && s.trades + ([d] + Deals(TurnedTicket(s, t), r.hits, |s.trades| + 2))
               == s.trades + [d] + Deals(TurnedTicket(s, t), r.hits, |s.trades| + 2)
  {
    assert ([h] + r.hits)[1..] == r.hits;
    SameDeals(t, TurnedTicket(s, t), r.hits, |s.trades| + 2);
  }

  /** Deals depend on the id and side of the incoming order only. */
  lemma {:induction false} SameDeals(t: Ticket, t1: Ticket, hits: seq<Hit>, id: nat)
    requires t.orderId == t1.orderId && t.side == t1.side
    ensures Deals(t, hits, id) == Deals(t1, hits, id)
    decreases hits
  {
    if hits == [] {
    } else {
      SameDeals(t, t1, hits[1..], id + 1);
    }
  }

  lemma {:induction false} SweptOver(s: FlatState, t: Ticket)
    requires t.remainingQty == 0 || Facing(s, t.side) == [] || !Within(BoundFor(t), Facing(s, t.side)[0].price)
    ensures Swept(s, t) == FlatResult(s, t, [])
  {
    var es := Facing(s, t.side);
    UnshadowShadows(es);
    if es != [] { ShadowFront(es); }
    assert s.trades + [] == s.trades;
  }

  lemma {:induction false} TurnShrinks(s: FlatState, t: Ticket)
    requires Facing(s, t.side) != [] && t.remainingQty > 0
    ensures TurnedTicket(s, t).side == t.side && BoundFor(TurnedTicket(s, t)) == BoundFor(t)
    ensures |Facing(Turned(s, t), t.side)| < |Facing(s, t.side)|
         || (|Facing(Turned(s, t), t.side)| == |Facing(s, t.side)| && TurnedTicket(s, t).remainingQty < t.remainingQty)
  {
  }

  lemma {:induction false} DropAt(es: seq<Entry>, id: nat, i: nat)
    requires i <= |es| && (forall k :: 0 <= k < i ==> es[k].orderId != id)
    requires i < |es| ==> es[i].orderId == id
    ensures Drop(es, id) == if i == |es| then es else es[..i] + es[i + 1..]
  {
    if es == [] || i == 0 {
    } else {
      DropAt(es[1..], id, i - 1);
      if i < |es| { assert es[..i] + es[i + 1..] == [es[0]] + (es[1..][..i - 1] + es[1..][i..]); }
    }
  }

  // ----- The sort is a stable sort -------------------------------------------------------------------

  ghost predicate SortedList(side: Side, es: seq<Entry>) {
    es == [] || ((forall e :: e in es[1..] ==> !Better(side, e.price, es[0].price)) && SortedList(side, es[1..]))
  }

  /** The entries at one price, in list order. */
  function AtPrice(es: seq<Entry>, p: int): seq<Entry> {
    if es == [] then [] else (if es[0].price == p then [es[0]] else []) + AtPrice(es[1..], p)
  }

  lemma {:induction false} PlaceMembers(side: Side, es: seq<Entry>, e: Entry)
    ensures multiset(Place(side, es, e)) == multiset(es) + multiset{e}
    ensures forall x :: x in Place(side, es, e) <==> x == e || x in es
  {
    if es == [] || !Better(side, es[0].price, e.price) {
    } else {
      PlaceMembers(side, es[1..], e);
      assert es == [es[0]] + es[1..];
    }
  }

  lemma {:induction false} PlaceSorted(side: Side, es: seq<Entry>, e: Entry)
    requires SortedList(side, es)
    ensures SortedList(side, Place(side, es, e))
  {
    if es == [] || !Better(side, es[0].price, e.price) {
      assert ([e] + es)[1..] == es;
      assert forall x :: x in es ==> x == es[0] || x in es[1..];
    } else {
      PlaceSorted(side, es[1..], e);
      PlaceMembers(side, es[1..], e);
      assert ([es[0]] + Place(side, es[1..], e))[1..] == Place(side, es[1..], e);
    }
  }

  lemma {:induction false} PlaceAtPrice(side: Side, es: seq<Entry>, e: Entry, p: int)
    ensures AtPrice(Place(side, es, e), p) == (if e.price == p then [e] else []) + AtPrice(es, p)
  {
    hide AtPrice;
    if es == [] || !Better(side, es[0].price, e.price) {
      AtPriceCons(e, es, p);
    } else {
      PlaceAtPrice(side, es[1..], e, p);
      AtPriceCons(es[0], Place(side, es[1..], e), p);
      AtPriceCons(es[0], es[1..], p);
      assert es == [es[0]] + es[1..];
    }
  }

  lemma {:induction false} AtPriceCons(e: Entry, es: seq<Entry>, p: int)
    ensures AtPrice([e] + es, p) == if e.price == p then [e] + AtPrice(es, p) else AtPrice(es, p)
  {
    assert ([e] + es)[1..] == es;
  }

  /** The result is sorted, a permutation of the list, and keeps the order of equal prices. */
  lemma {:induction false} SortIsStable(side: Side, es: seq<Entry>, p: int)
    ensures SortedList(side, StableSort(side, es))
    ensures multiset(StableSort(side, es)) == multiset(es)
    ensures AtPrice(StableSort(side, es), p) == AtPrice(es, p)
  {
    hide SortedList;
    if es == [] {
      assert SortedList(side, es) by { EmptySorted(side); }
    } else {
      SortIsStable(side, es[1..], p);
      var r := StableSort(side, es[1..]);
      PlaceSorted(side, r, es[0]);
      PlaceMembers(side, r, es[0]);
      PlaceAtPrice(side, r, es[0], p);
      assert es == [es[0]] + es[1..];
    }
  }

  lemma {:induction false} EmptySorted(side: Side)
    ensures SortedList(side, [])
  {
  }
}
