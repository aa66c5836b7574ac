/** The id index and the levels of a valid book agree exactly (src/common/Book.hpp, Book.cpp). */
module IndexAgreement {
  import opened Types
  import opened PriceTime
  import opened Ladder
  import opened Layout
  import opened OrderBook

  /** The queue under a key; empty when there is no such level. */
  function QueueAt(levels: seq<Level>, price: int): seq<Order> {
    var i := Find(levels, price);
    if i < |levels| then levels[i].orders else []
  }

  function Occurrences(orders: seq<Order>, id: nat): nat {
    if orders == [] then 0 else (if orders[0].orderId == id then 1 else 0) + Occurrences(orders[1..], id)
  }

  lemma {:induction false} OccursIffPresent(orders: seq<Order>, id: nat)
    ensures Occurrences(orders, id) > 0 <==> id in Ids(orders)
  {
    if orders == [] {
    } else {
      OccursIffPresent(orders[1..], id);
      assert forall o :: o in orders <==> o == orders[0] || o in orders[1..];
    }
  }

  lemma {:induction false} OccursOnce(orders: seq<Order>, id: nat)
    requires DistinctIds(orders)
    ensures Occurrences(orders, id) <= 1
  {
    if orders == [] {
    } else {
      OccursOnce(orders[1..], id);
      OccursIffPresent(orders[1..], id);
    }
  }

  lemma {:induction false} DistinctParts(a: seq<Order>, b: seq<Order>)
    requires DistinctIds(a + b)
    ensures DistinctIds(a) && DistinctIds(b)
  {
    if a == [] {
      assert a + b == b;
    } else {
      assert (a + b)[0] == a[0] && (a + b)[1..] == a[1..] + b;
      DistinctParts(a[1..], b);
      assert forall o :: o in a[1..] ==> o in a[1..] + b;
    }
  }

  lemma {:induction false} PriorityParts(side: Side, a: seq<Order>, b: seq<Order>)
    requires InPriority(side, a + b)
    ensures InPriority(side, a) && InPriority(side, b)
  {
    if a == [] {
      assert a + b == b;
    } else {
      assert (a + b)[0] == a[0] && (a + b)[1..] == a[1..] + b;
      PriorityParts(side, a[1..], b);
    }
  }

  lemma {:induction false} QueueParts(side: Side, levels: seq<Level>, i: nat)
    requires InPriority(side, Flatten(levels)) && DistinctIds(Flatten(levels)) && i < |levels|
    ensures InPriority(side, levels[i].orders) && DistinctIds(levels[i].orders)
  {
    hide InPriority, DistinctIds;
    PriorityParts(side, levels[0].orders, Flatten(levels[1..]));
    DistinctParts(levels[0].orders, Flatten(levels[1..]));
    if i == 0 {
    } else {
      QueueParts(side, levels[1..], i - 1);
    }
  }

  /** A resting id occurs in the queue under its price, and in no other queue. */
  lemma {:induction false} QueueHolds(side: Side, levels: seq<Level>, o: Order, price: int)
    requires Sorted(side, levels) && Keyed(levels) && DistinctIds(Flatten(levels)) && o in Flatten(levels)
    ensures o.orderId in Ids(QueueAt(levels, price)) <==> price == o.price
  {
    LevelOf(side, levels, o);
    var i := Find(levels, price);
    if i < |levels| && o.orderId in Ids(levels[i].orders) {
      var x :| x in levels[i].orders && x.orderId == o.orderId;
      assert levels[i] in levels;
      FlattenMembers(levels);
      SameOrder(Flatten(levels), x, o);
    }
  }

  lemma {:induction false} SameOrder(book: seq<Order>, x: Order, y: Order)
    requires DistinctIds(book) && x in book && y in book && x.orderId == y.orderId
    ensures x == y
  {
    var i :| 0 <= i < |book| && book[i] == x;
    var j :| 0 <= j < |book| && book[j] == y;
    if i < j { DistinctAt(book, i, j); } else if j < i { DistinctAt(book, j, i); }
  }

  lemma {:induction false} QueueWithin(levels: seq<Level>, price: int)
    ensures Ids(QueueAt(levels, price)) <= Ids(Flatten(levels))
  {
    FlattenMembers(levels);
    var i := Find(levels, price);
    if i < |levels| { assert levels[i] in levels; }
  }

  /** One side: an id is in a queue exactly when the side rests it at that price, and then once. */
  lemma {:induction false} SideIsExact(side: Side, levels: seq<Level>, id: nat, price: int)
    requires Sorted(side, levels) && Keyed(levels)
    requires InPriority(side, Flatten(levels)) && DistinctIds(Flatten(levels))
    ensures Occurrences(QueueAt(levels, price), id) <= 1
    ensures Occurrences(QueueAt(levels, price), id) == 1
        <==> exists o :: o in Flatten(levels) && o.orderId == id && o.price == price
  {
    var i := Find(levels, price);
    if i < |levels| {
      QueueParts(side, levels, i);
      OccursOnce(levels[i].orders, id);
    }
    OccursIffPresent(QueueAt(levels, price), id);
    QueueWithin(levels, price);
    if id in Ids(Flatten(levels)) {
      var o :| o in Flatten(levels) && o.orderId == id;
      QueueHolds(side, levels, o, price);
      forall x | x in Flatten(levels) && x.orderId == id ensures x == o { SameOrder(Flatten(levels), x, o); }
    }
  }

  /** In a valid book the index leads an id to a side and a price exactly when one order with that
      id is queued there, and then only one; and no id is both queued and parked as a stop. */
  lemma {:induction false} IndexIsExact(book: Book, id: nat, side: Side, price: int)
    requires book.Valid()
    ensures var queue := QueueAt(if side == Buy then book.bids else book.asks, price);
            && Occurrences(queue, id) <= 1
            && (id in book.orderIndex && book.orderIndex[id] == (side, price) <==> Occurrences(queue, id) == 1)
    ensures id in book.orderIndex ==> id !in Ids(book.stopOrders)
  {
    hide QueueAt, Occurrences, Sorted, Keyed, Flatten;
    var s := book.Abs();
    SideIsExact(Buy, book.bids, id, price);
    SideIsExact(Sell, book.asks, id, price);
    if id in book.orderIndex {
      assert id in Ids(s.bids) || id in Ids(s.asks);
    }
    forall o, o' | o in s.bids && o' in s.asks ensures o.orderId != o'.orderId {
      assert o.orderId in Ids(s.bids) && o'.orderId in Ids(s.asks);
    }
  }

  /** In a valid book no level is empty, every order is queued under its own price, and each queue
      is in the order of arrival. */
  lemma {:induction false} QueuesInArrival(book: Book, side: Side, i: nat)
    requires book.Valid() && i < |if side == Buy then book.bids else book.asks|
    ensures var level := (if side == Buy then book.bids else book.asks)[i];
            && level.orders != []
            && (forall o :: o in level.orders ==> o.price == level.price)
            && forall j, k :: 0 <= j < k < |level.orders| ==> level.orders[j].orderId < level.orders[k].orderId
  {
    var levels := if side == Buy then book.bids else book.asks;
    var level := levels[i];
    assert level in levels;
    QueueParts(side, levels, i);
    forall j, k | 0 <= j < k < |level.orders| ensures level.orders[j].orderId < level.orders[k].orderId {
      PriorityAt(side, level.orders, j, k);
      assert level.orders[j] in level.orders && level.orders[k] in level.orders;
    }
  }
}
