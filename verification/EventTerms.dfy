/** What the events of the actor say, in their own fields: orders as asked for, answers, book updates. */
module EventTerms {
  import opened Types
  import opened PriceTime
  import opened Tape
  import opened Ladder
  import opened BookSpec
  import opened OrderLaws
  import opened Outcomes
  import opened MECore
  import Width

  // ----- New orders ------------------------------------------------------------------------------

  /** The id rests on neither side. */
  ghost predicate Away(s: BookState, id: nat) {
    id !in Ids(s.bids) && id !in Ids(s.asks)
  }

  lemma {:induction false} NoneTraded(trades: seq<Trade>, id: nat)
    requires forall t :: t in trades ==> t.buyOrderId != id && t.sellOrderId != id
    ensures TradedOf(trades, id) == 0
  {
    if trades == [] {
    } else {
      assert trades[0] in trades;
      NoneTraded(trades[1..], id);
    }
  }

  lemma {:induction false} AllTraded(trades: seq<Trade>, id: nat)
    requires forall t :: t in trades ==> t.buyOrderId == id || t.sellOrderId == id
    ensures TradedOf(trades, id) == Traded(trades)
  {
    if trades == [] {
    } else {
      assert trades[0] in trades;
      AllTraded(trades[1..], id);
    }
  }

  /** Every trade of a new order is between it and an order it faces. */
  lemma {:induction false} OwnTrades(s: BookState, request: Order, t: Trade)
    requires WellFormed(s) && t in Submit(s, request).trades
    ensures if request.side == Buy then t.buyOrderId == s.nextOrderId && t.sellOrderId in Ids(s.asks)
            else t.sellOrderId == s.nextOrderId && t.buyOrderId in Ids(s.bids)
  {
    hide WellFormed, Submit;
    NewOrderTold(s, request);
    var x := Submit(s, request);
    var k :| 0 <= k < |x.trades| && x.trades[k] == t;
    var book := if request.side == Buy then s.asks else s.bids;
    assert SweptAt(s, request.(orderId := s.nextOrderId), t, x.reports[k], k);
    assert book[k] in book;
  }

  lemma {:induction false} ChangedAway(s: BookState, x: Submission, rests: bool, id: nat)
    requires Changed(s, x, rests) && Away(s, id) && (rests ==> x.order.orderId != id)
    ensures Away(x.state, id)
  {
    var own, own' := Facing(s, Opposite(x.order.side)), Facing(x.state, Opposite(x.order.side));
    ResidueIds(Facing(x.state, x.order.side), Facing(s, x.order.side));
    forall y | y in own' ensures y.orderId != id {
      if y in own { assert y.orderId in Ids(own); }
    }
  }

  /** An id that rests nowhere rests nowhere after a new order under another id, and has traded nothing. */
  lemma {:induction false} StaysAway(s: BookState, request: Order, id: nat)
    requires WellFormed(s) && Away(s, id) && id != s.nextOrderId
    ensures var x := Submit(s, request); Away(x.state, id) && TradedOf(x.trades, id) == 0
  {
    hide WellFormed, Submit, Changed, Away;
    var x := Submit(s, request);
    NewOrderTold(s, request);
    NewOrderEnds(s, request);
    forall t | t in x.trades ensures t.buyOrderId != id && t.sellOrderId != id {
      OwnTrades(s, request, t);
      assert Away(s, id);
      NotAway(s, id);
    }
    NoneTraded(x.trades, id);
    if rests :| Changed(s, x, rests) {
      ChangedAway(s, x, rests, id);
    } else {
      SameSides(s, x.state, id);
    }
  }

  lemma {:induction false} NotAway(s: BookState, id: nat)
    requires Away(s, id)
    ensures id !in Ids(s.bids) && id !in Ids(s.asks)
  {
  }

  lemma {:induction false} SameSides(s: BookState, s1: BookState, id: nat)
    requires Away(s, id)
    ensures s1.bids == s.bids && s1.asks == s.asks ==> Away(s1, id)
  {
  }

  lemma {:induction false} NewIdAway(s: BookState)
    requires WellFormed(s)
    ensures Away(s, s.nextOrderId)
  {
  }

  /** A market, immediate-or-cancel or fill-or-kill order never comes to rest in continuous trading. */
  lemma {:induction false} NeverRests(s: BookState, request: Order)
    requires WellFormed(s) && s.phase == CTS && !IsStop(request)
    requires request.ordType == Market || request.tif == IOC || request.tif == FOK
    ensures Away(Submit(s, request).state, s.nextOrderId)
  {
    hide WellFormed, Submit, Changed, Away;
    NewIdAway(s);
    NewOrderEnds(s, request);
    var x := Submit(s, request);
    if Changed(s, x, false) {
      ChangedAway(s, x, false, s.nextOrderId);
    } else {
      SameSides(s, x.state, s.nextOrderId);
    }
  }

  lemma {:induction false} PassStaysAway(s: BookState, stops: seq<Order>, id: nat)
    requires WellFormed(s) && Away(s, id) && id < s.nextOrderId
    ensures var x := SubmitAll(s, stops); Away(x.state, id) && TradedOf(x.trades, id) == 0
    decreases stops
  {
    hide WellFormed, Submit, Away, Convert;
    if stops == [] {
    } else {
      var x := Submit(s, Convert(stops[0]));
      StaysAway(s, Convert(stops[0]), id);
      SubmitWellFormed(s, Convert(stops[0]));
      PassStaysAway(x.state, stops[1..], id);
      TradedOfConcat(x.trades, SubmitAll(x.state, stops[1..]).trades, id);
    }
  }

  lemma {:induction false} TriggerStaysAway(s: BookState, price: int, id: nat)
    requires WellFormed(s) && Away(s, id) && id < s.nextOrderId
    ensures var x := Trigger(s, price); Away(x.state, id) && TradedOf(x.trades, id) == 0
  {
    hide WellFormed, SubmitAll;
    UnparkedWellFormed(s, price);
    PassStaysAway(s.(stops := Select(s.stops, price, false)), Select(s.stops, price, true), id);
  }

  /** In continuous trading a new-order event that is a market order, or is to be filled at once, leaves no
      order behind under its id, whatever the trigger pass does; one that is to be filled at once or not
      at all has traded everything or nothing. */
  lemma {:induction false} EventNeverRests(s: BookState, e: NewOrderEvent)
    requires WellFormed(s) && s.phase == CTS && (e.ordType == Market || e.ordType == Limit)
    requires e.ordType == Market || e.tif == IOC || e.tif == FOK
    ensures var n := DeskStep(Desk(s, [], []), NewIn(e));
            && (forall y :: y in n.book.bids || y in n.book.asks ==> y.orderId != s.nextOrderId)
            && (e.tif == FOK ==> TradedOf(n.trades, s.nextOrderId) in {0, e.quantity})
  {
    hide WellFormed, Submit, Trigger, Away;
    var o := OrderOf(e);
    var x := Submit(s, o);
    NeverRests(s, o);
    SubmitWellFormed(s, o);
    TriggerStaysAway(x.state, x.state.lastTradePrice, s.nextOrderId);
    TradedOfConcat(x.trades, Trigger(x.state, x.state.lastTradePrice).trades, s.nextOrderId);
    if e.tif == FOK { AllOrNothing(s, o); }
    AwayOrders(Handle(s, o).state, s.nextOrderId);
    assert [] + Handle(s, o).trades == Handle(s, o).trades;
  }

  lemma {:induction false} AwayOrders(s: BookState, id: nat)
    ensures Away(s, id) ==> forall y :: y in s.bids || y in s.asks ==> y.orderId != id
  {
  }

  lemma {:induction false} AllOrNothing(s: BookState, request: Order)
    requires WellFormed(s) && s.phase == CTS && !IsStop(request) && request.tif == FOK
    ensures TradedOf(Submit(s, request).trades, s.nextOrderId) in {0, request.quantity}
  {
    hide WellFormed, Submit;
    FillOrKill(s, request);
    var trades := Submit(s, request).trades;
    forall t | t in trades ensures t.buyOrderId == s.nextOrderId || t.sellOrderId == s.nextOrderId {
      OwnTrades(s, request, t);
    }
    AllTraded(trades, s.nextOrderId);
  }

  /** The price has not reached the stop. */
  predicate Unreached(stop: Order, price: int) {
    if stop.side == Buy then price < stop.stopPrice else price > stop.stopPrice
  }

  /** In continuous trading a limit event that faces nothing it accepts rests with the terms of the event,
      while the price has reached no parked stop. */
  lemma {:induction false} EventRests(s: BookState, e: NewOrderEvent)
    requires WellFormed(s) && s.phase == CTS && e.ordType == Limit && (e.tif == Day || e.tif == GTC)
    requires e.quantity > 0
    requires e.side == Buy ==> forall y :: y in s.asks ==> y.price > e.price
    requires e.side == Sell ==> forall y :: y in s.bids ==> y.price < e.price
    requires s.lastTradePrice == 0 || forall stop :: stop in s.stops ==> Unreached(stop, s.lastTradePrice)
    ensures var n := DeskStep(Desk(s, [], []), NewIn(e)).book;
            Order(s.nextOrderId, e.clOrdId, e.symbolIdx, e.side, Limit, e.tif, e.price, e.quantity, e.quantity,
                  e.sessionId, New, e.stopPrice) in (if e.side == Buy then n.bids else n.asks)
  {
    hide WellFormed, Submit, Trigger;
    var o := OrderOf(e);
    LimitRests(s, o);
    var a := Admit(s, o);
    InsertMembers(a.side, if a.side == Buy then s.bids else s.asks, a);
    QuietPass(Submit(s, o).state);
  }

  lemma {:induction false} QuietPass(s: BookState)
    requires s.lastTradePrice == 0 || forall stop :: stop in s.stops ==> Unreached(stop, s.lastTradePrice)
    ensures s.lastTradePrice != 0 ==> Trigger(s, s.lastTradePrice) == Batch(s, [], [], [])
  {
    if s.lastTradePrice != 0 { NoneReached(s.stops, s.lastTradePrice); }
  }

  lemma {:induction false} NoneReached(stops: seq<Order>, price: int)
    requires forall stop :: stop in stops ==> Unreached(stop, price)
    ensures Select(stops, price, true) == [] && Select(stops, price, false) == stops
  {
    if stops == [] {
    } else {
      assert stops[0] in stops;
      NoneReached(stops[1..], price);
    }
  }

  /** A stop event is parked with the terms of the event if the last price has not reached it, or there is
      none. */
  lemma {:induction false} EventParks(s: BookState, e: NewOrderEvent)
    requires WellFormed(s) && (e.ordType == StopMarket || e.ordType == StopLimit)
    requires s.lastTradePrice == 0
             || (if e.side == Buy then s.lastTradePrice < e.stopPrice else s.lastTradePrice > e.stopPrice)
    ensures Order(s.nextOrderId, e.clOrdId, e.symbolIdx, e.side, e.ordType, e.tif, e.price, e.quantity, e.quantity,
                  e.sessionId, New, e.stopPrice) in DeskStep(Desk(s, [], []), NewIn(e)).book.stops
  {
    hide WellFormed, Submit, Trigger, Resubmits;
    var x := Submit(s, OrderOf(e)).state;
    SubmitCases(s, OrderOf(e));
    var o := Admit(s, OrderOf(e));
    assert x.stops == s.stops + [o];
    TriggerPass(x, x.lastTradePrice);
  }

  // ----- Answers ---------------------------------------------------------------------------------

  /** The reports of an operation go out one by one, all to the session of the event. */
  lemma {:induction false} AddressedAt(reports: seq<ExecutionReport>, session: nat)
    ensures |Addressed(reports, session)| == |reports|
    ensures forall k :: 0 <= k < |reports| ==> Addressed(reports, session)[k] == ExecReportEvent(reports[k], session)
  {
    if reports == [] {
    } else {
      AddressedAt(reports[1..], session);
    }
  }

  /** A request to cancel or modify an order that is not there is rejected under the ids it names, and
      changes nothing. */
  lemma {:induction false} UnknownRejected(d: Desk, id: nat, orig: nat, price: int, quantity: nat)
    requires WellFormed(d.book)
    requires forall o :: o in d.book.bids || o in d.book.asks || o in d.book.stops ==> o.orderId != id
    ensures var n := d.(told := d.told + [ExecutionReport(id, orig, Rejected, 0, 0, 0, 0, 0)]);
            DeskStep(d, CancelIn(id, orig)) == n && DeskStep(d, ModifyIn(id, orig, price, quantity)) == n
  {
    hide WellFormed, Cancel, Modify;
    CancelIsExact(d.book, id);
    CancelNothing(d.book, id);
    ModifyLikeCancel(d.book, id, price, quantity);
  }

  /** A request to cancel an order that is there takes it out and answers with its report. */
  lemma {:induction false} KnownCancelled(d: Desk, o: Order, orig: nat)
    requires WellFormed(d.book) && (o in d.book.bids || o in d.book.asks || o in d.book.stops)
    ensures var n := DeskStep(d, CancelIn(o.orderId, orig));
            && n.trades == d.trades
            && n.told == d.told
               + [ExecutionReport(o.orderId, o.clOrdId, Cancelled, o.quantity - o.remainingQty, 0, 0, 0, 0)]
            && forall y :: y in n.book.bids || y in n.book.asks || y in n.book.stops ==> y.orderId != o.orderId
  {
    hide WellFormed, Cancel;
    CancelTold(d.book, o);
    CancelIsExact(d.book, o.orderId);
  }

  /** A request to modify one takes it out and answers with the new order put in its place, of which only the
      client's id is kept. */
  lemma {:induction false} KnownModified(d: Desk, o: Order, orig: nat, price: int, quantity: nat)
    requires WellFormed(d.book) && (o in d.book.bids || o in d.book.asks || o in d.book.stops)
    ensures var n := DeskStep(d, ModifyIn(o.orderId, orig, price, quantity));
            && n.trades == d.trades
            && n.told == d.told + [ExecutionReport(d.book.nextOrderId, o.clOrdId, New, 0, quantity, 0, 0, 0)]
            && exists y :: (y in n.book.bids || y in n.book.asks)
                 && y.orderId == d.book.nextOrderId && y.clOrdId == o.clOrdId
                 && y.price == price && y.quantity == quantity && y.remainingQty == quantity
  {
    hide WellFormed, Modify;
    ModifyTold(d.book, o, price, quantity);
  }

  // ----- Book updates ------------------------------------------------------------------------------

  /** The quantity, and the number of orders, at one price. */
  function QtyAt(book: seq<Order>, p: int): nat {
    if book == [] then 0 else (if book[0].price == p then book[0].remainingQty else 0) + QtyAt(book[1..], p)
  }

  function CountAt(book: seq<Order>, p: int): nat {
    if book == [] then 0 else (if book[0].price == p then 1 else 0) + CountAt(book[1..], p)
  }

  lemma {:induction false} AtConcat(a: seq<Order>, b: seq<Order>, p: int)
    ensures QtyAt(a + b, p) == QtyAt(a, p) + QtyAt(b, p) && CountAt(a + b, p) == CountAt(a, p) + CountAt(b, p)
  {
    if a == [] {
      assert a + b == b;
    } else {
      assert (a + b)[1..] == a[1..] + b;
      AtConcat(a[1..], b, p);
    }
  }

  lemma {:induction false} AllAt(book: seq<Order>, p: int)
    requires forall o :: o in book ==> o.price == p
    ensures QtyAt(book, p) == Qty(book) && CountAt(book, p) == |book|
  {
    if book == [] {
    } else {
      AllAt(book[1..], p);
    }
  }

  lemma {:induction false} NoneAt(book: seq<Order>, p: int)
    requires forall o :: o in book ==> o.price != p
    ensures QtyAt(book, p) == 0 && CountAt(book, p) == 0
  {
    if book == [] {
    } else {
      NoneAt(book[1..], p);
    }
  }

  /** The summary is that of a price of the side: the quantity (a 64-bit sum) and the orders there. */
  ghost predicate Summary(l: LevelInfo, book: seq<Order>) {
    HasPrice(book, l.price) && l.totalQty == QtyAt(book, l.price) % TWO64 && l.orderCount == CountAt(book, l.price)
  }

  /** The price is among the summaries, or they are as many as asked for and all of them better. */
  ghost predicate Covered(side: Side, d: seq<LevelInfo>, depth: nat, price: int) {
    || (exists i :: 0 <= i < |d| && d[i].price == price)
    || (|d| == depth && forall i :: 0 <= i < |d| ==> Better(side, d[i].price, price))
  }

  /** Summaries of prices of the side, best first, none left out. */
  ghost predicate Summarises(side: Side, d: seq<LevelInfo>, book: seq<Order>, depth: nat) {
    && |d| <= depth
    && (forall i :: 0 <= i < |d| ==> Summary(d[i], book))
    && (forall i, j :: 0 <= i < j < |d| ==> Better(side, d[i].price, d[j].price))
    && (forall o :: o in book ==> Covered(side, d, depth, o.price))
  }

  lemma {:induction false} DepthSummarises(side: Side, book: seq<Order>, depth: nat)
    requires InPriority(side, book)
    ensures Summarises(side, Depth(book, depth), book, depth)
    decreases depth
  {
    hide InPriority, RunLength;
    if depth == 0 || book == [] {
    } else {
      var n := RunLength(book, book[0].price);
      FrontLevel(side, book);
      DepthSummarises(side, book[n..], depth - 1);
      OneMoreLevel(side, book, n, Depth(book[n..], depth - 1), depth);
    }
  }

  /** The run at the best price, and what is behind it. */
  lemma {:induction false} FrontLevel(side: Side, book: seq<Order>)
    requires InPriority(side, book) && book != []
    ensures var n := RunLength(book, book[0].price);
            && 0 < n <= |book| && InPriority(side, book[n..])
            && (forall o :: o in book[..n] ==> o.price == book[0].price)
            && (forall o :: o in book[n..] ==> Better(side, book[0].price, o.price))
  {
    var n := RunLength(book, book[0].price);
    RunSplit(book, book[0].price);
    Width.PriorityFrom(side, book, n);
    forall o | o in book[n..] ensures Better(side, book[0].price, o.price) {
      var i :| n <= i < |book| && book[i] == o;
      PriorityAt(side, book, 0, n);
      if i > n { PriorityAt(side, book, n, i); }
    }
  }

  lemma {:induction false} RunSplit(book: seq<Order>, p: int)
    ensures var n := RunLength(book, p);
            && (forall o :: o in book[..n] ==> o.price == p) && (n < |book| ==> book[n].price != p)
            && (book != [] && book[0].price == p ==> n > 0)
  {
    if book == [] || book[0].price != p {
    } else {
      RunSplit(book[1..], p);
      var n := RunLength(book, p);
      assert book[..n] == [book[0]] + book[1..][..n - 1];
    }
  }

  lemma {:induction false} OneMoreLevel(side: Side, book: seq<Order>, n: nat, rest: seq<LevelInfo>, depth: nat)
    requires 0 < n <= |book| && depth > 0
    requires forall o :: o in book[..n] ==> o.price == book[0].price
    requires forall o :: o in book[n..] ==> Better(side, book[0].price, o.price)
    requires Summarises(side, rest, book[n..], depth - 1)
    ensures Summarises(side, [LevelInfo(book[0].price, Qty(book[..n]) % TWO64, n)] + rest, book, depth)
  {
    hide Summary, Covered, QtyAt, CountAt, HasPrice;
    var l := LevelInfo(book[0].price, Qty(book[..n]) % TWO64, n);
    var d := [l] + rest;
    assert Summary(l, book) by { FrontSummary(book, n); }
    forall i | 0 <= i < |rest| ensures Summary(rest[i], book) && Better(side, l.price, rest[i].price) {
      BehindSummary(side, book, n, rest[i]);
    }
    forall i | 0 <= i < |d| ensures Summary(d[i], book) { if i > 0 { assert d[i] == rest[i - 1]; } }
    forall i, j | 0 <= i < j < |d| ensures Better(side, d[i].price, d[j].price) {
      assert d[j] == rest[j - 1] && (i > 0 ==> d[i] == rest[i - 1]);
    }
    forall o | o in book ensures Covered(side, d, depth, o.price) {
      assert book == book[..n] + book[n..];
      if o in book[n..] {
        CoveredBehind(side, l, rest, depth, o.price);
      } else {
        assert o in book[..n];
        CoveredFront(side, l, rest, depth);
      }
    }
  }

  lemma {:induction false} CoveredFront(side: Side, l: LevelInfo, rest: seq<LevelInfo>, depth: nat)
    ensures Covered(side, [l] + rest, depth, l.price)
  {
    assert ([l] + rest)[0] == l;
  }

  lemma {:induction false} CoveredBehind(side: Side, l: LevelInfo, rest: seq<LevelInfo>, depth: nat, price: int)
    requires depth > 0 && Covered(side, rest, depth - 1, price) && Better(side, l.price, price)
    ensures Covered(side, [l] + rest, depth, price)
  {
    var d := [l] + rest;
    if i :| 0 <= i < |rest| && rest[i].price == price {
      assert d[i + 1].price == price;
    } else {
      forall i | 0 <= i < |d| ensures Better(side, d[i].price, price) { if i > 0 { assert d[i] == rest[i - 1]; } }
    }
  }

  lemma {:induction false} FrontSummary(book: seq<Order>, n: nat)
    requires 0 < n <= |book|
    requires forall o :: o in book[..n] ==> o.price == book[0].price
    requires forall o :: o in book[n..] ==> o.price != book[0].price
    ensures Summary(LevelInfo(book[0].price, Qty(book[..n]) % TWO64, n), book)
  {
    hide QtyAt, CountAt, Qty;
    assert book == book[..n] + book[n..] && book[0] in book;
    AllAt(book[..n], book[0].price);
    NoneAt(book[n..], book[0].price);
    AtConcat(book[..n], book[n..], book[0].price);
  }

  lemma {:induction false} BehindSummary(side: Side, book: seq<Order>, n: nat, l: LevelInfo)
    requires 0 < n <= |book| && Summary(l, book[n..])
    requires forall o :: o in book[..n] ==> o.price == book[0].price
    requires forall o :: o in book[n..] ==> Better(side, book[0].price, o.price)
    ensures Summary(l, book) && Better(side, book[0].price, l.price)
  {
    hide QtyAt, CountAt;
    var o :| o in book[n..] && o.price == l.price;
    assert book == book[..n] + book[n..] && o in book;
    NoneAt(book[..n], l.price);
    AtConcat(book[..n], book[n..], l.price);
  }

  /** One side of a book update: its places up to the depth are the best prices of the side, best first,
      none left out, each with the quantity there; those behind are zero. */
  ghost predicate Shows(side: Side, places: seq<Quote>, depth: nat, book: seq<Order>) {
    && |places| == 10 && depth <= 10
    && (forall i :: 0 <= i < depth ==>
          HasPrice(book, places[i].price) && places[i].qty == QtyAt(book, places[i].price) % TWO64)
    && (forall i :: depth <= i < 10 ==> places[i] == Quote(0, 0))
    && (forall i, j :: 0 <= i < j < depth ==> Better(side, places[i].price, places[j].price))
    && (forall o :: o in book ==> InPlace(side, places, depth, o.price))
  }

  ghost predicate InPlace(side: Side, places: seq<Quote>, depth: nat, price: int)
    requires depth <= |places|
  {
    || (exists i :: 0 <= i < depth && places[i].price == price)
    || (depth == 10 && forall i :: 0 <= i < depth ==> Better(side, places[i].price, price))
  }

  /** The update published after an event shows the best bids, best first, and the best asks. */
  lemma {:induction false} UpdateShows(s: BookState)
    requires WellFormed(s)
    ensures var u := Update(s);
            && u.BookUpdateEvent? && u.symbolIdx == s.symbolIdx
            && Shows(Buy, u.bids, u.bidDepth, s.bids) && Shows(Sell, u.asks, u.askDepth, s.asks)
  {
    hide InPriority, DistinctIds, Depth, Summarises, Shows;
    DepthSummarises(Buy, s.bids, PLACES);
    DepthSummarises(Sell, s.asks, PLACES);
    PlacedShows(Buy, Depth(s.bids, PLACES), s.bids);
    PlacedShows(Sell, Depth(s.asks, PLACES), s.asks);
  }

  lemma {:induction false} PlacedShows(side: Side, d: seq<LevelInfo>, book: seq<Order>)
    requires Summarises(side, d, book, PLACES)
    ensures Shows(side, Placed(d), |d|, book)
  {
    hide QtyAt, CountAt, HasPrice;
    forall o | o in book ensures InPlace(side, Placed(d), |d|, o.price) {
      assert Covered(side, d, PLACES, o.price);
      if i :| 0 <= i < |d| && d[i].price == o.price { assert Placed(d)[i].price == o.price; }
    }
    forall i | 0 <= i < |d| ensures HasPrice(book, d[i].price) && d[i].totalQty == QtyAt(book, d[i].price) % TWO64 {
      assert Summary(d[i], book);
    }
  }
}
