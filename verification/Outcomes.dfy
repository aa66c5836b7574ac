/** What an order sets off, field by field: the parties of its trades, what is reported, how it ends. */
module Outcomes {
  import opened Types
  import opened PriceTime
  import opened Tape
  import opened BookSpec
  import OrderLaws

  // ----- Trades and reports ----------------------------------------------------------------------

  /** The trade is between this buyer and this seller. */
  ghost predicate Between(t: Trade, buyer: Order, seller: Order) {
    && t.buyOrderId == buyer.orderId && t.buyClOrdId == buyer.clOrdId && t.buySessionId == buyer.sessionId
    && t.sellOrderId == seller.orderId && t.sellClOrdId == seller.clOrdId && t.sellSessionId == seller.sessionId
  }

  /** The report tells the order of the trade, and that `left` of its quantity is left after it. */
  ghost predicate Tells(r: ExecutionReport, o: Order, t: Trade, left: nat) {
    && r.orderId == o.orderId && r.clOrdId == o.clOrdId
    && r.status == (if left == 0 then Filled else PartiallyFilled)
    && r.filledQty == o.quantity - left && r.remainingQty == left
    && r.lastPrice == t.price && r.lastQty == t.quantity && r.tradeId == t.tradeId
  }

  lemma {:induction false} TradeAt(sym: nat, fills: seq<Fill>, id: nat, k: nat)
    requires k < |fills|
    ensures |TradesOf(sym, fills, id)| == |fills|
    ensures var t, f := TradesOf(sym, fills, id)[k], fills[k];
            && t.tradeId == id + k && t.symbolIdx == sym && t.price == f.price && t.quantity == f.qty
            && Between(t, f.buy, f.sell)
  {
    TradesLength(sym, fills[1..], id + 1);
    if k > 0 { TradeAt(sym, fills[1..], id + 1, k - 1); }
  }

  // ----- One sweep -----------------------------------------------------------------------------------

  lemma {:induction false} FillAt(active: Order, hits: seq<Hit>, k: nat)
    requires k < |hits|
    ensures |FillsOf(Continuous, active, hits)| == |hits|
    ensures var f, h := FillsOf(Continuous, active, hits)[k], hits[k];
            && f.price == h.resting.price && f.qty == h.qty
            && (if active.side == Buy then f.sell else f.buy) == h.resting
            && var mine := if active.side == Buy then f.buy else f.sell;
            && mine.orderId == active.orderId && mine.clOrdId == active.clOrdId && mine.sessionId == active.sessionId
    decreases hits
  {
    FillsLength(Continuous, active, hits);
    if k > 0 { FillAt(Residue(active, hits[0].qty), hits[1..], k - 1); }
  }

  lemma {:induction false} ReportAt(side: Side, fills: seq<Fill>, id: nat, k: nat)
    requires k < |fills|
    ensures |ReportsOf(Continuous, side, fills, id)| == |fills|
    ensures var f := fills[k];
            var resting := if side == Buy then f.sell else f.buy;
            ReportsOf(Continuous, side, fills, id)[k] == FillReport(resting, f.price, f.qty, id + k)
  {
    ReportsLength(side, fills[1..], id + 1);
    if k > 0 { ReportAt(side, fills[1..], id + 1, k - 1); }
  }

  lemma {:induction false} ReportsLength(side: Side, fills: seq<Fill>, id: nat)
    ensures |ReportsOf(Continuous, side, fills, id)| == |fills|
  {
    if fills == [] {
    } else {
      ReportsLength(side, fills[1..], id + 1);
    }
  }

  /** A market order accepts every price, a limit order those no worse than its own. */
  predicate Accepts(o: Order, price: int) {
    o.ordType == Market || (if o.side == Buy then price <= o.price else price >= o.price)
  }

  /** The k-th trade of a sweep is with the k-th order of the facing side, at that order's price and for
      that order's share of the quantity; that order is told. */
  ghost predicate SweptAt(s: BookState, o: Order, t: Trade, r: ExecutionReport, k: nat) {
    var book := if o.side == Buy then s.asks else s.bids;
    && k < |book| && Accepts(o, book[k].price)
    && t.tradeId == s.nextTradeId + k && t.symbolIdx == s.symbolIdx && t.price == book[k].price
    && t.quantity == Min(book[k].remainingQty, Monus(o.quantity, Qty(book[..k])))
    && (if o.side == Buy then Between(t, o, book[k]) else Between(t, book[k], o))
    && Tells(r, book[k], t, book[k].remainingQty - t.quantity)
  }

  lemma {:induction false} SweepTold(s: BookState, o: Order, k: nat)
    requires WellFormed(s) && o.remainingQty == o.quantity
    ensures var x := Sweeping(s, o);
            && |x.reports| == |x.trades|
            && (k < |x.trades| ==> SweptAt(s, o, x.trades[k], x.reports[k], k))
  {
    hide Match, WellFormed, SweptAt, FillsOf, TradesOf, ReportsOf;
    var bd := BoundOf(o);
    var hits := Match(bd, o.quantity, Facing(s, o.side)).hits;
    var fills := FillsOf(Continuous, o, hits);
    FillsLength(Continuous, o, hits);
    TradesLength(s.symbolIdx, fills, s.nextTradeId);
    ReportsLength(o.side, fills, s.nextTradeId);
    if k < |fills| {
      FillAt(o, hits, k);
      TradeAt(s.symbolIdx, fills, s.nextTradeId, k);
      ReportAt(o.side, fills, s.nextTradeId, k);
      HitShare(s, o, k);
      HitTold(s, o, fills[k], TradesOf(s.symbolIdx, fills, s.nextTradeId)[k],
              ReportsOf(Continuous, o.side, fills, s.nextTradeId)[k], k);
    }
  }

  /** The k-th hit: an acceptable order, and its share of the quantity. */
  lemma {:induction false} HitShare(s: BookState, o: Order, k: nat)
    requires WellFormed(s) && k < |Match(BoundOf(o), o.quantity, Facing(s, o.side)).hits|
    ensures var book, h := Facing(s, o.side), Match(BoundOf(o), o.quantity, Facing(s, o.side)).hits[k];
            && k < |book| && h.resting == book[k] && Accepts(o, book[k].price)
            && h.qty == Min(book[k].remainingQty, Monus(o.quantity, Qty(book[..k])))
  {
    hide Match, WellFormed, Allocation;
    var book, bd := Facing(s, o.side), BoundOf(o);
    MatchHit(bd, o.quantity, book, k);
    FacingOrdered(s, o.side);
    MatchAllocates(Opposite(o.side), bd, o.quantity, book, k);
    AheadAccepted(bd, o.quantity, book, k);
  }

  lemma {:induction false} HitTold(s: BookState, o: Order, f: Fill, t: Trade, r: ExecutionReport, k: nat)
    requires var book := Facing(s, o.side);
             && k < |book| && Accepts(o, book[k].price)
             && f.price == book[k].price && f.qty == Min(book[k].remainingQty, Monus(o.quantity, Qty(book[..k])))
             && (if o.side == Buy then f.sell else f.buy) == book[k]
             && var mine := if o.side == Buy then f.buy else f.sell;
             && mine.orderId == o.orderId && mine.clOrdId == o.clOrdId && mine.sessionId == o.sessionId
    requires t.tradeId == s.nextTradeId + k && t.symbolIdx == s.symbolIdx && t.price == f.price && t.quantity == f.qty
    requires Between(t, f.buy, f.sell)
    requires r == FillReport(if o.side == Buy then f.sell else f.buy, f.price, f.qty, s.nextTradeId + k)
    ensures SweptAt(s, o, t, r, k)
  {
    hide Qty;
  }

  /** Everything ahead of an order that is hit is acceptable. */
  lemma {:induction false} AheadAccepted(bd: Bound, qty: nat, book: seq<Order>, k: nat)
    requires k < |book| && k < |Match(bd, qty, book).hits|
    ensures Allocation(bd, qty, book, k) == Min(book[k].remainingQty, Monus(qty, Qty(book[..k])))
  {
    hide Match;
    MatchHit(bd, qty, book, k);
    forall y | y in book[..k] ensures Within(bd, y.price) {
      var i :| 0 <= i < k && book[i] == y;
      MatchHit(bd, qty, book, i);
    }
    AllReachable(bd, book[..k]);
  }

  lemma {:induction false} FacingOrdered(s: BookState, side: Side)
    requires WellFormed(s)
    ensures InPriority(Opposite(side), Facing(s, side)) && DistinctIds(Facing(s, side))
  {
  }

  // ----- One new order --------------------------------------------------------------------------------

  /** Everything a new order emits: a trade and a report for every order it hits, and one report on itself
      that says how it ended. Nothing else of the request is changed. */
  lemma {:induction false} NewOrderTold(s: BookState, request: Order)
    requires WellFormed(s)
    ensures var x, o := Submit(s, request), request.(orderId := s.nextOrderId);
            && x.order == o.(remainingQty := x.order.remainingQty, status := x.order.status)
            && |x.reports| == |x.trades| + 1
            && (forall k :: 0 <= k < |x.trades| ==> SweptAt(s, o, x.trades[k], x.reports[k], k))
            && x.reports[|x.trades|]
               == ExecutionReport(s.nextOrderId, request.clOrdId, x.order.status,
                                  request.quantity - x.order.remainingQty,
                                  if x.order.status == Cancelled then 0 else x.order.remainingQty, 0, 0, 0)
  {
    hide WellFormed, Sweeping, Rest, Refuses, SweptAt;
    var o, s1 := Admit(s, request), Numbered(s);
    SubmitCases(s, request);
    if !IsStop(o) && !Accumulating(s1) && !Refuses(s1, o) {
      NextIdWellFormed(s);
      SweepingKeeps(s1, o);
      var m := Sweeping(s1, o);
      SweepTold(s1, o, 0);
      forall k: nat | k < |m.trades|
        ensures SweptAt(s, request.(orderId := s.nextOrderId), m.trades[k], m.reports[k], k)
      {
        SweepTold(s1, o, k);
        SameSweep(s, request, m.trades[k], m.reports[k], k);
      }
      SettleEmits(m);
    }
  }

  lemma {:induction false} SameSweep(s: BookState, request: Order, t: Trade, r: ExecutionReport, k: nat)
    requires SweptAt(Numbered(s), Admit(s, request), t, r, k)
    ensures SweptAt(s, request.(orderId := s.nextOrderId), t, r, k)
  {
  }

  lemma {:induction false} SweepingKeeps(s: BookState, o: Order)
    ensures var m := Sweeping(s, o);
            m.order == o.(remainingQty := m.order.remainingQty) && m.order.remainingQty <= o.remainingQty
  {
  }

  lemma {:induction false} SettleEmits(m: Submission)
    ensures var x := Settle(m);
            && x.trades == m.trades && |x.reports| == |m.reports| + 1
            && (forall k :: 0 <= k < |m.reports| ==> x.reports[k] == m.reports[k])
            && x.order == m.order.(status := x.order.status)
            && x.reports[|m.reports|]
               == ExecutionReport(m.order.orderId, m.order.clOrdId, x.order.status,
                                  m.order.quantity - m.order.remainingQty,
                                  if x.order.status == Cancelled then 0 else m.order.remainingQty, 0, 0, 0)
  {
  }

  /** How a new order ends: by its kind, the phase, and the quantity it accepts on the side it faces. */
  lemma {:induction false} NewOrderEnds(s: BookState, request: Order)
    requires WellFormed(s)
    ensures var x := Submit(s, request);
            var book := if request.side == Buy then s.asks else s.bids;
            var available := Reachable(if request.ordType == Market then Unbounded
                                       else if request.side == Buy then AtMost(request.price)
                                       else AtLeast(request.price), book);
            if request.ordType == StopMarket || request.ordType == StopLimit then
              && x.order.status == New && x.order.remainingQty == request.quantity && x.trades == []
              && Parked(s, x)
            else if s.phase == PreOpen || s.phase == Opening then
              && x.order.status == New && x.order.remainingQty == request.quantity && x.trades == []
              && Changed(s, x, true)
            else if s.phase == Closed || (request.tif == FOK && available < request.quantity) then
              && x.order.status == Rejected && x.order.remainingQty == request.quantity && x.trades == []
              && x.state == s.(nextOrderId := s.nextOrderId + 1)
            else
              && x.order.remainingQty == Monus(request.quantity, available)
              && x.order.status == (if x.order.remainingQty == 0 then Filled
                                    else if request.ordType == Market || request.tif == IOC then Cancelled
                                    else if x.order.remainingQty < request.quantity then PartiallyFilled
                                    else New)
              && Changed(s, x, x.order.status == PartiallyFilled || x.order.status == New)
              && (x.order.remainingQty > 0 ==>
                    forall y :: y in Facing(x.state, request.side) ==> !Accepts(request, y.price))
  {
    hide WellFormed, Sweeping, Rest, Changed, Swept;
    var o, s1 := Admit(s, request), Numbered(s);
    SubmitCases(s, request);
    NextIdWellFormed(s);
    if IsStop(o) {
    } else if Accumulating(s1) {
      NotSwept(s1, o);
      RestChanges(s, Submission(s1, o, [], []), o);
    } else if !Refuses(s1, o) {
      SweepEnds(s1, o);
      SweepingKeeps(s1, o);
      var m := Sweeping(s1, o);
      RestChanges(s, m, m.order.(status := New));
      RestChanges(s, m, m.order.(status := PartiallyFilled));
      SettledChanges(s, m);
      RestFaces(m.state, m.order.(status := New));
      RestFaces(m.state, m.order.(status := PartiallyFilled));
    }
  }

  /** A stop is parked behind the others, and nothing else happens. */
  ghost predicate Parked(s: BookState, x: Submission) {
    x.state == s.(nextOrderId := s.nextOrderId + 1, stops := s.stops + [x.order])
  }

  /** What becomes of the book: the order joins its own side if it rests; the side it faces holds residues;
      the counters and the last price move with the trades; the rest stays. */
  ghost predicate Changed(s: BookState, x: Submission, rests: bool) {
    var own, own' := Facing(s, Opposite(x.order.side)), Facing(x.state, Opposite(x.order.side));
    && (forall y :: y in own' <==> y in own || (rests && y == x.order))
    && Residues(Facing(x.state, x.order.side), Facing(s, x.order.side))
    && x.state.stops == s.stops && x.state.phase == s.phase && x.state.symbolIdx == s.symbolIdx
    && x.state.nextOrderId == s.nextOrderId + 1 && x.state.nextTradeId == s.nextTradeId + |x.trades|
    && x.state.lastTradePrice == if x.trades == [] then s.lastTradePrice else x.trades[|x.trades| - 1].price
  }

  /** What a sweep alone does to the book. */
  ghost predicate Swept(s: BookState, m: Submission) {
    && Residues(Facing(m.state, m.order.side), Facing(s, m.order.side))
    && Facing(m.state, Opposite(m.order.side)) == Facing(s, Opposite(m.order.side))
    && m.state.stops == s.stops && m.state.phase == s.phase && m.state.symbolIdx == s.symbolIdx
    && m.state.nextOrderId == s.nextOrderId && m.state.nextTradeId == s.nextTradeId + |m.trades|
    && m.state.lastTradePrice == if m.trades == [] then s.lastTradePrice else m.trades[|m.trades| - 1].price
  }

  lemma {:induction false} NotSwept(s: BookState, o: Order)
    ensures Swept(s, Submission(s, o, [], []))
  {
    assert forall y :: y in Facing(s, o.side) ==> Later(y, y);
  }

  lemma {:induction false} SweepEnds(s: BookState, o: Order)
    requires WellFormed(s) && o.remainingQty == o.quantity
    ensures var m := Sweeping(s, o);
            && m.order.remainingQty == Monus(o.quantity, Reachable(BoundOf(o), Facing(s, o.side)))
            && (m.order.remainingQty > 0 ==> forall y :: y in Facing(m.state, o.side) ==> !Accepts(o, y.price))
            && Swept(s, m)
  {
    hide Match, WellFormed, FillsOf, LastPrice, Residues;
    var book, bd := Facing(s, o.side), BoundOf(o);
    var m := Match(bd, o.quantity, book);
    FacingOrdered(s, o.side);
    MatchAmount(Opposite(o.side), bd, o.quantity, book);
    MatchResidues(bd, o.quantity, book);
    if m.left > 0 { SweptClean(Opposite(o.side), bd, o.quantity, book); }
    var fills := FillsOf(Continuous, o, m.hits);
    FillsLength(Continuous, o, m.hits);
    TradesLength(s.symbolIdx, fills, s.nextTradeId);
    LastFill(fills, s.lastTradePrice);
    if fills != [] { TradeAt(s.symbolIdx, fills, s.nextTradeId, |fills| - 1); }
  }

  lemma {:induction false} LastFill(fills: seq<Fill>, last: int)
    ensures LastPrice(fills, last) == if fills == [] then last else fills[|fills| - 1].price
  {
    if fills == [] {
    } else {
      LastFill(fills[1..], fills[0].price);
    }
  }

  lemma {:induction false} RestFaces(s: BookState, o: Order)
    ensures Facing(Rest(s, o), o.side) == Facing(s, o.side)
  {
  }

  /** Resting adds the order to its own side. */
  lemma {:induction false} RestChanges(s: BookState, m: Submission, o: Order)
    requires o.side == m.order.side && Swept(Numbered(s), m)
    ensures forall rs :: Changed(s, Submission(Rest(m.state, o), o, m.trades, rs), true)
  {
    hide Insert, Residues;
    InsertMembers(o.side, Facing(m.state, Opposite(o.side)), o);
  }

  lemma {:induction false} SettledChanges(s: BookState, m: Submission)
    requires Swept(Numbered(s), m)
    ensures forall rs, st :: Changed(s, Submission(m.state, m.order.(status := st), m.trades, rs), false)
  {
    hide Residues;
  }

  // ----- Cancel and modify ------------------------------------------------------------------------------------

  /** Cancelling an order that rests or is parked reports what it has traded; nothing is left of it. */
  lemma {:induction false} CancelTold(s: BookState, o: Order)
    requires WellFormed(s) && (o in s.bids || o in s.asks || o in s.stops)
    ensures Cancel(s, o.orderId).removed == Some(o)
    ensures Cancel(s, o.orderId).report
         == Some(ExecutionReport(o.orderId, o.clOrdId, Cancelled, o.quantity - o.remainingQty, 0, 0, 0, 0))
  {
    hide WellFormed, DistinctIds;
    IdsOf(s);
    FoundIn(s.stops, o);
    FoundIn(s.bids, o);
    FoundIn(s.asks, o);
    StopsWhole(s);
    assert o.orderId in (if o in s.stops then Ids(s.stops) else if o in s.bids then Ids(s.bids) else Ids(s.asks));
    IdPresent(s.stops, o.orderId);
    IdPresent(s.bids, o.orderId);
  }

  lemma {:induction false} StopsWhole(s: BookState)
    requires WellFormed(s)
    ensures DistinctIds(s.stops) && forall o :: o in s.stops ==> o.quantity == o.remainingQty
  {
    ArrivalDistinct(s.stops);
  }

  lemma {:induction false} FoundIn(book: seq<Order>, o: Order)
    ensures DistinctIds(book) && o in book ==>
              IndexOfId(book, o.orderId) < |book| && book[IndexOfId(book, o.orderId)] == o
  {
    if DistinctIds(book) && o in book {
      if book[0] == o {
      } else {
        assert o in book[1..] && o.orderId in Ids(book[1..]);
        FoundIn(book[1..], o);
      }
    }
  }

  /** Modifying it reports a new order under a new id, that keeps of the old one the client's id alone. */
  lemma {:induction false} ModifyTold(s: BookState, o: Order, price: int, qty: nat)
    requires WellFormed(s) && (o in s.bids || o in s.asks || o in s.stops)
    ensures var x := Modify(s, o.orderId, price, qty);
            var side := if exists z :: z in s.bids && z.orderId != o.orderId && z.price == 0 then Buy else Sell;
            var y := Order(s.nextOrderId, o.clOrdId, s.symbolIdx, side, Limit, Day, price, qty, qty, 0, New, 0);
            && x.report == Some(ExecutionReport(s.nextOrderId, o.clOrdId, New, 0, qty, 0, 0, 0))
            && y in (if side == Buy then x.state.bids else x.state.asks)
            && x.state.nextOrderId == s.nextOrderId + 1
  {
    hide WellFormed, Cancel, Insert;
    var c := Cancel(s, o.orderId);
    CancelTold(s, o);
    OrderLaws.CancelIsExact(s, o.orderId);
    CancelKeeps(s, o.orderId);
    var y := Replacement(c.state, c.report.value, price, qty);
    InsertMembers(y.side, if y.side == Buy then c.state.bids else c.state.asks, y);
  }

  lemma {:induction false} CancelKeeps(s: BookState, id: nat)
    ensures var x := Cancel(s, id).state;
            && x.nextOrderId == s.nextOrderId && x.nextTradeId == s.nextTradeId && x.symbolIdx == s.symbolIdx
            && x.lastTradePrice == s.lastTradePrice && x.phase == s.phase
  {
  }
}
