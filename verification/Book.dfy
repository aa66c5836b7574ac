/** The levelled order book (src/common/Book.hpp, src/common/Book.cpp). */
module OrderBook {
  // Every method is proved equal to the corresponding operation of `BookSpec`, or its 64-bit form
  // in `Width`, on the flattened book. The two callbacks of the source become the trades and
  // execution reports a method returns.

  import opened Types
  import opened PriceTime
  import opened Tape
  import opened Ladder
  import opened AuctionSpec
  import opened BookSpec
  import opened Layout
  import opened Uncrossing
  import opened Width

  /** `b` is what remains of `target` once the given output has been emitted. */
  ghost predicate Continues(target: Batch, trades: seq<Trade>, reports: seq<ExecutionReport>, b: Batch) {
    target.state == b.state && target.trades == trades + b.trades && target.reports == reports + b.reports
  }

  lemma {:induction false} ContinuesStart(target: Batch)
    ensures Continues(target, [], [], target)
  {
  }

  lemma {:induction false} ContinuesStep(target: Batch, trades: seq<Trade>, reports: seq<ExecutionReport>,
          s: BookState, stops: seq<Order>)
    requires stops != [] && Continues(target, trades, reports, SubmitAll64(s, stops))
    ensures var x := Submit64(s, Convert(stops[0]));
            Continues(target, trades + x.trades, reports + x.reports, SubmitAll64(x.state, stops[1..]))
  {
    hide Submit64, Convert;
    var x := Submit64(s, Convert(stops[0]));
    var b := SubmitAll64(x.state, stops[1..]);
    assert trades + (x.trades + b.trades) == trades + x.trades + b.trades;
    assert reports + (x.reports + b.reports) == reports + x.reports + b.reports;
  }

  lemma {:induction false} ContinuesEnd(target: Batch, trades: seq<Trade>, reports: seq<ExecutionReport>, s: BookState)
    requires Continues(target, trades, reports, SubmitAll64(s, []))
    ensures target.state == s && target.trades == trades && target.reports == reports
  {
  }

  class Book {
    const symbolIdx: nat
    var nextTradeId: nat
    var nextOrderId: nat
    var lastTradePrice: int
    var phase: TradingPhase
    var bids: seq<Level>
    var asks: seq<Level>
    var orderIndex: map<nat, (Side, int)>
    var stopOrders: seq<Order>

    /** The book as a reader of price-time priority sees it. */
    ghost function Abs(): BookState
      reads this
    {
      BookState(symbolIdx, nextTradeId, nextOrderId, lastTradePrice, phase, Flatten(bids), Flatten(asks), stopOrders)
    }

    /** Everything `Valid` says except that no level is empty. */
    ghost predicate Shape()
      reads this
    {
      Laid(bids, asks, orderIndex, Abs())
    }

    ghost predicate Valid()
      reads this
    {
      Shape() && NoneEmpty(bids) && NoneEmpty(asks)
    }

    constructor (symbol: nat)
      ensures Valid()
      ensures Abs() == BookState(symbol, 1, 1, 0, CTS, [], [], [])
    {
      symbolIdx := symbol;
      nextTradeId, nextOrderId, lastTradePrice, phase := 1, 1, 0, CTS;
      bids, asks, orderIndex, stopOrders := [], [], map[], [];
    }

    method SetPhase(p: TradingPhase)
      requires Valid()
      modifies this`phase
      ensures Valid()
      ensures Abs() == old(Abs()).(phase := p)
    {
      phase := p;
    }

    // ----- Matching --------------------------------------------------------------------------

    /** One execution of an incoming buy against the first order of the best ask level. */
    method HitAsk(incoming: Order) returns (rest: Order, trade: Trade, report: ExecutionReport)
      requires Shape() && incoming.side == Buy && incoming.remainingQty > 0
      requires asks != [] && asks[0].orders != []
      modifies this`asks, this`orderIndex, this`nextTradeId, this`lastTradePrice
      ensures Shape()
      ensures var h := FirstHit(old(Abs()), incoming);
        asks == ReplaceFront(old(asks), Keep(Residue(h.resting, h.qty)))
      ensures Abs() == AfterHit(Continuous, old(Abs()), incoming)
      ensures var f := FillOf(Continuous, incoming, FirstHit(old(Abs()), incoming));
        && rest == Residue(incoming, f.qty)
        && trade == TradeOf(symbolIdx, f, old(nextTradeId))
        && [report] == ReportsOfFill(Continuous, Buy, f, old(nextTradeId))
    {
      hide Laid, WellFormed;
      AskFront(bids, asks, orderIndex, Abs());
      HitAskLaid(Continuous, bids, asks, orderIndex, Abs(), incoming);
      var resting := asks[0].orders[0];
      var traded: nat := Min(incoming.remainingQty, resting.remainingQty);
      var tradePrice := asks[0].price;
      trade := Trade(nextTradeId, symbolIdx, tradePrice, traded, incoming.orderId, resting.orderId,
                     incoming.clOrdId, resting.clOrdId, incoming.sessionId, resting.sessionId);
      nextTradeId := nextTradeId + 1;
      lastTradePrice := tradePrice;
      rest := incoming.(remainingQty := incoming.remainingQty - traded);
      resting := resting.(remainingQty := resting.remainingQty - traded);
      report := ExecutionReport(resting.orderId, resting.clOrdId,
                                if resting.remainingQty == 0 then Filled else PartiallyFilled,
                                resting.quantity - resting.remainingQty, resting.remainingQty,
                                tradePrice, traded, trade.tradeId);
      if resting.remainingQty == 0 {
        orderIndex := orderIndex - {resting.orderId};
        asks := ReplaceFront(asks, []);
      } else {
        asks := ReplaceFront(asks, [resting]);
      }
      assert Abs() == AfterHit(Continuous, old(Abs()), incoming);
    }

    /** Buy against asks. The iterators of the source leave the front of the side only once the
        incoming order is used up, so both loops look at the front. */
    method MatchBuy(incoming: Order) returns (rest: Order, trades: seq<Trade>, reports: seq<ExecutionReport>)
      requires Valid() && incoming.side == Buy
      modifies this`asks, this`orderIndex, this`nextTradeId, this`lastTradePrice
      ensures Valid()
      ensures Submission(Abs(), rest, trades, reports) == Sweeping(old(Abs()), incoming)
    {
      hide Laid, WellFormed, SweepAt;
      rest, trades, reports := incoming, [], [];
      ghost var target, bd := Sweeping(Abs(), incoming), BoundOf(incoming);
      while rest.remainingQty > 0 && asks != []
        invariant Valid() && rest.side == Buy && BoundOf(rest) == bd
        invariant target == Resume(trades, reports, SweepAt(Continuous, bd, Abs(), rest))
        decreases |asks|, rest.remainingQty
      {
        assert asks[0] in asks;
        AskFront(bids, asks, orderIndex, Abs());
        if rest.ordType != Market && asks[0].price > rest.price {
          break;
        }
        ghost var n, q := |asks|, rest.remainingQty;
        while rest.remainingQty > 0 && asks[0].orders != []
          invariant Shape() && NoneEmpty(bids) && |asks| == n && NoneEmpty(asks[1..])
          invariant rest.side == Buy && BoundOf(rest) == bd && Within(bd, asks[0].price)
          invariant target == Resume(trades, reports, SweepAt(Continuous, bd, Abs(), rest))
          invariant rest.remainingQty <= q
          decreases |asks[0].orders|, rest.remainingQty
        {
          ghost var before, inc := Abs(), rest;
          AskFront(bids, asks, orderIndex, before);
          SweepStep(Continuous, bd, before, inc);
          var trade, report;
          rest, trade, report := HitAsk(rest);
          ResumeTwice(trades, reports, [trade], [report], SweepAt(Continuous, bd, Abs(), rest));
          trades, reports := trades + [trade], reports + [report];
        }
        if asks[0].orders == [] {
          DropAskLevel(bids, asks, orderIndex, Abs());
          asks := asks[1..];
        }
      }
      NoneEmptyFlat(asks);
      SweepOver(Continuous, bd, Abs(), rest);
    }

    /** One execution of an incoming sell, or of an ask in the auction, against the first order
        of the best bid level. */
    method HitBid(mode: Mode, incoming: Order) returns (rest: Order, trade: Trade, reports: seq<ExecutionReport>)
      requires Shape() && incoming.side == Sell && incoming.remainingQty > 0
      requires bids != [] && bids[0].orders != []
      modifies this`bids, this`orderIndex, this`nextTradeId, this`lastTradePrice
      ensures Shape()
      ensures var h := FirstHit(old(Abs()), incoming);
        bids == ReplaceFront(old(bids), Keep(Residue(h.resting, h.qty)))
      ensures Abs() == AfterHit(mode, old(Abs()), incoming)
      ensures var f := FillOf(mode, incoming, FirstHit(old(Abs()), incoming));
        && rest == Residue(incoming, f.qty)
        && trade == TradeOf(symbolIdx, f, old(nextTradeId))
        && reports == ReportsOfFill(mode, Sell, f, old(nextTradeId))
    {
      hide Laid, WellFormed;
      BidFront(bids, asks, orderIndex, Abs());
      HitBidLaid(mode, bids, asks, orderIndex, Abs(), incoming);
      var resting := bids[0].orders[0];
      var traded: nat := Min(incoming.remainingQty, resting.remainingQty);
      var tradePrice := if mode.Auction? then mode.iop else bids[0].price;
      trade := Trade(nextTradeId, symbolIdx, tradePrice, traded, resting.orderId, incoming.orderId,
                     resting.clOrdId, incoming.clOrdId, resting.sessionId, incoming.sessionId);
      nextTradeId := nextTradeId + 1;
      lastTradePrice := tradePrice;
      rest := incoming.(remainingQty := incoming.remainingQty - traded);
      resting := resting.(remainingQty := resting.remainingQty - traded);
      reports := [ExecutionReport(resting.orderId, resting.clOrdId,
                                  if resting.remainingQty == 0 then Filled else PartiallyFilled,
                                  resting.quantity - resting.remainingQty, resting.remainingQty,
                                  tradePrice, traded, trade.tradeId)];
      if mode.Auction? {
        reports := reports + [ExecutionReport(rest.orderId, rest.clOrdId,
                                              if rest.remainingQty == 0 then Filled else PartiallyFilled,
                                              rest.quantity - rest.remainingQty, rest.remainingQty,
                                              tradePrice, traded, trade.tradeId)];
      }
      if resting.remainingQty == 0 {
        orderIndex := orderIndex - {resting.orderId};
        bids := ReplaceFront(bids, []);
      } else {
        bids := ReplaceFront(bids, [resting]);
      }
      assert Abs() == AfterHit(mode, old(Abs()), incoming);
    }

    /** The loop over the bids: `matchSell` runs it at the resting prices down to the limit of
        the order, `uncross` at the opening price for each ask. */
    method SweepBids(mode: Mode, bd: Bound, active: Order)
      returns (rest: Order, trades: seq<Trade>, reports: seq<ExecutionReport>)
      requires Shape() && NoneEmpty(bids) && active.side == Sell
      modifies this`bids, this`orderIndex, this`nextTradeId, this`lastTradePrice
      ensures Shape() && NoneEmpty(bids)
      ensures Submission(Abs(), rest, trades, reports) == SweepAt(mode, bd, old(Abs()), active)
    {
      hide Laid, WellFormed, SweepAt;
      rest, trades, reports := active, [], [];
      ghost var target := SweepAt(mode, bd, Abs(), active);
      while rest.remainingQty > 0 && bids != []
        invariant Shape() && NoneEmpty(bids) && rest.side == Sell
        invariant target == Resume(trades, reports, SweepAt(mode, bd, Abs(), rest))
        decreases |bids|, rest.remainingQty
      {
        assert bids[0] in bids;
        BidFront(bids, asks, orderIndex, Abs());
        if !Within(bd, bids[0].price) {
          break;
        }
        ghost var n, q := |bids|, rest.remainingQty;
        while rest.remainingQty > 0 && bids[0].orders != []
          invariant Shape() && |bids| == n && NoneEmpty(bids[1..])
          invariant rest.side == Sell && Within(bd, bids[0].price)
          invariant target == Resume(trades, reports, SweepAt(mode, bd, Abs(), rest))
          invariant rest.remainingQty <= q
          decreases |bids[0].orders|, rest.remainingQty
        {
          ghost var before, inc := Abs(), rest;
          BidFront(bids, asks, orderIndex, before);
          SweepStep(mode, bd, before, inc);
          var trade, rpts;
          rest, trade, rpts := HitBid(mode, rest);
          ResumeTwice(trades, reports, [trade], rpts, SweepAt(mode, bd, Abs(), rest));
          trades, reports := trades + [trade], reports + rpts;
        }
        if bids[0].orders == [] {
          DropBidLevel(bids, asks, orderIndex, Abs());
          bids := bids[1..];
        }
      }
      NoneEmptyFlat(bids);
      SweepOver(mode, bd, Abs(), rest);
    }

    /** Sell against bids. */
    method MatchSell(incoming: Order) returns (rest: Order, trades: seq<Trade>, reports: seq<ExecutionReport>)
      requires Valid() && incoming.side == Sell
      modifies this`bids, this`orderIndex, this`nextTradeId, this`lastTradePrice
      ensures Valid()
      ensures Submission(Abs(), rest, trades, reports) == Sweeping(old(Abs()), incoming)
    {
      rest, trades, reports := SweepBids(Continuous, BoundOf(incoming), incoming);
    }

    // ----- New orders -------------------------------------------------------------------------

    method InsertResting(order: Order)
      requires Valid() && Newest(Abs(), order) && Older(Abs(), order.orderId)
      requires order.remainingQty <= order.quantity && !IsStop(order)
      modifies this`bids, this`asks, this`orderIndex
      ensures Valid()
      ensures Abs() == Rest(old(Abs()), order)
    {
      hide Laid, WellFormed, Newest, Older;
      orderIndex := Enter(orderIndex, order);
      if order.side == Buy {
        RestBidLaid(bids, asks, old(orderIndex), old(Abs()), order);
        PushBackInserts(Buy, bids, order) by { LaidSides(bids, asks, old(orderIndex), old(Abs())); }
        bids := PushBack(Buy, bids, order);
      } else {
        RestAskLaid(bids, asks, old(orderIndex), old(Abs()), order);
        PushBackInserts(Sell, asks, order) by { LaidSides(bids, asks, old(orderIndex), old(Abs())); }
        asks := PushBack(Sell, asks, order);
      }
    }

    /** Add the remaining quantities of one level to a 64-bit total. */
    static method AddLevel(total: nat, orders: seq<Order>) returns (sum: nat)
      requires total < TWO64
      ensures sum == (total + Qty(orders)) % TWO64
    {
      sum := total;
      for j := 0 to |orders|
        invariant sum < TWO64 && (sum + Qty(orders[j..])) % TWO64 == (total + Qty(orders)) % TWO64
      {
        assert orders[j..][1..] == orders[j + 1..];
        sum := Add64(sum, orders[j].remainingQty);
      }
    }

    /** The fill-or-kill pre-check: add up acceptable levels, best first, and stop as soon as the
        price is out of reach or the quantity is there. */
    static method CanFill(levels: seq<Level>, ghost side: Side, bd: Bound, quantity: nat) returns (ok: bool)
      requires Sorted(side, levels) && Keyed(levels) && NoneEmpty(levels)
      ensures ok == Scan64(bd, Flatten(levels), 0, quantity)
    {
      hide Scan64, Flatten, Keyed, Sorted;
      var available: nat, i := 0, 0;
      assert levels[0..] == levels;
      while i < |levels|
        invariant i <= |levels| && available < TWO64 && (available < quantity || (i == 0 && available == 0))
        invariant Scan64(bd, Flatten(levels), 0, quantity) == Scan64(bd, Flatten(levels[i..]), available, quantity)
      {
        ScanLevel(side, bd, levels, i, available, quantity);
        ScanStep(bd, Flatten(levels[i..]), available, quantity);
        if !Within(bd, levels[i].price) {
          break;
        }
        available := AddLevel(available, levels[i].orders);
        i := i + 1;
        ScanStep(bd, Flatten(levels[i..]), available, quantity);
        if available >= quantity {
          break;
        }
      }
      ScanOver(bd, levels, i, available, quantity);
      ok := available >= quantity;
    }

    method NewOrder(request: Order) returns (order: Order, trades: seq<Trade>, reports: seq<ExecutionReport>)
      requires Valid()
      modifies this`nextOrderId, this`stopOrders, this`bids, this`asks, this`orderIndex, this`nextTradeId,
               this`lastTradePrice
      ensures Valid()
      ensures Submission(Abs(), order, trades, reports) == Submit64(old(Abs()), request)
    {
      hide Laid, WellFormed, Sweeping, Older, SubmitUnless, Settle, Scan64;
      SubmitUnlessCases(Abs(), request, Refuses64(Numbered(Abs()), Admit(Abs(), request)));
      ghost var before, numbered := Abs(), Numbered(Abs());
      LaidNumbered(bids, asks, orderIndex, before);
      order := request.(orderId := nextOrderId, remainingQty := request.quantity, status := New);
      nextOrderId := nextOrderId + 1;
      trades := [];
      if order.ordType == StopMarket || order.ordType == StopLimit {
        LaidParked(bids, asks, orderIndex, numbered, order);
        stopOrders := stopOrders + [order];
        reports := [ExecutionReport(order.orderId, order.clOrdId, New, 0, order.quantity, 0, 0, 0)];
        return;
      }
      if phase == PreOpen || phase == Opening {
        InsertResting(order);
        reports := [ExecutionReport(order.orderId, order.clOrdId, New, 0, order.quantity, 0, 0, 0)];
        return;
      }
      if phase == Closed {
        order := order.(status := Rejected);
        reports := [ExecutionReport(order.orderId, order.clOrdId, Rejected, 0, order.quantity, 0, 0, 0)];
        return;
      }
      if order.tif == FOK {
        LaidSides(bids, asks, orderIndex, numbered);
        var fillable;
        if order.side == Buy {
          fillable := CanFill(asks, Sell, BoundOf(order), order.quantity);
        } else {
          fillable := CanFill(bids, Buy, BoundOf(order), order.quantity);
        }
        if !fillable {
          order := order.(status := Rejected);
          reports := [ExecutionReport(order.orderId, order.clOrdId, Rejected, 0, order.quantity, 0, 0, 0)];
          return;
        }
      }
      ghost var admitted := order;
      SweepFacts(numbered, admitted);
      if order.side == Buy {
        order, trades, reports := MatchBuy(order);
      } else {
        order, trades, reports := MatchSell(order);
      }
      order, reports := Finish(order, trades, reports);
    }

    /** The resting logic after matching: Market and IOC orders never rest. */
    method Finish(matched: Order, ghost trades: seq<Trade>, emitted: seq<ExecutionReport>)
      returns (order: Order, reports: seq<ExecutionReport>)
      requires Valid() && Newest(Abs(), matched) && Older(Abs(), matched.orderId)
      requires matched.remainingQty <= matched.quantity && !IsStop(matched)
      modifies this`bids, this`asks, this`orderIndex
      ensures Valid()
      ensures Submission(Abs(), order, trades, reports) == Settle(Submission(old(Abs()), matched, trades, emitted))
    {
      hide Laid, WellFormed, Older;
      order, reports := matched, emitted;
      if order.remainingQty > 0 {
        if order.ordType == Market || order.tif == IOC {
          order := order.(status := Cancelled);
          reports := reports + [ExecutionReport(order.orderId, order.clOrdId, Cancelled,
                                                order.quantity - order.remainingQty, 0, 0, 0, 0)];
        } else {
          order := order.(status := if order.remainingQty < order.quantity then PartiallyFilled else New);
          InsertResting(order);
          reports := reports + [ExecutionReport(order.orderId, order.clOrdId, order.status,
                                                order.quantity - order.remainingQty, order.remainingQty, 0, 0, 0)];
        }
      } else {
        order := order.(status := Filled);
        reports := reports + [ExecutionReport(order.orderId, order.clOrdId, Filled, order.quantity, 0, 0, 0, 0)];
      }
    }

    // ----- Stop orders ----------------------------------------------------------------------

    /** Split the parked stops into those the price triggers and those that stay parked. */
    method SelectStops(tradePrice: int) returns (triggered: seq<Order>)
      requires Valid()
      modifies this`stopOrders
      ensures Valid()
      ensures Abs() == old(Abs()).(stops := Select(old(stopOrders), tradePrice, false))
      ensures triggered == Select(old(stopOrders), tradePrice, true)
    {
      hide Laid, WellFormed, Select;
      var remaining := [];
      triggered := [];
      assert stopOrders[0..] == stopOrders;
      for i := 0 to |stopOrders|
        invariant stopOrders == old(stopOrders) && Valid()
        invariant remaining + Select(stopOrders[i..], tradePrice, false) == Select(stopOrders, tradePrice, false)
        invariant triggered + Select(stopOrders[i..], tradePrice, true) == Select(stopOrders, tradePrice, true)
      {
        var stop := stopOrders[i];
        SelectTurn(stopOrders, tradePrice, false, i, remaining);
        SelectTurn(stopOrders, tradePrice, true, i, triggered);
        if (stop.side == Buy && tradePrice >= stop.stopPrice) || (stop.side == Sell && tradePrice <= stop.stopPrice) {
          triggered := triggered + [stop];
        } else {
          remaining := remaining + [stop];
        }
      }
      assert stopOrders[|stopOrders|..] == [];
      SelectNone(tradePrice, false);
      SelectNone(tradePrice, true);
      assert remaining == Select(stopOrders, tradePrice, false);
      LaidUnparked(bids, asks, orderIndex, Abs(), tradePrice);
      stopOrders := remaining;
    }

    /** One pass over the parked stops: those triggered by the price are taken out first, then
        submitted in parking order. Prices reached during the pass trigger nothing more. */
    method TriggerStopOrders(tradePrice: int) returns (trades: seq<Trade>, reports: seq<ExecutionReport>)
      requires Valid()
      modifies this`nextOrderId, this`stopOrders, this`bids, this`asks, this`orderIndex, this`nextTradeId,
               this`lastTradePrice
      ensures Valid()
      ensures var b := Trigger64(old(Abs()), tradePrice);
        Abs() == b.state && trades == b.trades && reports == b.reports
    {
      hide Laid, WellFormed, Submit64, Select, SubmitAll64, Continues;
      var triggered := SelectStops(tradePrice);
      trades, reports := [], [];
      ghost var target := SubmitAll64(Abs(), triggered);
      assert triggered[0..] == triggered;
      ContinuesStart(target);
      for i := 0 to |triggered|
        invariant Valid()
        invariant Continues(target, trades, reports, SubmitAll64(Abs(), triggered[i..]))
      {
        assert triggered[i..][1..] == triggered[i + 1..];
        ContinuesStep(target, trades, reports, Abs(), triggered[i..]);
        var order, ts, rs := NewOrder(Convert(triggered[i]));
        trades, reports := trades + ts, reports + rs;
      }
      assert triggered[|triggered|..] == [];
      ContinuesEnd(target, trades, reports, Abs());
    }

    method CancelStopOrder(orderId: nat) returns (ok: bool, report: ExecutionReport)
      requires Valid()
      modifies this`stopOrders
      ensures Valid()
      ensures ok <==> IndexOfId(old(stopOrders), orderId) < |old(stopOrders)|
      ensures ok ==> Some(report) == Cancel(old(Abs()), orderId).report && Abs() == Cancel(old(Abs()), orderId).state
      ensures !ok ==> Abs() == old(Abs())
    {
      hide Laid, WellFormed, Cancel, RemoveId;
      CancelCases(Abs(), orderId);
      for i := 0 to |stopOrders|
        invariant forall k :: 0 <= k < i ==> stopOrders[k].orderId != orderId
        invariant stopOrders == old(stopOrders)
      {
        if stopOrders[i].orderId == orderId {
          LaidUnstop(bids, asks, orderIndex, Abs(), orderId);
          RemoveIdQty(stopOrders, orderId);
          report := ExecutionReport(orderId, stopOrders[i].clOrdId, Cancelled, 0, 0, 0, 0, 0);
          stopOrders := stopOrders[..i] + stopOrders[i + 1..];
          return true, report;
        }
      }
      ok, report := false, ExecutionReport(0, 0, New, 0, 0, 0, 0, 0);
    }

    // ----- Cancel and modify ---------------------------------------------------------------------

    method CancelOrder(orderId: nat) returns (ok: bool, report: ExecutionReport)
      requires Valid()
      modifies this`stopOrders, this`bids, this`asks, this`orderIndex
      ensures Valid()
      ensures Abs() == Cancel(old(Abs()), orderId).state
      ensures ok <==> Cancel(old(Abs()), orderId).report.Some?
      ensures ok ==> Some(report) == Cancel(old(Abs()), orderId).report
    {
      hide Laid, WellFormed, Cancel, RemoveId, IndexOfId, Find;
      CancelCases(Abs(), orderId);
      ok, report := CancelStopOrder(orderId);
      if ok {
        return;
      }
      LaidLookup(bids, asks, orderIndex, Abs(), orderId);
      if orderId !in orderIndex {
        return;
      }
      var (side, price) := orderIndex[orderId];
      if side == Buy {
        var i := Find(bids, price);
        report := EraseBid(i, IndexOfId(bids[i].orders, orderId));
      } else {
        var i := Find(asks, price);
        report := EraseAsk(i, IndexOfId(asks[i].orders, orderId));
      }
      ok := true;
    }

    /** Take order `k` out of bid level `i`, and the level with it if that was its last. */
    method EraseBid(i: nat, k: nat) returns (report: ExecutionReport)
      requires Valid() && i < |bids| && k < |bids[i].orders|
      modifies this`bids, this`orderIndex
      ensures Valid()
      ensures var o := old(bids[i].orders[k]);
        && report == CancelReport(o, o.quantity - o.remainingQty)
        && Abs() == old(Abs()).(bids := RemoveId(old(Abs()).bids, o.orderId))
        && IndexOfId(old(Abs()).bids, o.orderId) < |old(Abs()).bids|
        && old(Abs()).bids[IndexOfId(old(Abs()).bids, o.orderId)] == o
    {
      hide Laid, WellFormed, RemoveId, SetAt;
      var o := bids[i].orders[k];
      report := ExecutionReport(o.orderId, o.clOrdId, Cancelled, o.quantity - o.remainingQty, 0, 0, 0, 0);
      LaidBidOut(bids, asks, orderIndex, Abs(), i, k);
      ghost var after := Abs().(bids := RemoveId(Abs().bids, o.orderId));
      bids := SetAt(bids, i, k, []);
      orderIndex := orderIndex - {o.orderId};
      LaidSides(bids, asks, orderIndex, after);
      SetAtTidy(old(bids), i, k);
      if bids[i].orders == [] {
        EraseBidLevel(bids, asks, orderIndex, after, i);
        bids := bids[..i] + bids[i + 1..];
        LaidSides(bids, asks, orderIndex, after);
      }
    }

    /** Take order `k` out of ask level `i`, and the level with it if that was its last. */
    method EraseAsk(i: nat, k: nat) returns (report: ExecutionReport)
      requires Valid() && i < |asks| && k < |asks[i].orders|
      modifies this`asks, this`orderIndex
      ensures Valid()
      ensures var o := old(asks[i].orders[k]);
        && report == CancelReport(o, o.quantity - o.remainingQty)
        && Abs() == old(Abs()).(asks := RemoveId(old(Abs()).asks, o.orderId))
        && IndexOfId(old(Abs()).asks, o.orderId) < |old(Abs()).asks|
        && old(Abs()).asks[IndexOfId(old(Abs()).asks, o.orderId)] == o
    {
      hide Laid, WellFormed, RemoveId, SetAt;
      var o := asks[i].orders[k];
      report := ExecutionReport(o.orderId, o.clOrdId, Cancelled, o.quantity - o.remainingQty, 0, 0, 0, 0);
      LaidAskOut(bids, asks, orderIndex, Abs(), i, k);
      ghost var after := Abs().(asks := RemoveId(Abs().asks, o.orderId));
      asks := SetAt(asks, i, k, []);
      orderIndex := orderIndex - {o.orderId};
      LaidSides(bids, asks, orderIndex, after);
      SetAtTidy(old(asks), i, k);
      if asks[i].orders == [] {
        EraseAskLevel(bids, asks, orderIndex, after, i);
        asks := asks[..i] + asks[i + 1..];
        LaidSides(bids, asks, orderIndex, after);
      }
    }

    /** Cancel, then rest a new limit order without matching it. The side is looked up through the
        `lastPrice` of the cancel report, which cancellation always leaves at 0. */
    method ModifyOrder(orderId: nat, newPrice: int, newQty: nat) returns (ok: bool, report: ExecutionReport)
      requires Valid()
      modifies this`nextOrderId, this`stopOrders, this`bids, this`asks, this`orderIndex
      ensures Valid()
      ensures Abs() == Modify(old(Abs()), orderId, newPrice, newQty).state
      ensures ok <==> Modify(old(Abs()), orderId, newPrice, newQty).report.Some?
      ensures ok ==> Some(report) == Modify(old(Abs()), orderId, newPrice, newQty).report
    {
      hide Laid, WellFormed, Cancel, Older;
      ghost var c := Cancel(Abs(), orderId);
      var cancelRpt;
      ok, cancelRpt := CancelOrder(orderId);
      if !ok {
        report := cancelRpt;
        return;
      }
      LaidHasLevel(bids, asks, orderIndex, Abs(), cancelRpt.lastPrice);
      LaidNumbered(bids, asks, orderIndex, Abs());
      var replacement := Order(nextOrderId, cancelRpt.clOrdId, symbolIdx,
                               if Find(bids, cancelRpt.lastPrice) < |bids| then Buy else Sell,
                               Limit, Day, newPrice, newQty, newQty, 0, New, 0);
      nextOrderId := nextOrderId + 1;
      InsertResting(replacement);
      report := ExecutionReport(replacement.orderId, replacement.clOrdId, New, 0, newQty, 0, 0, 0);
    }

    // ----- Opening auction ------------------------------------------------------------------------

    /** Cumulative quantity of one side at prices within the bound. */
    static method Cumulate(levels: seq<Level>, bd: Bound) returns (total: nat)
      requires Keyed(levels)
      ensures total == Reachable(bd, Flatten(levels)) % TWO64
    {
      hide Flatten, Keyed;
      total := 0;
      assert levels[0..] == levels;
      for i := 0 to |levels|
        invariant total < TWO64
        invariant (total + Reachable(bd, Flatten(levels[i..]))) % TWO64 == Reachable(bd, Flatten(levels)) % TWO64
      {
        LevelReach(levels, i, bd);
        if Within(bd, levels[i].price) {
          total := AddLevel(total, levels[i].orders);
        }
      }
      assert levels[|levels|..] == [];
      NothingReachable(bd, []);
      assert Flatten([]) == [] by { FlattenNone(); }
    }

    /** The price that maximizes executable volume; on ties the smaller surplus, then the higher
        price under buy surplus. 0 when nothing can trade. */
    method GetIOP() returns (iop: int)
      requires Valid()
      ensures iop == Iop64(Abs().bids, Abs().asks)
    {
      hide WellFormed, Indexed, Reachable;
      NoneEmptyFlat(bids);
      NoneEmptyFlat(asks);
      if bids == [] || asks == [] {
        return 0;
      }
      ghost var b, a := Flatten(bids), Flatten(asks);
      var prices := [];
      prices := CollectPrices(prices, bids);
      prices := CollectPrices(prices, asks);
      SamePrices(prices, bids, asks);
      var bestPrice, bestVolume: nat, bestSurplus: nat := 0, 0, UINT64_MAX;
      assert prices[0..] == prices;
      for i := 0 to |prices|
        invariant Choose64(b, a, prices, NO_BEST)
            == Choose64(b, a, prices[i..], Best(bestPrice, bestVolume, bestSurplus))
      {
        var p := prices[i];
        assert prices[i..][1..] == prices[i + 1..];
        var cumBuy := Cumulate(bids, AtLeast(p));
        var cumSell := Cumulate(asks, AtMost(p));
        var volume: nat := Min(cumBuy, cumSell);
        var surplus := if cumBuy > cumSell then cumBuy - cumSell else cumSell - cumBuy;
        var buySurplus := cumBuy > cumSell;
        if volume > bestVolume
           || (volume == bestVolume && surplus < bestSurplus)
           || (volume == bestVolume && surplus == bestSurplus && buySurplus && p > bestPrice)
        {
          bestPrice, bestVolume, bestSurplus := p, volume, surplus;
        }
      }
      assert prices[|prices|..] == [];
      iop := if bestVolume > 0 then bestPrice else 0;
    }

    /** Add the keys of one side to the ascending, duplicate-free candidate list. */
    static method CollectPrices(start: seq<int>, levels: seq<Level>) returns (prices: seq<int>)
      requires Ascending(start)
      ensures Ascending(prices)
      ensures forall p :: p in prices <==> p in start || HasKey(levels, p)
    {
      prices := start;
      for i := 0 to |levels|
        invariant Ascending(prices)
        invariant forall p :: p in prices <==> p in start || HasKey(levels[..i], p)
      {
        AddPriceSorted(prices, levels[i].price);
        prices := AddPrice(prices, levels[i].price);
        assert levels[..i + 1] == levels[..i] + [levels[i]];
      }
      assert levels[..|levels|] == levels;
    }

    /** One ask of the auction: it sweeps the bids at the opening price and is written back, or
        erased when nothing of it is left. */
    method UncrossAsk(iop: int, i: nat, j: nat)
      returns (left: nat, trades: seq<Trade>, reports: seq<ExecutionReport>)
      requires Shape() && NoneEmpty(bids)
      requires i < |asks| && j < |asks[i].orders|
      modifies this`bids, this`asks, this`orderIndex, this`nextTradeId, this`lastTradePrice
      ensures Shape() && NoneEmpty(bids)
      ensures Pos(old(asks), i, j) < |old(Abs()).asks|
      ensures var n := Pos(old(asks), i, j);
        var x := SweepAt(Auction(iop), AtLeast(iop), old(Abs()), old(Abs()).asks[n]);
        && old(Abs()).asks[n] == old(asks[i].orders[j]) && old(Abs()).asks[n].side == Sell
        && Abs() == AfterAsk(iop, old(Abs()), n)
        && left == x.order.remainingQty && trades == x.trades && reports == x.reports
        && asks == SetAt(old(asks), i, j, Keep(x.order))
    {
      hide Laid, WellFormed, SweepAt, SetAt;
      ghost var before := Abs();
      LaidAsk(bids, asks, orderIndex, before, i, j);
      var ask := asks[i].orders[j];
      var rest;
      rest, trades, reports := SweepBids(Auction(iop), AtLeast(iop), ask);
      SweptOrder(Auction(iop), AtLeast(iop), before, ask);
      SetAskLaid(bids, asks, orderIndex, Abs(), i, j, rest.remainingQty);
      left := rest.remainingQty;
      if left == 0 {
        orderIndex := orderIndex - {ask.orderId};
        asks := SetAt(asks, i, j, []);
      } else {
        asks := SetAt(asks, i, j, [rest]);
      }
      LaidSides(bids, asks, orderIndex, AfterAsk(iop, before, Pos(old(asks), i, j)));
    }

    /** What the uncrossing loops keep: the crossing so far, with asks before position `n` done. */
    ghost predicate Uncrossing(iop: int, s0: BookState, n: nat, fills: seq<Fill>, trades: seq<Trade>,
            reports: seq<ExecutionReport>)
      reads this
    {
      && n <= |Abs().asks|
      && Pending(iop, Abs(), n, fills) == Cross(iop, s0.bids, s0.asks)
      && Taped(iop, s0, Abs(), fills, trades, reports)
      && Abs().nextOrderId == s0.nextOrderId && Abs().phase == s0.phase && Abs().stops == s0.stops
    }

    /** Execute accumulated orders at the opening price: asks in price-time order, each against
        the bids in price-time order. */
    method Uncross() returns (trades: seq<Trade>, reports: seq<ExecutionReport>)
      requires Valid()
      modifies this`bids, this`asks, this`orderIndex, this`nextTradeId, this`lastTradePrice
      ensures Valid()
      ensures var b := Uncross64(old(Abs()));
        Abs() == b.state && trades == b.trades && reports == b.reports
    {
      hide Laid, WellFormed, Pending, Taped, Cross, Iop64;
      trades, reports := [], [];
      ghost var s0 := Abs();
      var iop := GetIOP();
      if iop == 0 {
        return;
      }
      var remainingVolume := UINT64_MAX;
      PendingStart(iop, s0);
      TapedStart(iop, s0);
      ghost var n: nat, fills: seq<Fill> := 0, [];
      var i := 0;
      while i < |asks| && asks[i].price <= iop && remainingVolume > 0
        invariant Valid() && i <= |asks| && n == Pos(asks, i, 0)
        invariant Uncrossing(iop, s0, n, fills, trades, reports)
        decreases |asks| - i
      {
        ghost var count := |asks|;
        n, fills, trades, reports := UncrossLevel(iop, i, s0, n, fills, trades, reports);
        if asks[i].orders == [] {
          EraseAskLevel(bids, asks, orderIndex, Abs(), i);
          PosErase(asks, i);
          asks := asks[..i] + asks[i + 1..];
        } else {
          PosNext(asks, i);
          i := i + 1;
        }
      }
      if i < |asks| {
        assert asks[i] in asks;
        LaidAsk(bids, asks, orderIndex, Abs(), i, 0);
      } else {
        PosEnd(asks);
        LaidSides(bids, asks, orderIndex, Abs());
      }
      PendingOver(iop, Abs(), n, fills);
      TapedEnd(iop, s0, Abs(), fills, trades, reports);
    }

    /** The auction within one ask level. */
    method UncrossLevel(iop: int, i: nat, ghost s0: BookState, ghost n0: nat, ghost fills0: seq<Fill>,
                        trades0: seq<Trade>, reports0: seq<ExecutionReport>)
      returns (ghost n: nat, ghost fills: seq<Fill>, trades: seq<Trade>, reports: seq<ExecutionReport>)
      requires Valid() && i < |asks| && asks[i].price <= iop
      requires n0 == Pos(asks, i, 0) && Uncrossing(iop, s0, n0, fills0, trades0, reports0)
      modifies this`bids, this`asks, this`orderIndex, this`nextTradeId, this`lastTradePrice
      ensures Shape() && NoneEmpty(bids) && |asks| == |old(asks)|
      ensures NoneEmpty(asks[..i] + asks[i + 1..]) && n == Pos(asks, i, |asks[i].orders|)
      ensures Uncrossing(iop, s0, n, fills, trades, reports)
    {
      hide Laid, WellFormed, Pending, Taped, Cross, SweepAt, SetAt;
      n, fills, trades, reports := n0, fills0, trades0, reports0;
      var j := 0;
      assert asks[..i] + asks[i + 1..] == old(asks)[..i] + old(asks)[i + 1..];
      while j < |asks[i].orders|
        invariant Shape() && NoneEmpty(bids) && |asks| == |old(asks)|
        invariant asks[i].price <= iop && asks[..i] + asks[i + 1..] == old(asks)[..i] + old(asks)[i + 1..]
        invariant j <= |asks[i].orders| && n == Pos(asks, i, j)
        invariant Uncrossing(iop, s0, n, fills, trades, reports)
        decreases |asks[i].orders| - j
      {
        ghost var before := Abs();
        LaidAsk(bids, asks, orderIndex, before, i, j);
        PendingTurn(iop, before, n, fills);
        TapedTurn(iop, s0, before, n, fills, trades, reports);
        ghost var levels := asks;
        var left, ts, rs := UncrossAsk(iop, i, j);
        SweptOrder(Auction(iop), AtLeast(iop), before, before.asks[n]);
        SetAtSlot(levels, i, j, left);
        fills := fills + AskFills(iop, before, before.asks[n]);
        n := NextAsk(iop, before, n);
        trades, reports := trades + ts, reports + rs;
        if left > 0 {
          j := j + 1;
        }
      }
    }

    // ----- Queries --------------------------------------------------------------------------------

    /** The best levels of a side: price, total remaining quantity, number of orders. */
    static method GetLevels(levels: seq<Level>, depth: nat) returns (result: seq<LevelInfo>)
      ensures result == Top(levels, depth)
    {
      hide Qty, Flatten, Summaries;
      result := [];
      SummariesNone();
      assert levels[..0] == [];
      var i := 0;
      while i < |levels| && i < depth
        invariant i <= |levels| && i <= depth
        invariant result == Summaries(levels[..i])
      {
        var totalQty := AddLevel(0, levels[i].orders);
        SummariesSnoc(levels, i);
        result := result + [LevelInfo(levels[i].price, totalQty, |levels[i].orders|)];
        i := i + 1;
      }
    }

    method GetBids(depth: nat) returns (result: seq<LevelInfo>)
      requires Valid()
      ensures result == Depth(Abs().bids, depth)
    {
      hide WellFormed, Indexed;
      result := GetLevels(bids, depth);
      DepthOfLevels(Buy, bids, depth);
    }

    method GetAsks(depth: nat) returns (result: seq<LevelInfo>)
      requires Valid()
      ensures result == Depth(Abs().asks, depth)
    {
      hide WellFormed, Indexed;
      result := GetLevels(asks, depth);
      DepthOfLevels(Sell, asks, depth);
    }
  }
}
