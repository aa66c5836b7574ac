/** Conservation of quantity by each operation of the book: what comes in is traded (once for
    each side of a trade), still held by the book, or gone. */
module Ledger {
  import opened Types
  import opened PriceTime
  import opened Tape
  import opened AuctionSpec
  import opened BookSpec

  /** Quantity of a submitted order that was cancelled or rejected on the spot. */
  function Gone(o: Order): nat {
    if o.status == Cancelled || o.status == Rejected then o.remainingQty else 0
  }

  function AllGone(orders: seq<Order>): nat {
    if orders == [] then 0 else Gone(orders[0]) + AllGone(orders[1..])
  }

  function RemovedQty(r: Removal): nat {
    if r.removed.Some? then r.removed.value.remainingQty else 0
  }

  lemma {:induction false} RestLoad(s: BookState, o: Order)
    ensures Load(Rest(s, o)) == Load(s) + o.remainingQty
  {
    InsertMembers(o.side, if o.side == Buy then s.bids else s.asks, o);
  }

  lemma {:induction false} SweepConserves(s: BookState, o: Order)
    ensures var x := Sweeping(s, o);
            Load(x.state) + 2 * Traded(x.trades) + x.order.remainingQty == Load(s) + o.remainingQty
  {
    var m := Match(BoundOf(o), o.remainingQty, Facing(s, o.side));
    MatchQty(BoundOf(o), o.remainingQty, Facing(s, o.side));
    TradedFills(s.symbolIdx, Continuous, o, m.hits, s.nextTradeId);
  }

  lemma {:induction false} SettleConserves(m: Submission)
    ensures var x := Settle(m);
            && Load(x.state) + Gone(x.order) == Load(m.state) + m.order.remainingQty
            && x.trades == m.trades
  {
    RestLoad(m.state, m.order.(status := PartiallyFilled));
    RestLoad(m.state, m.order.(status := New));
  }

  /** One new order: its quantity is traded, kept, or gone; every trade uses up its quantity on
      both sides. */
  lemma {:induction false} SubmitConserves(s: BookState, request: Order)
    ensures var x := Submit(s, request);
            Load(x.state) + 2 * Traded(x.trades) + Gone(x.order) == Load(s) + request.quantity
  {
    var o, s1 := Admit(s, request), Numbered(s);
    if IsStop(o) {
      QtyConcat(s.stops, [o]);
    } else if Accumulating(s1) {
      RestLoad(s1, o);
    } else if !Refuses(s1, o) {
      SweepConserves(s1, o);
      SettleConserves(Sweeping(s1, o));
    }
  }

  lemma {:induction false} SubmitAllConserves(s: BookState, stops: seq<Order>)
    ensures var x := SubmitAll(s, stops);
            Load(x.state) + 2 * Traded(x.trades) + AllGone(x.orders) == Load(s) + Qty(stops)
    decreases stops
  {
    if stops == [] {
    } else {
      var x := Submit(s, Convert(stops[0]));
      var r := SubmitAll(x.state, stops[1..]);
      SubmitConserves(s, Convert(stops[0]));
      SubmitAllConserves(x.state, stops[1..]);
      TradedConcat(x.trades, r.trades);
      assert ([x.order] + r.orders)[1..] == r.orders;
    }
  }

  lemma {:induction false} SelectQty(stops: seq<Order>, price: int)
    ensures Qty(Select(stops, price, true)) + Qty(Select(stops, price, false)) == Qty(stops)
  {
    if stops == [] {
    } else {
      SelectQty(stops[1..], price);
      var t, f := Select(stops[1..], price, true), Select(stops[1..], price, false);
      assert ([stops[0]] + t)[1..] == t && ([stops[0]] + f)[1..] == f && [] + t == t && [] + f == f;
    }
  }

  /** Triggering moves a stop from parked to submitted; its quantity is counted once. */
  lemma {:induction false} TriggerConserves(s: BookState, price: int)
    ensures var x := Trigger(s, price);
            Load(x.state) + 2 * Traded(x.trades) + AllGone(x.orders) == Load(s)
  {
    SelectQty(s.stops, price);
    SubmitAllConserves(s.(stops := Select(s.stops, price, false)), Select(s.stops, price, true));
  }

  lemma {:induction false} CancelConserves(s: BookState, id: nat)
    ensures var x := Cancel(s, id); Load(x.state) + RemovedQty(x) == Load(s)
  {
    RemoveIdQty(s.stops, id);
    RemoveIdQty(s.bids, id);
    RemoveIdQty(s.asks, id);
  }

  lemma {:induction false} ModifyConserves(s: BookState, id: nat, price: int, qty: nat)
    ensures var x := Modify(s, id, price, qty);
            Load(x.state) + RemovedQty(x) == Load(s) + (if x.report.Some? then qty else 0)
  {
    CancelConserves(s, id);
    var c := Cancel(s, id);
    if c.report.Some? {
      RestLoad(Numbered(c.state), Replacement(c.state, c.report.value, price, qty));
    }
  }

  lemma {:induction false} CrossConserves(iop: int, bids: seq<Order>, asks: seq<Order>)
    ensures var c := Cross(iop, bids, asks);
            && Qty(c.bids) + FillQty(c.fills) == Qty(bids)
            && Qty(c.asks) + FillQty(c.fills) == Qty(asks)
    decreases asks
  {
    if asks == [] || asks[0].price > iop {
    } else {
      var m := Match(AtLeast(iop), asks[0].remainingQty, bids);
      var r := Cross(iop, m.book, asks[1..]);
      MatchQty(AtLeast(iop), asks[0].remainingQty, bids);
      CrossConserves(iop, m.book, asks[1..]);
      FillQtyOfHits(Auction(iop), asks[0], m.hits);
      FillQtyConcat(FillsOf(Auction(iop), asks[0], m.hits), r.fills);
      QtyConcat(Keep(asks[0].(remainingQty := m.left)), r.asks);
    }
  }

  lemma {:induction false} TradedIsFillQty(sym: nat, fills: seq<Fill>, id: nat)
    ensures Traded(TradesOf(sym, fills, id)) == FillQty(fills)
  {
    if fills == [] {
    } else {
      TradedIsFillQty(sym, fills[1..], id + 1);
      assert TradesOf(sym, fills, id)[1..] == TradesOf(sym, fills[1..], id + 1);
    }
  }

  lemma {:induction false} UncrossConserves(s: BookState)
    ensures var x := Uncross(s); Load(x.state) + 2 * Traded(x.trades) == Load(s)
  {
    var iop := Iop(s.bids, s.asks);
    if iop != 0 {
      CrossConserves(iop, s.bids, s.asks);
      TradedIsFillQty(s.symbolIdx, Cross(iop, s.bids, s.asks).fills, s.nextTradeId);
    }
  }
}
