/** What single orders can rely on: fill-or-kill orders are all or nothing, one trigger pass takes
    every triggerable stop, cancellation is exact, modification is not. */
module OrderLaws {
  import opened Types
  import opened PriceTime
  import opened Tape
  import opened BookSpec
  import opened Runs
  import opened Safety
  import Accounts

  // ----- Fill or kill -------------------------------------------------------------------------------

  /** A fill-or-kill order in continuous trading is filled in full exactly when the acceptable
      quantity is there; otherwise it leaves no trace but its id and its rejection. */
  lemma {:induction false} FillOrKill(s: BookState, request: Order)
    requires WellFormed(s) && s.phase == CTS && request.tif == FOK && !IsStop(request)
    ensures var x := Submit(s, request);
            var o := Admit(s, request);
            if Reachable(BoundOf(o), Facing(s, o.side)) < o.quantity
            then x == Submission(Numbered(s), o.(status := Rejected), [], [Ack(o, Rejected, 0, o.quantity)])
            else x.order.status == Filled && x.order.remainingQty == 0 && Traded(x.trades) == request.quantity
  {
    var o, s1 := Admit(s, request), Numbered(s);
    if !Refuses(s1, o) {
      var book := Facing(s1, o.side);
      MatchAmount(Opposite(o.side), BoundOf(o), o.remainingQty, book);
      TradedFills(s.symbolIdx, Continuous, o, Match(BoundOf(o), o.remainingQty, book).hits, s.nextTradeId);
    }
  }

  // ----- Stop orders ----------------------------------------------------------------------------------

  /** The order `x` is the resubmission of the stop with the given id. */
  predicate Resubmits(x: Order, stop: Order, id: nat) {
    && x.orderId == id && x.side == stop.side && x.quantity == stop.remainingQty
    && x.clOrdId == stop.clOrdId && x.sessionId == stop.sessionId && x.tif == stop.tif
    && x.ordType == (if stop.ordType == StopMarket then Market else Limit)
    && x.price == (if stop.ordType == StopMarket then 0 else stop.price)
    && x.symbolIdx == stop.symbolIdx && x.stopPrice == 0
  }

  lemma {:induction false} SubmitConverted(s: BookState, stop: Order)
    ensures var x := Submit(s, Convert(stop));
            && x.state.stops == s.stops && x.state.nextOrderId == s.nextOrderId + 1
            && Resubmits(x.order, stop, s.nextOrderId)
  {
    hide Match, Rest, FillsOf, Refuses;
    SubmitCases(s, Convert(stop));
    RestParks(Sweeping(Numbered(s), Admit(s, Convert(stop))));
    RestParks(Submission(Numbered(s), Admit(s, Convert(stop)), [], []));
  }

  lemma {:induction false} RestParks(m: Submission)
    ensures forall o :: Rest(m.state, o).stops == m.state.stops && Rest(m.state, o).nextOrderId == m.state.nextOrderId
  {
  }

  lemma {:induction false} SubmitAllConverted(s: BookState, stops: seq<Order>)
    ensures var x := SubmitAll(s, stops);
            && x.state.stops == s.stops && x.state.nextOrderId == s.nextOrderId + |stops|
            && |x.orders| == |stops|
            && forall k :: 0 <= k < |stops| ==> Resubmits(x.orders[k], stops[k], s.nextOrderId + k)
    decreases stops
  {
    hide Submit, Convert;
    if stops == [] {
    } else {
      var x := Submit(s, Convert(stops[0]));
      SubmitConverted(s, stops[0]);
      SubmitAllConverted(x.state, stops[1..]);
    }
  }

  lemma {:induction false} SelectSplits(stops: seq<Order>, price: int)
    ensures multiset(Select(stops, price, true)) + multiset(Select(stops, price, false)) == multiset(stops)
  {
    if stops == [] {
    } else {
      SelectSplits(stops[1..], price);
      assert stops == [stops[0]] + stops[1..];
    }
  }

  /** One pass: exactly the stops the price has reached leave - a buy stop when the price is at its stop
      price or above, a sell stop when it is there or below - the others keep their order, and each
      one that left is submitted once, in parking order, under a fresh id, as the order it stood
      for - whatever the conversions before it did to the book. */
  lemma {:induction false} TriggerPass(s: BookState, price: int)
    ensures var x := Trigger(s, price);
            var hit := Select(s.stops, price, true);
            && (forall o :: o in x.state.stops <==>
                  o in s.stops && (if o.side == Buy then price < o.stopPrice else price > o.stopPrice))
            && (forall o :: o in hit <==>
                  o in s.stops && (if o.side == Buy then price >= o.stopPrice else price <= o.stopPrice))
            && (InArrival(s.stops) ==> InArrival(hit) && InArrival(x.state.stops))
            && multiset(hit) + multiset(x.state.stops) == multiset(s.stops)
            && |x.orders| == |hit|
            && (forall k :: 0 <= k < |hit| ==> Resubmits(x.orders[k], hit[k], s.nextOrderId + k))
  {
    hide Submit, Select, InArrival;
    SelectMembers(s.stops, price, true);
    SelectMembers(s.stops, price, false);
    if InArrival(s.stops) {
      SelectInArrival(s.stops, price, true);
      SelectInArrival(s.stops, price, false);
    }
    SelectSplits(s.stops, price);
    SubmitAllConverted(s.(stops := Select(s.stops, price, false)), Select(s.stops, price, true));
  }

  /** A sell stop waits for the price to fall: a pass above its stop price leaves it parked, a pass at
      or below it submits it. A buy stop waits for it to rise. */
  lemma {:induction false} StopsWaitForTheirSide(sym: nat, stop: Order, above: int, below: int)
    requires stop.ordType == StopMarket || stop.ordType == StopLimit
    requires below < stop.stopPrice < above
    ensures var w := Run(Start(sym), [Enter(stop)]);
            var (away, reached) := if stop.side == Sell then (above, below) else (below, above);
            && |w.book.stops| == 1
            && Run(Start(sym), [Enter(stop), TriggerAt(away)]).book.stops == w.book.stops
            && Run(Start(sym), [Enter(stop), TriggerAt(reached)]).book.stops == []
  {
    hide Submit, Trigger, Step;
    var w0, w := Start(sym), Step(Start(sym), Enter(stop));
    var o := Admit(w0.book, stop);
    assert w.book.stops == [o] by { OnlyParked(w0, stop); }
    RunOfTwo(w0, Enter(stop), TriggerAt(above));
    RunOfTwo(w0, Enter(stop), TriggerAt(below));
    OnlyStop(w, o, above);
    OnlyStop(w, o, below);
  }

  lemma {:induction false} OnlyParked(w: World, stop: Order)
    requires IsStop(stop) && w.book.stops == []
    ensures Step(w, Enter(stop)).book.stops == [Admit(w.book, stop)]
  {
    hide Submit;
    SubmitCases(w.book, stop);
  }

  lemma {:induction false} OnlyStop(w: World, o: Order, price: int)
    requires w.book.stops == [o]
    ensures Step(w, TriggerAt(price)).book.stops
         == if o.side == Buy then (if price < o.stopPrice then [o] else [])
            else (if price > o.stopPrice then [o] else [])
  {
    hide Trigger, Select, Resubmits;
    TriggerPass(w.book, price);
    AllOrNone(o, Trigger(w.book, price).state.stops, Select([o], price, true));
  }

  lemma {:induction false} AllOrNone(o: Order, stays: seq<Order>, leaves: seq<Order>)
    requires multiset(leaves) + multiset(stays) == multiset([o])
    ensures if o in stays then stays == [o] else stays == []
  {
    assert |multiset(leaves) + multiset(stays)| == |leaves| + |stays| == 1;
    if stays != [] {
      assert stays[0] in multiset(leaves) + multiset(stays);
      assert stays == [stays[0]];
    }
  }

  // ----- Cancel and modify ----------------------------------------------------------------------------

  ghost predicate Known(s: BookState, id: nat) {
    id in Ids(s.bids) || id in Ids(s.asks) || id in Ids(s.stops)
  }

  /** Cancellation succeeds exactly for the ids resting or parked, and takes out exactly the
      order with that id. */
  lemma {:induction false} CancelIsExact(s: BookState, id: nat)
    requires WellFormed(s)
    ensures var x := Cancel(s, id);
            && (x.report.Some? <==> Known(s, id))
            && (x.report.Some? <==> x.removed.Some?)
            && (x.removed.Some? ==> x.removed.value.orderId == id)
            && (forall o :: o in x.state.bids <==> o in s.bids && o.orderId != id)
            && (forall o :: o in x.state.asks <==> o in s.asks && o.orderId != id)
            && (forall o :: o in x.state.stops <==> o in s.stops && o.orderId != id)
  {
    hide WellFormed;
    IdPresent(s.bids, id);
    IdPresent(s.asks, id);
    IdPresent(s.stops, id);
    IdsOf(s);
    StopsDistinct(s);
    RemoveIdMembers(s.stops, id);
    RemoveIdMembers(s.bids, id);
    RemoveIdMembers(s.asks, id);
    Apart(s.bids, id);
    Apart(s.asks, id);
    Apart(s.stops, id);
  }

  lemma {:induction false} StopsDistinct(s: BookState)
    requires WellFormed(s)
    ensures DistinctIds(s.stops)
  {
    ArrivalDistinct(s.stops);
  }

  lemma {:induction false} Apart(book: seq<Order>, id: nat)
    ensures id !in Ids(book) ==> forall o :: o in book ==> o.orderId != id
  {
    forall o | o in book ensures o.orderId in Ids(book) {}
  }

  /** Modification replaces exactly the order with the id by one new order. Its side is that of the
      order it replaces exactly when that is a buy and the remaining book has a bid at price 0, or
      a sell and it has none. */
  lemma {:induction false} ModifyKeepsSideIff(s: BookState, id: nat, price: int, qty: nat)
    requires WellFormed(s) && Known(s, id)
    ensures var c, x := Cancel(s, id), Modify(s, id, price, qty);
            && c.removed.Some? && c.removed.value.orderId == id && x.report.Some?
            && var o := Replacement(c.state, c.report.value, price, qty);
            && (forall y :: y in x.state.bids <==> (y in s.bids && y.orderId != id) || (o.side == Buy && y == o))
            && (forall y :: y in x.state.asks <==> (y in s.asks && y.orderId != id) || (o.side == Sell && y == o))
            && (forall y :: y in x.state.stops <==> y in s.stops && y.orderId != id)
            && (o.side == c.removed.value.side <==> (c.removed.value.side == Buy <==> HasPrice(c.state.bids, 0)))
  {
    hide WellFormed, Cancel, Insert;
    CancelIsExact(s, id);
    var c := Cancel(s, id);
    assert c.report.Some? ==> c.report.value.lastPrice == 0 by { CancelledPrice(s, id); }
    var o := Replacement(c.state, c.report.value, price, qty);
    InsertMembers(o.side, if o.side == Buy then c.state.bids else c.state.asks, o);
  }

  lemma {:induction false} CancelledPrice(s: BookState, id: nat)
    ensures var x := Cancel(s, id); x.report.Some? ==> x.report.value.lastPrice == 0
  {
  }

  /** Modification never matches: it leaves a continuous book uncrossed exactly when nothing the
      replacement would accept is facing it. */
  lemma {:induction false} ModifyStaysClearIff(s: BookState, id: nat, price: int, qty: nat)
    requires WellFormed(s) && Clear(s) && Known(s, id)
    ensures var c, x := Cancel(s, id), Modify(s, id, price, qty);
            && c.report.Some?
            && var o := Replacement(c.state, c.report.value, price, qty);
            && (Clear(x.state) <==> forall y :: y in Facing(c.state, o.side) ==> !Within(BoundOf(o), y.price))
  {
    hide WellFormed, Clear, Cancel;
    CancelIsExact(s, id);
    var c := Cancel(s, id);
    assert Clear(c.state) by { CancelClear(s, id); }
    SameBook(c.state, Numbered(c.state));
    RestClearIff(Numbered(c.state), Replacement(c.state, c.report.value, price, qty));
  }

  lemma {:induction false} CancelClear(s: BookState, id: nat)
    requires WellFormed(s) && Clear(s)
    ensures Clear(Cancel(s, id).state)
  {
    hide Cancel;
    Accounts.CancelMembers(s, id);
  }

  lemma {:induction false} RestClearIff(s: BookState, o: Order)
    requires Clear(s) && o.ordType != Market
    ensures Clear(Rest(s, o)) <==> forall y :: y in Facing(s, o.side) ==> !Within(BoundOf(o), y.price)
  {
    InsertMembers(o.side, if o.side == Buy then s.bids else s.asks, o);
    if y :| y in Facing(s, o.side) && Within(BoundOf(o), y.price) {
      assert o in (if o.side == Buy then Rest(s, o).bids else Rest(s, o).asks);
    } else {
      RestClear(s, o);
    }
  }

  /** So a buy with a positive-price book around it comes back as a sell. */
  lemma {:induction false} ModifyTurnsBuyIntoSell(s: BookState, id: nat, price: int, qty: nat)
    requires WellFormed(s) && PositiveBook(s) && id in Ids(s.bids)
    ensures var x := Modify(s, id, price, qty).state;
            exists o :: o in x.asks && o.orderId == s.nextOrderId && o.price == price && o.quantity == qty
  {
    hide WellFormed;
    CancelIsExact(s, id);
    var c := Cancel(s, id);
    assert !HasPrice(c.state.bids, 0);
    var o := Replacement(c.state, c.report.value, price, qty);
    InsertMembers(Sell, Numbered(c.state).asks, o);
    CancelWellFormed(s, id);
    assert o in Modify(s, id, price, qty).state.asks;
  }

  /** Two buys rest, and the first is modified to a price the second one pays: it comes back as a
      sell at that price, and the book stays crossed in continuous trading. */
  lemma {:induction false} ModifyCrossesBook(sym: nat, first: Order, second: Order, price: int, qty: nat)
    requires PlainLimit(first) && PlainLimit(second) && first.side == Buy && second.side == Buy
    requires second.price > 0 && price <= second.price
    ensures var w := Run(Start(sym), [Enter(first), Enter(second), ModifyId(1, price, qty)]);
            && w.book.phase == CTS && w.trades == []
            && |w.book.bids| == 1 && |w.book.asks| == 1 && w.book.asks[0].price <= w.book.bids[0].price
  {
    hide Submit, Modify;
    var all := [Enter(first), Enter(second), ModifyId(1, price, qty)];
    var w0 := Start(sym);
    var w1 := Step(w0, all[0]);
    var w2 := Step(w1, all[1]);
    var a, b := Admit(w0.book, first), Admit(w1.book, second);
    LimitRests(w0.book, first);
    LimitRests(w1.book, second);
    assert w1.book == Rest(Numbered(w0.book), a) && w1.book.bids == [a];
    InsertSecond(a, b);
    assert w2.book == Rest(Numbered(w1.book), b) && w2.book.bids == Insert(Buy, [a], b);
    ModifyFirst(w2.book, a, b, price, qty);
    RunOfThree(w0, all);
  }

  /** A limit order that may rest. */
  predicate PlainLimit(o: Order) {
    o.ordType == Limit && (o.tif == Day || o.tif == GTC) && o.quantity > 0
  }

  /** Such an order rests when nothing it accepts is in front. */
  lemma {:induction false} LimitRests(s: BookState, request: Order)
    requires s.phase == CTS && PlainLimit(request)
    requires var book := Facing(s, request.side); book == [] || !Within(BoundOf(request), book[0].price)
    ensures Submit(s, request)
         == var o := Admit(s, request); Submission(Rest(Numbered(s), o), o, [], [Ack(o, New, 0, o.quantity)])
  {
    hide Rest;
    var o := Admit(s, request);
    SubmitCases(s, request);
    SweepOver(Continuous, BoundOf(o), Numbered(s), o);
  }

  lemma {:induction false} ModifyFirst(s: BookState, a: Order, b: Order, price: int, qty: nat)
    requires (s.bids == [a, b] || s.bids == [b, a]) && s.asks == [] && s.stops == []
    requires a.orderId == 1 && b.orderId != 1 && b.price != 0
    ensures var x := Modify(s, 1, price, qty).state;
            x.bids == [b] && |x.asks| == 1 && x.asks[0].price == price && x.phase == s.phase
  {
    assert [a, b][1..] == [b] && [b, a][1..] == [a] && [a][1..] == [];
    assert IndexOfId(s.bids, 1) < 2 && RemoveId(s.bids, 1) == [b];
  }

  lemma {:induction false} InsertSecond(a: Order, b: Order)
    ensures Insert(Buy, [a], b) == [a, b] || Insert(Buy, [a], b) == [b, a]
  {
    assert [a][1..] == [] && Insert(Buy, [], b) == [b] + [];
    assert [a] + ([b] + []) == [a, b] && [b] + [a] == [b, a];
  }
}
