/** Whether a trigger pass leaves stops behind that its own trades have made triggerable. */
module Cascade {
  import opened Types
  import opened PriceTime
  import opened Tape
  import opened BookSpec
  import opened OrderLaws

  // ----- The failing input ------------------------------------------------------------------------

  /** The pass does not follow up on the prices it makes: a triggered buy stop that lifts an ask at
      or above the stop price of a second one leaves that one parked although it has become
      triggerable at the last trade price. */
  lemma {:induction false} TriggerDoesNotCascade(s: BookState, first: Order, second: Order, price: int)
    requires s.phase == CTS && s.stops == [first, second]
    requires first.side == Buy && first.ordType == StopMarket && first.tif != FOK && first.remainingQty > 0
    requires second.side == Buy && first.stopPrice <= price < second.stopPrice
    requires s.asks != [] && s.asks[0].price >= second.stopPrice && s.asks[0].remainingQty >= first.remainingQty
    ensures var x := Trigger(s, price).state;
            x.stops == [second] && x.lastTradePrice == s.asks[0].price && Triggers(second, x.lastTradePrice)
  {
    hide Submit, Select;
    SelectTwo(first, second, price);
    var s1 := s.(stops := [second]);
    SubmitOne(s1, first);
    SubmitMarket(s1, Convert(first));
  }

  lemma {:induction false} SelectTwo(first: Order, second: Order, price: int)
    requires Triggers(first, price) && !Triggers(second, price)
    ensures Select([first, second], price, true) == [first] && Select([first, second], price, false) == [second]
  {
    assert [first, second][1..] == [second] && [second][1..] == [];
    assert Select([second], price, true) == [] + Select([], price, true);
    assert Select([second], price, false) == [second] + Select([], price, false);
    assert Select([first, second], price, true) == [first] + Select([second], price, true);
    assert Select([first, second], price, false) == [] + Select([second], price, false);
  }

  lemma {:induction false} SubmitOne(s: BookState, stop: Order)
    ensures SubmitAll(s, [stop]).state == Submit(s, Convert(stop)).state
  {
    hide Submit, Convert;
    assert [stop][1..] == [];
  }

  /** A market buy that the best ask can fill trades once, at the price of that ask. */
  lemma {:induction false} SubmitMarket(s: BookState, o: Order)
    requires s.phase == CTS && o.side == Buy && o.ordType == Market && o.tif != FOK && o.quantity > 0
    requires s.asks != [] && s.asks[0].remainingQty >= o.quantity
    ensures Submit(s, o).state.lastTradePrice == s.asks[0].price && Submit(s, o).state.stops == s.stops
  {
    var x := Admit(s, o);
    OneHit(x.quantity, s.asks);
    OneFill(x, Hit(s.asks[0], x.quantity), s.lastTradePrice);
  }

  lemma {:induction false} OneFill(active: Order, h: Hit, price: int)
    ensures LastPrice(FillsOf(Continuous, active, [h]), price) == h.resting.price
  {
    assert [h][1..] == [] && FillsOf(Continuous, Residue(active, h.qty), []) == [];
    assert FillsOf(Continuous, active, [h])[1..] == [];
  }

  lemma {:induction false} OneHit(qty: nat, book: seq<Order>)
    requires book != [] && 0 < qty <= book[0].remainingQty
    ensures Match(Unbounded, qty, book).hits == [Hit(book[0], qty)] && Match(Unbounded, qty, book).left == 0
  {
    MatchFirst(Unbounded, qty, book);
    assert Match(Unbounded, 0, book[1..]).hits == [];
  }

  // ----- When nothing is left behind ----------------------------------------------------------------

  /** No price the book can trade at, and not the last one either, triggers the stop. */
  ghost predicate Deaf(stop: Order, s: BookState) {
    && !Triggers(stop, s.lastTradePrice)
    && (forall o :: o in s.bids ==> !Triggers(stop, o.price))
    && (forall o :: o in s.asks ==> !Triggers(stop, o.price))
  }

  /** No parked stop is triggerable at the last trade price. */
  ghost predicate LeavesNone(s: BookState) {
    forall stop :: stop in s.stops ==> !Triggers(stop, s.lastTradePrice)
  }

  /** The last price of a sweep is that of the last order it hits. */
  lemma {:induction false} LastHitPrice(active: Order, hits: seq<Hit>, last: int)
    ensures LastPrice(FillsOf(Continuous, active, hits), last)
         == if hits == [] then last else hits[|hits| - 1].resting.price
    decreases hits
  {
    if hits == [] {
    } else {
      var fills := FillsOf(Continuous, active, hits);
      assert fills[1..] == FillsOf(Continuous, Residue(active, hits[0].qty), hits[1..]);
      LastHitPrice(Residue(active, hits[0].qty), hits[1..], fills[0].price);
    }
  }

  lemma {:induction false} SweepingDeaf(s: BookState, o: Order, stop: Order)
    requires Deaf(stop, s)
    ensures Deaf(stop, Sweeping(s, o).state)
  {
    hide Match, Triggers, FillsOf, LastPrice;
    var book, bd := Facing(s, o.side), BoundOf(o);
    var m := Match(bd, o.remainingQty, book);
    LastHitPrice(o, m.hits, s.lastTradePrice);
    if m.hits != [] {
      MatchHit(bd, o.remainingQty, book, |m.hits| - 1);
      assert book[|m.hits| - 1] in book;
    }
    MatchResidues(bd, o.remainingQty, book);
    forall x | x in m.book ensures !Triggers(stop, x.price) {
      var y :| y in book && Later(x, y);
      assert x.price == y.price;
    }
  }

  lemma {:induction false} RestDeaf(s: BookState, o: Order, stop: Order)
    requires Deaf(stop, s) && !Triggers(stop, o.price)
    ensures Deaf(stop, Rest(s, o))
  {
    InsertMembers(o.side, if o.side == Buy then s.bids else s.asks, o);
  }

  /** A conversion that would rest, if it does, at a price that does not trigger the stop. */
  predicate Harmless(converted: Order, stop: Order) {
    converted.ordType == StopMarket || !Triggers(stop, converted.price)
  }

  lemma {:induction false} SubmitDeaf(s: BookState, converted: Order, stop: Order)
    requires Deaf(stop, s) && !Accumulating(s) && Harmless(converted, stop)
    ensures var x := Submit(s, Convert(converted)).state; Deaf(stop, x) && x.phase == s.phase
  {
    hide Deaf, Sweeping, Triggers, Rest, Refuses;
    var request := Convert(converted);
    var o, s1 := Admit(s, request), Numbered(s);
    SubmitCases(s, request);
    assert Deaf(stop, s1) by { Numberless(s, stop); }
    if !Refuses(s1, o) {
      SweepingDeaf(s1, o, stop);
      SweepingKeeps(s1, o);
      var m := Sweeping(s1, o);
      RestKeeps(m.state, m.order.(status := New));
      RestKeeps(m.state, m.order.(status := PartiallyFilled));
      if o.ordType != Market {
        RestDeaf(m.state, m.order.(status := New), stop);
        RestDeaf(m.state, m.order.(status := PartiallyFilled), stop);
      }
    }
  }

  lemma {:induction false} Numberless(s: BookState, stop: Order)
    requires Deaf(stop, s)
    ensures Deaf(stop, Numbered(s))
  {
  }

  lemma {:induction false} SweepingKeeps(s: BookState, o: Order)
    ensures var m := Sweeping(s, o);
            m.state.phase == s.phase && m.order == o.(remainingQty := m.order.remainingQty)
  {
  }

  lemma {:induction false} RestKeeps(s: BookState, o: Order)
    ensures Rest(s, o).phase == s.phase && Rest(s, o).lastTradePrice == s.lastTradePrice
  {
  }

  lemma {:induction false} SubmitAllDeaf(s: BookState, stops: seq<Order>, stop: Order)
    requires Deaf(stop, s) && !Accumulating(s) && forall o :: o in stops ==> Harmless(o, stop)
    ensures !Triggers(stop, SubmitAll(s, stops).state.lastTradePrice)
    decreases stops
  {
    hide Submit, Convert;
    if stops == [] {
    } else {
      assert stops[0] in stops;
      SubmitDeaf(s, stops[0], stop);
      SubmitAllDeaf(Submit(s, Convert(stops[0])).state, stops[1..], stop);
    }
  }

  /** Outside continuous trading nothing trades. */
  lemma {:induction false} QuietKeepsPrice(s: BookState, stops: seq<Order>)
    requires s.phase != CTS
    ensures SubmitAll(s, stops).state.lastTradePrice == s.lastTradePrice
    decreases stops
  {
    hide Submit, Convert;
    if stops == [] {
    } else {
      QuietSubmit(s, stops[0]);
      QuietKeepsPrice(Submit(s, Convert(stops[0])).state, stops[1..]);
    }
  }

  lemma {:induction false} QuietSubmit(s: BookState, stop: Order)
    requires s.phase != CTS
    ensures var x := Submit(s, Convert(stop)).state; x.phase == s.phase && x.lastTradePrice == s.lastTradePrice
  {
    SubmitCases(s, Convert(stop));
  }

  /** However many stops a pass converts: it leaves none behind that is triggerable at the new last
      trade price if every stop that stays is deaf to the book and to the limits of the converted
      stops. While orders accumulate it need only be deaf to the old last price. */
  lemma {:induction false} PassLeavesNone(s: BookState, price: int)
    requires forall stop :: stop in s.stops && !Triggers(stop, price) ==>
               if Accumulating(s) then !Triggers(stop, s.lastTradePrice)
               else Deaf(stop, s) && forall o :: o in s.stops && Triggers(o, price) ==> Harmless(o, stop)
    ensures LeavesNone(Trigger(s, price).state)
  {
    hide Submit, Triggers;
    var hit, s1 := Select(s.stops, price, true), s.(stops := Select(s.stops, price, false));
    SelectMembers(s.stops, price, true);
    SelectMembers(s.stops, price, false);
    SubmitAllConverted(s1, hit);
    forall stop | stop in s1.stops ensures !Triggers(stop, Trigger(s, price).state.lastTradePrice) {
      if Accumulating(s) {
        QuietKeepsPrice(s1, hit);
      } else {
        assert Deaf(stop, s1) by { assert Deaf(stop, s); }
        SubmitAllDeaf(s1, hit, stop);
      }
    }
  }

  // ----- The exact condition for one stop -------------------------------------------------------------

  /** A sweep reaches the order at position `k`: its price is acceptable, and what stands ahead of
      it does not use the quantity up. */
  predicate Reached(bd: Bound, qty: nat, book: seq<Order>, k: nat) {
    k < |book| && Within(bd, book[k].price) && Reachable(bd, book[..k]) < qty
  }

  lemma {:induction false} ReachedIff(side: Side, bd: Bound, qty: nat, book: seq<Order>, k: nat)
    requires InPriority(side, book) && Faces(bd, side)
    ensures k < |Match(bd, qty, book).hits| <==> Reached(bd, qty, book, k)
  {
    hide Match, InPriority, Faces, Reachable;
    if qty == 0 || book == [] || !Within(bd, book[0].price) {
      MatchNothing(bd, qty, book);
      if k < |book| && !Within(bd, book[0].price) {
        assert forall o :: o in book ==> !Within(bd, o.price) by { BeyondBound(side, bd, book); }
        assert book[k] in book;
      }
    } else {
      var t: nat := Min(qty, book[0].remainingQty);
      MatchUnfold(bd, qty, book);
      if k == 0 {
        assert Reachable(bd, book[..0]) == 0 by { NothingReachable(bd, book[..0]); }
      } else {
        assert InPriority(side, book[1..]) by { PriorityTail(side, book); }
        ReachedIff(side, bd, qty - t, book[1..], k - 1);
        if k < |book| { ReachableFront(bd, book, k); }
      }
    }
  }

  /** The conversion is turned away, or only accumulates: it cannot trade. */
  predicate Blocked(s: BookState, o: Order) {
    Accumulating(s) || Refuses(s, o)
  }

  /** The last trade price once the order has been handled is the price of the last order it
      reaches, if it reaches any. */
  lemma {:induction false} PriceAfter(s: BookState, request: Order, k: nat)
    requires WellFormed(s) && !IsStop(request)
    ensures var o, x := Admit(s, request), Submit(s, request).state;
            var book, bd := Facing(s, o.side), BoundOf(o);
            && (Blocked(s, o) || !Reached(bd, o.quantity, book, 0) ==> x.lastTradePrice == s.lastTradePrice)
            && (!Blocked(s, o) && Reached(bd, o.quantity, book, k) && !Reached(bd, o.quantity, book, k + 1) ==>
                  x.lastTradePrice == book[k].price)
  {
    hide Match, WellFormed, Reached, Refuses, FillsOf, LastPrice;
    var o, s1 := Admit(s, request), Numbered(s);
    var book, bd := Facing(s, o.side), BoundOf(o);
    SubmitCases(s, request);
    SameGuards(s, o);
    if !Blocked(s, o) {
      FacingInPriority(s, o.side);
      var m := Match(bd, o.quantity, book);
      ReachedIff(Opposite(o.side), bd, o.quantity, book, 0);
      ReachedIff(Opposite(o.side), bd, o.quantity, book, k);
      ReachedIff(Opposite(o.side), bd, o.quantity, book, k + 1);
      LastHitPrice(o, m.hits, s.lastTradePrice);
      if k < |m.hits| { MatchHit(bd, o.quantity, book, k); }
      SettlePrice(Sweeping(s1, o));
    }
  }

  lemma {:induction false} SameGuards(s: BookState, o: Order)
    ensures Refuses(Numbered(s), o) == Refuses(s, o) && Accumulating(Numbered(s)) == Accumulating(s)
  {
  }

  lemma {:induction false} SettlePrice(m: Submission)
    ensures Settle(m).state.lastTradePrice == m.state.lastTradePrice
  {
  }

  lemma {:induction false} FacingInPriority(s: BookState, side: Side)
    requires WellFormed(s)
    ensures InPriority(Opposite(side), Facing(s, side))
  {
  }

  /** The stop is not triggered by the price of the last order a sweep reaches or, if it reaches none
      or does not take place, by the old last price. */
  ghost predicate Spared(stop: Order, last: int, blocked: bool, bd: Bound, qty: nat, book: seq<Order>) {
    && (blocked || !Reached(bd, qty, book, 0) ==> !Triggers(stop, last))
    && (forall k: nat ::
          !blocked && Reached(bd, qty, book, k) && !Reached(bd, qty, book, k + 1) ==> !Triggers(stop, book[k].price))
  }

  /** The stop is spared by the sweep the order `o` amounts to. */
  ghost predicate Undisturbed(stop: Order, s: BookState, o: Order) {
    Spared(stop, s.lastTradePrice, Blocked(s, o), BoundOf(o), o.quantity, Facing(s, o.side))
  }

  /** Handling an order makes a stop triggerable at the last trade price exactly when it disturbs it. */
  lemma {:induction false} DisturbedIff(s: BookState, request: Order, stop: Order)
    requires WellFormed(s) && !IsStop(request)
    ensures !Triggers(stop, Submit(s, request).state.lastTradePrice) <==> Undisturbed(stop, s, Admit(s, request))
  {
    hide Submit, Triggers, WellFormed, Refuses, Reachable;
    var o := Admit(s, request);
    var book, bd := Facing(s, o.side), BoundOf(o);
    PriceAfter(s, request, 0);
    forall k: nat | !Blocked(s, o) && Reached(bd, o.quantity, book, k) && !Reached(bd, o.quantity, book, k + 1)
      ensures Submit(s, request).state.lastTradePrice == book[k].price
    {
      PriceAfter(s, request, k);
    }
    if !Blocked(s, o) && Reached(bd, o.quantity, book, 0) {
      var k := LastReached(bd, o.quantity, book);
    }
  }

  /** Exactly when a pass that converts one stop, of whatever kind, leaves no stop behind that is
      triggerable at the new last trade price: when it disturbs none of those that stay. */
  lemma {:induction false} OneStopLeavesNoneIff(s: BookState, price: int, stop: Order)
    requires WellFormed(s) && Select(s.stops, price, true) == [stop]
    ensures LeavesNone(Trigger(s, price).state)
       <==> (forall p :: p in s.stops && !Triggers(p, price) ==> Undisturbed(p, s, Admit(s, Convert(stop))))
  {
    hide Submit, Triggers, WellFormed, Undisturbed;
    var s1, o := s.(stops := Select(s.stops, price, false)), Admit(s, Convert(stop));
    SelectMembers(s.stops, price, true);
    SelectMembers(s.stops, price, false);
    SubmitAllConverted(s1, [stop]);
    SubmitOne(s1, stop);
    UnparkedWellFormed(s, price);
    forall p ensures !Triggers(p, Trigger(s, price).state.lastTradePrice) <==> Undisturbed(p, s, o) {
      DisturbedIff(s1, Convert(stop), p);
      SameDisturbance(s, s1.stops, o, p);
    }
  }

  lemma {:induction false} SameDisturbance(s: BookState, stops: seq<Order>, o: Order, stop: Order)
    ensures Undisturbed(stop, s.(stops := stops), o) == Undisturbed(stop, s, o)
  {
    SameBlock(s, stops, o);
  }

  lemma {:induction false} SameBlock(s: BookState, stops: seq<Order>, o: Order)
    ensures Blocked(s.(stops := stops), o) == Blocked(s, o)
  {
  }

  lemma {:induction false} LastReached(bd: Bound, qty: nat, book: seq<Order>) returns (k: nat)
    requires Reached(bd, qty, book, 0)
    ensures Reached(bd, qty, book, k) && !Reached(bd, qty, book, k + 1)
  {
    k := 0;
    while Reached(bd, qty, book, k + 1)
      invariant Reached(bd, qty, book, k)
      decreases |book| - k
    {
      k := k + 1;
    }
  }

  // ----- The exact condition for market stops of one side ---------------------------------------------

  /** The last trade price after a sweep. */
  function PriceOf(bd: Bound, qty: nat, book: seq<Order>, last: int): int {
    var hits := Match(bd, qty, book).hits;
    if hits == [] then last else hits[|hits| - 1].resting.price
  }

  lemma {:induction false} PriceOfStep(bd: Bound, qty: nat, book: seq<Order>, last: int)
    ensures qty == 0 || book == [] || !Within(bd, book[0].price) ==> PriceOf(bd, qty, book, last) == last
    ensures qty > 0 && book != [] && Within(bd, book[0].price) ==>
              PriceOf(bd, qty, book, last)
              == PriceOf(bd, qty - Min(qty, book[0].remainingQty), book[1..], book[0].price)
  {
    hide Match;
    if qty == 0 || book == [] || !Within(bd, book[0].price) {
      MatchNothing(bd, qty, book);
    } else {
      MatchUnfold(bd, qty, book);
    }
  }

  /** Two sweeps in a row end at the price of one sweep for both. */
  lemma {:induction false} SweepsAddUp(bd: Bound, first: nat, second: nat, book: seq<Order>, last: int)
    ensures PriceOf(bd, first + second, book, last)
         == PriceOf(bd, second, Match(bd, first, book).book, PriceOf(bd, first, book, last))
    decreases book
  {
    hide Match, PriceOf;
    PriceOfStep(bd, first, book, last);
    if first == 0 || book == [] || !Within(bd, book[0].price) {
      MatchNothing(bd, first, book);
      PriceOfStep(bd, first + second, book, last);
      PriceOfStep(bd, second, book, last);
    } else {
      var b, rest := book[0], book[1..];
      PriceOfStep(bd, first + second, book, last);
      MatchFirst(bd, first, book);
      if b.remainingQty <= first {
        SweepsAddUp(bd, first - b.remainingQty, second, rest, b.price);
      } else {
        var left := [Residue(b, first)] + rest;
        assert left[1..] == rest && left[0].remainingQty == b.remainingQty - first;
        PriceOfStep(bd, second, left, b.price);
        PriceOfStep(bd, 0, rest, b.price);
      }
    }
  }

  /** A market stop of the side, whose conversion takes what there is. */
  predicate MarketStop(stop: Order, side: Side) {
    stop.ordType == StopMarket && stop.side == side && stop.tif != FOK
  }

  lemma {:induction false} MarketConversion(s: BookState, stop: Order, side: Side)
    requires !Accumulating(s) && !s.phase.Closed? && MarketStop(stop, side)
    ensures var x, m := Submit(s, Convert(stop)).state, Match(Unbounded, stop.remainingQty, Facing(s, side));
            && x.phase == s.phase && Facing(x, side) == m.book
            && x.lastTradePrice == PriceOf(Unbounded, stop.remainingQty, Facing(s, side), s.lastTradePrice)
  {
    hide Match;
    var o := Admit(s, Convert(stop));
    SubmitCases(s, Convert(stop));
    LastHitPrice(o, Match(Unbounded, o.quantity, Facing(s, side)).hits, s.lastTradePrice);
  }

  lemma {:induction false} MarketConversions(s: BookState, stops: seq<Order>, side: Side)
    requires !Accumulating(s) && !s.phase.Closed? && forall o :: o in stops ==> MarketStop(o, side)
    ensures SubmitAll(s, stops).state.lastTradePrice
         == PriceOf(Unbounded, Qty(stops), Facing(s, side), s.lastTradePrice)
    decreases stops
  {
    hide Submit, Convert, PriceOf, Match;
    if stops == [] {
      PriceOfStep(Unbounded, 0, Facing(s, side), s.lastTradePrice);
    } else {
      var q := stops[0].remainingQty;
      assert stops[0] in stops;
      MarketConversion(s, stops[0], side);
      MarketConversions(Submit(s, Convert(stops[0])).state, stops[1..], side);
      SweepsAddUp(Unbounded, q, Qty(stops[1..]), Facing(s, side), s.lastTradePrice);
    }
  }

  lemma {:induction false} SparedIff(side: Side, bd: Bound, qty: nat, book: seq<Order>, last: int, stop: Order)
    requires InPriority(side, book) && Faces(bd, side)
    ensures !Triggers(stop, PriceOf(bd, qty, book, last)) <==> Spared(stop, last, false, bd, qty, book)
  {
    hide Match, InPriority, Faces, Triggers, Reachable;
    var n := |Match(bd, qty, book).hits|;
    forall k: nat ensures k < n <==> Reached(bd, qty, book, k) { ReachedIff(side, bd, qty, book, k); }
    if n > 0 {
      MatchHit(bd, qty, book, n - 1);
      assert Reached(bd, qty, book, n - 1) && !Reached(bd, qty, book, n);
    }
  }

  /** Exactly when a pass that converts any number of market stops of one side in a trading phase
      leaves nothing behind: when it spares every stop that stays, as one sweep for their total. */
  lemma {:induction false} MarketStopsLeaveNoneIff(s: BookState, price: int, side: Side)
    requires WellFormed(s) && !Accumulating(s) && !s.phase.Closed?
    requires forall o :: o in s.stops && Triggers(o, price) ==> MarketStop(o, side)
    ensures LeavesNone(Trigger(s, price).state)
       <==> (forall p :: p in s.stops && !Triggers(p, price) ==>
               Spared(p, s.lastTradePrice, false, Unbounded, Qty(Select(s.stops, price, true)), Facing(s, side)))
  {
    hide Submit, Triggers, WellFormed, Spared, PriceOf, InPriority;
    var hit, s1 := Select(s.stops, price, true), s.(stops := Select(s.stops, price, false));
    SelectMembers(s.stops, price, true);
    SelectMembers(s.stops, price, false);
    SubmitAllConverted(s1, hit);
    MarketConversions(s1, hit, side);
    FacingInPriority(s, side);
    forall p ensures !Triggers(p, Trigger(s, price).state.lastTradePrice)
                <==> Spared(p, s.lastTradePrice, false, Unbounded, Qty(hit), Facing(s, side)) {
      SparedIff(Opposite(side), Unbounded, Qty(hit), Facing(s, side), s.lastTradePrice, p);
    }
  }

  // ----- The exact condition for stops of one side ------------------------------------------------------

  /** What the conversion of a stop takes from the side it faces: nothing if it is to be filled at
      once or not at all and cannot be. */
  function TakenBy(stop: Order, book: seq<Order>): Sweep {
    var o := Convert(stop);
    if o.tif == FOK && Reachable(BoundOf(o), book) < o.quantity then Sweep(o.quantity, book, [])
    else Match(BoundOf(o), o.quantity, book)
  }

  /** The last trade price when stops of one side take what they can from the other, one after the
      other; what is left of them joins their own side and does not matter. */
  function PassPrice(stops: seq<Order>, book: seq<Order>, last: int): int
    decreases stops
  {
    if stops == [] then last
    else
      var m := TakenBy(stops[0], book);
      PassPrice(stops[1..], m.book, if m.hits == [] then last else m.hits[|m.hits| - 1].resting.price)
  }

  lemma {:induction false} SideConversion(s: BookState, stop: Order)
    requires s.phase == CTS
    ensures var x, m := Submit(s, Convert(stop)).state, TakenBy(stop, Facing(s, stop.side));
            && x.phase == CTS && Facing(x, stop.side) == m.book
            && x.lastTradePrice
               == if m.hits == [] then s.lastTradePrice else m.hits[|m.hits| - 1].resting.price
  {
    hide Match, Reachable, FillsOf, LastPrice;
    var o := Admit(s, Convert(stop));
    SubmitCases(s, Convert(stop));
    LastHitPrice(o, TakenBy(stop, Facing(s, stop.side)).hits, s.lastTradePrice);
  }

  lemma {:induction false} SideConversions(s: BookState, stops: seq<Order>, side: Side)
    requires s.phase == CTS && forall o :: o in stops ==> o.side == side
    ensures SubmitAll(s, stops).state.lastTradePrice == PassPrice(stops, Facing(s, side), s.lastTradePrice)
    decreases stops
  {
    hide Submit, Convert, TakenBy;
    if stops == [] {
    } else {
      assert stops[0] in stops;
      SideConversion(s, stops[0]);
      SideConversions(Submit(s, Convert(stops[0])).state, stops[1..], side);
    }
  }

  /** Exactly when a pass that converts any number of stops of one side, of whatever kinds, or a pass
      outside continuous trading, leaves nothing behind: when none of the stops that stay is
      triggered by the price at which these sweeps of the facing side end. */
  lemma {:induction false} OneSideLeavesNoneIff(s: BookState, price: int, side: Side)
    requires s.phase == CTS ==> forall o :: o in s.stops && Triggers(o, price) ==> o.side == side
    ensures var hit, last := Select(s.stops, price, true), s.lastTradePrice;
            var end := if s.phase == CTS then PassPrice(hit, Facing(s, side), last) else last;
            && (LeavesNone(Trigger(s, price).state)
                <==> (forall p :: p in s.stops && !Triggers(p, price) ==> !Triggers(p, end)))
  {
    hide Submit, Triggers, PassPrice;
    var hit, s1 := Select(s.stops, price, true), s.(stops := Select(s.stops, price, false));
    SelectMembers(s.stops, price, true);
    SelectMembers(s.stops, price, false);
    SubmitAllConverted(s1, hit);
    if s.phase == CTS { SideConversions(s1, hit, side); } else { QuietKeepsPrice(s1, hit); }
  }
}
