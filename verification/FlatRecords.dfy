/** What the order records of the dashboard's engine state: the truth about their orders, after every run. */
module FlatRecords {
  import opened Types
  import opened PriceTime
  import opened Runs
  import opened Safety
  import opened Twin
  import F = FlatEngine

  /** The status of a record says how much of its order is left. */
  predicate Right(t: F.Ticket) {
    && (t.status == New ==> t.remainingQty == t.quantity)
    && (t.status == PartiallyFilled ==> 0 < t.remainingQty < t.quantity)
    && (t.status == Filled ==> t.remainingQty == 0)
  }

  /** No entry is empty, every record is right, and every live one states what its entry holds. */
  ghost predicate Stated(s: F.FlatState) {
    && (forall e :: e in s.bids || e in s.asks ==> e.remainingQty > 0)
    && (forall t :: t in s.orders ==> Right(t))
    && (forall t :: t in s.orders && F.Live(t) ==>
          F.Entry(t.orderId, t.price, t.remainingQty, t.side) in ListOf(s, t.side))
  }

  // ----- One turn of the loop ----------------------------------------------------------------------

  lemma {:induction false} MarkOrigin(ts: seq<F.Ticket>, id: nat, rem: nat, x: F.Ticket)
    requires DistinctTickets(ts) && x in F.Mark(ts, id, rem)
    ensures if x.orderId == id
            then exists y :: y in ts && y.orderId == id
                             && x == y.(status := if rem == 0 then Filled else PartiallyFilled, remainingQty := rem)
            else x in ts
  {
    var st := if rem == 0 then Filled else PartiallyFilled;
    if ts[0].orderId == id {
      if x != ts[0].(status := st, remainingQty := rem) {
        assert x in ts[1..] && x.orderId in TicketIds(ts[1..]);
      }
    } else if x != ts[0] {
      MarkOrigin(ts[1..], id, rem, x);
      if x.orderId == id {
        var y :| y in ts[1..] && y.orderId == id && x == y.(status := st, remainingQty := rem);
        assert y in ts;
      }
    }
  }

  lemma {:induction false} OneEntry(es: seq<F.Entry>, a: F.Entry, b: F.Entry)
    requires DistinctEntries(es) && a in es && b in es && a.orderId == b.orderId
    ensures a == b
  {
    if a == es[0] || b == es[0] {
      assert forall x :: x in es[1..] ==> x.orderId in EntryIds(es[1..]);
    } else {
      OneEntry(es[1..], a, b);
    }
  }

  /** The record of the entry at the front of a side. */
  lemma {:induction false} FrontRecord(s: F.FlatState, side: Side, t: F.Ticket)
    requires Register(s) && Stated(s) && ListOf(s, side) != []
    requires t in s.orders && t.orderId == ListOf(s, side)[0].orderId
    ensures var e := ListOf(s, side)[0];
            F.Live(t) && e == F.Entry(t.orderId, t.price, t.remainingQty, t.side) && t.side == side
  {
    hide DistinctTickets, DistinctEntries;
    var e := ListOf(s, side)[0];
    assert e in ListOf(s, side) && e.orderId in EntryIds(ListOf(s, side));
    assert Recorded(s.orders, e.orderId, side) && Recorded(s.orders, e.orderId, t.side);
    SameSide(s.orders, e.orderId, side, t.side);
    OneEntry(ListOf(s, side), e, F.Entry(t.orderId, t.price, t.remainingQty, t.side));
  }

  lemma {:induction false} TurnStated(s: F.FlatState, t: F.Ticket)
    requires Register(s) && Stated(s) && F.Facing(s, t.side) != [] && t.remainingQty > 0
    ensures Stated(F.Turned(s, t))
  {
    hide Register, F.Mark, Right;
    var side, es := Opposite(t.side), F.Facing(s, t.side);
    var rem := Monus(es[0].remainingQty, F.HitOf(s, t).qty);
    var e, s1 := es[0].(remainingQty := rem), F.Turned(s, t);
    assert es == ListOf(s, side) && ListOf(s1, side) == F.KeepEntry(e) + es[1..];
    assert es[0] in es && rem < es[0].remainingQty;
    forall x | x in s1.orders
      ensures Right(x)
      ensures F.Live(x) ==> F.Entry(x.orderId, x.price, x.remainingQty, x.side) in ListOf(s1, x.side)
    {
      RecordsDistinct(s);
      MarkOrigin(s.orders, e.orderId, rem, x);
      if x.orderId == e.orderId {
        var y :| y in s.orders && y.orderId == e.orderId
                 && x == y.(status := if rem == 0 then Filled else PartiallyFilled, remainingQty := rem);
        FrontRecord(s, side, y);
        RightAfter(y, x, rem);
      } else if F.Live(x) {
        var ex := F.Entry(x.orderId, x.price, x.remainingQty, x.side);
        if x.side == side { assert ex in es && ex != es[0] && ex in es[1..]; }
      }
    }
  }

  lemma {:induction false} RecordsDistinct(s: F.FlatState)
    requires Register(s)
    ensures DistinctTickets(s.orders)
  {
  }

  lemma {:induction false} RightAfter(y: F.Ticket, x: F.Ticket, rem: nat)
    requires Right(y) && F.Live(y) && rem < y.remainingQty
    requires x == y.(status := if rem == 0 then Filled else PartiallyFilled, remainingQty := rem)
    ensures Right(x) && (F.Live(x) <==> rem > 0)
  {
  }

  lemma {:induction false} SweptStated(s: F.FlatState, t: F.Ticket)
    requires Register(s) && Stated(s)
    ensures Stated(F.Swept(s, t).state)
    decreases |F.Facing(s, t.side)|, t.remainingQty
  {
    hide Register, Stated, F.Swept, F.Turned, F.TurnedTicket;
    if t.remainingQty > 0 && F.Facing(s, t.side) != [] && Within(F.BoundFor(t), F.Facing(s, t.side)[0].price) {
      F.SweptStep(s, t);
      F.TurnShrinks(s, t);
      TurnRegister(s, t);
      TurnStated(s, t);
      SweptStated(F.Turned(s, t), F.TurnedTicket(s, t));
    } else {
      F.SweptOver(s, t);
    }
  }

  // ----- One order ----------------------------------------------------------------------------------

  lemma {:induction false} ShadowsPositive(es: seq<F.Entry>)
    requires forall e :: e in es ==> e.remainingQty > 0
    ensures PositiveSide(F.Shadows(es), false)
  {
    if es == [] {
    } else {
      ShadowsPositive(es[1..]);
      assert es[0] in es;
    }
  }

  /** The record an order leaves the loop with. */
  lemma {:induction false} SweptRight(s: F.FlatState, t: F.Ticket)
    requires Stated(s) && t.status == New && t.remainingQty == t.quantity
    ensures var x := F.Swept(s, t).ticket;
            && x == t.(remainingQty := x.remainingQty, status := x.status)
            && (x.remainingQty > 0 ==> Right(x) && F.Live(x))
  {
    hide Match;
    var es := F.Facing(s, t.side);
    ShadowsPositive(es);
    HitsFill(F.BoundFor(t), t.remainingQty, F.Shadows(es));
  }

  lemma {:induction false} RestStated(s: F.FlatState, t: F.Ticket)
    requires Register(s) && Stated(s) && Right(t) && F.Live(t) && t.remainingQty > 0
    requires forall x :: x in s.orders ==> x.orderId != t.orderId
    ensures Stated(F.Rested(s, t))
  {
    hide DistinctTickets, DistinctEntries, F.StableSort;
    var es, e, s1 := ListOf(s, t.side), F.EntryFor(t), F.Rested(s, t);
    assert !Recorded(s.orders, t.orderId, t.side);
    assert t.orderId !in EntryIds(es);
    DistinctAppend(es, e);
    SortDistinct(t.side, es + [e]);
  }

  lemma {:induction false} SubmittedStated(s: F.FlatState, side: Side, orderType: OrderType, price: int, quantity: nat,
          tif: TimeInForce)
    requires Register(s) && Stated(s)
    ensures Stated(F.Submitted(s, side, orderType, price, quantity, tif).state)
  {
    hide Register, Stated, F.Swept, F.Rested, Match;
    var s1 := Bump(s);
    var t := F.Ticket(s.nextOrderId, side, orderType, price, quantity, quantity, New, tif);
    BumpRegister(s);
    assert Stated(s1) by { BumpStated(s); }
    SweptStated(s1, t);
    SweptRegister(s1, t);
    SweptRight(s1, t);
    SweptTickets(s1, t);
    var y := F.Swept(s1, t);
    if y.ticket.remainingQty > 0 { RestStated(y.state, y.ticket); }
  }

  lemma {:induction false} BumpStated(s: F.FlatState)
    requires Stated(s)
    ensures Stated(Bump(s))
  {
  }

  lemma {:induction false} DropOthers(es: seq<F.Entry>, id: nat)
    ensures forall e :: e in es && e.orderId != id ==> e in F.Drop(es, id)
    ensures forall e :: e in F.Drop(es, id) ==> e in es
  {
    if es == [] {
    } else {
      DropOthers(es[1..], id);
    }
  }

  lemma {:induction false} CancelledStated(s: F.FlatState, id: nat)
    requires Register(s) && Stated(s)
    ensures Stated(F.CancelledState(s, id))
  {
    hide DistinctEntries, DistinctTickets, F.Drop;
    var i := F.FindLive(s.orders, id);
    if i < |s.orders| {
      var t := s.orders[i].(status := Cancelled);
      ReplaceTicket(s.orders, i, t);
      DropOthers(ListOf(s, t.side), id);
    }
  }

  // ----- Every run ----------------------------------------------------------------------------------

  lemma {:induction false} RunStated(w: World, f: F.FlatState, commands: seq<Command>)
    requires Twins(w.book, f) && Stated(f) && f.trades == MirrorTrades(w.trades)
    requires forall k :: k in commands ==> Shared(k)
    ensures Stated(FlatRun(f, commands)) && Register(FlatRun(f, commands))
    decreases commands
  {
    hide Twins, Step, Stated, Register, F.Submitted, F.CancelledState;
    assert Register(f) by { TwinsRegister(w, f); }
    if commands == [] {
    } else {
      var k := commands[0];
      assert k in commands;
      TwinStep(w, f, k);
      match k {
        case Enter(o) => SubmittedStated(f, o.side, o.ordType, o.price, o.quantity, o.tif);
        case CancelId(id) => CancelledStated(f, id + SHIFT);
      }
      RunStated(Step(w, k), FlatStep(f, k), commands[1..]);
    }
  }

  lemma {:induction false} TwinsRegister(w: World, f: F.FlatState)
    requires Twins(w.book, f)
    ensures Register(f)
  {
  }

  /** After every stream of orders and cancellations: a record is live exactly when its order is in the list
      of its side, and then states its price and remaining quantity; New means untouched, partially filled
      that something is left and something traded, filled that nothing is left. */
  lemma {:induction false} RecordsAreRight(commands: seq<Command>)
    requires forall k :: k in commands ==> Shared(k)
    ensures var f := FlatRun(FlatStart(), commands);
            forall t :: t in f.orders ==>
              && (t.status == New ==> t.remainingQty == t.quantity)
              && (t.status == PartiallyFilled ==> 0 < t.remainingQty < t.quantity)
              && (t.status == Filled ==> t.remainingQty == 0)
              && (t.status == New || t.status == PartiallyFilled ==>
                    F.Entry(t.orderId, t.price, t.remainingQty, t.side) in (if t.side == Buy then f.bids else f.asks))
              && (t.status == Filled || t.status == Cancelled ==>
                    forall e :: e in (if t.side == Buy then f.bids else f.asks) ==> e.orderId != t.orderId)
  {
    var f := FlatRun(FlatStart(), commands);
    assert Twins(Start(0).book, FlatStart());
    RunStated(Start(0), FlatStart(), commands);
    forall t, e | t in f.orders && !F.Live(t) && e in ListOf(f, t.side) ensures e.orderId != t.orderId {
      assert e.orderId in EntryIds(ListOf(f, t.side));
    }
  }
}
