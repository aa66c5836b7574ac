/** The agreement of the two matching engines (`Book` and the dashboard's). The levelled book is the
    fast form, the flat sorted lists are the simple one. Both refine one greedy sweep, so their
    trades, books and answers agree, up to a shift of the order ids. */
module Twin {
  import opened Types
  import opened PriceTime
  import opened Tape
  import opened BookSpec
  import opened Accounts
  import opened Runs
  import opened Safety
  import F = FlatEngine

  /** The flat engine counts order ids from 1000, the levelled one from 1. */
  const SHIFT: nat := 999

  function Mirror(o: Order): F.Entry {
    F.Entry(o.orderId + SHIFT, o.price, o.remainingQty, o.side)
  }

  function Mirrors(book: seq<Order>): seq<F.Entry> {
    if book == [] then [] else [Mirror(book[0])] + Mirrors(book[1..])
  }

  function MirrorHits(hits: seq<Hit>): seq<Hit> {
    if hits == [] then [] else [Hit(F.Shadow(Mirror(hits[0].resting)), hits[0].qty)] + MirrorHits(hits[1..])
  }

  function MirrorTrade(t: Trade): F.Deal {
    F.Deal(t.tradeId, t.price, t.quantity, t.buyOrderId + SHIFT, t.sellOrderId + SHIFT)
  }

  function MirrorTrades(trades: seq<Trade>): seq<F.Deal> {
    if trades == [] then [] else [MirrorTrade(trades[0])] + MirrorTrades(trades[1..])
  }

  lemma {:induction false} MirrorTradesConcat(a: seq<Trade>, b: seq<Trade>)
    ensures MirrorTrades(a + b) == MirrorTrades(a) + MirrorTrades(b)
    ensures |MirrorTrades(a)| == |a|
  {
    if a == [] {
      assert a + b == b;
    } else {
      assert (a + b)[1..] == a[1..] + b;
      MirrorTradesConcat(a[1..], b);
    }
  }

  // ----- The sweep does not see the difference ------------------------------------------------------

  lemma {:induction false} MirrorFront(book: seq<Order>)
    requires book != []
    ensures var s := F.Shadows(Mirrors(book));
            s != [] && s[0] == F.Shadow(Mirror(book[0])) && s[1..] == F.Shadows(Mirrors(book[1..]))
  {
    F.ShadowFront(Mirrors(book));
    assert Mirrors(book)[1..] == Mirrors(book[1..]);
  }

  lemma {:induction false} ReachMirrors(bd: Bound, book: seq<Order>)
    ensures Reachable(bd, F.Shadows(Mirrors(book))) == Reachable(bd, book)
  {
    if book == [] {
    } else {
      MirrorFront(book);
      ReachMirrors(bd, book[1..]);
    }
  }

  lemma {:induction false} UnshadowMirrors(book: seq<Order>)
    ensures F.Unshadows(F.Shadows(Mirrors(book))) == Mirrors(book)
  {
    F.UnshadowShadows(Mirrors(book));
  }

  lemma {:induction false} MatchMirrors(bd: Bound, qty: nat, book: seq<Order>)
    ensures var m, n := Match(bd, qty, book), Match(bd, qty, F.Shadows(Mirrors(book)));
            n.left == m.left && F.Unshadows(n.book) == Mirrors(m.book) && n.hits == MirrorHits(m.hits)
    decreases book
  {
    var s := F.Shadows(Mirrors(book));
    if book != [] { MirrorFront(book); }
    if qty == 0 || book == [] || !Within(bd, book[0].price) {
      UnshadowMirrors(book);
    } else {
      MatchFirst(bd, qty, book);
      MatchFirst(bd, qty, s);
      var m := Match(bd, qty, book);
      assert m.hits[1..] == if book[0].remainingQty <= qty
          then Match(bd, qty - book[0].remainingQty, book[1..]).hits else [];
      if book[0].remainingQty <= qty {
        MatchMirrors(bd, qty - book[0].remainingQty, book[1..]);
      } else {
        var x := Residue(book[0], qty);
        assert ([x] + book[1..])[1..] == book[1..];
        UnshadowMirrors(book[1..]);
        assert ([Residue(s[0], qty)] + s[1..])[1..] == s[1..];
      }
    }
  }

  /** Deals and trades of the same hits. */
  lemma {:induction false} DealsMirror(sym: nat, o: Order, t: F.Ticket, hits: seq<Hit>, id: nat)
    requires t.orderId == o.orderId + SHIFT && t.side == o.side
    ensures F.Deals(t, MirrorHits(hits), id) == MirrorTrades(TradesOf(sym, FillsOf(Continuous, o, hits), id))
    decreases hits
  {
    if hits == [] {
    } else {
      var o1 := Residue(o, hits[0].qty);
      DealsMirror(sym, o1, t, hits[1..], id + 1);
      assert MirrorHits(hits)[1..] == MirrorHits(hits[1..]);
      assert FillsOf(Continuous, o, hits)[1..] == FillsOf(Continuous, o1, hits[1..]);
      var ts := TradesOf(sym, FillsOf(Continuous, o1, hits[1..]), id + 1);
      assert ([TradeOf(sym, FillOf(Continuous, o, hits[0]), id)] + ts)[1..] == ts;
    }
  }

  // ----- Resting and removing ----------------------------------------------------------------------

  /** Append-and-sort on the flat list is insertion in price-time order. */
  lemma {:induction false} QueueMirrors(book: seq<Order>, o: Order)
    requires InPriority(o.side, book)
    ensures F.Queue(Mirrors(book), Mirror(o)) == Mirrors(Insert(o.side, book, o))
  {
    var es, e := Mirrors(book), Mirror(o);
    if book == [] {
      assert es + [e] == [e];
      assert F.StableSort(o.side, [e]) == [e];
      assert [o][1..] == [];
    } else {
      QueueMirrors(book[1..], o);
      var r := Insert(o.side, book[1..], o);
      assert (es + [e])[1..] == Mirrors(book[1..]) + [e];
      assert F.StableSort(o.side, es + [e]) == F.Place(o.side, Mirrors(r), Mirror(book[0]));
      PlaceBack(o.side, book, o, r);
    }
  }

  lemma {:induction false} PlaceBack(side: Side, book: seq<Order>, o: Order, r: seq<Order>)
    requires book != [] && InPriority(side, book) && r == Insert(side, book[1..], o)
    ensures F.Place(side, Mirrors(r), Mirror(book[0])) == Mirrors(Insert(side, book, o))
  {
    var h, tl := book[0], book[1..];
    if tl != [] { assert tl[0] in tl; }
    if Better(side, o.price, h.price) {
      assert r == [o] + tl;
      assert r[1..] == tl;
      assert ([o] + book)[1..] == book;
      assert Mirrors(r) == [Mirror(o)] + Mirrors(tl);
      assert Mirrors([o] + book) == [Mirror(o)] + ([Mirror(h)] + Mirrors(tl));
      assert ([Mirror(o)] + Mirrors(tl))[1..] == Mirrors(tl);
    } else {
      assert ([h] + r)[1..] == r;
      assert r[0] == o || r[0] == tl[0];
    }
  }

  lemma {:induction false} DropMirrors(book: seq<Order>, id: nat)
    ensures F.Drop(Mirrors(book), id + SHIFT) == Mirrors(RemoveId(book, id))
  {
    if book == [] {
    } else {
      DropMirrors(book[1..], id);
      assert Mirrors(book)[1..] == Mirrors(book[1..]);
      if book[0].orderId != id {
        assert ([book[0]] + RemoveId(book[1..], id))[1..] == RemoveId(book[1..], id);
      }
    }
  }

  // ----- The flat engine's list of records ----------------------------------------------------------

  ghost function EntryIds(es: seq<F.Entry>): set<nat> {
    set e | e in es :: e.orderId
  }

  ghost predicate DistinctEntries(es: seq<F.Entry>) {
    es == [] || (es[0].orderId !in EntryIds(es[1..]) && DistinctEntries(es[1..]))
  }

  ghost function TicketIds(ts: seq<F.Ticket>): set<nat> {
    set t | t in ts :: t.orderId
  }

  ghost predicate DistinctTickets(ts: seq<F.Ticket>) {
    ts == [] || (ts[0].orderId !in TicketIds(ts[1..]) && DistinctTickets(ts[1..]))
  }

  function ListOf(s: F.FlatState, side: Side): seq<F.Entry> {
    if side == Buy then s.bids else s.asks
  }

  /** A record is live exactly while its order rests on its side, and every resting entry has a
      record. */
  ghost predicate Register(s: F.FlatState) {
    && DistinctTickets(s.orders)
    && DistinctEntries(s.bids) && DistinctEntries(s.asks)
    && (forall t :: t in s.orders ==>
        t.orderId < s.nextOrderId && (F.Live(t) <==> t.orderId in EntryIds(ListOf(s, t.side))))
    && (forall id :: id in EntryIds(s.bids) ==> Recorded(s.orders, id, Buy))
    && (forall id :: id in EntryIds(s.asks) ==> Recorded(s.orders, id, Sell))
  }

  ghost predicate Recorded(ts: seq<F.Ticket>, id: nat, side: Side) {
    exists t :: t in ts && t.orderId == id && t.side == side
  }

  /** Marking touches the record with the id and no other. */
  lemma {:induction false} MarkMembers(ts: seq<F.Ticket>, id: nat, rem: nat)
    requires DistinctTickets(ts)
    ensures var ms := F.Mark(ts, id, rem);
            && DistinctTickets(ms) && TicketIds(ms) == TicketIds(ts)
            && (forall t :: t in ms && t.orderId != id ==> t in ts)
            && (forall t :: t in ts && t.orderId != id ==> t in ms)
            && (forall t :: t in ms && t.orderId == id ==>
                t.status == (if rem == 0 then Filled else PartiallyFilled) && Recorded(ts, id, t.side))
            && (forall t :: t in ts && t.orderId == id ==> Recorded(ms, id, t.side))
  {
    if ts == [] {
    } else {
      var tl := ts[1..];
      assert forall t :: t in ts <==> t == ts[0] || t in tl;
      if ts[0].orderId == id {
        var x := ts[0].(status := if rem == 0 then Filled else PartiallyFilled, remainingQty := rem);
        var ms := [x] + tl;
        assert F.Mark(ts, id, rem) == ms && ms[1..] == tl;
        assert forall t :: t in ms <==> t == x || t in tl;
        assert x in ms && ts[0] in ts;
        forall t | t in tl ensures t.orderId != id { assert t.orderId in TicketIds(tl); }
      } else {
        var mtl := F.Mark(tl, id, rem);
        MarkMembers(tl, id, rem);
        var ms := [ts[0]] + mtl;
        assert F.Mark(ts, id, rem) == ms && ms[1..] == mtl;
        assert forall t :: t in ms <==> t == ts[0] || t in mtl;
      }
    }
  }

  /** One turn of the matching loop keeps records and book in step. */
  lemma {:induction false} TurnRegister(s: F.FlatState, t: F.Ticket)
    requires Register(s) && F.Facing(s, t.side) != []
    ensures Register(F.Turned(s, t)) && F.Turned(s, t).nextOrderId == s.nextOrderId
  {
    hide DistinctTickets;
    var es := F.Facing(s, t.side);
    var side := Opposite(t.side);
    var e := es[0].(remainingQty := Monus(es[0].remainingQty, F.HitOf(s, t).qty));
    var es1 := F.KeepEntry(e) + es[1..];
    var s1 := F.Turned(s, t);
    FrontIds(es, e);
    assert es[0] in es && e.orderId in EntryIds(es);
    TurnedRecords(s, t, s1, side, e.orderId, e.remainingQty);
  }

  lemma {:induction false} TurnedRecords(s: F.FlatState, t: F.Ticket, s1: F.FlatState, side: Side, id: nat, rem: nat)
    requires Register(s) && side == Opposite(t.side) && id in EntryIds(ListOf(s, side))
    requires s1.orders == F.Mark(s.orders, id, rem) && s1.nextOrderId == s.nextOrderId
    requires ListOf(s1, t.side) == ListOf(s, t.side) && DistinctEntries(ListOf(s1, side))
    requires EntryIds(ListOf(s1, side)) == if rem == 0 then EntryIds(ListOf(s, side)) - {id}
        else EntryIds(ListOf(s, side))
    ensures Register(s1)
  {
    hide DistinctTickets, DistinctEntries;
    MarkMembers(s.orders, id, rem);
    assert Recorded(s.orders, id, side);
    forall x | x in s1.orders
      ensures x.orderId < s1.nextOrderId && (F.Live(x) <==> x.orderId in EntryIds(ListOf(s1, x.side)))
    {
      if x.orderId == id {
        SameSide(s.orders, id, x.side, side);
      }
    }
    forall i, sd | i in EntryIds(ListOf(s1, sd)) ensures Recorded(s1.orders, i, sd) {
      assert Recorded(s.orders, i, sd);
    }
  }

  lemma {:induction false} FrontIds(es: seq<F.Entry>, e: F.Entry)
    requires es != [] && DistinctEntries(es) && e.orderId == es[0].orderId
    ensures var es1 := F.KeepEntry(e) + es[1..];
            && DistinctEntries(es1)
            && EntryIds(es1) == if e.remainingQty == 0 then EntryIds(es) - {e.orderId} else EntryIds(es)
  {
    var es1 := F.KeepEntry(e) + es[1..];
    assert forall x :: x in es <==> x == es[0] || x in es[1..];
    if e.remainingQty == 0 {
      assert es1 == es[1..];
    } else {
      assert es1[1..] == es[1..];
      assert forall x :: x in es1 <==> x == e || x in es[1..];
      assert e in es1 && es[0] in es;
    }
  }

  /** Distinct records: one id, one side. */
  lemma {:induction false} SameSide(ts: seq<F.Ticket>, id: nat, a: Side, b: Side)
    requires DistinctTickets(ts) && Recorded(ts, id, a) && Recorded(ts, id, b)
    ensures a == b
  {
    if ts == [] {
    } else {
      assert forall t :: t in ts <==> t == ts[0] || t in ts[1..];
      if ts[0].orderId == id {
        forall t | t in ts[1..] ensures t.orderId != id { assert t.orderId in TicketIds(ts[1..]); }
      } else {
        SameSide(ts[1..], id, a, b);
      }
    }
  }

  lemma {:induction false} SweptRegister(s: F.FlatState, t: F.Ticket)
    requires Register(s)
    ensures Register(F.Swept(s, t).state)
    ensures F.Swept(s, t).state.nextOrderId == s.nextOrderId
    decreases |F.Facing(s, t.side)|, t.remainingQty
  {
    hide Register, F.Swept, F.Turned, F.TurnedTicket;
    if t.remainingQty > 0 && F.Facing(s, t.side) != [] && Within(F.BoundFor(t), F.Facing(s, t.side)[0].price) {
      F.SweptStep(s, t);
      F.TurnShrinks(s, t);
      TurnRegister(s, t);
      SweptRegister(F.Turned(s, t), F.TurnedTicket(s, t));
    } else {
      F.SweptOver(s, t);
    }
  }

  lemma {:induction false} QueueIds(es: seq<F.Entry>, e: F.Entry)
    requires DistinctEntries(es) && e.orderId !in EntryIds(es)
    ensures DistinctEntries(F.Queue(es, e)) && EntryIds(F.Queue(es, e)) == EntryIds(es) + {e.orderId}
  {
    hide DistinctEntries;
    F.SortIsStable(e.side, es + [e], 0);
    DistinctAppend(es, e);
    SortDistinct(e.side, es + [e]);
    var q := F.Queue(es, e);
    forall x ensures x in q <==> x == e || x in es {
      assert x in q <==> x in multiset(q);
      assert x in es + [e] <==> x in multiset(es + [e]);
    }
  }

  lemma {:induction false} DistinctAppend(es: seq<F.Entry>, e: F.Entry)
    requires DistinctEntries(es) && e.orderId !in EntryIds(es)
    ensures DistinctEntries(es + [e])
  {
    if es == [] {
    } else {
      assert es[0] in es;
      DistinctAppend(es[1..], e);
      assert (es + [e])[1..] == es[1..] + [e];
    }
  }

  lemma {:induction false} SortDistinct(side: Side, es: seq<F.Entry>)
    requires DistinctEntries(es)
    ensures DistinctEntries(F.StableSort(side, es))
    ensures forall x :: x in F.StableSort(side, es) <==> x in es
  {
    if es == [] {
    } else {
      SortDistinct(side, es[1..]);
      PlaceDistinct(side, F.StableSort(side, es[1..]), es[0]);
      F.PlaceMembers(side, F.StableSort(side, es[1..]), es[0]);
    }
  }

  lemma {:induction false} PlaceDistinct(side: Side, es: seq<F.Entry>, e: F.Entry)
    requires DistinctEntries(es) && e.orderId !in EntryIds(es)
    ensures DistinctEntries(F.Place(side, es, e))
  {
    if es == [] || !Better(side, es[0].price, e.price) {
      assert ([e] + es)[1..] == es;
    } else {
      assert es[0] in es;
      PlaceDistinct(side, es[1..], e);
      F.PlaceMembers(side, es[1..], e);
      assert ([es[0]] + F.Place(side, es[1..], e))[1..] == F.Place(side, es[1..], e);
    }
  }

  lemma {:induction false} TicketAppend(ts: seq<F.Ticket>, t: F.Ticket)
    requires DistinctTickets(ts) && t.orderId !in TicketIds(ts)
    ensures DistinctTickets(ts + [t])
  {
    if ts == [] {
    } else {
      assert ts[0] in ts;
      TicketAppend(ts[1..], t);
      assert (ts + [t])[1..] == ts[1..] + [t];
    }
  }

  /** Resting an order that is new to the records. */
  lemma {:induction false} RestRegister(s: F.FlatState, t: F.Ticket)
    requires Register(s) && t.orderId < s.nextOrderId && F.Live(t)
    requires forall x :: x in s.orders ==> x.orderId != t.orderId
    ensures Register(F.Rested(s, t))
  {
    hide DistinctTickets, DistinctEntries, F.Queue;
    var s1 := F.Rested(s, t);
    TicketAppend(s.orders, t);
    assert !Recorded(s.orders, t.orderId, t.side);
    assert t.orderId !in EntryIds(ListOf(s, t.side));
    QueueIds(ListOf(s, t.side), F.EntryFor(t));
    assert t in s1.orders;
    forall id, sd | id in EntryIds(ListOf(s1, sd)) ensures Recorded(s1.orders, id, sd) {
      if !(id == t.orderId && sd == t.side) { assert Recorded(s.orders, id, sd); }
    }
  }

  lemma {:induction false} DropIds(es: seq<F.Entry>, id: nat)
    requires DistinctEntries(es)
    ensures DistinctEntries(F.Drop(es, id)) && EntryIds(F.Drop(es, id)) == EntryIds(es) - {id}
  {
    if es == [] {
    } else {
      DropIds(es[1..], id);
      assert forall x :: x in es <==> x == es[0] || x in es[1..];
      var d := F.Drop(es[1..], id);
      if es[0].orderId != id {
        assert ([es[0]] + d)[1..] == d;
        assert forall x :: x in [es[0]] + d <==> x == es[0] || x in d;
        assert EntryIds([es[0]] + d) == EntryIds(d) + {es[0].orderId};
      }
    }
  }

  lemma {:induction false} ReplaceTicket(ts: seq<F.Ticket>, i: nat, t: F.Ticket)
    requires DistinctTickets(ts) && i < |ts| && t.orderId == ts[i].orderId && t.side == ts[i].side
    ensures var us := ts[i := t];
            && DistinctTickets(us) && TicketIds(us) == TicketIds(ts)
            && (forall x :: x in us <==> x == t || (x in ts && x.orderId != t.orderId))
            && (forall id, sd :: Recorded(ts, id, sd) ==> Recorded(us, id, sd))
  {
    ReplaceMembers(ts, i, t);
    ReplaceRecorded(ts, i, t);
  }

  lemma {:induction false} ReplaceMembers(ts: seq<F.Ticket>, i: nat, t: F.Ticket)
    requires DistinctTickets(ts) && i < |ts| && t.orderId == ts[i].orderId
    ensures var us := ts[i := t];
            && DistinctTickets(us) && TicketIds(us) == TicketIds(ts)
            && (forall x :: x in us <==> x == t || (x in ts && x.orderId != t.orderId))
  {
    var us := ts[i := t];
    var tl := ts[1..];
    assert forall x :: x in ts <==> x == ts[0] || x in tl;
    if i == 0 {
      assert us[1..] == tl && us[0] == t;
      assert us == [t] + tl;
      forall x | x in tl ensures x.orderId != t.orderId { assert x.orderId in TicketIds(tl); }
    } else {
      ReplaceMembers(tl, i - 1, t);
      assert us[1..] == tl[i - 1 := t];
      assert us == [ts[0]] + us[1..];
      assert tl[i - 1] in tl && t.orderId in TicketIds(tl);
    }
    assert us[i] == t;
  }

  lemma {:induction false} ReplaceRecorded(ts: seq<F.Ticket>, i: nat, t: F.Ticket)
    requires i < |ts| && t.orderId == ts[i].orderId && t.side == ts[i].side
    ensures forall id, sd :: Recorded(ts, id, sd) ==> Recorded(ts[i := t], id, sd)
  {
    var us := ts[i := t];
    forall id, sd | Recorded(ts, id, sd) ensures Recorded(us, id, sd) {
      var x :| x in ts && x.orderId == id && x.side == sd;
      var k :| 0 <= k < |ts| && ts[k] == x;
      assert us[k] in us;
    }
  }

  lemma {:induction false} CancelRegister(s: F.FlatState, id: nat)
    requires Register(s)
    ensures Register(F.CancelledState(s, id))
  {
    hide DistinctTickets, DistinctEntries, F.Drop;
    var i := F.FindLive(s.orders, id);
    if i < |s.orders| {
      var t := s.orders[i].(status := Cancelled);
      ReplaceTicket(s.orders, i, t);
      DropIds(ListOf(s, t.side), id);
      var s1 := F.CancelledState(s, id);
      assert s.orders[i] in s.orders;
      forall x, sd | x in EntryIds(ListOf(s1, sd)) ensures Recorded(s1.orders, x, sd) {
        assert Recorded(s.orders, x, sd);
      }
    }
  }

  // ----- The two engines side by side ------------------------------------------------------------------

  ghost predicate Twins(c: BookState, f: F.FlatState) {
    && WellFormed(c) && c.phase == CTS && c.stops == []
    && PositiveSide(c.bids, false) && PositiveSide(c.asks, false)
    && f.bids == Mirrors(c.bids) && f.asks == Mirrors(c.asks)
    && f.nextOrderId == c.nextOrderId + SHIFT
    && |f.trades| + 1 == c.nextTradeId
    && Register(f)
  }

  /** The flat engine's outcome of a submission mirrors the levelled one's. */
  ghost predicate SameOutcome(x: Submission, y: F.FlatResult) {
    && y.ticket.orderId == x.order.orderId + SHIFT
    && y.ticket.status == x.order.status && y.ticket.remainingQty == x.order.remainingQty
    && y.deals == MirrorTrades(x.trades)
    && y.state.bids == Mirrors(x.state.bids) && y.state.asks == Mirrors(x.state.asks)
  }

  function TicketFor(s: F.FlatState, o: Order): F.Ticket {
    F.Ticket(s.nextOrderId, o.side, o.ordType, o.price, o.quantity, o.quantity, New, o.tif)
  }

  function Bump(f: F.FlatState): F.FlatState {
    f.(nextOrderId := f.nextOrderId + 1)
  }

  lemma {:induction false} BumpRegister(f: F.FlatState)
    requires Register(f)
    ensures Register(Bump(f)) && forall x :: x in f.orders ==> x.orderId < f.nextOrderId
  {
  }

  lemma {:induction false} SweptMirrors(c: BookState, f: F.FlatState, o: Order, t: F.Ticket)
    requires f.bids == Mirrors(c.bids) && f.asks == Mirrors(c.asks) && |f.trades| + 1 == c.nextTradeId
    requires t.orderId == o.orderId + SHIFT && t.side == o.side && t.remainingQty == o.remainingQty
    requires F.BoundFor(t) == BoundOf(o)
    ensures var x, y := Sweeping(c, o), F.Swept(f, t);
            var m := Match(BoundOf(o), o.remainingQty, BookSpec.Facing(c, o.side));
            && y.deals == MirrorTrades(x.trades) && y.ticket.remainingQty == x.order.remainingQty
            && y.state.bids == Mirrors(x.state.bids) && y.state.asks == Mirrors(x.state.asks)
            && y.state.nextOrderId == f.nextOrderId && |y.state.trades| + 1 == x.state.nextTradeId
            && y.ticket == t.(remainingQty := m.left, status := F.StatusAfter(t.status, MirrorHits(m.hits), m.left))
  {
    hide Match;
    var book := BookSpec.Facing(c, o.side);
    var m := Match(BoundOf(o), o.remainingQty, book);
    MatchMirrors(BoundOf(o), o.remainingQty, book);
    DealsMirror(c.symbolIdx, o, t, m.hits, c.nextTradeId);
    var fills := FillsOf(Continuous, o, m.hits);
    MirrorTradesConcat(TradesOf(c.symbolIdx, fills, c.nextTradeId), []);
    TradesLength(c.symbolIdx, fills, c.nextTradeId);
    FillsLength(Continuous, o, m.hits);
  }

  /** Against orders that all have quantity, a sweep hits something exactly when it fills
      something. */
  lemma {:induction false} HitsFill(bd: Bound, qty: nat, book: seq<Order>)
    requires PositiveSide(book, false)
    ensures var m := Match(bd, qty, book); m.left <= qty && (m.hits == [] <==> m.left == qty)
    ensures MirrorHits(Match(bd, qty, book).hits) == [] <==> Match(bd, qty, book).hits == []
  {
    if qty == 0 || book == [] || !Within(bd, book[0].price) {
    } else {
      assert book[0] in book;
      var t: nat := Min(qty, book[0].remainingQty);
      var r := Match(bd, qty - t, book[1..]);
      assert r.left + HitQty(r.hits) == qty - t;
    }
  }

  /** Fill-or-kill orders that get past the check are filled in full. */
  lemma {:induction false} KillOrFill(c: BookState, o: Order)
    requires WellFormed(c) && o.tif == FOK && o.remainingQty == o.quantity
    requires Reachable(BoundOf(o), BookSpec.Facing(c, o.side)) >= o.quantity
    ensures Match(BoundOf(o), o.remainingQty, BookSpec.Facing(c, o.side)).left == 0
  {
    MatchAmount(Opposite(o.side), BoundOf(o), o.remainingQty, BookSpec.Facing(c, o.side));
  }

  /** After matching, the order ends the same way in both engines. */
  lemma {:induction false} TwinSettle(x: Submission, y: F.FlatResult, untouched: bool)
    requires y.ticket == F.Ticket(x.order.orderId + SHIFT, x.order.side, x.order.ordType, x.order.price,
        x.order.quantity,
                                  x.order.remainingQty, y.ticket.status, x.order.tif)
    requires x.order.remainingQty <= x.order.quantity && (untouched <==> x.order.remainingQty == x.order.quantity)
    requires y.ticket.status == if untouched then New else if x.order.remainingQty > 0 then PartiallyFilled else Filled
    requires x.order.tif == FOK ==> x.order.remainingQty == 0
    requires y.deals == MirrorTrades(x.trades)
    requires y.state.bids == Mirrors(x.state.bids) && y.state.asks == Mirrors(x.state.asks)
    requires InPriority(Buy, x.state.bids) && InPriority(Sell, x.state.asks)
    ensures SameOutcome(Settle(x), F.Concluded(y))
    ensures F.Concluded(y).state == if Settle(x).state == x.state then y.state else F.Rested(y.state, y.ticket)
    ensures Settle(x).state != x.state ==> F.Live(y.ticket)
  {
    hide F.Queue, InPriority, Mirrors, Insert;
    var o := x.order;
    if o.remainingQty > 0 && o.ordType != Market && o.tif != IOC {
      var side := if o.side == Buy then x.state.bids else x.state.asks;
      QueueMirrors(side, Settle(x).order);
      LongerBook(o.side, side, Settle(x).order);
    }
  }

  lemma {:induction false} LongerBook(side: Side, book: seq<Order>, o: Order)
    ensures Insert(side, book, o) != book
  {
    InsertLength(side, book, o);
  }

  lemma {:induction false} InsertLength(side: Side, book: seq<Order>, o: Order)
    ensures |Insert(side, book, o)| == |book| + 1
  {
    if book == [] {
    } else {
      InsertLength(side, book[1..], o);
    }
  }

  /** The same order in both engines: same trades, same final status and remaining quantity,
      same books, and the flat engine's records still agree with its book. */
  lemma {:induction false} TwinSubmit(c: BookState, f: F.FlatState, o: Order)
    requires Twins(c, f) && !IsStop(o)
    ensures var x, y := Submit(c, o), F.Submitted(f, o.side, o.ordType, o.price, o.quantity, o.tif);
            SameOutcome(x, y) && Register(y.state) && y.state.nextOrderId == f.nextOrderId + 1
            && |y.state.trades| + 1 == x.state.nextTradeId
  {
    hide WellFormed, Register, Match, F.Queue, PositiveSide, Settle, F.Concluded;
    var a, t := Admit(c, o), TicketFor(f, o);
    var c1, f1 := Numbered(c), Bump(f);
    NextIdWellFormed(c);
    BumpRegister(f);
    var book := BookSpec.Facing(c1, a.side);
    ReachMirrors(BoundOf(a), book);
    if Refuses(c1, a) {
      RefusedBoth(f1, t);
    } else {
      SweptMirrors(c1, f1, a, t);
      HitsFill(BoundOf(a), a.remainingQty, book);
      if a.tif == FOK { KillOrFill(c1, a); }
      var x, y := Sweeping(c1, a), F.Swept(f1, t);
      SweepInPriority(c1, a);
      SweptRegister(f1, t);
      TwinSettle(x, y, x.order.remainingQty == x.order.quantity);
      SettleTradeId(x);
      if Settle(x).state != x.state {
        SweptTickets(f1, t);
        RestRegister(y.state, y.ticket);
      }
    }
  }

  lemma {:induction false} RefusedBoth(f: F.FlatState, t: F.Ticket)
    requires t.remainingQty == t.quantity
    ensures var r := F.FlatResult(f, t.(status := Rejected), []);
            F.Concluded(r).state == f && F.Concluded(r).deals == [] && F.Concluded(r).ticket.orderId == t.orderId
            && F.Concluded(r).ticket.remainingQty == t.quantity
            && (t.quantity > 0 ==> F.Concluded(r).ticket.status == Rejected)
  {
  }

  lemma {:induction false} SettleTradeId(x: Submission)
    ensures Settle(x).state.nextTradeId == x.state.nextTradeId && Settle(x).trades == x.trades
  {
  }

  /** Matching adds no records. */
  lemma {:induction false} SweptTickets(f: F.FlatState, t: F.Ticket)
    requires forall x :: x in f.orders ==> x.orderId != t.orderId
    ensures forall x :: x in F.Swept(f, t).state.orders ==> x.orderId != t.orderId
  {
    var m := Match(F.BoundFor(t), t.remainingQty, F.Shadows(F.Facing(f, t.side)));
    MarkAllTickets(f.orders, m.hits, t.orderId);
  }

  lemma {:induction false} MarkAllTickets(ts: seq<F.Ticket>, hits: seq<Hit>, id: nat)
    requires forall x :: x in ts ==> x.orderId != id
    ensures forall x :: x in F.MarkAll(ts, hits) ==> x.orderId != id
    decreases hits
  {
    if hits == [] {
    } else {
      var i, r := hits[0].resting.orderId, Monus(hits[0].resting.remainingQty, hits[0].qty);
      MarkTickets(ts, i, r, id);
      MarkAllTickets(F.Mark(ts, i, r), hits[1..], id);
    }
  }

  lemma {:induction false} MarkTickets(ts: seq<F.Ticket>, i: nat, rem: nat, id: nat)
    requires forall x :: x in ts ==> x.orderId != id
    ensures forall x :: x in F.Mark(ts, i, rem) ==> x.orderId != id
  {
    if ts == [] || ts[0].orderId == i {
    } else {
      MarkTickets(ts[1..], i, rem, id);
    }
  }

  lemma {:induction false} SweepInPriority(c: BookState, o: Order)
    requires WellFormed(c)
    ensures InPriority(Buy, Sweeping(c, o).state.bids) && InPriority(Sell, Sweeping(c, o).state.asks)
  {
    SweepWellFormed(Continuous, BoundOf(o), c, o);
  }

  // ----- Whole streams --------------------------------------------------------------------------------

  lemma {:induction false} RestQuantities(s: BookState, o: Order)
    requires PositiveSide(s.bids, false) && PositiveSide(s.asks, false) && o.remainingQty > 0
    ensures PositiveSide(Rest(s, o).bids, false) && PositiveSide(Rest(s, o).asks, false)
  {
    InsertMembers(o.side, if o.side == Buy then s.bids else s.asks, o);
  }

  lemma {:induction false} SubmitQuantities(c: BookState, o: Order)
    requires PositiveSide(c.bids, false) && PositiveSide(c.asks, false) && c.phase == CTS && !IsStop(o)
    ensures var s := Submit(c, o).state;
            PositiveSide(s.bids, false) && PositiveSide(s.asks, false) && s.phase == CTS && s.stops == c.stops
  {
    hide PositiveSide, Match;
    var a, c1 := Admit(c, o), Numbered(c);
    if !Refuses(c1, a) {
      var x := Sweeping(c1, a);
      MatchPositive(BoundOf(a), a.remainingQty, BookSpec.Facing(c1, a.side), false);
      if x.order.remainingQty > 0 { RestQuantities(x.state, Settle(x).order); }
    }
  }

  lemma {:induction false} TwinSubmitKeeps(c: BookState, f: F.FlatState, o: Order)
    requires Twins(c, f) && !IsStop(o)
    ensures Twins(Submit(c, o).state, F.Submitted(f, o.side, o.ordType, o.price, o.quantity, o.tif).state)
  {
    hide WellFormed, Register, Submit, F.Submitted, PositiveSide;
    TwinSubmit(c, f, o);
    SubmitWellFormed(c, o);
    SubmitQuantities(c, o);
  }

  /** A record is live in the flat engine exactly when the order rests in the levelled one. */
  lemma {:induction false} LiveIffResting(f: F.FlatState, id: nat)
    requires Register(f)
    ensures var i := F.FindLive(f.orders, id);
            && (i < |f.orders| ==> id in EntryIds(ListOf(f, f.orders[i].side)))
            && (id in EntryIds(f.bids) ==> i < |f.orders| && f.orders[i].side == Buy)
            && (id in EntryIds(f.asks) ==> i < |f.orders| && f.orders[i].side == Sell)
  {
    var i := F.FindLive(f.orders, id);
    if i < |f.orders| {
      assert f.orders[i] in f.orders;
      assert Recorded(f.orders, id, f.orders[i].side);
    }
    forall sd | id in EntryIds(ListOf(f, sd)) ensures i < |f.orders| && f.orders[i].side == sd {
      assert Recorded(f.orders, id, sd);
      var t :| t in f.orders && t.orderId == id && t.side == sd;
      var k :| 0 <= k < |f.orders| && f.orders[k] == t;
      assert F.Live(f.orders[k]);
      SameSide(f.orders, id, f.orders[i].side, sd);
    }
    assert ListOf(f, Buy) == f.bids && ListOf(f, Sell) == f.asks;
  }

  lemma {:induction false} MirrorIds(book: seq<Order>, id: nat)
    ensures id + SHIFT in EntryIds(Mirrors(book)) <==> id in Ids(book)
  {
    if book == [] {
    } else {
      MirrorIds(book[1..], id);
      var es := Mirrors(book);
      assert es == [Mirror(book[0])] + Mirrors(book[1..]);
      assert forall e :: e in es <==> e == Mirror(book[0]) || e in Mirrors(book[1..]);
      assert forall o :: o in book <==> o == book[0] || o in book[1..];
      assert EntryIds(es) == EntryIds(Mirrors(book[1..])) + {book[0].orderId + SHIFT} by {
        assert Mirror(book[0]) in es;
      }
      assert Ids(book) == Ids(book[1..]) + {book[0].orderId};
    }
  }

  /** The same cancellation in both engines. */
  lemma {:induction false} TwinCancel(c: BookState, f: F.FlatState, id: nat)
    requires Twins(c, f)
    ensures Twins(Cancel(c, id).state, F.CancelledState(f, id + SHIFT))
    ensures Cancel(c, id).report.Some? <==> F.FindLive(f.orders, id + SHIFT) < |f.orders|
    ensures F.CancelledState(f, id + SHIFT).trades == f.trades
  {
    hide WellFormed, Register;
    CancelWellFormed(c, id);
    CancelRegister(f, id + SHIFT);
    LiveIffResting(f, id + SHIFT);
    MirrorIds(c.bids, id);
    MirrorIds(c.asks, id);
    IdPresent(c.bids, id);
    IdPresent(c.asks, id);
    DropMirrors(c.bids, id);
    DropMirrors(c.asks, id);
    Accounts.CancelMembers(c, id);
    IdsOf(c);
  }

  /** The commands both engines understand alike. */
  predicate Shared(k: Command) {
    (k.Enter? && !IsStop(k.request)) || k.CancelId?
  }

  function FlatStep(f: F.FlatState, k: Command): F.FlatState {
    match k
    case Enter(o) => F.Submitted(f, o.side, o.ordType, o.price, o.quantity, o.tif).state
    case CancelId(id) => F.CancelledState(f, id + SHIFT)
    case _ => f
  }

  function FlatRun(f: F.FlatState, commands: seq<Command>): F.FlatState
    decreases commands
  {
    if commands == [] then f else FlatRun(FlatStep(f, commands[0]), commands[1..])
  }

  function FlatStart(): F.FlatState {
    F.FlatState([], [], [], [], 1000)
  }

  /** The deals of one submission are appended to the list of trades. */
  lemma {:induction false} DealsAppended(f: F.FlatState, o: Order)
    ensures var y := F.Submitted(f, o.side, o.ordType, o.price, o.quantity, o.tif); y.state.trades == f.trades + y.deals
  {
    assert f.trades + [] == f.trades;
  }

  lemma {:induction false} TwinStep(w: World, f: F.FlatState, k: Command)
    requires Twins(w.book, f) && f.trades == MirrorTrades(w.trades) && Shared(k)
    ensures Twins(Step(w, k).book, FlatStep(f, k)) && FlatStep(f, k).trades == MirrorTrades(Step(w, k).trades)
  {
    hide Twins, Submit, F.Submitted, Cancel, F.CancelledState;
    match k
    case Enter(o) =>
      TwinSubmit(w.book, f, o);
      TwinSubmitKeeps(w.book, f, o);
      DealsAppended(f, o);
      MirrorTradesConcat(w.trades, Submit(w.book, o).trades);
    case CancelId(id) =>
      TwinCancel(w.book, f, id);
  }

  lemma {:induction false} TwinRunFrom(w: World, f: F.FlatState, commands: seq<Command>)
    requires Twins(w.book, f) && f.trades == MirrorTrades(w.trades)
    requires forall k :: k in commands ==> Shared(k)
    ensures Twins(Run(w, commands).book, FlatRun(f, commands))
    ensures FlatRun(f, commands).trades == MirrorTrades(Run(w, commands).trades)
    decreases commands
  {
    hide Twins, Step, FlatStep;
    if commands == [] {
    } else {
      assert commands[0] in commands;
      TwinStep(w, f, commands[0]);
      TwinRunFrom(Step(w, commands[0]), FlatStep(f, commands[0]), commands[1..]);
    }
  }

  /** For every stream of limit and market orders (Day, GTC, IOC, FOK) and cancellations, fed to
      both engines from the start: the same trades, number by number, and the same book. */
  lemma {:induction false} EnginesAgree(sym: nat, commands: seq<Command>)
    requires forall k :: k in commands ==> Shared(k)
    ensures var w, f := Run(Start(sym), commands), FlatRun(FlatStart(), commands);
            && f.trades == MirrorTrades(w.trades)
            && f.bids == Mirrors(w.book.bids)
            && f.asks == Mirrors(w.book.asks)
            && f.nextOrderId == w.book.nextOrderId + SHIFT
  {
    assert Twins(Start(sym).book, FlatStart());
    TwinRunFrom(Start(sym), FlatStart(), commands);
  }
}
