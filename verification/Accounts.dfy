/** Accounting per order: the tape of trades, the remaining quantities in the book and the last
    report issued for an order always tell the same story.

    `Account` says so of a whole book. The lemmas follow it through one execution, a sweep, the end
    of a new order, a trigger pass, cancellation, modification and the auction; while an order is
    being matched its own account is open (`OpenAccount`), and its final report closes it. */
module Accounts {
  import opened Types
  import opened PriceTime
  import opened Tape
  import opened AuctionSpec
  import opened BookSpec

  /** The last report issued for the id states what the id has traded. */
  ghost predicate Tracked(trades: seq<Trade>, reports: seq<ExecutionReport>, id: nat) {
    LastFilled(reports, id) == Some(TradedOf(trades, id))
  }

  /** Every order of the book has traded what is missing from it, and was told so. */
  ghost predicate Settled(trades: seq<Trade>, reports: seq<ExecutionReport>, book: seq<Order>) {
    forall o :: o in book ==>
        o.quantity - o.remainingQty == TradedOf(trades, o.orderId) && Tracked(trades, reports, o.orderId)
  }

  ghost predicate Account(s: BookState, trades: seq<Trade>, reports: seq<ExecutionReport>) {
    && Settled(trades, reports, s.bids)
    && Settled(trades, reports, s.asks)
    && Settled(trades, reports, s.stops)
    && (forall id: nat :: 0 < id < s.nextOrderId ==> Tracked(trades, reports, id))
    && (forall id: nat :: s.nextOrderId <= id ==> TradedOf(trades, id) == 0)
  }

  // ----- One execution ---------------------------------------------------------------------

  /** Putting one execution on the tape. */
  lemma {:induction false} PostFill(mode: Mode, sym: nat, active: Order, h: Hit, tid: nat, t: seq<Trade>,
          r: seq<ExecutionReport>)
    requires active.orderId != h.resting.orderId && h.qty <= h.resting.remainingQty && h.qty <= active.remainingQty
    requires h.resting.quantity - h.resting.remainingQty == TradedOf(t, h.resting.orderId)
    ensures var f := FillOf(mode, active, h);
            var t1, r1 := t + [TradeOf(sym, f, tid)], r + ReportsOfFill(mode, active.side, f, tid);
            && TradedOf(t1, h.resting.orderId) == TradedOf(t, h.resting.orderId) + h.qty
            && Tracked(t1, r1, h.resting.orderId)
            && TradedOf(t1, active.orderId) == TradedOf(t, active.orderId) + h.qty
            && (mode.Continuous? ==> LastFilled(r1, active.orderId) == LastFilled(r, active.orderId))
            && (mode.Auction? && active.quantity - active.remainingQty == TradedOf(t, active.orderId) ==>
                  Tracked(t1, r1, active.orderId))
            && (forall id: nat :: id != active.orderId && id != h.resting.orderId ==>
                  TradedOf(t1, id) == TradedOf(t, id) && LastFilled(r1, id) == LastFilled(r, id))
  {
    var f := FillOf(mode, active, h);
    var tr, rp := [TradeOf(sym, f, tid)], ReportsOfFill(mode, active.side, f, tid);
    forall id: nat
      ensures TradedOf(t + tr, id) == TradedOf(t, id) + TradedOf(tr, id)
      ensures LastFilled(r + rp, id) == if LastFilled(rp, id).Some? then LastFilled(rp, id) else LastFilled(r, id)
    {
      TradedOfConcat(t, tr, id);
      LastFilledConcat(r, rp, id);
    }
    forall id: nat
      ensures TradedOf(tr, id) == if f.buy.orderId == id || f.sell.orderId == id then f.qty else 0
    {
      TradedOfOne(tr[0], id);
    }
    PostReports(mode, active, h, tid);
  }

  lemma {:induction false} PostReports(mode: Mode, active: Order, h: Hit, tid: nat)
    requires active.orderId != h.resting.orderId
    ensures var f := FillOf(mode, active, h);
            var rp := ReportsOfFill(mode, active.side, f, tid);
            var left := Residue(h.resting, h.qty);
            && LastFilled(rp, left.orderId) == Some(left.quantity - left.remainingQty)
            && LastFilled(rp, active.orderId)
               == (if mode.Auction? then Some(active.quantity - Residue(active, h.qty).remainingQty) else None)
            && (forall id: nat :: id != active.orderId && id != left.orderId ==> LastFilled(rp, id) == None)
  {
    var f := FillOf(mode, active, h);
    var b, s := FillReport(f.buy, f.price, f.qty, tid), FillReport(f.sell, f.price, f.qty, tid);
    forall id: nat
      ensures LastFilled([b, s], id) == if s.orderId == id then Some(s.filledQty)
          else if b.orderId == id then Some(b.filledQty) else None
      ensures LastFilled([b], id) == if b.orderId == id then Some(b.filledQty) else None
      ensures LastFilled([s], id) == if s.orderId == id then Some(s.filledQty) else None
    {
      LastFilledConcat([b], [s], id);
      assert [b] + [s] == [b, s];
    }
  }

  lemma {:induction false} TradedOfOne(x: Trade, id: nat)
    ensures TradedOf([x], id) == if x.buyOrderId == id || x.sellOrderId == id then x.quantity else 0
  {
    assert [x][1..] == [];
  }

  // ----- A whole sweep -----------------------------------------------------------------------

  /** What a sweep does to the accounts, `t`/`r` being the tape before and `t1`/`r1` after. */
  ghost predicate SweepAccounted(mode: Mode, active: Order, book: seq<Order>, m: Sweep, t: seq<Trade>,
          r: seq<ExecutionReport>, t1: seq<Trade>, r1: seq<ExecutionReport>) {
    && Settled(t1, r1, m.book)
    && (forall id: nat :: id in Ids(book) ==> Tracked(t1, r1, id))
    && (forall id: nat :: id !in Ids(book) && id != active.orderId ==>
          TradedOf(t1, id) == TradedOf(t, id) && LastFilled(r1, id) == LastFilled(r, id))
    && TradedOf(t1, active.orderId) == TradedOf(t, active.orderId) + (active.remainingQty - m.left)
    && (mode.Continuous? ==> LastFilled(r1, active.orderId) == LastFilled(r, active.orderId))
    && (mode.Auction? && active.quantity - active.remainingQty == TradedOf(t, active.orderId)
        && Tracked(t, r, active.orderId) ==>
          Tracked(t1, r1, active.orderId))
  }

  lemma {:induction false} SweepAccounts(mode: Mode, sym: nat, active: Order, bd: Bound, book: seq<Order>, tid: nat,
                                         t: seq<Trade>, r: seq<ExecutionReport>)
    requires Settled(t, r, book) && DistinctIds(book) && active.orderId !in Ids(book)
    ensures var m := Match(bd, active.remainingQty, book);
            var fills := FillsOf(mode, active, m.hits);
            SweepAccounted(mode, active, book, m, t, r,
                           t + TradesOf(sym, fills, tid), r + ReportsOf(mode, active.side, fills, tid))
    decreases book
  {
    hide SweepAccounted, Hits1, Settled, Match;
    var qty := active.remainingQty;
    if qty == 0 || book == [] || !Within(bd, book[0].price) {
      MatchNothing(bd, qty, book);
      assert t + [] == t && r + [] == r;
      NothingSwept(mode, active, book, Match(bd, qty, book), t, r);
    } else {
      var h := Hit(book[0], Min(qty, book[0].remainingQty));
      var active1 := Residue(active, h.qty);
      var rest := Match(bd, active1.remainingQty, book[1..]);
      var f := FillOf(mode, active, h);
      var t1, r1 := t + [TradeOf(sym, f, tid)], r + ReportsOfFill(mode, active.side, f, tid);
      var fs := FillsOf(mode, active1, rest.hits);
      FirstSettled(mode, sym, active, h, book, tid, t, r);
      SweepAccounts(mode, sym, active1, bd, book[1..], tid + 1, t1, r1);
      var t2, r2 := t1 + TradesOf(sym, fs, tid + 1), r1 + ReportsOf(mode, active.side, fs, tid + 1);
      SweepJoin(mode, active, h, book, rest, t, r, t1, r1, t2, r2);
      SweepTape(mode, sym, active, h, rest.hits, tid, t, r);
      MatchUnfold(bd, qty, book);
    }
  }

  lemma {:induction false} SweepTape(mode: Mode, sym: nat, active: Order, h: Hit, rest: seq<Hit>, tid: nat,
                                     t: seq<Trade>, r: seq<ExecutionReport>)
    ensures var f := FillOf(mode, active, h);
            var fs, all := FillsOf(mode, Residue(active, h.qty), rest), FillsOf(mode, active, [h] + rest);
            && t + TradesOf(sym, all, tid) == t + [TradeOf(sym, f, tid)] + TradesOf(sym, fs, tid + 1)
            && r + ReportsOf(mode, active.side, all, tid)
               == r + ReportsOfFill(mode, active.side, f, tid) + ReportsOf(mode, active.side, fs, tid + 1)
  {
    StepFills(mode, active, h, rest);
    StepTape(mode, sym, active.side, FillOf(mode, active, h), FillsOf(mode, Residue(active, h.qty), rest), tid, 0);
  }

  lemma {:induction false} NothingSwept(mode: Mode, active: Order, book: seq<Order>, m: Sweep, t: seq<Trade>,
          r: seq<ExecutionReport>)
    requires Settled(t, r, book) && active.orderId !in Ids(book)
    requires m == Sweep(active.remainingQty, book, [])
    ensures SweepAccounted(mode, active, book, m, t, r, t, r)
  {
  }

  lemma {:induction false} FirstSettled(mode: Mode, sym: nat, active: Order, h: Hit, book: seq<Order>, tid: nat,
          t: seq<Trade>, r: seq<ExecutionReport>)
    requires Settled(t, r, book) && DistinctIds(book) && active.orderId !in Ids(book)
    requires book != [] && h == Hit(book[0], Min(active.remainingQty, book[0].remainingQty))
    ensures active.orderId !in Ids(book[1..])
    ensures var f := FillOf(mode, active, h);
            var t1, r1 := t + [TradeOf(sym, f, tid)], r + ReportsOfFill(mode, active.side, f, tid);
            Settled(t1, r1, book[1..]) && Hits1(mode, active, h, t, r, t1, r1)
  {
    assert book[0] in book && book[0].orderId in Ids(book);
    PostFill(mode, sym, active, h, tid, t, r);
    forall o | o in book[1..] ensures o in book && o.orderId != active.orderId && o.orderId != h.resting.orderId {
      assert o.orderId in Ids(book[1..]) && o.orderId in Ids(book);
    }
  }

  /** The conclusion of `PostFill`. */
  ghost predicate Hits1(mode: Mode, active: Order, h: Hit, t: seq<Trade>, r: seq<ExecutionReport>, t1: seq<Trade>,
          r1: seq<ExecutionReport>) {
    && TradedOf(t1, h.resting.orderId) == h.resting.quantity - h.resting.remainingQty + h.qty
    && Tracked(t1, r1, h.resting.orderId)
    && TradedOf(t1, active.orderId) == TradedOf(t, active.orderId) + h.qty
    && (mode.Continuous? ==> LastFilled(r1, active.orderId) == LastFilled(r, active.orderId))
    && (mode.Auction? && active.quantity - active.remainingQty == TradedOf(t, active.orderId) ==>
        Tracked(t1, r1, active.orderId))
    && (forall id: nat :: id != active.orderId && id != h.resting.orderId ==>
          TradedOf(t1, id) == TradedOf(t, id) && LastFilled(r1, id) == LastFilled(r, id))
  }

  lemma {:induction false} SweepJoin(mode: Mode, active: Order, h: Hit, book: seq<Order>, rest: Sweep,
                  t: seq<Trade>, r: seq<ExecutionReport>, t1: seq<Trade>, r1: seq<ExecutionReport>,
                  t2: seq<Trade>, r2: seq<ExecutionReport>)
    requires book != [] && h == Hit(book[0], Min(active.remainingQty, book[0].remainingQty))
    requires DistinctIds(book) && active.orderId !in Ids(book)
    requires Hits1(mode, active, h, t, r, t1, r1)
    requires SweepAccounted(mode, Residue(active, h.qty), book[1..], rest, t1, r1, t2, r2)
    ensures SweepAccounted(mode, active, book,
                           Sweep(rest.left, Keep(Residue(h.resting, h.qty)) + rest.book, [h] + rest.hits), t, r, t2, r2)
  {
    assert book[0] in book && book[0].orderId in Ids(book);
    assert Ids(book) == Ids(book[1..]) + {book[0].orderId} by {
      assert forall o :: o in book <==> o == book[0] || o in book[1..];
    }
    assert TradedOf(t2, book[0].orderId) == TradedOf(t1, book[0].orderId);
  }

  // ----- Operations of the book ----------------------------------------------------------------

  /** Ids of a side that a sweep no longer mentions keep what was said about them. */
  lemma {:induction false} SettledApart(t: seq<Trade>, r: seq<ExecutionReport>, t1: seq<Trade>,
          r1: seq<ExecutionReport>, book: seq<Order>)
    requires Settled(t, r, book)
    requires forall id :: id in Ids(book) ==>
        TradedOf(t1, id) == TradedOf(t, id) && LastFilled(r1, id) == LastFilled(r, id)
    ensures Settled(t1, r1, book)
  {
    forall o | o in book ensures o.quantity - o.remainingQty == TradedOf(t1, o.orderId) && Tracked(t1, r1, o.orderId) {
      assert o.orderId in Ids(book);
    }
  }

  /** The account of a book in which the order with id `busy` is still being matched. */
  ghost predicate OpenAccount(s: BookState, busy: Order, t: seq<Trade>, r: seq<ExecutionReport>) {
    && Settled(t, r, s.bids) && Settled(t, r, s.asks) && Settled(t, r, s.stops)
    && (forall id: nat :: 0 < id < s.nextOrderId && id != busy.orderId ==> Tracked(t, r, id))
    && (forall id: nat :: s.nextOrderId <= id ==> TradedOf(t, id) == 0)
    && TradedOf(t, busy.orderId) == busy.quantity - busy.remainingQty
  }

  lemma {:induction false} SweepingAccounts(s: BookState, o: Order, t: seq<Trade>, r: seq<ExecutionReport>)
    requires WellFormed(s) && Newest(s, o) && Older(s, o.orderId) && OpenAccount(s, o, t, r)
    ensures var x := Sweeping(s, o); OpenAccount(x.state, x.order, t + x.trades, r + x.reports)
  {
    hide WellFormed, Older, OpenAccount, SweepAccounted, Match;
    var book := Facing(s, o.side);
    IdsOf(s);
    OlderIds(s, o.orderId);
    Sides(s, o, t, r);
    SweepAccounts(Continuous, s.symbolIdx, o, BoundOf(o), book, s.nextTradeId, t, r);
    var x := Sweeping(s, o);
    MatchTaken(BoundOf(o), o.remainingQty, book);
    SweepCarries(s, o, Match(BoundOf(o), o.remainingQty, book), t, r, t + x.trades, r + x.reports);
    SameSides(WithFacing(s, o.side, Match(BoundOf(o), o.remainingQty, book).book), x.state, x.order, t + x.trades,
        r + x.reports);
  }

  lemma {:induction false} Sides(s: BookState, o: Order, t: seq<Trade>, r: seq<ExecutionReport>)
    requires OpenAccount(s, o, t, r)
    ensures Settled(t, r, s.bids) && Settled(t, r, s.asks)
  {
  }

  lemma {:induction false} SameSides(s: BookState, s1: BookState, o: Order, t: seq<Trade>, r: seq<ExecutionReport>)
    requires OpenAccount(s, o, t, r)
    requires s1.bids == s.bids && s1.asks == s.asks && s1.stops == s.stops && s1.nextOrderId == s.nextOrderId
    ensures OpenAccount(s1, o, t, r)
  {
  }

  lemma {:induction false} SweepCarries(s: BookState, o: Order, m: Sweep, t: seq<Trade>, r: seq<ExecutionReport>,
                                        t1: seq<Trade>, r1: seq<ExecutionReport>)
    requires OpenAccount(s, o, t, r) && m.left <= o.remainingQty && o.orderId < s.nextOrderId
    requires SweepAccounted(Continuous, o, Facing(s, o.side), m, t, r, t1, r1)
    requires Ids(s.bids) !! Ids(s.asks) && Ids(s.stops) !! Ids(s.bids) && Ids(s.stops) !! Ids(s.asks)
    requires forall x :: x in Ids(s.bids) || x in Ids(s.asks) || x in Ids(s.stops) ==> x < o.orderId
    ensures OpenAccount(WithFacing(s, o.side, m.book), o.(remainingQty := m.left), t1, r1)
  {
    SettledApart(t, r, t1, r1, s.stops);
    if o.side == Buy {
      SettledApart(t, r, t1, r1, s.bids);
    } else {
      SettledApart(t, r, t1, r1, s.asks);
    }
    forall id: nat | 0 < id < s.nextOrderId && id != o.orderId ensures Tracked(t1, r1, id) {
      assert Tracked(t, r, id);
    }
  }

  lemma {:induction false} MatchTaken(bd: Bound, qty: nat, book: seq<Order>)
    ensures Match(bd, qty, book).left <= qty
  {
  }

  lemma {:induction false} OlderIds(s: BookState, id: nat)
    requires Older(s, id)
    ensures forall x :: x in Ids(s.bids) || x in Ids(s.asks) || x in Ids(s.stops) ==> x < id
  {
  }

  /** The final report on the incoming order closes its account. */
  lemma {:induction false} ClosingReport(t: seq<Trade>, r: seq<ExecutionReport>, x: ExecutionReport)
    ensures LastFilled(r + [x], x.orderId) == Some(x.filledQty)
    ensures forall id: nat :: id != x.orderId ==> LastFilled(r + [x], id) == LastFilled(r, id)
  {
    forall id: nat
      ensures LastFilled(r + [x], id) == if x.orderId == id then Some(x.filledQty) else LastFilled(r, id)
    {
      LastFilledConcat(r, [x], id);
      assert [x][1..] == [];
    }
  }

  /** Reporting the filled quantity of the busy order closes the account; the order may rest. */
  lemma {:induction false} Close(s: BookState, busy: Order, t: seq<Trade>, r: seq<ExecutionReport>,
          x: ExecutionReport, rests: bool)
    requires WellFormed(s) && Newest(s, busy) && Older(s, busy.orderId) && OpenAccount(s, busy, t, r)
    requires x.orderId == busy.orderId && x.filledQty == busy.quantity - busy.remainingQty
    ensures Account(if rests then Rest(s, busy) else s, t, r + [x])
  {
    hide WellFormed, Settled, Older;
    ClosingReport(t, r, x);
    OlderIds(s, busy.orderId);
    SettledApart(t, r, t, r + [x], s.bids);
    SettledApart(t, r, t, r + [x], s.asks);
    SettledApart(t, r, t, r + [x], s.stops);
    SettledInsert(Buy, t, r + [x], s.bids, busy);
    SettledInsert(Sell, t, r + [x], s.asks, busy);
    forall id: nat | 0 < id < s.nextOrderId ensures Tracked(t, r + [x], id) {
      if id != busy.orderId { assert Tracked(t, r, id); }
    }
  }

  lemma {:induction false} SettledInsert(side: Side, t: seq<Trade>, r: seq<ExecutionReport>, book: seq<Order>, o: Order)
    requires Settled(t, r, book) && o.quantity - o.remainingQty == TradedOf(t, o.orderId) && Tracked(t, r, o.orderId)
    ensures Settled(t, r, Insert(side, book, o))
  {
    InsertMembers(side, book, o);
  }

  /** A new order opens an account for its id. */
  lemma {:induction false} Open(s: BookState, request: Order, t: seq<Trade>, r: seq<ExecutionReport>)
    requires WellFormed(s) && Account(s, t, r)
    ensures var o, s1 := Admit(s, request), Numbered(s);
            WellFormed(s1) && Newest(s1, o) && Older(s1, o.orderId) && OpenAccount(s1, o, t, r)
  {
    NextIdWellFormed(s);
  }

  /** Every new order keeps the accounts. */
  lemma {:induction false} SubmitAccounts(s: BookState, request: Order, t: seq<Trade>, r: seq<ExecutionReport>)
    requires WellFormed(s) && Account(s, t, r)
    ensures var x := Submit(s, request); Account(x.state, t + x.trades, r + x.reports)
  {
    hide WellFormed, Newest, Older, OpenAccount, Account, Match;
    var o, s1 := Admit(s, request), Numbered(s);
    Open(s, request, t, r);
    assert t + [] == t;
    if IsStop(o) {
      Close(s1, o, t, r, Ack(o, New, 0, o.quantity), false);
      Park(s1, o, t, r + [Ack(o, New, 0, o.quantity)]) by { Fresh(s1, o, t, r); }
    } else if Accumulating(s1) {
      Close(s1, o, t, r, Ack(o, New, 0, o.quantity), true);
    } else if Refuses(s1, o) {
      Close(s1, o, t, r, Ack(o, Rejected, 0, o.quantity), false);
    } else {
      var m := Sweeping(s1, o);
      SweepingAccounts(s1, o, t, r);
      SweepWellFormed(Continuous, BoundOf(o), s1, o);
      SettleAccounts(s1, o, m, t, r) by { StillNewest(s1, o); }
    }
  }

  lemma {:induction false} StillNewest(s: BookState, o: Order)
    requires Newest(s, o)
    ensures Newest(Sweeping(s, o).state, Sweeping(s, o).order)
  {
  }

  lemma {:induction false} Fresh(s: BookState, o: Order, t: seq<Trade>, r: seq<ExecutionReport>)
    requires OpenAccount(s, o, t, r) && o.quantity == o.remainingQty
    ensures TradedOf(t, o.orderId) == 0
  {
  }

  lemma {:induction false} Park(s: BookState, o: Order, t: seq<Trade>, r: seq<ExecutionReport>)
    requires Account(s, t, r) && Newest(s, o) && o.remainingQty == o.quantity && TradedOf(t, o.orderId) == 0
    ensures Account(s.(stops := s.stops + [o]), t, r)
  {
  }

  lemma {:induction false} SettleAccounts(s: BookState, o: Order, m: Submission, t: seq<Trade>, r: seq<ExecutionReport>)
    requires WellFormed(m.state) && Newest(m.state, m.order) && Older(m.state, m.order.orderId)
    requires OpenAccount(m.state, m.order, t + m.trades, r + m.reports)
    ensures var x := Settle(m); Account(x.state, t + x.trades, r + x.reports)
  {
    hide WellFormed, Newest, Older, Account;
    var b, t1, r1 := m.order, t + m.trades, r + m.reports;
    var x := Settle(m);
    var last := x.reports[|x.reports| - 1];
    assert x.reports == m.reports + [last];
    assert r + (m.reports + [last]) == r1 + [last];
    if b.remainingQty == 0 || b.ordType == Market || b.tif == IOC {
      Close(m.state, b, t1, r1, last, false);
    } else {
      StatusOnly(m.state, b, t1, r1, x.order.status);
      Close(m.state, x.order, t1, r1, last, true);
    }
  }

  lemma {:induction false} StatusOnly(s: BookState, o: Order, t: seq<Trade>, r: seq<ExecutionReport>, st: OrderStatus)
    requires Newest(s, o) && OpenAccount(s, o, t, r)
    ensures Newest(s, o.(status := st)) && OpenAccount(s, o.(status := st), t, r)
  {
  }

  lemma {:induction false} SubmitAllAccounts(s: BookState, stops: seq<Order>, t: seq<Trade>, r: seq<ExecutionReport>)
    requires WellFormed(s) && Account(s, t, r)
    ensures var x := SubmitAll(s, stops); Account(x.state, t + x.trades, r + x.reports)
    decreases stops
  {
    hide WellFormed, Account, Submit;
    if stops == [] {
      assert t + [] == t && r + [] == r;
    } else {
      var x := Submit(s, Convert(stops[0]));
      SubmitAccounts(s, Convert(stops[0]), t, r);
      SubmitWellFormed(s, Convert(stops[0]));
      SubmitAllAccounts(x.state, stops[1..], t + x.trades, r + x.reports);
      var y := SubmitAll(x.state, stops[1..]);
      assert t + (x.trades + y.trades) == t + x.trades + y.trades;
      assert r + (x.reports + y.reports) == r + x.reports + y.reports;
    }
  }

  lemma {:induction false} FewerStops(s: BookState, stops: seq<Order>, t: seq<Trade>, r: seq<ExecutionReport>)
    requires Account(s, t, r) && forall o :: o in stops ==> o in s.stops
    ensures Account(s.(stops := stops), t, r)
  {
  }

  /** Converting stops keeps the accounts: the stop's id has traded nothing, the order it
      becomes has an account of its own. */
  lemma {:induction false} TriggerAccounts(s: BookState, price: int, t: seq<Trade>, r: seq<ExecutionReport>)
    requires WellFormed(s) && Account(s, t, r)
    ensures var x := Trigger(s, price); Account(x.state, t + x.trades, r + x.reports)
  {
    hide Account;
    var kept := Select(s.stops, price, false);
    SelectMembers(s.stops, price, false);
    SelectInArrival(s.stops, price, false);
    ParkedSubset(s, kept);
    FewerStops(s, kept, t, r);
    SubmitAllAccounts(s.(stops := kept), Select(s.stops, price, true), t, r);
  }

  lemma {:induction false} FewerOrders(s: BookState, s1: BookState, t: seq<Trade>, r: seq<ExecutionReport>)
    requires Account(s, t, r) && s1.nextOrderId == s.nextOrderId
    requires forall o :: o in s1.bids ==> o in s.bids
    requires forall o :: o in s1.asks ==> o in s.asks
    requires forall o :: o in s1.stops ==> o in s.stops
    ensures Account(s1, t, r)
  {
  }

  lemma {:induction false} CancelMembers(s: BookState, id: nat)
    requires WellFormed(s)
    ensures var s1 := Cancel(s, id).state;
            && (forall o :: o in s1.bids ==> o in s.bids)
            && (forall o :: o in s1.asks ==> o in s.asks)
            && (forall o :: o in s1.stops ==> o in s.stops)
  {
    ArrivalDistinct(s.stops);
    RemoveIdMembers(s.stops, id);
    RemoveIdMembers(s.bids, id);
    RemoveIdMembers(s.asks, id);
  }

  /** The report of a cancellation states what the order had traded. */
  lemma {:induction false} CancelAccounts(s: BookState, id: nat, t: seq<Trade>, r: seq<ExecutionReport>)
    requires WellFormed(s) && Account(s, t, r)
    ensures var x := Cancel(s, id);
            && Account(x.state, t, r)
            && (x.report.Some? ==>
                x.report.value.filledQty == TradedOf(t, id) && Account(x.state, t, r + [x.report.value]))
  {
    var x := Cancel(s, id);
    CancelMembers(s, id);
    FewerOrders(s, x.state, t, r);
    if x.report.Some? {
      var o := x.removed.value;
      assert o in s.bids || o in s.asks || o in s.stops;
      ToldAgain(x.state, t, r, x.report.value);
    }
  }

  /** Repeating what is already known changes nothing. */
  lemma {:induction false} ToldAgain(s: BookState, t: seq<Trade>, r: seq<ExecutionReport>, x: ExecutionReport)
    requires Account(s, t, r) && x.filledQty == TradedOf(t, x.orderId) && x.orderId < s.nextOrderId
    ensures Account(s, t, r + [x])
  {
    ClosingReport(t, r, x);
    forall id: nat ensures Tracked(t, r, id) ==> Tracked(t, r + [x], id) {}
  }

  /** A modification leaves the old order's account as it was and opens one for the new order. */
  lemma {:induction false} ModifyAccounts(s: BookState, id: nat, price: int, qty: nat, t: seq<Trade>,
          r: seq<ExecutionReport>)
    requires WellFormed(s) && Account(s, t, r)
    ensures var x := Modify(s, id, price, qty);
            Account(x.state, t, if x.report.Some? then r + [x.report.value] else r)
  {
    hide WellFormed, Account, Older, OpenAccount;
    var c := Cancel(s, id);
    CancelAccounts(s, id, t, r);
    CancelWellFormed(s, id);
    if c.report.Some? {
      var o := Replacement(c.state, c.report.value, price, qty);
      Open(c.state, o, t, r);
      Close(Numbered(c.state), o, t, r, Ack(o, New, 0, qty), true);
    }
  }

  // ----- The auction --------------------------------------------------------------------------------

  /** What the auction does to the accounts. */
  ghost predicate CrossAccounted(bids: seq<Order>, asks: seq<Order>, c: Crossing, t: seq<Trade>,
          r: seq<ExecutionReport>, t1: seq<Trade>, r1: seq<ExecutionReport>) {
    && Settled(t1, r1, c.bids)
    && Settled(t1, r1, c.asks)
    && (forall id: nat :: id in Ids(bids) || id in Ids(asks) ==> Tracked(t1, r1, id))
    && (forall id: nat :: id !in Ids(bids) && id !in Ids(asks) ==>
          TradedOf(t1, id) == TradedOf(t, id) && LastFilled(r1, id) == LastFilled(r, id))
  }

  lemma {:induction false} CrossAccounts(iop: int, sym: nat, bids: seq<Order>, asks: seq<Order>, tid: nat,
                                         t: seq<Trade>, r: seq<ExecutionReport>)
    requires Settled(t, r, bids) && Settled(t, r, asks)
    requires InPriority(Buy, bids) && DistinctIds(bids) && DistinctIds(asks) && Ids(bids) !! Ids(asks)
    requires forall a :: a in asks ==> a.side == Sell
    ensures var c := Cross(iop, bids, asks);
            CrossAccounted(bids, asks, c, t, r,
                           t + TradesOf(sym, c.fills, tid), r + ReportsOf(Auction(iop), Sell, c.fills, tid))
    decreases asks
  {
    hide CrossAccounted, SweepAccounted, Settled, InPriority, Match, Ids;
    if asks == [] || asks[0].price > iop {
      assert t + [] == t && r + [] == r;
      NothingCrossed(bids, asks, t, r);
    } else {
      var a := asks[0];
      var m := Match(AtLeast(iop), a.remainingQty, bids);
      var f := FillsOf(Auction(iop), a, m.hits);
      var rest := Cross(iop, m.book, asks[1..]);
      FirstAsk(bids, asks, t, r);
      SweepAccounts(Auction(iop), sym, a, AtLeast(iop), bids, tid, t, r);
      var t1, r1 := t + TradesOf(sym, f, tid), r + ReportsOf(Auction(iop), Sell, f, tid);
      MatchInPriority(Buy, AtLeast(iop), a.remainingQty, bids);
      MatchResidues(AtLeast(iop), a.remainingQty, bids);
      ResidueIds(m.book, bids);
      MatchTaken(AtLeast(iop), a.remainingQty, bids);
      BetweenAsks(Auction(iop), bids, asks, m, t, r, t1, r1);
      CrossAccounts(iop, sym, m.book, asks[1..], tid + |f|, t1, r1);
      CrossTape(iop, sym, f, rest.fills, tid, t, r);
      CrossJoin(Auction(iop), bids, asks, m, rest, f + rest.fills, t, r, t1, r1,
                t1 + TradesOf(sym, rest.fills, tid + |f|), r1 + ReportsOf(Auction(iop), Sell, rest.fills, tid + |f|));
    }
  }

  lemma {:induction false} NothingCrossed(bids: seq<Order>, asks: seq<Order>, t: seq<Trade>, r: seq<ExecutionReport>)
    requires Settled(t, r, bids) && Settled(t, r, asks)
    ensures CrossAccounted(bids, asks, Crossing(bids, asks, []), t, r, t, r)
  {
  }

  lemma {:induction false} FirstAsk(bids: seq<Order>, asks: seq<Order>, t: seq<Trade>, r: seq<ExecutionReport>)
    requires asks != [] && DistinctIds(asks) && Ids(bids) !! Ids(asks)
    requires forall a :: a in asks ==> a.side == Sell
    ensures asks[0].orderId !in Ids(bids) && asks[0].side == Sell
  {
    assert asks[0] in asks && asks[0].orderId in Ids(asks);
  }

  lemma {:induction false} CrossTape(iop: int, sym: nat, f: seq<Fill>, g: seq<Fill>, tid: nat, t: seq<Trade>,
          r: seq<ExecutionReport>)
    ensures t + TradesOf(sym, f + g, tid) == t + TradesOf(sym, f, tid) + TradesOf(sym, g, tid + |f|)
    ensures r + ReportsOf(Auction(iop), Sell, f + g, tid)
         == r + ReportsOf(Auction(iop), Sell, f, tid) + ReportsOf(Auction(iop), Sell, g, tid + |f|)
  {
    TradesConcat(sym, f, g, tid);
    ReportsConcat(Auction(iop), Sell, f, g, tid);
  }

  /** After one ask has swept: the other asks are untouched, the bids are settled. */
  lemma {:induction false} BetweenAsks(mode: Mode, bids: seq<Order>, asks: seq<Order>, m: Sweep, t: seq<Trade>,
          r: seq<ExecutionReport>, t1: seq<Trade>, r1: seq<ExecutionReport>)
    requires asks != [] && DistinctIds(asks) && Ids(bids) !! Ids(asks) && Settled(t, r, asks)
    requires Ids(m.book) <= Ids(bids)
    requires SweepAccounted(mode, asks[0], bids, m, t, r, t1, r1)
    ensures Settled(t1, r1, m.book) && Settled(t1, r1, asks[1..])
    ensures Ids(m.book) !! Ids(asks[1..]) && Ids(asks[1..]) <= Ids(asks)
  {
    forall o | o in asks[1..]
      ensures o in asks && o.orderId != asks[0].orderId && o.orderId !in Ids(bids) && o.orderId in Ids(asks)
    {
      assert o.orderId in Ids(asks[1..]);
      assert o in asks;
    }
    SettledApart(t, r, t1, r1, asks[1..]) by {
      assert Settled(t, r, asks[1..]);
    }
  }

  lemma {:induction false} CrossJoin(mode: Mode, bids: seq<Order>, asks: seq<Order>, m: Sweep, rest: Crossing,
          fills: seq<Fill>, t: seq<Trade>, r: seq<ExecutionReport>, t1: seq<Trade>, r1: seq<ExecutionReport>,
          t2: seq<Trade>, r2: seq<ExecutionReport>)
    requires mode.Auction? && asks != [] && DistinctIds(asks) && Ids(bids) !! Ids(asks) && Settled(t, r, asks)
    requires Ids(m.book) <= Ids(bids) && m.left <= asks[0].remainingQty
    requires SweepAccounted(mode, asks[0], bids, m, t, r, t1, r1)
    requires CrossAccounted(m.book, asks[1..], rest, t1, r1, t2, r2)
    ensures CrossAccounted(bids, asks,
        Crossing(rest.bids, Keep(asks[0].(remainingQty := m.left)) + rest.asks, fills), t, r, t2, r2)
  {
    var a := asks[0];
    assert a in asks && a.orderId in Ids(asks);
    assert Ids(asks) == Ids(asks[1..]) + {a.orderId} by {
      assert forall o :: o in asks <==> o == a || o in asks[1..];
    }
    forall id: nat | id in Ids(bids) || id in Ids(asks) ensures Tracked(t2, r2, id) {
      if id in Ids(bids) { assert Tracked(t1, r1, id); }
    }
  }

  lemma {:induction false} UncrossAccounts(s: BookState, t: seq<Trade>, r: seq<ExecutionReport>)
    requires WellFormed(s) && Account(s, t, r)
    ensures var x := Uncross(s); Account(x.state, t + x.trades, r + x.reports)
  {
    var iop := Iop(s.bids, s.asks);
    assert t + [] == t && r + [] == r;
    if iop != 0 {
      CrossAccounts(iop, s.symbolIdx, s.bids, s.asks, s.nextTradeId, t, r);
      var x := Uncross(s);
      AuctionCloses(s, x.state, Cross(iop, s.bids, s.asks), t, r, t + x.trades, r + x.reports);
    }
  }

  lemma {:induction false} AuctionCloses(s: BookState, s1: BookState, c: Crossing, t: seq<Trade>,
          r: seq<ExecutionReport>, t1: seq<Trade>, r1: seq<ExecutionReport>)
    requires WellFormed(s) && Account(s, t, r) && CrossAccounted(s.bids, s.asks, c, t, r, t1, r1)
    requires s1.bids == c.bids && s1.asks == c.asks && s1.stops == s.stops && s1.nextOrderId == s.nextOrderId
    ensures Account(s1, t1, r1)
  {
    hide WellFormed;
    IdsOf(s);
    OlderIds(s, s.nextOrderId);
    SettledApart(t, r, t1, r1, s.stops);
    forall id: nat | 0 < id < s.nextOrderId ensures Tracked(t1, r1, id) {
      assert Tracked(t, r, id);
    }
  }
}
