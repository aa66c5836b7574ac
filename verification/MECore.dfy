/** The matching engine actor (src/actors/MECoreActor.cpp): three event handlers that sequence
    the operations of one book and push what they emit. */
module MECore {
  import opened Types
  import opened PriceTime
  import opened Tape
  import opened Ladder
  import opened BookSpec
  import opened Ledger
  import opened Accounts
  import opened Runs
  import opened OrderLaws
  import opened Width
  import OrderBook

  datatype NewOrderEvent = NewOrderEvent(
    clOrdId: nat, symbolIdx: nat, side: Side, ordType: OrderType, tif: TimeInForce, price: int,
    quantity: nat, sessionId: nat, stopPrice: int)

  /** A report pushed to the order entry gateway, with the session it is sent to. */
  datatype ExecReportEvent = ExecReportEvent(report: ExecutionReport, sessionId: nat)

  /** A level as it is published. */
  datatype Quote = Quote(price: int, qty: nat)

  /** A book update has ten places for levels on each side, and says how many of them are in use. */
  datatype MarketDataEvent =
    | TradeEvent(trade: Trade)
    | BookUpdateEvent(symbolIdx: nat, bids: seq<Quote>, asks: seq<Quote>, bidDepth: nat, askDepth: nat)

  function OrderOf(e: NewOrderEvent): Order {
    Order(0, e.clOrdId, e.symbolIdx, e.side, e.ordType, e.tif, e.price, e.quantity, 0, e.sessionId, New, e.stopPrice)
  }

  /** A new order with the trigger pass that may follow it. */
  function Followed(x: Submission, pass: Batch): Batch {
    if |x.state.stops| > 0 && x.state.lastTradePrice != 0
    then Batch(pass.state, [x.order] + pass.orders, x.trades + pass.trades, x.reports + pass.reports)
    else Batch(x.state, [x.order], x.trades, x.reports)
  }

  /** The event handler on the book: the new order, then one trigger pass at the last price. */
  function Handle(s: BookState, o: Order): Batch {
    var x := Submit(s, o);
    Followed(x, Trigger(x.state, x.state.lastTradePrice))
  }

  /** The handler with the 64-bit sums of the code. */
  function Handle64(s: BookState, o: Order): Batch {
    var x := Submit64(s, o);
    Followed(x, Trigger64(x.state, x.state.lastTradePrice))
  }

  /** Without wrap-around they are the same. */
  lemma {:induction false} Handle64Fits(s: BookState, o: Order)
    requires WellFormed(s) && Load(s) + o.quantity < TWO64
    ensures Handle64(s, o) == Handle(s, o)
  {
    hide Submit, Submit64, Trigger, Trigger64, WellFormed;
    var x := Submit(s, o);
    Submit64Fits(s, o);
    SubmitWellFormed(s, o);
    SubmitConserves(s, o);
    Trigger64Fits(x.state, x.state.lastTradePrice);
  }

  /** The commands of the book one new-order event amounts to. */
  function Commands(s: BookState, o: Order): seq<Command> {
    var x := Submit(s, o).state;
    if |x.stops| > 0 && x.lastTradePrice != 0 then [Enter(o), TriggerAt(x.lastTradePrice)] else [Enter(o)]
  }

  function Addressed(reports: seq<ExecutionReport>, session: nat): seq<ExecReportEvent> {
    if reports == [] then [] else [ExecReportEvent(reports[0], session)] + Addressed(reports[1..], session)
  }

  function TradeEvents(trades: seq<Trade>): seq<MarketDataEvent> {
    if trades == [] then [] else [TradeEvent(trades[0])] + TradeEvents(trades[1..])
  }

  const PLACES: nat := 10

  /** The levels in their places, the places behind them zero. */
  function Placed(levels: seq<LevelInfo>): seq<Quote> {
    seq(PLACES, i requires 0 <= i < PLACES =>
      if i < |levels| then Quote(levels[i].price, levels[i].totalQty) else Quote(0, 0))
  }

  /** The snapshot published after an event: the best ten levels a side. */
  function Update(s: BookState): MarketDataEvent {
    var bids, asks := Depth(s.bids, PLACES), Depth(s.asks, PLACES);
    BookUpdateEvent(s.symbolIdx, Placed(bids), Placed(asks), |bids|, |asks|)
  }

  lemma {:induction false} DepthFits(book: seq<Order>, depth: nat)
    ensures |Depth(book, depth)| <= depth
    decreases depth
  {
    if depth == 0 || book == [] {
    } else {
      DepthFits(book[RunLength(book, book[0].price)..], depth - 1);
    }
  }

  function CancelReject(id: nat, origClOrdId: nat): ExecutionReport {
    ExecutionReport(id, origClOrdId, Rejected, 0, 0, 0, 0, 0)
  }

  class MECoreActor {
    const book: OrderBook.Book
    const clearing: bool
    var oePipe: seq<ExecReportEvent>
    var mdPipe: seq<MarketDataEvent>
    var chPipe: seq<Trade>

    constructor (symbol: nat, hasClearingHouse: bool)
      ensures fresh(book) && book.Valid()
      ensures book.Abs() == BookState(symbol, 1, 1, 0, CTS, [], [], [])
      ensures clearing == hasClearingHouse && oePipe == [] && mdPipe == [] && chPipe == []
    {
      book := new OrderBook.Book(symbol);
      clearing := hasClearingHouse;
      oePipe, mdPipe, chPipe := [], [], [];
    }

    /** Push what a book operation emitted. */
    method Push(trades: seq<Trade>, reports: seq<ExecutionReport>, session: nat)
      modifies this
      ensures oePipe == old(oePipe) + Addressed(reports, session)
      ensures mdPipe == old(mdPipe) + TradeEvents(trades)
      ensures chPipe == old(chPipe) + (if clearing then trades else [])
    {
      for i := 0 to |trades|
        invariant oePipe == old(oePipe)
        invariant mdPipe + TradeEvents(trades[i..]) == old(mdPipe) + TradeEvents(trades)
        invariant chPipe == old(chPipe) + (if clearing then trades[..i] else [])
      {
        assert trades[i..][1..] == trades[i + 1..];
        mdPipe := mdPipe + [TradeEvent(trades[i])];
        if clearing {
          chPipe := chPipe + [trades[i]];
        }
      }
      assert trades[|trades|..] == [];
      for i := 0 to |reports|
        invariant mdPipe == old(mdPipe) + TradeEvents(trades)
        invariant chPipe == old(chPipe) + (if clearing then trades else [])
        invariant oePipe + Addressed(reports[i..], session) == old(oePipe) + Addressed(reports, session)
      {
        assert reports[i..][1..] == reports[i + 1..];
        oePipe := oePipe + [ExecReportEvent(reports[i], session)];
      }
      assert reports[|reports|..] == [];
    }

    /** Copy the levels into the places of an update that starts out zeroed. */
    static method Place(levels: seq<LevelInfo>) returns (places: seq<Quote>)
      requires |levels| <= PLACES
      ensures places == Placed(levels)
    {
      places := seq(PLACES, i => Quote(0, 0));
      for i := 0 to |levels|
        invariant places == Placed(levels[..i])
      {
        places := places[i := Quote(levels[i].price, levels[i].totalQty)];
      }
      assert levels[..|levels|] == levels;
    }

    method PublishBookUpdate()
      requires book.Valid()
      modifies this`mdPipe
      ensures mdPipe == old(mdPipe) + [Update(book.Abs())]
    {
      var bidLevels := book.GetBids(PLACES);
      var askLevels := book.GetAsks(PLACES);
      DepthFits(book.Abs().bids, PLACES);
      DepthFits(book.Abs().asks, PLACES);
      var bids := Place(bidLevels);
      var asks := Place(askLevels);
      mdPipe := mdPipe + [BookUpdateEvent(book.symbolIdx, bids, asks, |bidLevels|, |askLevels|)];
    }

    method OnNewOrder(event: NewOrderEvent)
      requires book.Valid()
      modifies this, book
      ensures book.Valid()
      ensures var h := Handle64(old(book.Abs()), OrderOf(event));
        && book.Abs() == h.state
        && oePipe == old(oePipe) + Addressed(h.reports, event.sessionId)
        && mdPipe == old(mdPipe) + TradeEvents(h.trades) + [Update(h.state)]
        && chPipe == old(chPipe) + (if clearing then h.trades else [])
    {
      hide Submit64, Trigger64, WellFormed;
      var order, trades, reports := book.NewOrder(OrderOf(event));
      if |book.stopOrders| > 0 && book.lastTradePrice != 0 {
        var ts, rs := book.TriggerStopOrders(book.lastTradePrice);
        trades, reports := trades + ts, reports + rs;
      }
      Push(trades, reports, event.sessionId);
      PublishBookUpdate();
    }

    method OnCancelOrder(orderId: nat, origClOrdId: nat, sessionId: nat)
      requires book.Valid()
      modifies this, book
      ensures book.Valid()
      ensures var c := Cancel(old(book.Abs()), orderId);
        && book.Abs() == c.state
        && oePipe == old(oePipe)
            + [ExecReportEvent(if c.report.Some? then c.report.value else CancelReject(orderId, origClOrdId),
                sessionId)]
        && mdPipe == old(mdPipe) + (if c.report.Some? then [Update(c.state)] else [])
        && chPipe == old(chPipe)
    {
      hide Cancel, WellFormed;
      var ok, rpt := book.CancelOrder(orderId);
      if ok {
        oePipe := oePipe + [ExecReportEvent(rpt, sessionId)];
        PublishBookUpdate();
      } else {
        oePipe := oePipe + [ExecReportEvent(ExecutionReport(orderId, origClOrdId, Rejected, 0, 0, 0, 0, 0), sessionId)];
      }
    }

    method OnModifyOrder(orderId: nat, origClOrdId: nat, newPrice: int, newQuantity: nat, sessionId: nat)
      requires book.Valid()
      modifies this, book
      ensures book.Valid()
      ensures var m := Modify(old(book.Abs()), orderId, newPrice, newQuantity);
        && book.Abs() == m.state
        && oePipe == old(oePipe)
            + [ExecReportEvent(if m.report.Some? then m.report.value else CancelReject(orderId, origClOrdId),
                sessionId)]
        && mdPipe == old(mdPipe) + (if m.report.Some? then [Update(m.state)] else [])
        && chPipe == old(chPipe)
    {
      hide Modify, WellFormed;
      var ok, rpt := book.ModifyOrder(orderId, newPrice, newQuantity);
      if ok {
        oePipe := oePipe + [ExecReportEvent(rpt, sessionId)];
        PublishBookUpdate();
      } else {
        oePipe := oePipe + [ExecReportEvent(ExecutionReport(orderId, origClOrdId, Rejected, 0, 0, 0, 0, 0), sessionId)];
      }
    }
  }

  /** One new-order event is the run of its commands, so whatever holds of every run of the book
      holds after every event. */
  lemma {:induction false} EventIsRun(w: World, o: Order)
    ensures var h, r := Handle(w.book, o), Run(w, Commands(w.book, o));
            && r.book == h.state && r.trades == w.trades + h.trades && r.reports == w.reports + h.reports
  {
    hide Submit, Trigger;
    var x := Submit(w.book, o);
    var cs := Commands(w.book, o);
    assert cs[0] == Enter(o) && Run(Step(w, cs[0]), cs[1..]) == Run(w, cs);
    if |x.state.stops| > 0 && x.state.lastTradePrice != 0 {
      var y := Trigger(x.state, x.state.lastTradePrice);
      assert cs[1..][0] == TriggerAt(x.state.lastTradePrice) && cs[1..][1..] == [];
      assert w.trades + (x.trades + y.trades) == w.trades + x.trades + y.trades;
      assert w.reports + (x.reports + y.reports) == w.reports + x.reports + y.reports;
    } else {
      assert cs[1..] == [];
    }
  }

  /** After a new-order event no parked stop has been reached by the price the trigger pass used: the
      last trade price when the new order had been handled. */
  lemma {:induction false} NoStopLeftBehind(s: BookState, o: Order)
    ensures var price := Submit(s, o).state.lastTradePrice;
            price != 0 ==>
              forall stop :: stop in Handle(s, o).state.stops ==>
                if stop.side == Buy then price < stop.stopPrice else price > stop.stopPrice
  {
    hide Submit, Trigger;
    var x := Submit(s, o).state;
    TriggerPass(x, x.lastTradePrice);
  }

  // ----- Runs of the actor --------------------------------------------------------------------------

  datatype DeskEvent =
    | NewIn(event: NewOrderEvent)
    | CancelIn(id: nat, origClOrdId: nat)
    | ModifyIn(id: nat, origClOrdId: nat, newPrice: int, newQuantity: nat)

  /** The book of the actor, its trades, and everything it has told the gateway. */
  datatype Desk = Desk(book: BookState, trades: seq<Trade>, told: seq<ExecutionReport>)

  function Answer(x: Removal, id: nat, origClOrdId: nat): ExecutionReport {
    if x.report.Some? then x.report.value else CancelReject(id, origClOrdId)
  }

  function DeskStep(d: Desk, e: DeskEvent): Desk {
    match e
    case NewIn(event) =>
      var h := Handle(d.book, OrderOf(event));
      Desk(h.state, d.trades + h.trades, d.told + h.reports)
    case CancelIn(id, orig) =>
      var c := Cancel(d.book, id);
      Desk(c.state, d.trades, d.told + [Answer(c, id, orig)])
    case ModifyIn(id, orig, price, quantity) =>
      var m := Modify(d.book, id, price, quantity);
      Desk(m.state, d.trades, d.told + [Answer(m, id, orig)])
  }

  function DeskRun(d: Desk, events: seq<DeskEvent>): Desk
    decreases events
  {
    if events == [] then d else DeskRun(DeskStep(d, events[0]), events[1..])
  }

  /** The same with the 64-bit sums of the code. */
  function DeskStep64(d: Desk, e: DeskEvent): Desk {
    match e
    case NewIn(event) =>
      var h := Handle64(d.book, OrderOf(event));
      Desk(h.state, d.trades + h.trades, d.told + h.reports)
    case _ => DeskStep(d, e)
  }

  function DeskRun64(d: Desk, events: seq<DeskEvent>): Desk
    decreases events
  {
    if events == [] then d else DeskRun64(DeskStep64(d, events[0]), events[1..])
  }

  /** The quantity the events ask the book to take in. */
  function AskedBy(e: DeskEvent): nat {
    match e
    case NewIn(event) => event.quantity
    case CancelIn(_, _) => 0
    case ModifyIn(_, _, _, q) => q
  }

  function AllAskedBy(events: seq<DeskEvent>): nat {
    if events == [] then 0 else AskedBy(events[0]) + AllAskedBy(events[1..])
  }

  lemma {:induction false} DeskStepLoad(d: Desk, e: DeskEvent)
    requires WellFormed(d.book)
    ensures WellFormed(DeskStep(d, e).book) && Load(DeskStep(d, e).book) <= Load(d.book) + AskedBy(e)
  {
    hide WellFormed, Submit, Trigger, Cancel, Modify, Load;
    match e
    case NewIn(event) =>
      var o := OrderOf(event);
      var x := Submit(d.book, o);
      SubmitConserves(d.book, o);
      SubmitWellFormed(d.book, o);
      TriggerConserves(x.state, x.state.lastTradePrice);
      TriggerWellFormed(x.state, x.state.lastTradePrice);
    case CancelIn(id, _) =>
      CancelConserves(d.book, id);
      CancelWellFormed(d.book, id);
    case ModifyIn(id, _, price, quantity) =>
      ModifyConserves(d.book, id, price, quantity);
      ModifyWellFormed(d.book, id, price, quantity);
  }

  /** While what is held and asked for fits 64 bits, the two runs are the same. */
  lemma {:induction false} DeskRun64Fits(d: Desk, events: seq<DeskEvent>)
    requires WellFormed(d.book) && Load(d.book) + AllAskedBy(events) < TWO64
    ensures DeskRun64(d, events) == DeskRun(d, events)
    decreases events
  {
    hide WellFormed, Handle, Handle64, DeskStep, Load;
    if events == [] {
    } else {
      if events[0].NewIn? {
        Handle64Fits(d.book, OrderOf(events[0].event));
        assert DeskStep64(d, events[0]) == DeskStep(d, events[0]) by { SameHandling(d, events[0]); }
      }
      DeskStepLoad(d, events[0]);
      DeskRun64Fits(DeskStep(d, events[0]), events[1..]);
    }
  }

  lemma {:induction false} SameHandling(d: Desk, e: DeskEvent)
    requires e.NewIn? && Handle64(d.book, OrderOf(e.event)) == Handle(d.book, OrderOf(e.event))
    ensures DeskStep64(d, e) == DeskStep(d, e)
  {
    hide Handle, Handle64;
  }

  /** A request to cancel or modify an order that has traded and is gone: it is answered with a
      rejection that states 0 filled. */
  ghost predicate Late(d: Desk, e: DeskEvent) {
    && !e.NewIn?
    && 0 < e.id < d.book.nextOrderId && !Known(d.book, e.id) && TradedOf(d.trades, e.id) > 0
  }

  lemma {:induction false} HandleAccounts(s: BookState, o: Order, t: seq<Trade>, r: seq<ExecutionReport>)
    requires WellFormed(s) && Account(s, t, r)
    ensures var h := Handle(s, o); WellFormed(h.state) && Account(h.state, t + h.trades, r + h.reports)
  {
    hide Account, WellFormed, Submit, Trigger;
    var x := Submit(s, o);
    var y := Trigger(x.state, x.state.lastTradePrice);
    SubmitAccounts(s, o, t, r);
    SubmitWellFormed(s, o);
    TriggerAccounts(x.state, x.state.lastTradePrice, t + x.trades, r + x.reports);
    TriggerWellFormed(x.state, x.state.lastTradePrice);
    assert t + x.trades + y.trades == t + (x.trades + y.trades);
    assert r + x.reports + y.reports == r + (x.reports + y.reports);
  }

  /** A rejection keeps the accounts exactly when the id was never issued or has traded nothing. */
  lemma {:induction false} RejectionAccounts(s: BookState, id: nat, orig: nat, t: seq<Trade>, r: seq<ExecutionReport>)
    requires Account(s, t, r) && !Known(s, id)
    ensures Account(s, t, r + [CancelReject(id, orig)]) <==> !(0 < id < s.nextOrderId && TradedOf(t, id) > 0)
  {
    hide Settled;
    var x := CancelReject(id, orig);
    ClosingReport(t, r, x);
    SettledApart(t, r, t, r + [x], s.bids);
    SettledApart(t, r, t, r + [x], s.asks);
    SettledApart(t, r, t, r + [x], s.stops);
    assert 0 < id < s.nextOrderId ==> Tracked(t, r, id);
    forall i: nat | 0 < i < s.nextOrderId && i != id ensures Tracked(t, r + [x], i) { assert Tracked(t, r, i); }
    assert Tracked(t, r + [x], id) <==> TradedOf(t, id) == 0;
  }

  /** An event keeps the accounts exactly when it is not late. */
  lemma {:induction false} DeskStepAccount(d: Desk, e: DeskEvent)
    requires WellFormed(d.book) && Account(d.book, d.trades, d.told)
    ensures var n := DeskStep(d, e);
            WellFormed(n.book) && (Account(n.book, n.trades, n.told) <==> !Late(d, e))
  {
    hide WellFormed, Account, Handle, Cancel, Modify;
    match e
    case NewIn(event) => HandleAccounts(d.book, OrderOf(event), d.trades, d.told);
    case CancelIn(id, orig) =>
      CancelWellFormed(d.book, id);
      CancelAccounts(d.book, id, d.trades, d.told);
      CancelIsExact(d.book, id);
      CancelNothing(d.book, id);
      if !Known(d.book, id) { RejectionAccounts(d.book, id, orig, d.trades, d.told); }
    case ModifyIn(id, orig, price, quantity) =>
      ModifyWellFormed(d.book, id, price, quantity);
      ModifyAccounts(d.book, id, price, quantity, d.trades, d.told);
      CancelIsExact(d.book, id);
      CancelNothing(d.book, id);
      ModifyLikeCancel(d.book, id, price, quantity);
      if !Known(d.book, id) { RejectionAccounts(d.book, id, orig, d.trades, d.told); }
  }

  lemma {:induction false} CancelNothing(s: BookState, id: nat)
    ensures Cancel(s, id).report.None? ==> Cancel(s, id).state == s
  {
  }

  lemma {:induction false} ModifyLikeCancel(s: BookState, id: nat, price: int, quantity: nat)
    ensures Modify(s, id, price, quantity).report.Some? <==> Cancel(s, id).report.Some?
    ensures Cancel(s, id).report.None? ==> Modify(s, id, price, quantity).state == Cancel(s, id).state
  {
  }

  /** At every moment of the run the last report told on every issued id states what it has traded. */
  ghost predicate ToldRight(d: Desk, events: seq<DeskEvent>)
    decreases events
  {
    && Account(d.book, d.trades, d.told)
    && (events == [] || ToldRight(DeskStep(d, events[0]), events[1..]))
  }

  ghost predicate NeverLate(d: Desk, events: seq<DeskEvent>)
    decreases events
  {
    events == [] || (!Late(d, events[0]) && NeverLate(DeskStep(d, events[0]), events[1..]))
  }

  /** For every run of the actor's events: what it has told stays right throughout exactly when no
      request ever came late. */
  lemma {:induction false} ToldRightIff(d: Desk, events: seq<DeskEvent>)
    requires WellFormed(d.book) && Account(d.book, d.trades, d.told)
    ensures ToldRight(d, events) <==> NeverLate(d, events)
    decreases events
  {
    hide WellFormed, Account, Late, DeskStep;
    if events == [] {
    } else {
      DeskStepAccount(d, events[0]);
      if Late(d, events[0]) {
        assert !ToldRight(DeskStep(d, events[0]), events[1..]);
      } else {
        ToldRightIff(DeskStep(d, events[0]), events[1..]);
      }
    }
  }

  /** In particular from a new book. */
  lemma {:induction false} ToldRightFromStart(sym: nat, events: seq<DeskEvent>)
    ensures var d := Desk(Start(sym).book, [], []); ToldRight(d, events) <==> NeverLate(d, events)
  {
    ToldRightIff(Desk(Start(sym).book, [], []), events);
  }

  // ----- The failing input ----------------------------------------------------------------------------

  /** A limit order that may rest. */
  predicate PlainEvent(e: NewOrderEvent, side: Side) {
    e.side == side && PlainLimit(OrderOf(e))
  }

  /** A sell rests, a buy of its size takes it, and only then the request to cancel it comes in: the
      last report on the sell says 0 filled although all of it has traded. */
  lemma {:induction false} LateCancelMisleads(sym: nat, sell: NewOrderEvent, buy: NewOrderEvent, orig: nat)
    requires PlainEvent(sell, Sell) && PlainEvent(buy, Buy)
    requires buy.quantity == sell.quantity && buy.price >= sell.price
    ensures var d, events := Desk(Start(sym).book, [], []), [NewIn(sell), NewIn(buy), CancelIn(1, orig)];
            && !ToldRight(d, events)
            && TradedOf(DeskRun(d, events).trades, 1) == sell.quantity
            && LastFilled(DeskRun(d, events).told, 1) == Some(0)
  {
    hide Handle, Cancel, Late;
    var d0, all := Desk(Start(sym).book, [], []), [NewIn(sell), NewIn(buy), CancelIn(1, orig)];
    var d1 := DeskStep(d0, all[0]);
    var d2 := DeskStep(d1, all[1]);
    var d3 := DeskStep(d2, all[2]);
    FirstRests(d0.book, OrderOf(sell));
    TakesFirst(d1.book, OrderOf(buy));
    assert d2.trades == Handle(d1.book, OrderOf(buy)).trades;
    CancelUnknown(d2.book, 1);
    assert d3.trades == d2.trades && d3.told == d2.told + [CancelReject(1, orig)];
    LastFilledConcat(d2.told, [CancelReject(1, orig)], 1);
    assert Late(d2, all[2]) by { NothingKnown(d2, 1, orig); }
    var r1 := all[1..];
    var r2 := r1[1..];
    assert r1[0] == all[1] && r2[0] == all[2] && r2[1..] == [];
    assert DeskRun(d0, all) == DeskRun(d1, r1) == DeskRun(d2, r2) == DeskRun(d3, []);
    assert !NeverLate(d2, r2) && !NeverLate(d1, r1) && !NeverLate(d0, all);
    ToldRightFromStart(sym, all);
  }

  lemma {:induction false} FirstRests(s: BookState, request: Order)
    requires s.phase == CTS && s.bids == [] && s.asks == [] && s.stops == []
    requires PlainLimit(request) && request.side == Sell
    ensures var o, h := Admit(s, request), Handle(s, request);
            h.state == Numbered(s).(asks := [o]) && h.trades == []
  {
    hide Submit;
    LimitRests(s, request);
    assert Insert(Sell, [], Admit(s, request)) == [Admit(s, request)];
  }

  /** A buy of the size of the only order there is takes it. */
  lemma {:induction false} TakesFirst(s: BookState, request: Order)
    requires s.phase == CTS && s.bids == [] && |s.asks| == 1 && s.stops == []
    requires PlainLimit(request) && request.side == Buy && request.price >= s.asks[0].price
    requires request.quantity == s.asks[0].remainingQty && s.asks[0].orderId < s.nextOrderId
    ensures var h := Handle(s, request);
            && h.state.bids == [] && h.state.asks == [] && h.state.stops == []
            && h.state.nextOrderId == s.nextOrderId + 1
            && TradedOf(h.trades, s.asks[0].orderId) == request.quantity
  {
    hide Submit, Match, FillsOf, TradesOf, ReportsOf;
    var a, o := s.asks[0], Admit(s, request);
    SubmitCases(s, request);
    MatchFirst(BoundOf(o), o.quantity, s.asks);
    assert s.asks[1..] == [];
    MatchNothing(BoundOf(o), 0, []);
    assert [Hit(a, o.quantity)] + [] == [Hit(a, o.quantity)];
    OneTrade(s.symbolIdx, o, Hit(a, o.quantity), s.nextTradeId);
  }

  lemma {:induction false} OneTrade(sym: nat, active: Order, h: Hit, id: nat)
    requires active.side == Buy
    ensures TradedOf(TradesOf(sym, FillsOf(Continuous, active, [h]), id), h.resting.orderId) == h.qty
  {
    var fills, f := FillsOf(Continuous, active, [h]), FillOf(Continuous, active, h);
    assert [h][1..] == [] && fills == [f] + FillsOf(Continuous, Residue(active, h.qty), []);
    assert fills[1..] == [] && TradesOf(sym, fills, id) == [TradeOf(sym, f, id)] + TradesOf(sym, [], id + 1);
    assert TradesOf(sym, fills, id)[1..] == [];
  }

  lemma {:induction false} CancelUnknown(s: BookState, id: nat)
    requires s.bids == [] && s.asks == [] && s.stops == []
    ensures Cancel(s, id) == Removal(s, None, None)
  {
  }

  lemma {:induction false} NothingKnown(d: Desk, id: nat, orig: nat)
    requires d.book.bids == [] && d.book.asks == [] && d.book.stops == []
    requires 0 < id < d.book.nextOrderId && TradedOf(d.trades, id) > 0
    ensures Late(d, CancelIn(id, orig))
  {
  }
}
