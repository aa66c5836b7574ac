/** The objects fed with whole runs: they end in the states the run-level statements speak of. */
module Feeding {
  import opened Types
  import opened Ladder
  import opened BookSpec
  import opened Ledger
  import opened Runs
  import opened Twin
  import opened Width
  import opened MECore
  import OrderBook
  import F = FlatEngine

  // ----- The book -----------------------------------------------------------------------------

  /** One command with the 64-bit sums of the code. */
  function Step64(w: World, c: Command): World {
    match c
    case Enter(o) => Entered(w, o, Submit64(w.book, o))
    case TriggerAt(p) => Batched(w, Trigger64(w.book, p))
    case UncrossNow => Batched(w, Uncross64(w.book))
    case _ => Step(w, c)
  }

  function Run64(w: World, commands: seq<Command>): World
    decreases commands
  {
    if commands == [] then w else Run64(Step64(w, commands[0]), commands[1..])
  }

  lemma {:induction false} StepLoad(w: World, c: Command)
    ensures Load(Step(w, c).book) <= Load(w.book) + Asked(c)
  {
    hide Submit, Trigger, Cancel, Modify, Uncross, Load;
    match c
    case Enter(o) => SubmitConserves(w.book, o);
    case TriggerAt(p) => TriggerConserves(w.book, p);
    case CancelId(id) => CancelConserves(w.book, id);
    case ModifyId(id, p, q) => ModifyConserves(w.book, id, p, q);
    case SetPhase(p) => assert Load(w.book.(phase := p)) == Load(w.book) by { PhaseLoad(w.book, p); }
    case UncrossNow => UncrossConserves(w.book);
  }

  lemma {:induction false} PhaseLoad(s: BookState, phase: TradingPhase)
    ensures Load(s.(phase := phase)) == Load(s)
  {
  }

  /** While what is held and asked for fits 64 bits, the run of the code is that of the specification. */
  lemma {:induction false} Run64Fits(w: World, commands: seq<Command>)
    requires WellFormed(w.book) && Load(w.book) + AllAsked(commands) < TWO64
    ensures Run64(w, commands) == Run(w, commands)
    decreases commands
  {
    hide WellFormed, Step, Step64, Load;
    if commands == [] {
    } else {
      Step64Fits(w, commands[0]);
      StepWellFormed(w, commands[0]);
      StepLoad(w, commands[0]);
      Run64Fits(Step(w, commands[0]), commands[1..]);
    }
  }

  lemma {:induction false} Step64Fits(w: World, c: Command)
    requires WellFormed(w.book) && Load(w.book) < TWO64
    ensures Step64(w, c) == Step(w, c)
  {
    hide Submit, Submit64, Trigger, Trigger64, Uncross, Uncross64, WellFormed, Load;
    match c
    case Enter(o) => Submit64Fits(w.book, o);
    case TriggerAt(p) => Trigger64Fits(w.book, p);
    case UncrossNow => Uncross64Fits(w.book);
    case _ =>
  }

  /** One command on the book object. */
  method Obey(book: OrderBook.Book, c: Command) returns (trades: seq<Trade>, reports: seq<ExecutionReport>)
    requires book.Valid()
    modifies book
    ensures book.Valid()
    ensures forall w: World | w.book == old(book.Abs()) ::
              && Step64(w, c).book == book.Abs()
              && Step64(w, c).trades == w.trades + trades && Step64(w, c).reports == w.reports + reports
  {
    hide Submit64, Trigger64, Cancel, Modify, Uncross64, WellFormed;
    assert forall w: World :: w.trades + [] == w.trades && w.reports + [] == w.reports;
    trades, reports := [], [];
    match c
    case Enter(o) =>
      var order;
      order, trades, reports := book.NewOrder(o);
    case TriggerAt(p) => trades, reports := book.TriggerStopOrders(p);
    case CancelId(id) =>
      var ok, report := book.CancelOrder(id);
      if ok { reports := [report]; }
    case ModifyId(id, p, q) =>
      var ok, report := book.ModifyOrder(id, p, q);
      if ok { reports := [report]; }
    case SetPhase(p) => book.SetPhase(p);
    case UncrossNow => trades, reports := book.Uncross();
  }

  /** A new book fed with any run of commands ends in the state of the run, having emitted its trades
      and reports; while the run asks for less than 2^64 in all, that is the run `EveryRun` speaks of. */
  method FeedBook(sym: nat, commands: seq<Command>)
    returns (book: OrderBook.Book, trades: seq<Trade>, reports: seq<ExecutionReport>)
    ensures fresh(book) && book.Valid()
    ensures var w := Run64(Start(sym), commands);
      book.Abs() == w.book && trades == w.trades && reports == w.reports
    ensures AllAsked(commands) < TWO64 ==>
              var w := Run(Start(sym), commands);
              book.Abs() == w.book && trades == w.trades && reports == w.reports
  {
    hide Step, Step64, WellFormed;
    book := new OrderBook.Book(sym);
    trades, reports := [], [];
    ghost var w := Start(sym);
    assert commands[0..] == commands;
    for i := 0 to |commands|
      invariant fresh(book) && book.Valid()
      invariant book.Abs() == w.book && trades == w.trades && reports == w.reports
      invariant Run64(w, commands[i..]) == Run64(Start(sym), commands)
    {
      assert commands[i..][1..] == commands[i + 1..];
      var ts, rs := Obey(book, commands[i]);
      w := Step64(w, commands[i]);
      trades, reports := trades + ts, reports + rs;
    }
    assert commands[|commands|..] == [];
    if AllAsked(commands) < TWO64 {
      StartSound(sym);
      Run64Fits(Start(sym), commands);
    }
  }

  // ----- The actor ------------------------------------------------------------------------------

  function ReportsIn(events: seq<ExecReportEvent>): seq<ExecutionReport> {
    if events == [] then [] else [events[0].report] + ReportsIn(events[1..])
  }

  function TradesIn(events: seq<MarketDataEvent>): seq<Trade> {
    if events == [] then []
    else (if events[0].TradeEvent? then [events[0].trade] else []) + TradesIn(events[1..])
  }

  lemma {:induction false} ReportsInConcat(a: seq<ExecReportEvent>, b: seq<ExecReportEvent>)
    ensures ReportsIn(a + b) == ReportsIn(a) + ReportsIn(b)
  {
    if a == [] {
      assert a + b == b;
    } else {
      assert (a + b)[1..] == a[1..] + b;
      ReportsInConcat(a[1..], b);
    }
  }

  lemma {:induction false} TradesInConcat(a: seq<MarketDataEvent>, b: seq<MarketDataEvent>)
    ensures TradesIn(a + b) == TradesIn(a) + TradesIn(b)
  {
    if a == [] {
      assert a + b == b;
    } else {
      assert (a + b)[1..] == a[1..] + b;
      TradesInConcat(a[1..], b);
    }
  }

  lemma {:induction false} AddressedReports(reports: seq<ExecutionReport>, session: nat)
    ensures ReportsIn(Addressed(reports, session)) == reports
  {
    if reports == [] {
    } else {
      AddressedReports(reports[1..], session);
      var rest := Addressed(reports[1..], session);
      assert ([ExecReportEvent(reports[0], session)] + rest)[1..] == rest;
    }
  }

  lemma {:induction false} EventTrades(trades: seq<Trade>)
    ensures TradesIn(TradeEvents(trades)) == trades
  {
    if trades == [] {
    } else {
      EventTrades(trades[1..]);
      var rest := TradeEvents(trades[1..]);
      assert ([TradeEvent(trades[0])] + rest)[1..] == rest;
    }
  }

  /** The actor stands where the desk does: same book, same trades published and cleared, same
      reports told. */
  ghost predicate Stands(actor: MECoreActor, d: Desk)
    reads actor, actor.book
  {
    && actor.book.Valid() && actor.book.Abs() == d.book
    && ReportsIn(actor.oePipe) == d.told && TradesIn(actor.mdPipe) == d.trades
    && actor.chPipe == if actor.clearing then d.trades else []
  }

  /** One event, whatever session it comes from. */
  method Serve(actor: MECoreActor, e: DeskEvent, session: nat, ghost d: Desk)
    requires Stands(actor, d)
    requires e.NewIn? ==> e.event.sessionId == session
    modifies actor, actor.book
    ensures Stands(actor, DeskStep64(d, e))
  {
    hide Handle64, Cancel, Modify, OrderBook.Book.Valid, TradesIn, ReportsIn;
    ghost var oe, md := actor.oePipe, actor.mdPipe;
    match e
    case NewIn(event) =>
      ghost var h := Handle64(d.book, OrderOf(event));
      actor.OnNewOrder(event);
      ReportsInConcat(oe, Addressed(h.reports, session));
      AddressedReports(h.reports, session);
      TradesInConcat(md, TradeEvents(h.trades) + [Update(h.state)]);
      assert md + (TradeEvents(h.trades) + [Update(h.state)]) == md + TradeEvents(h.trades) + [Update(h.state)];
      TradesInConcat(TradeEvents(h.trades), [Update(h.state)]);
      EventTrades(h.trades);
      NoTradesIn(h.state);
    case CancelIn(id, orig) =>
      actor.OnCancelOrder(id, orig, session);
      OneMore(oe, md, Cancel(d.book, id), id, orig, session);
    case ModifyIn(id, orig, price, quantity) =>
      actor.OnModifyOrder(id, orig, price, quantity, session);
      OneMore(oe, md, Modify(d.book, id, price, quantity), id, orig, session);
  }

  lemma {:induction false} NoTradesIn(s: BookState)
    ensures TradesIn([Update(s)]) == []
  {
    assert [Update(s)][1..] == [];
  }

  /** The answer to a request to cancel or modify is one more report, and no trade. */
  lemma {:induction false} OneMore(oe: seq<ExecReportEvent>, md: seq<MarketDataEvent>, x: Removal, id: nat,
          orig: nat, session: nat)
    ensures ReportsIn(oe + [ExecReportEvent(Answer(x, id, orig), session)]) == ReportsIn(oe) + [Answer(x, id, orig)]
    ensures TradesIn(md + (if x.report.Some? then [Update(x.state)] else [])) == TradesIn(md)
  {
    hide Update, Answer;
    var e := ExecReportEvent(Answer(x, id, orig), session);
    assert [e][1..] == [];
    ReportsInConcat(oe, [e]);
    TradesInConcat(md, [Update(x.state)]);
    NoTradesIn(x.state);
    assert md + [] == md && TradesIn(md) + [] == TradesIn(md);
  }

  /** A new actor fed with any run of events stands where the run ends; while the run asks for less
      than 2^64 in all, that is the run `ToldRightIff` speaks of. */
  method FeedDesk(sym: nat, clearing: bool, events: seq<DeskEvent>, sessions: seq<nat>) returns (actor: MECoreActor)
    requires |sessions| == |events|
    requires forall i :: 0 <= i < |events| && events[i].NewIn? ==> events[i].event.sessionId == sessions[i]
    ensures fresh(actor) && fresh(actor.book) && actor.clearing == clearing
    ensures Stands(actor, DeskRun64(Desk(Start(sym).book, [], []), events))
    ensures AllAskedBy(events) < TWO64 ==> Stands(actor, DeskRun(Desk(Start(sym).book, [], []), events))
  {
    hide DeskStep64, DeskStep, Stands;
    ghost var start := Desk(Start(sym).book, [], []);
    actor := new MECoreActor(sym, clearing);
    ghost var d := start;
    assert Stands(actor, d) by { NewActor(actor, d); }
    assert events[0..] == events;
    for i := 0 to |events|
      invariant fresh(actor) && fresh(actor.book) && actor.clearing == clearing
      invariant Stands(actor, d) && DeskRun64(d, events[i..]) == DeskRun64(start, events)
    {
      assert events[i..][1..] == events[i + 1..];
      Serve(actor, events[i], sessions[i], d);
      d := DeskStep64(d, events[i]);
    }
    assert events[|events|..] == [];
    if AllAskedBy(events) < TWO64 {
      StartSound(sym);
      DeskRun64Fits(start, events);
    }
  }

  lemma {:induction false} NewActor(actor: MECoreActor, d: Desk)
    requires actor.book.Valid() && actor.book.Abs() == d.book && d.told == [] && d.trades == []
    requires actor.oePipe == [] && actor.mdPipe == [] && actor.chPipe == []
    ensures Stands(actor, d)
  {
  }

  // ----- Both engines -----------------------------------------------------------------------------

  /** A new flat engine fed with orders and cancellations ends in the state of `FlatRun`. */
  method FeedEngine(commands: seq<Command>) returns (engine: F.MatchingEngine)
    requires forall k :: k in commands ==> Shared(k)
    ensures fresh(engine) && engine.Abs() == FlatRun(FlatStart(), commands)
  {
    hide F.Submitted, F.CancelledState;
    engine := new F.MatchingEngine();
    assert commands[0..] == commands;
    for i := 0 to |commands|
      invariant fresh(engine) && FlatRun(engine.Abs(), commands[i..]) == FlatRun(FlatStart(), commands)
    {
      assert commands[i..][1..] == commands[i + 1..] && commands[i] in commands;
      match commands[i]
      case Enter(o) => var order, deals := engine.SubmitOrder(o.side, o.ordType, o.price, o.quantity, o.tif);
      case CancelId(id) => var found := engine.CancelOrder(id + SHIFT);
      case _ =>
    }
    assert commands[|commands|..] == [];
  }

  /** Both engines fed with the same orders and cancellations, less than 2^64 in all, hold the same
      book and have made the same trades. */
  method FeedBoth(sym: nat, commands: seq<Command>)
    returns (book: OrderBook.Book, trades: seq<Trade>, engine: F.MatchingEngine)
    requires forall k :: k in commands ==> Shared(k)
    ensures fresh(book) && fresh(engine)
    ensures AllAsked(commands) < TWO64 ==>
              && engine.bids == Mirrors(Flatten(book.bids)) && engine.asks == Mirrors(Flatten(book.asks))
              && engine.trades == MirrorTrades(trades)
  {
    hide Run, Run64, FlatRun;
    var reports;
    book, trades, reports := FeedBook(sym, commands);
    engine := FeedEngine(commands);
    EnginesAgree(sym, commands);
  }
}
