/** Safety of the trading phases: the auction clears the book exactly when it finds a price, and a
    continuous book is never crossed. */
module Safety {
  import opened Types
  import opened PriceTime
  import opened Tape
  import opened AuctionSpec
  import opened BookSpec
  import opened Ledger
  import opened Runs

  // ----- Books with real quantities and prices ------------------------------------------------

  /** Every order has quantity, and if `priced` a positive price. */
  ghost predicate PositiveSide(book: seq<Order>, priced: bool) {
    forall o :: o in book ==> o.remainingQty > 0 && (priced ==> o.price > 0)
  }

  /** Every resting order has quantity and a positive price; so will every parked one that can
      come to rest. */
  ghost predicate PositiveBook(s: BookState) {
    && PositiveSide(s.bids, true) && PositiveSide(s.asks, true)
    && forall o :: o in s.stops ==> o.remainingQty > 0 && (o.ordType == StopMarket || o.price > 0)
  }

  /** Commands that keep a book positive: orders carry quantity, and a price wherever they could
      rest; while orders accumulate no market order arrives and no market stop is triggered. */
  predicate Proper(s: BookState, c: Command) {
    match c
    case Enter(o) =>
      && o.quantity > 0
      && (o.price > 0 || o.ordType == StopMarket || (o.ordType == Market && !Accumulating(s)))
    case TriggerAt(p) => Accumulating(s) ==> forall o :: o in s.stops && Triggers(o, p) ==> o.ordType != StopMarket
    case CancelId(_) => true
    case ModifyId(_, _, _) => false
    case SetPhase(_) => true
    case UncrossNow => true
  }

  lemma {:induction false} MatchPositive(bd: Bound, qty: nat, book: seq<Order>, priced: bool)
    requires PositiveSide(book, priced)
    ensures PositiveSide(Match(bd, qty, book).book, priced)
    decreases book
  {
    if qty == 0 || book == [] || !Within(bd, book[0].price) {
    } else {
      MatchFirst(bd, qty, book);
      assert book[0] in book;
      if book[0].remainingQty <= qty {
        MatchPositive(bd, qty - book[0].remainingQty, book[1..], priced);
      }
    }
  }

  lemma {:induction false} RestPositive(s: BookState, o: Order)
    requires PositiveBook(s) && o.remainingQty > 0 && o.price > 0
    ensures PositiveBook(Rest(s, o))
  {
    InsertMembers(o.side, if o.side == Buy then s.bids else s.asks, o);
  }

  lemma {:induction false} SubmitPositive(s: BookState, o: Order)
    requires PositiveBook(s) && Proper(s, Enter(o))
    ensures PositiveBook(Submit(s, o).state) && Submit(s, o).state.phase == s.phase
  {
    hide Match;
    var x, s1 := Admit(s, o), Numbered(s);
    if IsStop(x) {
    } else if Accumulating(s1) {
      RestPositive(s1, x);
    } else if !Refuses(s1, x) {
      var m := Sweeping(s1, x);
      MatchPositive(BoundOf(x), x.remainingQty, Facing(s1, x.side), true);
      assert PositiveBook(m.state);
      if Settle(m).state != m.state { RestPositive(m.state, Settle(m).order); }
    }
  }

  lemma {:induction false} SubmitAllPositive(s: BookState, stops: seq<Order>)
    requires PositiveBook(s)
    requires forall o :: o in stops ==>
               o.remainingQty > 0 && (if o.ordType == StopMarket then !Accumulating(s) else o.price > 0)
    ensures PositiveBook(SubmitAll(s, stops).state) && SubmitAll(s, stops).state.phase == s.phase
    decreases stops
  {
    hide Submit, PositiveBook;
    if stops == [] {
    } else {
      assert stops[0] in stops;
      SubmitPositive(s, Convert(stops[0]));
      SubmitAllPositive(Submit(s, Convert(stops[0])).state, stops[1..]);
    }
  }

  lemma {:induction false} CrossPositive(iop: int, bids: seq<Order>, asks: seq<Order>, priced: bool)
    requires PositiveSide(bids, priced) && PositiveSide(asks, priced)
    ensures PositiveSide(Cross(iop, bids, asks).bids, priced) && PositiveSide(Cross(iop, bids, asks).asks, priced)
    decreases asks
  {
    if asks == [] || asks[0].price > iop {
    } else {
      assert asks[0] in asks;
      MatchPositive(AtLeast(iop), asks[0].remainingQty, bids, priced);
      CrossPositive(iop, Match(AtLeast(iop), asks[0].remainingQty, bids).book, asks[1..], priced);
    }
  }

  lemma {:induction false} StepPositive(w: World, c: Command)
    requires WellFormed(w.book) && PositiveBook(w.book) && Proper(w.book, c)
    ensures PositiveBook(Step(w, c).book)
    ensures Step(w, c).book.phase == if c.SetPhase? then c.phase else w.book.phase
  {
    hide WellFormed;
    var s := w.book;
    match c
    case Enter(o) => SubmitPositive(s, o);
    case TriggerAt(p) =>
      SelectMembers(s.stops, p, false);
      SelectMembers(s.stops, p, true);
      SubmitAllPositive(s.(stops := Select(s.stops, p, false)), Select(s.stops, p, true));
    case CancelId(id) => Accounts.CancelMembers(s, id);
    case SetPhase(p) =>
    case UncrossNow => CrossPositive(Iop(s.bids, s.asks), s.bids, s.asks, true);
  }

  // ----- The auction clears the book ------------------------------------------------------------

  /** Exactly when the auction leaves nothing that can trade: when it has found a price, or when
      there was nothing to do. The one failing family are books whose winning price is 0. */
  lemma {:induction false} AuctionClearsIff(s: BookState)
    requires WellFormed(s)
    ensures !CanTrade(Uncross(s).state.bids, Uncross(s).state.asks)
       <==> Iop(s.bids, s.asks) != 0 || !CanTrade(s.bids, s.asks)
  {
    if Iop(s.bids, s.asks) != 0 { UncrossClears(s.bids, s.asks); }
  }

  /** The auction is going to leave an uncrossed book: every resting order has quantity, and
      `getIOP` finds a price unless nothing can trade. */
  ghost predicate Clears(s: BookState) {
    && PositiveSide(s.bids, false) && PositiveSide(s.asks, false)
    && (Iop(s.bids, s.asks) != 0 || !CanTrade(s.bids, s.asks))
  }

  lemma {:induction false} AuctionUncrosses(s: BookState)
    requires WellFormed(s) && Clears(s)
    ensures Uncrossed(Uncross(s).state.bids, Uncross(s).state.asks)
  {
    var x := Uncross(s).state;
    AuctionClearsIff(s);
    CrossPositive(Iop(s.bids, s.asks), s.bids, s.asks, false);
    CrossedCanTrade(x.bids, x.asks);
  }

  lemma {:induction false} TradesAt(sym: nat, fills: seq<Fill>, id: nat, price: int)
    requires forall f :: f in fills ==> f.price == price
    ensures forall t :: t in TradesOf(sym, fills, id) ==> t.price == price
  {
    if fills == [] {
    } else {
      assert fills[0] in fills;
      TradesAt(sym, fills[1..], id + 1, price);
    }
  }

  /** The opening auction, whole: without a price nothing happens. With one, every trade is at that
      price, together they execute exactly what is executable there, no single price whatsoever
      could execute more, and afterwards no price could execute anything. */
  lemma {:induction false} OpeningAuction(s: BookState)
    requires WellFormed(s)
    ensures var x, iop := Uncross(s), Iop(s.bids, s.asks);
            if iop == 0 then x == Batch(s, [], [], [])
            else
              && (forall t :: t in x.trades ==> t.price == iop)
              && Traded(x.trades) == Volume(s.bids, s.asks, iop)
              && (forall p :: Volume(s.bids, s.asks, p) <= Traded(x.trades))
              && !CanTrade(x.state.bids, x.state.asks)
  {
    var iop := Iop(s.bids, s.asks);
    if iop != 0 {
      var c := Cross(iop, s.bids, s.asks);
      UncrossClears(s.bids, s.asks);
      CrossVolume(iop, s.bids, s.asks);
      TradedIsFillQty(s.symbolIdx, c.fills, s.nextTradeId);
      TradesAt(s.symbolIdx, c.fills, s.nextTradeId, iop);
    }
  }

  /** Who trades in it: each side is swept once, best price and earliest order first, for the quantity
      executable at the opening price, and every order trades what that sweep allocates to it. Where
      every order has quantity the sides left are those the two sweeps leave. */
  lemma {:induction false} AuctionAllocates(s: BookState, k: nat)
    requires WellFormed(s) && Iop(s.bids, s.asks) != 0
    ensures var x, iop := Uncross(s), Iop(s.bids, s.asks);
            var v := Volume(s.bids, s.asks, iop);
            && (k < |s.bids| ==>
                  TradedOf(x.trades, s.bids[k].orderId) == Allocation(AtLeast(iop), v, s.bids, k))
            && (k < |s.asks| ==>
                  TradedOf(x.trades, s.asks[k].orderId) == Allocation(AtMost(iop), v, s.asks, k))
            && (PositiveSide(s.bids, false) ==> x.state.bids == Match(AtLeast(iop), v, s.bids).book)
            && (PositiveSide(s.asks, false) ==> x.state.asks == Match(AtMost(iop), v, s.asks).book)
  {
    hide Match, Iop, Volume, Allocation, InPriority, DistinctIds, Cross, TradesOf;
    var iop := Iop(s.bids, s.asks);
    CrossAllocates(iop, s.symbolIdx, s.bids, s.asks, s.nextTradeId, k);
    CrossVolume(iop, s.bids, s.asks);
    CrossSweepsBids(iop, s.bids, s.asks, k);
    CrossSweepsAsks(iop, s.bids, s.asks, k);
  }

  /** With positive quantities and prices the auction always clears. */
  lemma {:induction false} PositiveClears(s: BookState)
    requires WellFormed(s) && PositiveBook(s)
    ensures Clears(s)
  {
    IopIsOptimal(s.bids, s.asks);
    assert !HasPrice(s.bids, 0) && !HasPrice(s.asks, 0);
  }

  /** A larger sell at price 0 makes 0 the winning price, which reads as "no price". */
  lemma {:induction false} ZeroWins(b: Order, a: Order)
    requires b.price > 0 && a.price == 0 && 0 < b.remainingQty < a.remainingQty
    ensures CanTrade([b], [a]) && Iop([b], [a]) == 0
  {
    assert [b][1..] == [] && [a][1..] == [];
    forall p ensures CumBuy([b], p) == (if b.price >= p then b.remainingQty else 0)
                  && CumSell([a], p) == (if 0 <= p then a.remainingQty else 0)
    {
      assert Reachable(AtLeast(p), [b][1..]) == 0 && Reachable(AtMost(p), [a][1..]) == 0;
    }
    assert Volume([b], [a], 0) > 0;
    assert Wins([b], [a], 0) by { assert a in [a]; }
    IopIsOptimal([b], [a]);
  }

  /** The run that keeps the auction from clearing: before the opening a limit buy and a larger
      market sell that carries price 0 come to rest; 0 is the winning price, which `getIOP` cannot
      tell from "no price"; the auction trades nothing and the book stays crossed into continuous
      trading. */
  lemma {:induction false} MarketOrderBlocksAuction(sym: nat, buy: Order, sell: Order)
    requires buy.side == Buy && buy.ordType == Limit && buy.price > 0
    requires sell.side == Sell && sell.ordType == Market && sell.price == 0 && 0 < buy.quantity < sell.quantity
    ensures var w := Run(Start(sym), [SetPhase(PreOpen), Enter(buy), Enter(sell)]);
            && CanTrade(w.book.bids, w.book.asks) && Iop(w.book.bids, w.book.asks) == 0
            && Step(w, UncrossNow) == w
            && w.trades == []
            && |w.book.bids| == 1 && |w.book.asks| == 1 && w.book.bids[0].price > w.book.asks[0].price
  {
    hide Submit, CanTrade, Iop, Step;
    var w0, all := Start(sym), [SetPhase(PreOpen), Enter(buy), Enter(sell)];
    var w1 := Step(w0, all[0]);
    var w2 := Step(w1, all[1]);
    var w3 := Step(w2, all[2]);
    var b, a := Admit(w1.book, buy), Admit(w2.book, sell);
    BeforeOpening(w0);
    AloneAccumulates(w1, buy);
    AloneAccumulates(w2, sell);
    ZeroWins(b, a);
    NoAuction(w3);
    RunOfThree(w0, all);
  }

  lemma {:induction false} BeforeOpening(w: World)
    ensures Step(w, SetPhase(PreOpen)) == w.(book := w.book.(phase := PreOpen))
  {
  }

  /** Before the opening the first order of a side comes to rest on it. */
  lemma {:induction false} AloneAccumulates(w: World, o: Order)
    requires w.book.phase == PreOpen && !IsStop(o)
    requires (if o.side == Buy then w.book.bids else w.book.asks) == []
    ensures var x, a := Step(w, Enter(o)), Admit(w.book, o);
            && x.trades == w.trades && x.book.phase == PreOpen
            && x.book.bids == (if o.side == Buy then [a] else w.book.bids)
            && x.book.asks == (if o.side == Buy then w.book.asks else [a])
  {
    hide Submit;
    SubmitCases(w.book, o);
    assert w.trades + [] == w.trades;
  }

  /** An auction without a price does nothing. */
  lemma {:induction false} NoAuction(w: World)
    requires Iop(w.book.bids, w.book.asks) == 0
    ensures Step(w, UncrossNow) == w
  {
    hide Iop;
    assert w.trades + [] == w.trades && w.reports + [] == w.reports;
  }

  // ----- Continuous trading -----------------------------------------------------------------------

  ghost predicate Clear(s: BookState) {
    Uncrossed(s.bids, s.asks)
  }

  lemma {:induction false} ResiduesUncrossed(b: seq<Order>, a: seq<Order>, b': seq<Order>, a': seq<Order>)
    requires Uncrossed(b, a) && Residues(b', b) && Residues(a', a)
    ensures Uncrossed(b', a')
  {
    forall x, y | x in b' && y in a' ensures x.price < y.price {
      var x1 :| x1 in b && Later(x, x1);
      var y1 :| y1 in a && Later(y, y1);
      assert x.price == x1.price && y.price == y1.price;
    }
  }

  lemma {:induction false} Unchanged(book: seq<Order>)
    ensures Residues(book, book)
  {
    assert forall o :: o in book ==> Later(o, o);
  }

  /** An order may rest when nothing it could trade with is left facing it. */
  lemma {:induction false} RestClear(s: BookState, o: Order)
    requires Clear(s) && o.ordType != Market
    requires forall x :: x in Facing(s, o.side) ==> !Within(BoundOf(o), x.price)
    ensures Clear(Rest(s, o))
  {
    InsertMembers(o.side, if o.side == Buy then s.bids else s.asks, o);
  }

  lemma {:induction false} SweepingClear(s: BookState, o: Order)
    requires WellFormed(s) && Clear(s)
    ensures Clear(Sweeping(s, o).state)
  {
    hide WellFormed, Match;
    var book, bd := Facing(s, o.side), BoundOf(o);
    MatchResidues(bd, o.remainingQty, book);
    Unchanged(s.bids);
    Unchanged(s.asks);
    var x := Sweeping(s, o);
    ResiduesUncrossed(s.bids, s.asks, x.state.bids, x.state.asks);
  }

  lemma {:induction false} SweptRests(s: BookState, o: Order, st: OrderStatus)
    requires WellFormed(s) && Clear(Sweeping(s, o).state) && o.ordType != Market
    requires Sweeping(s, o).order.remainingQty > 0
    ensures Clear(Rest(Sweeping(s, o).state, Sweeping(s, o).order.(status := st)))
  {
    hide Clear, Match;
    SweptClean(Opposite(o.side), BoundOf(o), o.remainingQty, Facing(s, o.side));
    RestClear(Sweeping(s, o).state, Sweeping(s, o).order.(status := st));
  }

  lemma {:induction false} SubmitClear(s: BookState, request: Order)
    requires WellFormed(s) && Clear(s) && !Accumulating(s)
    ensures Clear(Submit(s, request).state)
    ensures Submit(s, request).state.phase == s.phase
  {
    hide WellFormed, Clear, Match;
    var o, s1 := Admit(s, request), Numbered(s);
    NextIdWellFormed(s);
    assert Clear(s1) && Clear(s1.(stops := s1.stops + [o]))
        by { SameBook(s, s1); SameBook(s, s1.(stops := s1.stops + [o])); }
    if !IsStop(o) && !Refuses(s1, o) {
      SweepingClear(s1, o);
      var m := Sweeping(s1, o);
      if m.order.remainingQty > 0 && o.ordType != Market {
        SweptRests(s1, o, New);
        SweptRests(s1, o, PartiallyFilled);
      }
    }
  }

  lemma {:induction false} SameBook(s: BookState, s1: BookState)
    requires Clear(s) && s1.bids == s.bids && s1.asks == s.asks
    ensures Clear(s1)
  {
  }

  lemma {:induction false} SubmitAllClear(s: BookState, stops: seq<Order>)
    requires WellFormed(s) && Clear(s) && !Accumulating(s)
    ensures Clear(SubmitAll(s, stops).state)
    decreases stops
  {
    hide WellFormed, Clear, Submit;
    if stops == [] {
    } else {
      SubmitWellFormed(s, Convert(stops[0]));
      SubmitClear(s, Convert(stops[0]));
      SubmitAllClear(Submit(s, Convert(stops[0])).state, stops[1..]);
    }
  }

  lemma {:induction false} UncrossKeepsClear(s: BookState)
    requires WellFormed(s) && Clear(s)
    ensures Clear(Uncross(s).state)
  {
    var iop := Iop(s.bids, s.asks);
    if iop != 0 {
      CrossKeepsBids(iop, s.bids, s.asks);
      CrossKeepsAsks(iop, s.bids, s.asks);
      ResiduesUncrossed(s.bids, s.asks, Cross(iop, s.bids, s.asks).bids, Cross(iop, s.bids, s.asks).asks);
    }
  }

  /** One step of continuous trading, modification apart, keeps the book uncrossed. */
  lemma {:induction false} StepClear(w: World, c: Command)
    requires WellFormed(w.book) && !Accumulating(w.book) && Clear(w.book) && !c.ModifyId?
    ensures Clear(Step(w, c).book)
  {
    var s := w.book;
    match c
    case Enter(o) => SubmitClear(s, o);
    case TriggerAt(p) =>
      SelectMembers(s.stops, p, false);
      SelectInArrival(s.stops, p, false);
      ParkedSubset(s, Select(s.stops, p, false));
      SubmitAllClear(s.(stops := Select(s.stops, p, false)), Select(s.stops, p, true));
    case CancelId(id) => Accounts.CancelMembers(s, id);
    case SetPhase(p) =>
    case UncrossNow => UncrossKeepsClear(s);
  }

  lemma {:induction false} SubmitPhase(s: BookState, request: Order)
    ensures Submit(s, request).state.phase == s.phase
  {
  }

  lemma {:induction false} SubmitAllPhase(s: BookState, stops: seq<Order>)
    ensures SubmitAll(s, stops).state.phase == s.phase
    decreases stops
  {
    hide Submit, Convert;
    if stops == [] {
    } else {
      SubmitPhase(s, Convert(stops[0]));
      SubmitAllPhase(Submit(s, Convert(stops[0])).state, stops[1..]);
    }
  }

  lemma {:induction false} StepPhase(w: World, c: Command)
    ensures Step(w, c).book.phase == if c.SetPhase? then c.phase else w.book.phase
  {
    hide Submit, SubmitAll;
    var s := w.book;
    match c
    case Enter(o) => SubmitPhase(s, o);
    case TriggerAt(p) => SubmitAllPhase(s.(stops := Select(s.stops, p, false)), Select(s.stops, p, true));
    case _ =>
  }

  /** A run without modifications that enters continuous trading only with an uncrossed book or
      right after an auction that clears (`after` says the last command was one). */
  ghost predicate Orderly(w: World, after: bool, commands: seq<Command>)
    decreases commands
  {
    commands == [] ||
    (&& !commands[0].ModifyId?
     && (commands[0] == SetPhase(CTS) ==> Clear(w.book) || after)
     && Orderly(Step(w, commands[0]), commands[0].UncrossNow? && Clears(w.book), commands[1..]))
  }

  /** What an orderly run keeps between commands. */
  ghost predicate Safe(w: World, after: bool) {
    WellFormed(w.book) && (w.book.phase == CTS || after ==> Clear(w.book))
  }

  lemma {:induction false} StepSafe(w: World, after: bool, c: Command)
    requires Safe(w, after) && !c.ModifyId?
    requires c == SetPhase(CTS) ==> Clear(w.book) || after
    ensures Safe(Step(w, c), c.UncrossNow? && Clears(w.book))
  {
    hide WellFormed, Clear, Clears, Submit;
    StepWellFormed(w, c);
    StepPhase(w, c);
    if c.UncrossNow? && Clears(w.book) {
      AuctionUncrosses(w.book);
      Cleared(w);
    } else if c.SetPhase? {
      if c.phase == CTS { SameBook(w.book, Step(w, c).book); }
    } else if w.book.phase == CTS {
      StepClear(w, c);
    }
  }

  lemma {:induction false} Cleared(w: World)
    requires Uncrossed(Uncross(w.book).state.bids, Uncross(w.book).state.asks)
    ensures Clear(Step(w, UncrossNow).book)
  {
  }

  lemma {:induction false} RunSafe(w: World, after: bool, commands: seq<Command>)
    requires Safe(w, after) && Orderly(w, after, commands)
    ensures Safe(Run(w, commands), false)
    decreases commands
  {
    hide WellFormed, Step, Clears, Clear;
    if commands == [] {
    } else {
      StepSafe(w, after, commands[0]);
      RunSafe(Step(w, commands[0]), commands[0].UncrossNow? && Clears(w.book), commands[1..]);
    }
  }

  /** In every orderly run from the empty book, whenever the book is in continuous trading its
      best bid is strictly below its best ask. */
  lemma {:induction false} ContinuousNeverCrossed(sym: nat, commands: seq<Command>)
    requires Orderly(Start(sym), false, commands)
    ensures var s := Run(Start(sym), commands).book;
            s.phase == CTS && s.bids != [] && s.asks != [] ==> s.bids[0].price < s.asks[0].price
  {
    assert Safe(Start(sym), false);
    RunSafe(Start(sym), false, commands);
    var s := Run(Start(sym), commands).book;
    if s.bids != [] && s.asks != [] { assert s.bids[0] in s.bids && s.asks[0] in s.asks; }
  }

  /** A run of orders with quantities and prices, without modifications, that enters continuous
      trading only with an uncrossed book or right after an auction. */
  ghost predicate Regular(w: World, after: bool, commands: seq<Command>)
    decreases commands
  {
    commands == [] ||
    (&& Proper(w.book, commands[0])
     && (commands[0] == SetPhase(CTS) ==> Clear(w.book) || after)
     && Regular(Step(w, commands[0]), commands[0].UncrossNow?, commands[1..]))
  }

  lemma {:induction false} RegularIsOrderly(w: World, after: bool, commands: seq<Command>)
    requires WellFormed(w.book) && PositiveBook(w.book) && Regular(w, after, commands)
    ensures Orderly(w, after, commands)
    decreases commands
  {
    hide WellFormed, PositiveBook, Step, Clears, Clear;
    if commands == [] {
    } else {
      PositiveClears(w.book);
      StepWellFormed(w, commands[0]);
      StepPositive(w, commands[0]);
      RegularIsOrderly(Step(w, commands[0]), commands[0].UncrossNow?, commands[1..]);
    }
  }

  /** So every auction of such a run clears the book, and the best bid is strictly below the best
      ask at every moment of continuous trading. */
  lemma {:induction false} RegularNeverCrossed(sym: nat, commands: seq<Command>, k: nat)
    requires Regular(Start(sym), false, commands) && k <= |commands|
    ensures var s := Run(Start(sym), commands[..k]).book;
            s.phase == CTS && s.bids != [] && s.asks != [] ==> s.bids[0].price < s.asks[0].price
  {
    RegularPrefix(Start(sym), false, commands, k);
    RegularIsOrderly(Start(sym), false, commands[..k]);
    ContinuousNeverCrossed(sym, commands[..k]);
  }

  lemma {:induction false} RegularPrefix(w: World, after: bool, commands: seq<Command>, k: nat)
    requires Regular(w, after, commands) && k <= |commands|
    ensures Regular(w, after, commands[..k])
    decreases commands
  {
    hide Step, Proper, Clear;
    if k == 0 {
    } else {
      assert commands[..k][0] == commands[0] && commands[..k][1..] == commands[1..][..k - 1];
      RegularPrefix(Step(w, commands[0]), commands[0].UncrossNow?, commands[1..], k - 1);
    }
  }
}
