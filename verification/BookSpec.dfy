/** The order book as a state machine over flat sides in price-time order: what each
    operation of `Book` (src/common/Book.cpp) does to the book and what it emits. */
module BookSpec {
  import opened Types
  import opened PriceTime
  import opened Tape
  import opened AuctionSpec

  datatype BookState = BookState(
    symbolIdx: nat, nextTradeId: nat, nextOrderId: nat, lastTradePrice: int, phase: TradingPhase,
    bids: seq<Order>, asks: seq<Order>, stops: seq<Order>)

  /** The side an incoming order of the given side trades against. */
  function Facing(s: BookState, side: Side): seq<Order> {
    if side == Buy then s.asks else s.bids
  }

  function WithFacing(s: BookState, side: Side, book: seq<Order>): BookState {
    if side == Buy then s.(asks := book) else s.(bids := book)
  }

  function Ack(o: Order, status: OrderStatus, filled: int, remaining: nat): ExecutionReport {
    ExecutionReport(o.orderId, o.clOrdId, status, filled, remaining, 0, 0, 0)
  }

  function Rest(s: BookState, o: Order): BookState {
    if o.side == Buy then s.(bids := Insert(Buy, s.bids, o)) else s.(asks := Insert(Sell, s.asks, o))
  }

  // ----- New orders ------------------------------------------------------------------------

  /** The outcome of one new order: the book, the order as it ends, and what was emitted. */
  datatype Submission = Submission(
    state: BookState, order: Order, trades: seq<Trade>, reports: seq<ExecutionReport>)

  /** The order as the book first records it. */
  function Admit(s: BookState, request: Order): Order {
    request.(orderId := s.nextOrderId, remainingQty := request.quantity, status := New)
  }

  /** The book with one more order id handed out. */
  function Numbered(s: BookState): BookState {
    s.(nextOrderId := s.nextOrderId + 1)
  }

  predicate Accumulating(s: BookState) { s.phase.PreOpen? || s.phase.Opening? }

  /** A closed book rejects every order, a trading book the fill-or-kill orders it cannot fill. */
  predicate Refuses(s: BookState, o: Order) {
    s.phase.Closed? || (o.tif == FOK && Reachable(BoundOf(o), Facing(s, o.side)) < o.quantity)
  }

  function Submit(s: BookState, request: Order): Submission {
    SubmitUnless(s, request, Refuses(Numbered(s), Admit(s, request)))
  }

  /** The branches of a new order, given whether a matching phase refuses it. */
  function SubmitUnless(s: BookState, request: Order, refused: bool): Submission {
    var o, s1 := Admit(s, request), Numbered(s);
    if IsStop(o) then
      Submission(s1.(stops := s1.stops + [o]), o, [], [Ack(o, New, 0, o.quantity)])
    else if Accumulating(s1) then
      Submission(Rest(s1, o), o, [], [Ack(o, New, 0, o.quantity)])
    else if refused then
      Submission(s1, o.(status := Rejected), [], [Ack(o, Rejected, 0, o.quantity)])
    else
      Settle(Sweeping(s1, o))
  }

  /** The matching loop alone: sweep the facing side within the bound, emit every execution. */
  function SweepAt(mode: Mode, bd: Bound, s: BookState, o: Order): Submission {
    Emit(mode, s, o, Match(bd, o.remainingQty, Facing(s, o.side)))
  }

  /** The book and the output a sweep of the facing side amounts to. */
  function Emit(mode: Mode, s: BookState, o: Order, m: Sweep): Submission {
    var fills := FillsOf(mode, o, m.hits);
    Submission(
      WithFacing(s, o.side, m.book).(nextTradeId := s.nextTradeId + |m.hits|,
                                     lastTradePrice := LastPrice(fills, s.lastTradePrice)),
      o.(remainingQty := m.left),
      TradesOf(s.symbolIdx, fills, s.nextTradeId),
      ReportsOf(mode, o.side, fills, s.nextTradeId))
  }

  /** Continuous matching: up to the order's own limit, at the resting prices. */
  function Sweeping(s: BookState, o: Order): Submission {
    SweepAt(Continuous, BoundOf(o), s, o)
  }

  /** The first execution of a sweep, or none. */
  predicate CanHit(bd: Bound, s: BookState, o: Order) {
    o.remainingQty > 0 && Facing(s, o.side) != [] && Within(bd, Facing(s, o.side)[0].price)
  }

  function FirstHit(s: BookState, o: Order): Hit
    requires Facing(s, o.side) != []
  {
    var r := Facing(s, o.side)[0];
    Hit(r, Min(o.remainingQty, r.remainingQty))
  }

  /** The book and the order after one execution against the front of the facing side. */
  function AfterHit(mode: Mode, s: BookState, o: Order): BookState
    requires Facing(s, o.side) != []
  {
    var h := FirstHit(s, o);
    WithFacing(s, o.side, Keep(Residue(h.resting, h.qty)) + Facing(s, o.side)[1..])
      .(nextTradeId := s.nextTradeId + 1, lastTradePrice := FillOf(mode, o, h).price)
  }

  /** `m` with output already emitted put in front of its own. */
  function Resume(trades: seq<Trade>, reports: seq<ExecutionReport>, m: Submission): Submission {
    m.(trades := trades + m.trades, reports := reports + m.reports)
  }

  /** One turn of a matching loop: the sweep is its first execution followed by the sweep of
      what is left, so the loops may be read as the one-shot sweep. */
  lemma {:induction false} SweepStep(mode: Mode, bd: Bound, s: BookState, o: Order)
    requires CanHit(bd, s, o)
    ensures SweepAt(mode, bd, s, o)
         == Resume([TradeOf(s.symbolIdx, FillOf(mode, o, FirstHit(s, o)), s.nextTradeId)],
                   ReportsOfFill(mode, o.side, FillOf(mode, o, FirstHit(s, o)), s.nextTradeId),
                   SweepAt(mode, bd, AfterHit(mode, s, o), Residue(o, FirstHit(s, o).qty)))
  {
    hide Match, Emit;
    var h := FirstHit(s, o);
    MatchStep(bd, o.remainingQty, Facing(s, o.side));
    EmitStep(mode, s, o, h, Match(bd, Residue(o, h.qty).remainingQty, Facing(AfterHit(mode, s, o), o.side)));
  }

  lemma {:induction false} EmitStep(mode: Mode, s: BookState, o: Order, h: Hit, r: Sweep)
    requires Facing(s, o.side) != [] && h == FirstHit(s, o)
    ensures Emit(mode, s, o, r.(hits := [h] + r.hits))
         == Resume([TradeOf(s.symbolIdx, FillOf(mode, o, h), s.nextTradeId)],
                   ReportsOfFill(mode, o.side, FillOf(mode, o, h), s.nextTradeId),
                   Emit(mode, AfterHit(mode, s, o), Residue(o, h.qty), r))
  {
    StepFills(mode, o, h, r.hits);
    StepTape(mode, s.symbolIdx, o.side, FillOf(mode, o, h), FillsOf(mode, Residue(o, h.qty), r.hits),
             s.nextTradeId, s.lastTradePrice);
  }

  lemma {:induction false} StepFills(mode: Mode, o: Order, h: Hit, rest: seq<Hit>)
    ensures FillsOf(mode, o, [h] + rest) == [FillOf(mode, o, h)] + FillsOf(mode, Residue(o, h.qty), rest)
  {
    assert ([h] + rest)[1..] == rest;
  }

  lemma {:induction false} StepTape(mode: Mode, sym: nat, side: Side, f: Fill, rest: seq<Fill>, id: nat, last: int)
    ensures TradesOf(sym, [f] + rest, id) == [TradeOf(sym, f, id)] + TradesOf(sym, rest, id + 1)
    ensures ReportsOf(mode, side, [f] + rest, id)
        == ReportsOfFill(mode, side, f, id) + ReportsOf(mode, side, rest, id + 1)
    ensures LastPrice([f] + rest, last) == LastPrice(rest, f.price)
  {
    assert ([f] + rest)[1..] == rest;
  }

  lemma {:induction false} ResumeTwice(t1: seq<Trade>, r1: seq<ExecutionReport>, t2: seq<Trade>,
          r2: seq<ExecutionReport>, m: Submission)
    ensures Resume(t1, r1, Resume(t2, r2, m)) == Resume(t1 + t2, r1 + r2, m)
  {
    assert t1 + (t2 + m.trades) == t1 + t2 + m.trades;
    assert r1 + (r2 + m.reports) == r1 + r2 + m.reports;
  }

  lemma {:induction false} SweepOver(mode: Mode, bd: Bound, s: BookState, o: Order)
    requires !CanHit(bd, s, o)
    ensures SweepAt(mode, bd, s, o) == Submission(s, o, [], [])
  {
  }

  /** What becomes of the order after matching: filled, cancelled, or resting. */
  function Settle(m: Submission): Submission {
    var o := m.order;
    if o.remainingQty == 0 then
      m.(order := o.(status := Filled), reports := m.reports + [Ack(o, Filled, o.quantity, 0)])
    else if o.ordType == Market || o.tif == IOC then
      m.(order := o.(status := Cancelled), reports := m.reports + [Ack(o, Cancelled, o.quantity - o.remainingQty, 0)])
    else
      var rested := o.(status := if o.remainingQty < o.quantity then PartiallyFilled else New);
      m.(state := Rest(m.state, rested), order := rested,
         reports := m.reports + [Ack(o, rested.status, o.quantity - o.remainingQty, o.remainingQty)])
  }

  /** The ways a new order can go. */
  lemma {:induction false} SubmitCases(s: BookState, request: Order)
    ensures CasesOf(s, request, Refuses(Numbered(s), Admit(s, request)), Submit(s, request))
  {
    hide CasesOf, Refuses;
    SubmitUnlessCases(s, request, Refuses(Numbered(s), Admit(s, request)));
  }

  ghost predicate CasesOf(s: BookState, request: Order, refused: bool, x: Submission) {
    var o, s1 := Admit(s, request), Numbered(s);
    && (IsStop(o) ==> x == Submission(s1.(stops := s1.stops + [o]), o, [], [Ack(o, New, 0, o.quantity)]))
    && (!IsStop(o) && Accumulating(s1) ==> x == Submission(Rest(s1, o), o, [], [Ack(o, New, 0, o.quantity)]))
    && (!IsStop(o) && !Accumulating(s1) && refused ==>
          x == Submission(s1, o.(status := Rejected), [], [Ack(o, Rejected, 0, o.quantity)]))
    && (!IsStop(o) && !Accumulating(s1) && !refused ==> x == Settle(Sweeping(s1, o)))
  }

  lemma {:induction false} SubmitUnlessCases(s: BookState, request: Order, refused: bool)
    ensures CasesOf(s, request, refused, SubmitUnless(s, request, refused))
  {
    hide Settle, Sweeping, Rest;
  }

  // ----- Stop orders ---------------------------------------------------------------------------

  predicate Triggers(stop: Order, price: int) {
    if stop.side == Buy then price >= stop.stopPrice else price <= stop.stopPrice
  }

  /** The stops triggered by the price (or, with `hit` false, the others), in parking order. */
  function Select(stops: seq<Order>, price: int, hit: bool): seq<Order> {
    if stops == [] then []
    else (if Triggers(stops[0], price) == hit then [stops[0]] else []) + Select(stops[1..], price, hit)
  }

  /** Selecting one stop at a time: `got` plus what the rest will give is the whole selection. */
  lemma {:induction false} SelectTurn(stops: seq<Order>, price: int, hit: bool, i: nat, got: seq<Order>)
    requires i < |stops| && got + Select(stops[i..], price, hit) == Select(stops, price, hit)
    ensures (if Triggers(stops[i], price) == hit then got + [stops[i]] else got) + Select(stops[i + 1..], price, hit)
         == Select(stops, price, hit)
  {
    hide Triggers;
    assert stops[i..][1..] == stops[i + 1..];
    var rest := Select(stops[i + 1..], price, hit);
    assert got + ([stops[i]] + rest) == got + [stops[i]] + rest;
    assert got + ([] + rest) == got + rest;
  }

  lemma {:induction false} SelectNone(price: int, hit: bool)
    ensures Select([], price, hit) == []
  {
  }

  /** The order a triggered stop is resubmitted as. */
  function Convert(stop: Order): Order {
    Order(0, stop.clOrdId, stop.symbolIdx, stop.side, if stop.ordType == StopMarket then Market else Limit, stop.tif,
          if stop.ordType == StopMarket then 0 else stop.price, stop.remainingQty, 0, stop.sessionId, New, 0)
  }

  /** The outcome of several submissions in a row. */
  datatype Batch = Batch(
    state: BookState, orders: seq<Order>, trades: seq<Trade>, reports: seq<ExecutionReport>)

  function SubmitAll(s: BookState, stops: seq<Order>): Batch
    decreases stops
  {
    if stops == [] then Batch(s, [], [], [])
    else
      var x := Submit(s, Convert(stops[0]));
      var r := SubmitAll(x.state, stops[1..]);
      Batch(r.state, [x.order] + r.orders, x.trades + r.trades, x.reports + r.reports)
  }

  function Trigger(s: BookState, price: int): Batch {
    SubmitAll(s.(stops := Select(s.stops, price, false)), Select(s.stops, price, true))
  }

  // ----- Cancel and modify -----------------------------------------------------------------------

  datatype Removal = Removal(state: BookState, removed: Option<Order>, report: Option<ExecutionReport>)

  function CancelReport(o: Order, filled: int): ExecutionReport {
    ExecutionReport(o.orderId, o.clOrdId, Cancelled, filled, 0, 0, 0, 0)
  }

  function Cancel(s: BookState, id: nat): Removal {
    var i, b, a := IndexOfId(s.stops, id), IndexOfId(s.bids, id), IndexOfId(s.asks, id);
    if i < |s.stops| then
      Removal(s.(stops := RemoveId(s.stops, id)), Some(s.stops[i]), Some(CancelReport(s.stops[i], 0)))
    else if b < |s.bids| then
      var o := s.bids[b];
      Removal(s.(bids := RemoveId(s.bids, id)), Some(o), Some(CancelReport(o, o.quantity - o.remainingQty)))
    else if a < |s.asks| then
      var o := s.asks[a];
      Removal(s.(asks := RemoveId(s.asks, id)), Some(o), Some(CancelReport(o, o.quantity - o.remainingQty)))
    else
      Removal(s, None, None)
  }

  lemma {:induction false} CancelCases(s: BookState, id: nat)
    ensures var i, b, a := IndexOfId(s.stops, id), IndexOfId(s.bids, id), IndexOfId(s.asks, id);
            && (i < |s.stops| ==>
                  && Cancel(s, id).state == s.(stops := RemoveId(s.stops, id))
                  && Cancel(s, id).report == Some(CancelReport(s.stops[i], 0)))
            && (i == |s.stops| && b < |s.bids| ==>
                  var o := s.bids[b];
                  && Cancel(s, id).state == s.(bids := RemoveId(s.bids, id))
                  && Cancel(s, id).report == Some(CancelReport(o, o.quantity - o.remainingQty)))
            && (i == |s.stops| && b == |s.bids| && a < |s.asks| ==>
                  var o := s.asks[a];
                  && Cancel(s, id).state == s.(asks := RemoveId(s.asks, id))
                  && Cancel(s, id).report == Some(CancelReport(o, o.quantity - o.remainingQty)))
            && (i == |s.stops| && b == |s.bids| && a == |s.asks| ==>
                Cancel(s, id).state == s && Cancel(s, id).report == None)
  {
  }

  /** The order a modification puts in place of the cancelled one. Its side is Buy exactly
      when the book has a bid level at `lastPrice` of the cancel report, which is always 0. */
  function Replacement(s: BookState, report: ExecutionReport, price: int, qty: nat): Order {
    Order(s.nextOrderId, report.clOrdId, s.symbolIdx, if HasPrice(s.bids, report.lastPrice) then Buy else Sell,
          Limit, Day, price, qty, qty, 0, New, 0)
  }

  function Modify(s: BookState, id: nat, price: int, qty: nat): Removal {
    var c := Cancel(s, id);
    if c.report.None? then c
    else
      var o := Replacement(c.state, c.report.value, price, qty);
      Removal(Rest(Numbered(c.state), o), c.removed, Some(Ack(o, New, 0, qty)))
  }

  // ----- Auction -------------------------------------------------------------------------------

  function Uncross(s: BookState): Batch {
    UncrossAt(s, Iop(s.bids, s.asks))
  }

  /** The auction at the given opening price; 0 stands for "none". */
  function UncrossAt(s: BookState, iop: int): Batch {
    if iop == 0 then Batch(s, [], [], [])
    else
      var c := Cross(iop, s.bids, s.asks);
      Batch(s.(bids := c.bids, asks := c.asks, nextTradeId := s.nextTradeId + |c.fills|,
               lastTradePrice := LastPrice(c.fills, s.lastTradePrice)),
            [], TradesOf(s.symbolIdx, c.fills, s.nextTradeId), ReportsOf(Auction(iop), Sell, c.fills, s.nextTradeId))
  }

  // ----- Structural invariant ----------------------------------------------------------------------

  /** A side in strict price-time order whose orders belong there. */
  ghost predicate SideOk(next: nat, side: Side, book: seq<Order>) {
    && InPriority(side, book)
    && DistinctIds(book)
    && forall o :: o in book ==> o.side == side && o.remainingQty <= o.quantity && 0 < o.orderId < next && !IsStop(o)
  }

  /** Parked stops: untouched, in arrival order. */
  ghost predicate StopsOk(next: nat, stops: seq<Order>) {
    && InArrival(stops)
    && forall o :: o in stops ==> IsStop(o) && o.remainingQty == o.quantity && 0 < o.orderId < next
  }

  ghost predicate InArrival(stops: seq<Order>) {
    stops == [] || ((forall o :: o in stops[1..] ==> stops[0].orderId < o.orderId) && InArrival(stops[1..]))
  }

  ghost predicate WellFormed(s: BookState) {
    && 0 < s.nextOrderId && 0 < s.nextTradeId
    && SideOk(s.nextOrderId, Buy, s.bids)
    && SideOk(s.nextOrderId, Sell, s.asks)
    && StopsOk(s.nextOrderId, s.stops)
    && Ids(s.bids) !! Ids(s.asks)
    && Ids(s.stops) !! Ids(s.bids)
    && Ids(s.stops) !! Ids(s.asks)
  }

  lemma {:induction false} ArrivalDistinct(stops: seq<Order>)
    requires InArrival(stops)
    ensures DistinctIds(stops)
  {
    if stops == [] {
    } else {
      ArrivalDistinct(stops[1..]);
    }
  }

  /** A side none of whose orders grew or is new stays a proper side. */
  lemma {:induction false} ResiduesOk(next: nat, side: Side, small: seq<Order>, big: seq<Order>)
    requires SideOk(next, side, big) && Residues(small, big)
    requires InPriority(side, small) && DistinctIds(small)
    ensures SideOk(next, side, small) && Ids(small) <= Ids(big)
  {
    ResidueIds(small, big);
    forall o | o in small ensures o.side == side && o.remainingQty <= o.quantity && 0 < o.orderId < next && !IsStop(o) {
      var o' :| o' in big && Later(o, o');
      assert o == o'.(remainingQty := o.remainingQty);
    }
  }

  /** Allocating an id changes nothing else. */
  lemma {:induction false} NextIdWellFormed(s: BookState)
    requires WellFormed(s)
    ensures WellFormed(Numbered(s)) && Older(Numbered(s), s.nextOrderId)
  {
  }

  /** The newest id is not in use. */
  predicate Newest(s: BookState, o: Order) {
    o.orderId + 1 == s.nextOrderId && 0 < o.orderId
  }

  /** Every id of the book is older than the newest one. */
  ghost predicate Older(s: BookState, id: nat) {
    forall x :: x in s.bids || x in s.asks || x in s.stops ==> x.orderId < id
  }

  lemma {:induction false} IdsOf(s: BookState)
    requires WellFormed(s)
    ensures DistinctIds(s.bids) && DistinctIds(s.asks)
    ensures Ids(s.bids) !! Ids(s.asks) && Ids(s.stops) !! Ids(s.bids) && Ids(s.stops) !! Ids(s.asks)
    ensures 0 < s.nextOrderId && Older(s, s.nextOrderId)
  {
  }

  lemma {:induction false} RestWellFormed(s: BookState, o: Order)
    requires WellFormed(s) && Newest(s, o) && Older(s, o.orderId)
    requires o.remainingQty <= o.quantity && !IsStop(o)
    ensures WellFormed(Rest(s, o))
  {
    var book := if o.side == Buy then s.bids else s.asks;
    InsertInPriority(o.side, book, o);
    InsertMembers(o.side, book, o);
  }

  lemma {:induction false} ParkWellFormed(s: BookState, o: Order)
    requires WellFormed(s) && Newest(s, o) && Older(s, o.orderId)
    requires o.remainingQty == o.quantity && IsStop(o)
    ensures WellFormed(s.(stops := s.stops + [o]))
  {
    ArrivalAppend(s.stops, o);
    assert Ids(s.stops + [o]) == Ids(s.stops) + {o.orderId};
  }

  lemma {:induction false} ArrivalAppend(stops: seq<Order>, o: Order)
    requires InArrival(stops) && forall x :: x in stops ==> x.orderId < o.orderId
    ensures InArrival(stops + [o])
  {
    if stops == [] {
    } else {
      ArrivalAppend(stops[1..], o);
      assert (stops + [o])[1..] == stops[1..] + [o];
    }
  }

  /** Filling orders of the side an order of `side` faces keeps the book in order. */
  lemma {:induction false} FacingWellFormed(s: BookState, side: Side, book: seq<Order>, tid: nat, last: int)
    requires WellFormed(s) && 0 < tid
    requires Residues(book, Facing(s, side))
    requires InPriority(Opposite(side), book) && DistinctIds(book)
    ensures WellFormed(WithFacing(s, side, book).(nextTradeId := tid, lastTradePrice := last))
  {
    ResiduesOk(s.nextOrderId, Opposite(side), book, Facing(s, side));
  }

  lemma {:induction false} FacingOlder(s: BookState, side: Side, book: seq<Order>, id: nat)
    requires Residues(book, Facing(s, side)) && Older(s, id)
    ensures Older(WithFacing(s, side, book), id)
  {
    forall x | x in book ensures x.orderId < id {
      var x' :| x' in Facing(s, side) && Later(x, x');
      assert x.orderId == x'.orderId;
    }
  }

  lemma {:induction false} SweepWellFormed(mode: Mode, bd: Bound, s: BookState, o: Order)
    requires WellFormed(s)
    ensures WellFormed(SweepAt(mode, bd, s, o).state)
    ensures Older(s, o.orderId) ==> Older(SweepAt(mode, bd, s, o).state, o.orderId)
  {
    var book := Facing(s, o.side);
    var m := Match(bd, o.remainingQty, book);
    MatchInPriority(Opposite(o.side), bd, o.remainingQty, book);
    MatchResidues(bd, o.remainingQty, book);
    var x := SweepAt(mode, bd, s, o).state;
    FacingWellFormed(s, o.side, m.book, x.nextTradeId, x.lastTradePrice);
    if Older(s, o.orderId) { FacingOlder(s, o.side, m.book, o.orderId); }
  }

  lemma {:induction false} SettleWellFormed(m: Submission)
    requires WellFormed(m.state) && Newest(m.state, m.order) && Older(m.state, m.order.orderId)
    requires m.order.remainingQty <= m.order.quantity && !IsStop(m.order)
    ensures WellFormed(Settle(m).state)
    ensures Settle(m).state.nextOrderId == m.state.nextOrderId
  {
    RestWellFormed(m.state, m.order.(status := PartiallyFilled));
    RestWellFormed(m.state, m.order.(status := New));
  }

  lemma {:induction false} SubmitWellFormed(s: BookState, request: Order)
    requires WellFormed(s)
    ensures WellFormed(Submit(s, request).state)
    ensures Submit(s, request).state.nextOrderId == s.nextOrderId + 1
  {
    var o, s1 := Admit(s, request), Numbered(s);
    NextIdWellFormed(s);
    if IsStop(o) {
      ParkWellFormed(s1, o);
    } else if Accumulating(s1) {
      RestWellFormed(s1, o);
    } else if !Refuses(s1, o) {
      SweepWellFormed(Continuous, BoundOf(o), s1, o);
      SettleWellFormed(Sweeping(s1, o));
    }
  }

  lemma {:induction false} SelectMembers(stops: seq<Order>, price: int, hit: bool)
    ensures forall o :: o in Select(stops, price, hit) <==> o in stops && Triggers(o, price) == hit
  {
    if stops == [] {
    } else {
      SelectMembers(stops[1..], price, hit);
    }
  }

  lemma {:induction false} SelectInArrival(stops: seq<Order>, price: int, hit: bool)
    requires InArrival(stops)
    ensures InArrival(Select(stops, price, hit))
  {
    if stops == [] {
    } else {
      var r := Select(stops[1..], price, hit);
      SelectInArrival(stops[1..], price, hit);
      SelectMembers(stops[1..], price, hit);
      if Triggers(stops[0], price) == hit {
        assert ([stops[0]] + r)[1..] == r;
      } else {
        assert [] + r == r;
      }
    }
  }

  lemma {:induction false} SubmitAllWellFormed(s: BookState, stops: seq<Order>)
    requires WellFormed(s)
    ensures WellFormed(SubmitAll(s, stops).state)
    decreases stops
  {
    if stops == [] {
    } else {
      SubmitWellFormed(s, Convert(stops[0]));
      SubmitAllWellFormed(Submit(s, Convert(stops[0])).state, stops[1..]);
    }
  }

  lemma {:induction false} ParkedSubset(s: BookState, stops: seq<Order>)
    requires WellFormed(s) && InArrival(stops) && forall o :: o in stops ==> o in s.stops
    ensures WellFormed(s.(stops := stops))
  {
    assert Ids(stops) <= Ids(s.stops);
  }

  lemma {:induction false} UnparkedWellFormed(s: BookState, price: int)
    requires WellFormed(s)
    ensures WellFormed(s.(stops := Select(s.stops, price, false)))
  {
    SelectMembers(s.stops, price, false);
    SelectInArrival(s.stops, price, false);
    ParkedSubset(s, Select(s.stops, price, false));
  }

  lemma {:induction false} TriggerWellFormed(s: BookState, price: int)
    requires WellFormed(s)
    ensures WellFormed(Trigger(s, price).state)
  {
    UnparkedWellFormed(s, price);
    SubmitAllWellFormed(s.(stops := Select(s.stops, price, false)), Select(s.stops, price, true));
  }

  lemma {:induction false} RemoveInArrival(stops: seq<Order>, id: nat)
    requires InArrival(stops)
    ensures InArrival(RemoveId(stops, id))
  {
    if stops == [] || stops[0].orderId == id {
    } else {
      var r := RemoveId(stops[1..], id);
      RemoveInArrival(stops[1..], id);
      ArrivalDistinct(stops);
      RemoveIdMembers(stops[1..], id);
      assert ([stops[0]] + r)[1..] == r;
    }
  }

  /** Taking out an order leaves a proper side. */
  lemma {:induction false} RemoveOk(next: nat, side: Side, book: seq<Order>, id: nat)
    requires SideOk(next, side, book)
    ensures SideOk(next, side, RemoveId(book, id)) && Ids(RemoveId(book, id)) <= Ids(book)
  {
    hide InPriority, RemoveId;
    RemoveIdMembers(book, id);
    RemoveIdInPriority(side, book, id);
  }

  lemma {:induction false} RemoveStopOk(next: nat, stops: seq<Order>, id: nat)
    requires StopsOk(next, stops)
    ensures StopsOk(next, RemoveId(stops, id)) && Ids(RemoveId(stops, id)) <= Ids(stops)
  {
    hide RemoveId;
    ArrivalDistinct(stops);
    RemoveInArrival(stops, id);
    RemoveIdMembers(stops, id);
  }

  lemma {:induction false} CancelWellFormed(s: BookState, id: nat)
    requires WellFormed(s)
    ensures WellFormed(Cancel(s, id).state)
    ensures Cancel(s, id).state.nextOrderId == s.nextOrderId
  {
    hide SideOk, StopsOk, Ids, RemoveId;
    RemoveStopOk(s.nextOrderId, s.stops, id);
    RemoveOk(s.nextOrderId, Buy, s.bids, id);
    RemoveOk(s.nextOrderId, Sell, s.asks, id);
  }

  lemma {:induction false} ModifyWellFormed(s: BookState, id: nat, price: int, qty: nat)
    requires WellFormed(s)
    ensures WellFormed(Modify(s, id, price, qty).state)
  {
    CancelWellFormed(s, id);
    var c := Cancel(s, id);
    if c.report.Some? {
      var o := Replacement(c.state, c.report.value, price, qty);
      NextIdWellFormed(c.state);
      RestWellFormed(Numbered(c.state), o);
    }
  }

  lemma {:induction false} ResiduesTrans(a: seq<Order>, b: seq<Order>, c: seq<Order>)
    requires Residues(a, b) && Residues(b, c)
    ensures Residues(a, c)
  {
    forall o | o in a ensures exists o' :: o' in c && Later(o, o') {
      var x :| x in b && Later(o, x);
      var y :| y in c && Later(x, y);
      assert Later(o, y);
    }
  }

  lemma {:induction false} CrossKeepsBids(iop: int, bids: seq<Order>, asks: seq<Order>)
    requires InPriority(Buy, bids) && DistinctIds(bids)
    ensures var b := Cross(iop, bids, asks).bids; InPriority(Buy, b) && DistinctIds(b) && Residues(b, bids)
    decreases asks
  {
    if asks == [] || asks[0].price > iop {
      assert forall o :: o in bids ==> Later(o, o);
    } else {
      var q := asks[0].remainingQty;
      var m := Match(AtLeast(iop), q, bids);
      MatchInPriority(Buy, AtLeast(iop), q, bids);
      MatchResidues(AtLeast(iop), q, bids);
      CrossKeepsBids(iop, m.book, asks[1..]);
      ResiduesTrans(Cross(iop, m.book, asks[1..]).bids, m.book, bids);
    }
  }

  lemma {:induction false} CrossKeepsAsks(iop: int, bids: seq<Order>, asks: seq<Order>)
    requires InPriority(Sell, asks) && DistinctIds(asks)
    ensures var a := Cross(iop, bids, asks).asks; InPriority(Sell, a) && DistinctIds(a) && Residues(a, asks)
    decreases asks
  {
    if asks == [] || asks[0].price > iop {
      assert forall o :: o in asks ==> Later(o, o);
    } else {
      var m := Match(AtLeast(iop), asks[0].remainingQty, bids);
      var r := Cross(iop, m.book, asks[1..]).asks;
      CrossKeepsAsks(iop, m.book, asks[1..]);
      ResidueFront(Sell, asks, r, m.left);
    }
  }

  lemma {:induction false} ResidueFront(side: Side, book: seq<Order>, rest: seq<Order>, left: nat)
    requires book != [] && InPriority(side, book) && DistinctIds(book) && left <= book[0].remainingQty
    requires InPriority(side, rest) && DistinctIds(rest) && Residues(rest, book[1..])
    ensures var b := Keep(book[0].(remainingQty := left)) + rest;
            InPriority(side, b) && DistinctIds(b) && Residues(b, book)
  {
    var hd := book[0].(remainingQty := left);
    assert ([hd] + rest)[1..] == rest;
    assert [] + rest == rest;
    forall o | o in rest
        ensures Ahead(side, hd, o) && o.orderId != hd.orderId && exists o' :: o' in book && Later(o, o') {
      var o' :| o' in book[1..] && Later(o, o');
      assert o'.orderId in Ids(book[1..]);
      assert o.orderId == o'.orderId && o.price == o'.price;
      assert o' in book;
    }
    assert Later(hd, book[0]);
  }

  lemma {:induction false} UncrossWellFormed(s: BookState)
    requires WellFormed(s)
    ensures WellFormed(Uncross(s).state)
  {
    var iop := Iop(s.bids, s.asks);
    if iop != 0 {
      var c := Cross(iop, s.bids, s.asks);
      CrossKeepsBids(iop, s.bids, s.asks);
      CrossKeepsAsks(iop, s.bids, s.asks);
      ResiduesOk(s.nextOrderId, Buy, c.bids, s.bids);
      ResiduesOk(s.nextOrderId, Sell, c.asks, s.asks);
    }
  }

  lemma {:induction false} AfterHitWellFormed(mode: Mode, s: BookState, o: Order)
    requires WellFormed(s) && Facing(s, o.side) != []
    ensures WellFormed(AfterHit(mode, s, o))
  {
    var book, h := Facing(s, o.side), FirstHit(s, o);
    var side := Opposite(o.side);
    var kept := Keep(Residue(h.resting, h.qty));
    var next := kept + book[1..];
    if kept == [] {
      assert next == book[1..];
    } else {
      ResizeHead(side, book, h.resting.remainingQty - h.qty);
    }
    assert forall x :: x in next ==> (x in book && Later(x, x)) || Later(x, book[0]);
    FacingWellFormed(s, o.side, next, s.nextTradeId + 1, FillOf(mode, o, h).price);
  }

  /** Total quantity held by the book, parked stops included. */
  function Load(s: BookState): nat {
    Qty(s.bids) + Qty(s.asks) + Qty(s.stops)
  }
}
