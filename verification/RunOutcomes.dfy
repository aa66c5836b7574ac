/** What every run emits: trades numbered without a gap, and reports that agree with them. */
module RunOutcomes {
  import opened Types
  import opened Tape
  import opened AuctionSpec
  import opened BookSpec
  import opened Runs
  import opened Outcomes
  import opened AuctionOutcomes

  /** The report is on one of the two orders of the trade, and repeats its price and quantity. */
  ghost predicate IsOn(r: ExecutionReport, t: Trade) {
    && r.tradeId == t.tradeId && r.lastPrice == t.price && r.lastQty == t.quantity
    && ((r.orderId == t.buyOrderId && r.clOrdId == t.buyClOrdId)
        || (r.orderId == t.sellOrderId && r.clOrdId == t.sellClOrdId))
  }

  /** Trades numbered from `from` on, and reports that either belong to no trade or to one of them. */
  ghost predicate Consistent(sym: nat, from: nat, trades: seq<Trade>, reports: seq<ExecutionReport>) {
    && (forall k :: 0 <= k < |trades| ==> trades[k].tradeId == from + k && trades[k].symbolIdx == sym)
    && (forall i :: 0 <= i < |reports| && reports[i].tradeId != 0 ==>
          && from <= reports[i].tradeId < from + |trades|
          && IsOn(reports[i], trades[reports[i].tradeId - from]))
  }

  lemma {:induction false} ConsistentConcat(sym: nat, from: nat, t1: seq<Trade>, r1: seq<ExecutionReport>,
          t2: seq<Trade>, r2: seq<ExecutionReport>)
    requires Consistent(sym, from, t1, r1) && Consistent(sym, from + |t1|, t2, r2)
    ensures Consistent(sym, from, t1 + t2, r1 + r2)
  {
    hide IsOn;
  }

  /** What an operation emits is consistent with the counter, which moves by the number of trades. */
  ghost predicate Emits(s: BookState, s1: BookState, trades: seq<Trade>, reports: seq<ExecutionReport>) {
    && Consistent(s.symbolIdx, s.nextTradeId, trades, reports)
    && s1.nextTradeId == s.nextTradeId + |trades| && s1.symbolIdx == s.symbolIdx
  }

  lemma {:induction false} SubmitEmits(s: BookState, request: Order)
    requires WellFormed(s)
    ensures var x := Submit(s, request); Emits(s, x.state, x.trades, x.reports)
  {
    hide WellFormed, Submit;
    NewOrderTold(s, request);
    NewOrderEnds(s, request);
    var x := Submit(s, request);
    forall i | 0 <= i < |x.reports| && x.reports[i].tradeId != 0
      ensures i < |x.trades| && x.reports[i].tradeId == s.nextTradeId + i && IsOn(x.reports[i], x.trades[i])
    {
    }
  }

  lemma {:induction false} SubmitAllEmits(s: BookState, stops: seq<Order>)
    requires WellFormed(s)
    ensures var x := SubmitAll(s, stops); Emits(s, x.state, x.trades, x.reports)
    decreases stops
  {
    hide WellFormed, Submit, Consistent, Convert;
    if stops == [] {
      EmitsNothing(s.symbolIdx, s.nextTradeId);
    } else {
      var x := Submit(s, Convert(stops[0]));
      SubmitEmits(s, Convert(stops[0]));
      SubmitWellFormed(s, Convert(stops[0]));
      SubmitAllEmits(x.state, stops[1..]);
      var y := SubmitAll(x.state, stops[1..]);
      ConsistentConcat(s.symbolIdx, s.nextTradeId, x.trades, x.reports, y.trades, y.reports);
    }
  }

  lemma {:induction false} EmitsNothing(sym: nat, from: nat)
    ensures Consistent(sym, from, [], [])
  {
  }

  /** The k-th trade, and the two reports on it. */
  ghost predicate Paired(sym: nat, from: nat, trades: seq<Trade>, reports: seq<ExecutionReport>, k: nat)
    requires k < |trades| && |reports| == 2 * |trades|
  {
    && trades[k].tradeId == from + k && trades[k].symbolIdx == sym
    && IsOn(reports[2 * k], trades[k]) && IsOn(reports[2 * k + 1], trades[k])
  }

  lemma {:induction false} PairsConsistent(sym: nat, from: nat, trades: seq<Trade>, reports: seq<ExecutionReport>)
    requires |reports| == 2 * |trades|
    requires forall k :: 0 <= k < |trades| ==> Paired(sym, from, trades, reports, k)
    ensures Consistent(sym, from, trades, reports)
  {
    hide IsOn;
    forall k | 0 <= k < |trades| ensures trades[k].tradeId == from + k && trades[k].symbolIdx == sym {
      assert Paired(sym, from, trades, reports, k);
    }
    forall i | 0 <= i < |reports|
      ensures reports[i].tradeId == from + i / 2 && IsOn(reports[i], trades[i / 2])
    {
      var k := i / 2;
      assert Paired(sym, from, trades, reports, k);
      if i % 2 == 0 { assert i == 2 * k; } else { assert i == 2 * k + 1; }
      assert IsOn(reports[i], trades[k]);
      OnIt(reports[i], trades[k]);
    }
  }

  lemma {:induction false} OnIt(r: ExecutionReport, t: Trade)
    ensures IsOn(r, t) ==> r.tradeId == t.tradeId
  {
  }

  lemma {:induction false} AuctionEmits(s: BookState)
    requires WellFormed(s)
    ensures var x := Uncross(s); Emits(s, x.state, x.trades, x.reports)
  {
    hide WellFormed, Uncross, Iop, TradedOf, CrossedAt, Paired, Consistent;
    var x := Uncross(s);
    AuctionTold(s);
    forall k: nat | k < |x.trades| ensures Paired(s.symbolIdx, s.nextTradeId, x.trades, x.reports, k) {
      CrossedPaired(s, x, k);
    }
    PairsConsistent(s.symbolIdx, s.nextTradeId, x.trades, x.reports);
  }

  lemma {:induction false} CrossedPaired(s: BookState, x: Batch, k: nat)
    requires k < |x.trades| && |x.reports| == 2 * |x.trades| && CrossedAt(s, x, k)
    ensures Paired(s.symbolIdx, s.nextTradeId, x.trades, x.reports, k)
  {
    hide Iop, TradedOf;
  }

  lemma {:induction false} RemovalTold(s: BookState, id: nat)
    requires WellFormed(s)
    ensures Cancel(s, id).report.Some? ==> Cancel(s, id).report.value.tradeId == 0
  {
  }

  lemma {:induction false} StepEmits(w: World, c: Command)
    requires WellFormed(w.book) && Consistent(w.book.symbolIdx, 1, w.trades, w.reports)
    requires w.book.nextTradeId == |w.trades| + 1
    ensures var n := Step(w, c);
            && Consistent(w.book.symbolIdx, 1, n.trades, n.reports)
            && n.book.nextTradeId == |n.trades| + 1 && n.book.symbolIdx == w.book.symbolIdx
  {
    hide WellFormed, Submit, SubmitAll, Uncross, Cancel, Consistent;
    var s, n := w.book, Step(w, c);
    match c
    case Enter(o) =>
      SubmitEmits(s, o);
      var x := Submit(s, o);
      ConsistentConcat(s.symbolIdx, 1, w.trades, w.reports, x.trades, x.reports);
    case TriggerAt(p) =>
      UnparkedWellFormed(s, p);
      SubmitAllEmits(s.(stops := Select(s.stops, p, false)), Select(s.stops, p, true));
      var x := Trigger(s, p);
      ConsistentConcat(s.symbolIdx, 1, w.trades, w.reports, x.trades, x.reports);
    case CancelId(id) =>
      CancelKeeps(s, id);
      RemovalTold(s, id);
      Untraded(s.symbolIdx, s.nextTradeId, Cancel(s, id).report);
      assert w.trades + [] == w.trades;
      ConsistentConcat(s.symbolIdx, 1, w.trades, w.reports, [], Told(Cancel(s, id).report));
    case ModifyId(id, p, q) =>
      CancelKeeps(s, id);
      Untraded(s.symbolIdx, s.nextTradeId, Modify(s, id, p, q).report);
      assert w.trades + [] == w.trades;
      ConsistentConcat(s.symbolIdx, 1, w.trades, w.reports, [], Told(Modify(s, id, p, q).report));
    case SetPhase(p) =>
    case UncrossNow =>
      AuctionEmits(s);
      var x := Uncross(s);
      ConsistentConcat(s.symbolIdx, 1, w.trades, w.reports, x.trades, x.reports);
  }

  lemma {:induction false} Untraded(sym: nat, from: nat, report: Option<ExecutionReport>)
    requires report.Some? ==> report.value.tradeId == 0
    ensures Consistent(sym, from, [], Told(report))
  {
  }

  lemma {:induction false} RunEmits(w: World, commands: seq<Command>)
    requires WellFormed(w.book) && Consistent(w.book.symbolIdx, 1, w.trades, w.reports)
    requires w.book.nextTradeId == |w.trades| + 1
    ensures var n := Run(w, commands);
            && Consistent(w.book.symbolIdx, 1, n.trades, n.reports)
            && n.book.nextTradeId == |n.trades| + 1 && n.book.symbolIdx == w.book.symbolIdx
    decreases commands
  {
    hide WellFormed, Step, Consistent;
    if commands == [] {
    } else {
      StepEmits(w, commands[0]);
      StepWellFormed(w, commands[0]);
      RunEmits(Step(w, commands[0]), commands[1..]);
    }
  }

  /** In every run from the empty book the trades are numbered 1, 2, 3 and so on and carry the symbol, and
      every report that states a trade is on one of its two orders, with its price and quantity. */
  lemma {:induction false} EveryRunTold(sym: nat, commands: seq<Command>)
    ensures var w := Run(Start(sym), commands);
            && (forall k :: 0 <= k < |w.trades| ==> w.trades[k].tradeId == k + 1 && w.trades[k].symbolIdx == sym)
            && (forall i :: 0 <= i < |w.reports| && w.reports[i].tradeId != 0 ==>
                  && 1 <= w.reports[i].tradeId <= |w.trades|
                  && IsOn(w.reports[i], w.trades[w.reports[i].tradeId - 1]))
            && w.book.nextTradeId == |w.trades| + 1 && w.book.symbolIdx == sym
  {
    hide Run, IsOn;
    RunEmits(Start(sym), commands);
  }
}
