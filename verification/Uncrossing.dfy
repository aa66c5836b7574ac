/** The uncrossing loop as a run over positions of the ask side: how far it has come, and what
    one ask contributes.

    `Pending` is the crossing still to be made, with the asks before a position done; `Taped` says
    what has been emitted since the start. `PendingTurn` and `TapedTurn` follow both through one
    ask, and `PendingOver` and `TapedEnd` close the loop. */
module Uncrossing {
  import opened Types
  import opened PriceTime
  import opened Tape
  import opened Ladder
  import opened AuctionSpec
  import opened BookSpec

  /** The crossing under way: asks before position `n` are done, `fills` have been made. */
  function Pending(iop: int, s: BookState, n: nat, fills: seq<Fill>): Crossing
    requires n <= |s.asks|
  {
    var r := Cross(iop, s.bids, s.asks[n..]);
    Crossing(r.bids, s.asks[..n] + r.asks, fills + r.fills)
  }

  /** The executions of the ask at position `n`. */
  function AskFills(iop: int, s: BookState, a: Order): seq<Fill> {
    FillsOf(Auction(iop), a, Match(AtLeast(iop), a.remainingQty, s.bids).hits)
  }

  /** The book after the ask at position `n` has swept the bids. */
  function AfterAsk(iop: int, s: BookState, n: nat): BookState
    requires n < |s.asks|
  {
    var x := SweepAt(Auction(iop), AtLeast(iop), s, s.asks[n]);
    x.state.(asks := ReplaceAt(s.asks, n, Keep(x.order)))
  }

  /** Position of the next ask to process. */
  function NextAsk(iop: int, s: BookState, n: nat): nat
    requires n < |s.asks|
  {
    n + |Keep(SweepAt(Auction(iop), AtLeast(iop), s, s.asks[n]).order)|
  }

  lemma {:induction false} PendingTurn(iop: int, s: BookState, n: nat, fills: seq<Fill>)
    requires n < |s.asks| && s.asks[n].price <= iop && s.asks[n].side == Sell
    ensures NextAsk(iop, s, n) <= |AfterAsk(iop, s, n).asks|
    ensures Pending(iop, s, n, fills)
         == Pending(iop, AfterAsk(iop, s, n), NextAsk(iop, s, n), fills + AskFills(iop, s, s.asks[n]))
  {
    var a := s.asks[n];
    var m := Match(AtLeast(iop), a.remainingQty, s.bids);
    var k := Keep(a.(remainingQty := m.left));
    var r := Cross(iop, m.book, s.asks[n + 1..]);
    assert s.asks[n..][1..] == s.asks[n + 1..] && s.asks[n..][0] == a;
    var asks' := ReplaceAt(s.asks, n, k);
    var n' := n + |k|;
    assert asks'[n'..] == s.asks[n + 1..];
    assert asks'[..n'] == s.asks[..n] + k;
    assert s.asks[..n] + (k + r.asks) == s.asks[..n] + k + r.asks;
    assert fills + (AskFills(iop, s, a) + r.fills) == fills + AskFills(iop, s, a) + r.fills;
  }

  lemma {:induction false} PendingOver(iop: int, s: BookState, n: nat, fills: seq<Fill>)
    requires n <= |s.asks| && (n < |s.asks| ==> s.asks[n].price > iop)
    ensures Pending(iop, s, n, fills) == Crossing(s.bids, s.asks, fills)
  {
    assert s.asks[..n] + s.asks[n..] == s.asks;
    assert fills + [] == fills;
  }

  lemma {:induction false} PendingStart(iop: int, s: BookState)
    ensures Pending(iop, s, 0, []) == Cross(iop, s.bids, s.asks)
  {
    var r := Cross(iop, s.bids, s.asks);
    assert s.asks[0..] == s.asks;
    assert [] + r.asks == r.asks && [] + r.fills == r.fills;
  }

  /** What has been emitted since the auction started at `s0`. */
  ghost predicate Taped(iop: int, s0: BookState, s: BookState, fills: seq<Fill>, trades: seq<Trade>,
          reports: seq<ExecutionReport>) {
    && s.symbolIdx == s0.symbolIdx
    && s.nextTradeId == s0.nextTradeId + |fills|
    && s.lastTradePrice == LastPrice(fills, s0.lastTradePrice)
    && trades == TradesOf(s0.symbolIdx, fills, s0.nextTradeId)
    && reports == ReportsOf(Auction(iop), Sell, fills, s0.nextTradeId)
  }

  lemma {:induction false} TapedTurn(iop: int, s0: BookState, s: BookState, n: nat, fills: seq<Fill>,
          trades: seq<Trade>, reports: seq<ExecutionReport>)
    requires n < |s.asks| && s.asks[n].side == Sell
    requires Taped(iop, s0, s, fills, trades, reports)
    ensures var x := SweepAt(Auction(iop), AtLeast(iop), s, s.asks[n]);
            Taped(iop, s0, AfterAsk(iop, s, n), fills + AskFills(iop, s, s.asks[n]), trades + x.trades,
                reports + x.reports)
  {
    var a := s.asks[n];
    var f := AskFills(iop, s, a);
    TradesConcat(s0.symbolIdx, fills, f, s0.nextTradeId);
    ReportsConcat(Auction(iop), Sell, fills, f, s0.nextTradeId);
    LastPriceConcat(fills, f, s0.lastTradePrice);
    FillsLength(Auction(iop), a, Match(AtLeast(iop), a.remainingQty, s.bids).hits);
  }

  lemma {:induction false} TapedStart(iop: int, s: BookState)
    ensures Taped(iop, s, s, [], [], [])
  {
  }

  /** When the loops are over, the book and the tape are those of the auction. */
  lemma {:induction false} TapedEnd(iop: int, s0: BookState, s: BookState, fills: seq<Fill>, trades: seq<Trade>,
          reports: seq<ExecutionReport>)
    requires Taped(iop, s0, s, fills, trades, reports) && iop != 0
    requires Cross(iop, s0.bids, s0.asks) == Crossing(s.bids, s.asks, fills)
    requires s.nextOrderId == s0.nextOrderId && s.phase == s0.phase && s.stops == s0.stops
    ensures UncrossAt(s0, iop) == Batch(s, [], trades, reports)
  {
  }
}
