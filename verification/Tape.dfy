/** What matching emits: the fills of one sweep or auction, and the trades and execution reports they
    become, numbered one after the other. Then what can be read off such a tape: the quantity
    traded in all and under one order id, and the last report told on an id. */
module Tape {
  import opened Types
  import opened PriceTime

  /** Continuous matching trades at the resting price and reports the resting order only; the
      auction trades everything at one price and reports both orders. */
  datatype Mode = Continuous | Auction(iop: int)

  /** One execution; both orders as they stood just before it. */
  datatype Fill = Fill(buy: Order, sell: Order, price: int, qty: nat)

  function FillOf(mode: Mode, active: Order, h: Hit): Fill {
    var price := if mode.Auction? then mode.iop else h.resting.price;
    if active.side == Buy then Fill(active, h.resting, price, h.qty) else Fill(h.resting, active, price, h.qty)
  }

  /** The executions of one active order against the orders it hits. */
  function FillsOf(mode: Mode, active: Order, hits: seq<Hit>): seq<Fill>
    decreases hits
  {
    if hits == [] then []
    else [FillOf(mode, active, hits[0])] + FillsOf(mode, Residue(active, hits[0].qty), hits[1..])
  }

  function TradeOf(sym: nat, f: Fill, id: nat): Trade {
    Trade(id, sym, f.price, f.qty, f.buy.orderId, f.sell.orderId,
          f.buy.clOrdId, f.sell.clOrdId, f.buy.sessionId, f.sell.sessionId)
  }

  function TradesOf(sym: nat, fills: seq<Fill>, id: nat): seq<Trade> {
    if fills == [] then [] else [TradeOf(sym, fills[0], id)] + TradesOf(sym, fills[1..], id + 1)
  }

  /** Report on an order that stood at `o` before trading `qty`. */
  function FillReport(o: Order, price: int, qty: nat, tradeId: nat): ExecutionReport {
    var r := Residue(o, qty);
    ExecutionReport(r.orderId, r.clOrdId, if r.remainingQty == 0 then Filled else PartiallyFilled,
                    r.quantity - r.remainingQty, r.remainingQty, price, qty, tradeId)
  }

  function ReportsOfFill(mode: Mode, activeSide: Side, f: Fill, id: nat): seq<ExecutionReport> {
    if mode.Auction? then [FillReport(f.buy, f.price, f.qty, id), FillReport(f.sell, f.price, f.qty, id)]
    else if activeSide == Buy then [FillReport(f.sell, f.price, f.qty, id)]
    else [FillReport(f.buy, f.price, f.qty, id)]
  }

  function ReportsOf(mode: Mode, activeSide: Side, fills: seq<Fill>, id: nat): seq<ExecutionReport> {
    if fills == [] then []
    else ReportsOfFill(mode, activeSide, fills[0], id) + ReportsOf(mode, activeSide, fills[1..], id + 1)
  }

  function LastPrice(fills: seq<Fill>, price: int): int {
    if fills == [] then price else LastPrice(fills[1..], fills[0].price)
  }

  // ----- Reading the tape --------------------------------------------------------------

  function Traded(trades: seq<Trade>): nat {
    if trades == [] then 0 else trades[0].quantity + Traded(trades[1..])
  }

  /** Quantity the order with this id has bought or sold. */
  function TradedOf(trades: seq<Trade>, id: nat): nat {
    if trades == [] then 0
    else (if trades[0].buyOrderId == id || trades[0].sellOrderId == id then trades[0].quantity else 0)
         + TradedOf(trades[1..], id)
  }

  /** Filled quantity in the last report issued for the order with this id. */
  function LastFilled(reports: seq<ExecutionReport>, id: nat): Option<int> {
    if reports == [] then None
    else
      var later := LastFilled(reports[1..], id);
      if later.Some? then later
      else if reports[0].orderId == id then Some(reports[0].filledQty)
      else None
  }

  lemma {:induction false} TradedConcat(a: seq<Trade>, b: seq<Trade>)
    ensures Traded(a + b) == Traded(a) + Traded(b)
  {
    if a == [] {
      assert a + b == b;
    } else {
      assert (a + b)[1..] == a[1..] + b;
      TradedConcat(a[1..], b);
    }
  }

  lemma {:induction false} TradedOfConcat(a: seq<Trade>, b: seq<Trade>, id: nat)
    ensures TradedOf(a + b, id) == TradedOf(a, id) + TradedOf(b, id)
  {
    if a == [] {
      assert a + b == b;
    } else {
      assert (a + b)[1..] == a[1..] + b;
      TradedOfConcat(a[1..], b, id);
    }
  }

  lemma {:induction false} LastFilledConcat(a: seq<ExecutionReport>, b: seq<ExecutionReport>, id: nat)
    ensures LastFilled(a + b, id) == if LastFilled(b, id).Some? then LastFilled(b, id) else LastFilled(a, id)
  {
    if a == [] {
      assert a + b == b;
    } else {
      assert (a + b)[1..] == a[1..] + b;
      LastFilledConcat(a[1..], b, id);
    }
  }

  /** Each execution moves its quantity once, whoever the active side is. */
  lemma {:induction false} TradedFills(sym: nat, mode: Mode, active: Order, hits: seq<Hit>, id: nat)
    ensures Traded(TradesOf(sym, FillsOf(mode, active, hits), id)) == HitQty(hits)
    decreases hits
  {
    if hits == [] {
    } else {
      TradedFills(sym, mode, Residue(active, hits[0].qty), hits[1..], id + 1);
      var fs := FillsOf(mode, Residue(active, hits[0].qty), hits[1..]);
      assert FillsOf(mode, active, hits)[1..] == fs;
      TradedConcat([TradeOf(sym, FillOf(mode, active, hits[0]), id)], TradesOf(sym, fs, id + 1));
    }
  }

  lemma {:induction false} FillsLength(mode: Mode, active: Order, hits: seq<Hit>)
    ensures |FillsOf(mode, active, hits)| == |hits|
    decreases hits
  {
    if hits == [] {
    } else {
      FillsLength(mode, Residue(active, hits[0].qty), hits[1..]);
    }
  }

  lemma {:induction false} TradesLength(sym: nat, fills: seq<Fill>, id: nat)
    ensures |TradesOf(sym, fills, id)| == |fills|
  {
    if fills == [] {
    } else {
      TradesLength(sym, fills[1..], id + 1);
    }
  }

  lemma {:induction false} TradesConcat(sym: nat, a: seq<Fill>, b: seq<Fill>, id: nat)
    ensures TradesOf(sym, a + b, id) == TradesOf(sym, a, id) + TradesOf(sym, b, id + |a|)
  {
    if a == [] {
      assert a + b == b;
    } else {
      assert (a + b)[1..] == a[1..] + b;
      TradesConcat(sym, a[1..], b, id + 1);
    }
  }

  lemma {:induction false} ReportsConcat(mode: Mode, side: Side, a: seq<Fill>, b: seq<Fill>, id: nat)
    ensures ReportsOf(mode, side, a + b, id) == ReportsOf(mode, side, a, id) + ReportsOf(mode, side, b, id + |a|)
  {
    if a == [] {
      assert a + b == b;
    } else {
      assert (a + b)[1..] == a[1..] + b;
      ReportsConcat(mode, side, a[1..], b, id + 1);
    }
  }

  lemma {:induction false} LastPriceConcat(a: seq<Fill>, b: seq<Fill>, price: int)
    ensures LastPrice(a + b, price) == LastPrice(b, LastPrice(a, price))
  {
    if a == [] {
      assert a + b == b;
    } else {
      assert (a + b)[1..] == a[1..] + b;
      LastPriceConcat(a[1..], b, a[0].price);
    }
  }
}
