/** What the auction emits, field by field: the parties of its trades, and the two reports on each. */
module AuctionOutcomes {
  import opened Types
  import opened PriceTime
  import opened Tape
  import opened AuctionSpec
  import opened BookSpec
  import opened Outcomes

  /** The quantity the executions move under an order id. */
  function MovedOf(fills: seq<Fill>, id: nat): nat {
    if fills == [] then 0
    else (if fills[0].buy.orderId == id || fills[0].sell.orderId == id then fills[0].qty else 0)
         + MovedOf(fills[1..], id)
  }

  lemma {:induction false} MovedOfConcat(a: seq<Fill>, b: seq<Fill>, id: nat)
    ensures MovedOf(a + b, id) == MovedOf(a, id) + MovedOf(b, id)
  {
    if a == [] {
      assert a + b == b;
    } else {
      assert (a + b)[1..] == a[1..] + b;
      MovedOfConcat(a[1..], b, id);
    }
  }

  /** `o` is an order of the side after `moved` of its quantity has been traded. */
  ghost predicate Stood(o: Order, side: seq<Order>, moved: nat) {
    exists x :: x in side && o == x.(remainingQty := o.remainingQty) && o.remainingQty + moved == x.remainingQty
  }

  /** An execution is between a bid and an ask as they stood after the executions before it, and takes no
      more than either has. */
  ghost predicate Stands(f: Fill, before: seq<Fill>, bids: seq<Order>, asks: seq<Order>) {
    && Stood(f.buy, bids, MovedOf(before, f.buy.orderId))
    && Stood(f.sell, asks, MovedOf(before, f.sell.orderId))
    && f.qty <= f.buy.remainingQty && f.qty <= f.sell.remainingQty
  }

  /** The executions of one ask. */
  lemma {:induction false} AskFillAt(iop: int, a: Order, hits: seq<Hit>, k: nat)
    requires a.side == Sell && k < |hits| && HitQty(hits) <= a.remainingQty
    ensures |FillsOf(Auction(iop), a, hits)| == |hits|
    ensures var f := FillsOf(Auction(iop), a, hits)[k];
            && f.buy == hits[k].resting && f.qty == hits[k].qty && f.price == iop
            && f.sell == a.(remainingQty := f.sell.remainingQty)
            && f.sell.remainingQty + HitQty(hits[..k]) == a.remainingQty && f.qty <= f.sell.remainingQty
    decreases hits
  {
    FillsLength(Auction(iop), a, hits);
    if k > 0 {
      AskFillAt(iop, Residue(a, hits[0].qty), hits[1..], k - 1);
      assert hits[..k][1..] == hits[1..][..k - 1];
    }
  }

  /** What they move: under the id of the ask all of it, under each bid's what is taken from it. */
  lemma {:induction false} AskMoves(iop: int, a: Order, hits: seq<Hit>, id: nat)
    requires a.side == Sell && forall h :: h in hits ==> h.resting.orderId != a.orderId
    ensures MovedOf(FillsOf(Auction(iop), a, hits), id) == if id == a.orderId then HitQty(hits) else HitQtyOf(hits, id)
    ensures id == a.orderId ==> HitQtyOf(hits, id) == 0
    decreases hits
  {
    if hits == [] {
    } else {
      AskMoves(iop, Residue(a, hits[0].qty), hits[1..], id);
      var f, rest := FillOf(Auction(iop), a, hits[0]), FillsOf(Auction(iop), Residue(a, hits[0].qty), hits[1..]);
      assert ([f] + rest)[1..] == rest;
      assert hits[0] in hits;
    }
  }

  lemma {:induction false} FillsPrefix(iop: int, a: Order, hits: seq<Hit>, k: nat)
    requires k <= |hits|
    ensures |FillsOf(Auction(iop), a, hits)| == |hits|
    ensures FillsOf(Auction(iop), a, hits)[..k] == FillsOf(Auction(iop), a, hits[..k])
    decreases hits
  {
    FillsLength(Auction(iop), a, hits);
    if k > 0 {
      FillsPrefix(iop, Residue(a, hits[0].qty), hits[1..], k - 1);
      assert hits[..k][1..] == hits[1..][..k - 1];
    }
  }

  /** The k-th execution of an ask finds its bid untouched and the ask reduced by those before it. */
  lemma {:induction false} AskStands(iop: int, bids: seq<Order>, a: Order, k: nat)
    requires DistinctIds(bids) && a.side == Sell && a.orderId !in Ids(bids)
    requires k < |Match(AtLeast(iop), a.remainingQty, bids).hits|
    ensures var fills := FillsOf(Auction(iop), a, Match(AtLeast(iop), a.remainingQty, bids).hits);
            k < |fills| && Stands(fills[k], fills[..k], bids, [a])
  {
    hide Match, FillsOf, MovedOf, HitQty, HitQtyOf, DistinctIds;
    var hits := Match(AtLeast(iop), a.remainingQty, bids).hits;
    var fills := FillsOf(Auction(iop), a, hits);
    MatchRest(AtLeast(iop), a.remainingQty, bids);
    forall i | 0 <= i < |hits| ensures hits[i].resting == bids[i] && hits[i].resting.orderId != a.orderId {
      MatchHit(AtLeast(iop), a.remainingQty, bids, i);
      assert bids[i] in bids;
    }
    MatchHit(AtLeast(iop), a.remainingQty, bids, k);
    AskFillAt(iop, a, hits, k);
    FillsPrefix(iop, a, hits, k);
    AskMoves(iop, a, hits[..k], a.orderId);
    AskMoves(iop, a, hits[..k], bids[k].orderId);
    TakenUnder(bids, hits[..k], k);
    assert bids[k] in bids && a in [a];
    assert Stood(fills[k].buy, bids, 0);
    assert Stood(fills[k].sell, [a], HitQty(hits[..k]));
  }

  /** An order of a side that a sweep left stood on the side before it. */
  lemma {:induction false} StoodBefore(bd: Bound, qty: nat, book: seq<Order>, o: Order, moved: nat)
    requires DistinctIds(book) && Stood(o, Match(bd, qty, book).book, moved)
    requires DistinctIds(Match(bd, qty, book).book)
    ensures Stood(o, book, HitQtyOf(Match(bd, qty, book).hits, o.orderId) + moved)
  {
    hide Match, DistinctIds, QtyOf, HitQtyOf;
    var m := Match(bd, qty, book);
    var x :| x in m.book && o == x.(remainingQty := o.remainingQty) && o.remainingQty + moved == x.remainingQty;
    MatchResidues(bd, qty, book);
    var y :| y in book && Later(x, y);
    MatchQtyOf(bd, qty, book, o.orderId);
    HeldOnce(m.book, x);
    HeldOnce(book, y);
    assert o == y.(remainingQty := o.remainingQty);
  }

  lemma {:induction false} HeldOnce(book: seq<Order>, o: Order)
    requires DistinctIds(book) && o in book
    ensures QtyOf(book, o.orderId) == o.remainingQty
  {
    if book[0] == o {
      NotHeld(book[1..], o.orderId);
    } else {
      assert o in book[1..] && o.orderId in Ids(book[1..]);
      HeldOnce(book[1..], o);
    }
  }

  lemma {:induction false} CrossStands(iop: int, bids: seq<Order>, asks: seq<Order>, k: nat)
    requires InPriority(Buy, bids) && DistinctIds(bids) && DistinctIds(asks)
    requires Ids(bids) !! Ids(asks) && forall a :: a in asks ==> a.side == Sell
    requires k < |Cross(iop, bids, asks).fills|
    ensures var fills := Cross(iop, bids, asks).fills; Stands(fills[k], fills[..k], bids, asks)
    decreases asks
  {
    hide Match, FillsOf, Stands, InPriority, Residues, Ids;
    var a := asks[0];
    var m := Match(AtLeast(iop), a.remainingQty, bids);
    var mine, r := FillsOf(Auction(iop), a, m.hits), Cross(iop, m.book, asks[1..]);
    BehindIds(iop, bids, asks);
    FillsLength(Auction(iop), a, m.hits);
    if k < |mine| {
      AskStands(iop, bids, a, k);
      assert (mine + r.fills)[..k] == mine[..k];
      FrontStands(mine[k], mine[..k], bids, asks);
    } else {
      var j := k - |mine|;
      CrossStands(iop, m.book, asks[1..], j);
      assert (mine + r.fills)[..k] == mine + r.fills[..j];
      BehindStands(iop, bids, asks, r.fills[j], r.fills[..j]);
    }
  }

  lemma {:induction false} FrontStands(f: Fill, before: seq<Fill>, bids: seq<Order>, asks: seq<Order>)
    requires asks != [] && Stands(f, before, bids, [asks[0]])
    ensures Stands(f, before, bids, asks)
  {
    hide MovedOf;
    assert asks[0] in asks;
  }

  /** What the auction goes on with behind its first ask. */
  lemma {:induction false} BehindIds(iop: int, bids: seq<Order>, asks: seq<Order>)
    requires InPriority(Buy, bids) && DistinctIds(bids) && asks != [] && DistinctIds(asks)
    requires Ids(bids) !! Ids(asks)
    ensures var book := Match(AtLeast(iop), asks[0].remainingQty, bids).book;
            && InPriority(Buy, book) && DistinctIds(book) && Ids(book) !! Ids(asks[1..])
            && asks[0].orderId !in Ids(bids) && DistinctIds(asks[1..])
  {
    hide Match, InPriority, Residues;
    MatchInPriority(Buy, AtLeast(iop), asks[0].remainingQty, bids);
    MatchResidues(AtLeast(iop), asks[0].remainingQty, bids);
    ResidueIds(Match(AtLeast(iop), asks[0].remainingQty, bids).book, bids);
    assert asks[0] in asks && asks[0].orderId in Ids(asks);
    assert Ids(asks[1..]) <= Ids(asks);
  }

  /** An execution of a later ask, seen from before the first one. */
  lemma {:induction false} BehindStands(iop: int, bids: seq<Order>, asks: seq<Order>, f: Fill, before: seq<Fill>)
    requires DistinctIds(bids) && asks != [] && DistinctIds(asks) && Ids(bids) !! Ids(asks) && asks[0].side == Sell
    requires DistinctIds(Match(AtLeast(iop), asks[0].remainingQty, bids).book)
    requires Stands(f, before, Match(AtLeast(iop), asks[0].remainingQty, bids).book, asks[1..])
    ensures var mine := FillsOf(Auction(iop), asks[0], Match(AtLeast(iop), asks[0].remainingQty, bids).hits);
            Stands(f, mine + before, bids, asks)
  {
    hide Match, FillsOf, MovedOf, HitQty, HitQtyOf, DistinctIds, Stood;
    var a := asks[0];
    var hits := Match(AtLeast(iop), a.remainingQty, bids).hits;
    var mine := FillsOf(Auction(iop), a, hits);
    HitsApart(iop, bids, asks);
    StoodBefore(AtLeast(iop), a.remainingQty, bids, f.buy, MovedOf(before, f.buy.orderId));
    StoodId(f.buy, bids, HitQtyOf(hits, f.buy.orderId) + MovedOf(before, f.buy.orderId));
    StoodId(f.sell, asks[1..], MovedOf(before, f.sell.orderId));
    AskMoves(iop, a, hits, f.buy.orderId);
    AskMoves(iop, a, hits, f.sell.orderId);
    assert f.sell.orderId in Ids(asks) by { assert Ids(asks[1..]) <= Ids(asks); }
    NotTaken(bids, hits, f.sell.orderId);
    MovedOfConcat(mine, before, f.buy.orderId);
    MovedOfConcat(mine, before, f.sell.orderId);
    StoodFurther(f.sell, asks, MovedOf(before, f.sell.orderId));
  }

  /** The bids an ask hits are not asks, and the ask is not among those behind it. */
  lemma {:induction false} HitsApart(iop: int, bids: seq<Order>, asks: seq<Order>)
    requires asks != [] && DistinctIds(asks) && Ids(bids) !! Ids(asks)
    ensures var hits := Match(AtLeast(iop), asks[0].remainingQty, bids).hits;
            && |hits| <= |bids|
            && (forall i :: 0 <= i < |hits| ==> hits[i].resting == bids[i])
            && (forall h :: h in hits ==> h.resting.orderId != asks[0].orderId)
    ensures asks[0].orderId !in Ids(bids) && asks[0].orderId !in Ids(asks[1..])
  {
    hide Match;
    var hits := Match(AtLeast(iop), asks[0].remainingQty, bids).hits;
    assert asks[0] in asks && asks[0].orderId in Ids(asks);
    MatchRest(AtLeast(iop), asks[0].remainingQty, bids);
    forall i | 0 <= i < |hits| ensures hits[i].resting == bids[i] && bids[i].orderId in Ids(bids) {
      MatchHit(AtLeast(iop), asks[0].remainingQty, bids, i);
      assert bids[i] in bids;
    }
  }

  lemma {:induction false} StoodFurther(o: Order, side: seq<Order>, moved: nat)
    requires side != [] && Stood(o, side[1..], moved)
    ensures Stood(o, side, moved)
  {
    var x :| x in side[1..] && o == x.(remainingQty := o.remainingQty) && o.remainingQty + moved == x.remainingQty;
    assert x in side;
  }

  lemma {:induction false} StoodId(o: Order, side: seq<Order>, moved: nat)
    requires Stood(o, side, moved)
    ensures o.orderId in Ids(side)
  {
  }

  lemma {:induction false} MovedIsTraded(sym: nat, fills: seq<Fill>, n: nat, id: nat)
    ensures TradedOf(TradesOf(sym, fills, n), id) == MovedOf(fills, id)
  {
    if fills == [] {
    } else {
      MovedIsTraded(sym, fills[1..], n + 1, id);
      assert TradesOf(sym, fills, n)[1..] == TradesOf(sym, fills[1..], n + 1);
    }
  }

  lemma {:induction false} TradesPrefix(sym: nat, fills: seq<Fill>, n: nat, k: nat)
    requires k <= |fills|
    ensures |TradesOf(sym, fills, n)| == |fills|
    ensures TradesOf(sym, fills, n)[..k] == TradesOf(sym, fills[..k], n)
  {
    TradesLength(sym, fills, n);
    if k > 0 {
      TradesPrefix(sym, fills[1..], n + 1, k - 1);
      assert fills[..k][1..] == fills[1..][..k - 1];
    }
  }

  lemma {:induction false} AuctionReportAt(iop: int, fills: seq<Fill>, id: nat, k: nat)
    requires k < |fills|
    ensures var rs, f := ReportsOf(Auction(iop), Sell, fills, id), fills[k];
            && |rs| == 2 * |fills|
            && rs[2 * k] == FillReport(f.buy, f.price, f.qty, id + k)
            && rs[2 * k + 1] == FillReport(f.sell, f.price, f.qty, id + k)
  {
    AuctionReportsLength(iop, fills[1..], id + 1);
    if k > 0 { AuctionReportAt(iop, fills[1..], id + 1, k - 1); }
  }

  lemma {:induction false} AuctionReportsLength(iop: int, fills: seq<Fill>, id: nat)
    ensures |ReportsOf(Auction(iop), Sell, fills, id)| == 2 * |fills|
  {
    if fills == [] {
    } else {
      AuctionReportsLength(iop, fills[1..], id + 1);
    }
  }

  /** The k-th trade of the auction and its two reports: a bid and an ask of the book before it, at the
      opening price, each told what is left of it after all its trades so far. */
  ghost predicate CrossedAt(s: BookState, x: Batch, k: nat)
    requires k < |x.trades| && |x.reports| == 2 * |x.trades|
  {
    var t, sofar := x.trades[k], x.trades[..k + 1];
    && t.tradeId == s.nextTradeId + k && t.symbolIdx == s.symbolIdx && t.price == Iop(s.bids, s.asks)
    && (exists b, a ::
          && b in s.bids && a in s.asks && Between(t, b, a)
          && b.remainingQty >= TradedOf(sofar, b.orderId) && a.remainingQty >= TradedOf(sofar, a.orderId)
          && Tells(x.reports[2 * k], b, t, b.remainingQty - TradedOf(sofar, b.orderId))
          && Tells(x.reports[2 * k + 1], a, t, a.remainingQty - TradedOf(sofar, a.orderId)))
  }

  /** Everything the auction emits, and how the counters and the last price move with it. */
  lemma {:induction false} AuctionTold(s: BookState)
    requires WellFormed(s)
    ensures var x := Uncross(s);
            && |x.reports| == 2 * |x.trades|
            && (forall k :: 0 <= k < |x.trades| ==> CrossedAt(s, x, k))
            && x.state.nextTradeId == s.nextTradeId + |x.trades| && x.state.nextOrderId == s.nextOrderId
            && x.state.lastTradePrice == (if x.trades == [] then s.lastTradePrice else Iop(s.bids, s.asks))
            && x.state.stops == s.stops && x.state.phase == s.phase && x.state.symbolIdx == s.symbolIdx
  {
    hide Iop, Cross, WellFormed, TradesOf, ReportsOf, LastPrice, CrossedAt;
    var iop := Iop(s.bids, s.asks);
    if iop != 0 {
      var fills := Cross(iop, s.bids, s.asks).fills;
      TradesLength(s.symbolIdx, fills, s.nextTradeId);
      AuctionReportsLength(iop, fills, s.nextTradeId);
      LastFill(fills, s.lastTradePrice);
      CrossAtIop(iop, s.bids, s.asks);
      forall k: nat | k < |fills| ensures CrossedAt(s, Uncross(s), k) {
        OneCrossed(s, fills, k);
      }
    }
  }

  lemma {:induction false} OneCrossed(s: BookState, fills: seq<Fill>, k: nat)
    requires WellFormed(s) && Iop(s.bids, s.asks) != 0
    requires fills == Cross(Iop(s.bids, s.asks), s.bids, s.asks).fills && k < |fills|
    ensures |Uncross(s).trades| == |fills| && |Uncross(s).reports| == 2 * |fills|
    ensures CrossedAt(s, Uncross(s), k)
  {
    hide Iop, Cross, TradesOf, ReportsOf, LastPrice, MovedOf, TradedOf, InPriority, DistinctIds;
    var iop, n := Iop(s.bids, s.asks), s.nextTradeId;
    var x, f := Uncross(s), fills[k];
    CrossAtIop(iop, s.bids, s.asks);
    CrossStands(iop, s.bids, s.asks, k);
    TradeAt(s.symbolIdx, fills, n, k);
    AuctionReportAt(iop, fills, n, k);
    var b :| b in s.bids && f.buy == b.(remainingQty := f.buy.remainingQty)
             && f.buy.remainingQty + MovedOf(fills[..k], b.orderId) == b.remainingQty;
    var a :| a in s.asks && f.sell == a.(remainingQty := f.sell.remainingQty)
             && f.sell.remainingQty + MovedOf(fills[..k], a.orderId) == a.remainingQty;
    SoFar(s.symbolIdx, fills, n, k, b.orderId);
    SoFar(s.symbolIdx, fills, n, k, a.orderId);
    assert Between(x.trades[k], b, a);
    assert Tells(x.reports[2 * k], b, x.trades[k], b.remainingQty - TradedOf(x.trades[..k + 1], b.orderId));
    assert Tells(x.reports[2 * k + 1], a, x.trades[k], a.remainingQty - TradedOf(x.trades[..k + 1], a.orderId));
  }

  lemma {:induction false} SoFar(sym: nat, fills: seq<Fill>, n: nat, k: nat, id: nat)
    requires k < |fills|
    ensures |TradesOf(sym, fills, n)| == |fills|
    ensures TradedOf(TradesOf(sym, fills, n)[..k + 1], id)
         == MovedOf(fills[..k], id)
            + if fills[k].buy.orderId == id || fills[k].sell.orderId == id then fills[k].qty else 0
  {
    TradesPrefix(sym, fills, n, k + 1);
    MovedIsTraded(sym, fills[..k + 1], n, id);
    assert fills[..k + 1] == fills[..k] + [fills[k]];
    MovedOfConcat(fills[..k], [fills[k]], id);
    assert [fills[k]][1..] == [];
  }
}
