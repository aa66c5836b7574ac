/** The 64-bit sums of the book: what the code computes when they wrap, and that it computes the
    operations of `BookSpec` and the price of `AuctionSpec` when they do not. */
module Width {
  import opened Types
  import opened PriceTime
  import opened AuctionSpec
  import opened BookSpec
  import opened Ladder
  import opened Ledger

  // ----- The fill-or-kill check -----------------------------------------------------------------

  /** The scan adds up one price after the other, best first, modulo 2^64; it stops when the sum is
      enough, and fails when the next price is out of reach or there is none. */
  function Scan64(bd: Bound, book: seq<Order>, available: nat, quantity: nat): bool
    decreases |book|
  {
    if available >= quantity then true
    else if book == [] || !Within(bd, book[0].price) then false
    else
      var n := RunLength(book, book[0].price);
      Scan64(bd, book[n..], (available + Qty(book[..n])) % TWO64, quantity)
  }

  /** One level of the scan. */
  lemma {:induction false} ScanLevel(side: Side, bd: Bound, levels: seq<Level>, i: nat, available: nat, quantity: nat)
    requires Sorted(side, levels) && Keyed(levels) && NoneEmpty(levels) && i < |levels|
    ensures available < quantity && Within(bd, levels[i].price) ==>
              Scan64(bd, Flatten(levels[i..]), available, quantity)
              == Scan64(bd, Flatten(levels[i + 1..]), (available + Qty(levels[i].orders)) % TWO64, quantity)
    ensures !Within(bd, levels[i].price) ==>
              Scan64(bd, Flatten(levels[i..]), available, quantity) == (available >= quantity)
  {
    hide Sorted, Scan64, RunLength;
    var from := levels[i..];
    assert from[1..] == levels[i + 1..] && from[0] == levels[i];
    SortedFrom(side, levels, i);
    FrontRun(side, from);
    ScanStep(bd, Flatten(from), available, quantity);
  }

  lemma {:induction false} ScanStep(bd: Bound, book: seq<Order>, available: nat, quantity: nat)
    ensures available >= quantity ==> Scan64(bd, book, available, quantity)
    ensures available < quantity && (book == [] || !Within(bd, book[0].price)) ==>
        !Scan64(bd, book, available, quantity)
    ensures available < quantity && book != [] && Within(bd, book[0].price) ==>
              var n := RunLength(book, book[0].price);
              Scan64(bd, book, available, quantity)
              == Scan64(bd, book[n..], (available + Qty(book[..n])) % TWO64, quantity)
  {
  }

  /** The scan is over when the sum is enough, the next price is out of reach, or none is left. */
  lemma {:induction false} ScanOver(bd: Bound, levels: seq<Level>, i: nat, available: nat, quantity: nat)
    requires i <= |levels| && Keyed(levels) && NoneEmpty(levels)
    requires available >= quantity || i == |levels| || !Within(bd, levels[i].price)
    ensures Scan64(bd, Flatten(levels[i..]), available, quantity) == (available >= quantity)
  {
    hide Scan64;
    ScanStep(bd, Flatten(levels[i..]), available, quantity);
    if i < |levels| {
      var hd := levels[i];
      assert hd in levels && hd.orders[0] in hd.orders && levels[i..][0] == hd;
      assert Flatten(levels[i..])[0] == hd.orders[0];
    }
  }

  /** Without wrap-around the scan asks whether the acceptable quantity is there. */
  lemma {:induction false} ScanFits(side: Side, bd: Bound, book: seq<Order>, available: nat, quantity: nat)
    requires InPriority(side, book) && Faces(bd, side) && available + Qty(book) < TWO64
    ensures Scan64(bd, book, available, quantity) <==> quantity <= available + Reachable(bd, book)
    decreases |book|
  {
    hide InPriority, Faces, Scan64, RunLength, Reachable, Qty;
    ScanStep(bd, book, available, quantity);
    if available >= quantity {
    } else if book == [] {
      NothingReachable(bd, book);
    } else if !Within(bd, book[0].price) {
      BeyondBound(side, bd, book);
    } else {
      var n := RunLength(book, book[0].price);
      FrontRunSplits(bd, book);
      FrontRunSome(book);
      assert InPriority(side, book[n..]) by { PriorityFrom(side, book, n); }
      ScanFits(side, bd, book[n..], available + Qty(book[..n]), quantity);
    }
  }

  /** The run at an acceptable best price is acceptable as a whole. */
  lemma {:induction false} FrontRunSplits(bd: Bound, book: seq<Order>)
    requires book != [] && Within(bd, book[0].price)
    ensures var n := RunLength(book, book[0].price);
            && Qty(book) == Qty(book[..n]) + Qty(book[n..])
            && Reachable(bd, book) == Qty(book[..n]) + Reachable(bd, book[n..])
  {
    hide RunLength, Reachable, Qty;
    var n := RunLength(book, book[0].price);
    var run, rest := book[..n], book[n..];
    assert book == run + rest;
    QtyConcat(run, rest);
    ReachableConcat(bd, run, rest);
    RunAtPrice(book, book[0].price);
    AllReachable(bd, run);
  }

  lemma {:induction false} FrontRunSome(book: seq<Order>)
    requires book != []
    ensures RunLength(book, book[0].price) > 0
  {
  }

  lemma {:induction false} RunAtPrice(book: seq<Order>, p: int)
    ensures forall o :: o in book[..RunLength(book, p)] ==> o.price == p
  {
    if book == [] || book[0].price != p {
    } else {
      RunAtPrice(book[1..], p);
      var n := RunLength(book, p);
      assert book[..n] == [book[0]] + book[1..][..n - 1];
    }
  }

  lemma {:induction false} PriorityFrom(side: Side, book: seq<Order>, n: nat)
    requires InPriority(side, book) && n <= |book|
    ensures InPriority(side, book[n..])
  {
    if n == 0 {
      assert book[0..] == book;
    } else {
      PriorityFrom(side, book[1..], n - 1);
      assert book[1..][n - 1..] == book[n..];
    }
  }

  /** Whether a matching phase turns the order away, on the word of the scan. */
  predicate Refuses64(s: BookState, o: Order) {
    s.phase.Closed? || (o.tif == FOK && !Scan64(BoundOf(o), Facing(s, o.side), 0, o.quantity))
  }

  /** A new order as the code handles it. */
  function Submit64(s: BookState, request: Order): Submission {
    SubmitUnless(s, request, Refuses64(Numbered(s), Admit(s, request)))
  }

  lemma {:induction false} Submit64Fits(s: BookState, request: Order)
    requires WellFormed(s) && Load(s) < TWO64
    ensures Submit64(s, request) == Submit(s, request)
  {
    hide SubmitUnless;
    var o := Admit(s, request);
    ScanFits(Opposite(o.side), BoundOf(o), Facing(s, o.side), 0, o.quantity);
  }

  // ----- The trigger pass ---------------------------------------------------------------------------

  function SubmitAll64(s: BookState, stops: seq<Order>): Batch
    decreases stops
  {
    if stops == [] then Batch(s, [], [], [])
    else
      var x := Submit64(s, Convert(stops[0]));
      var r := SubmitAll64(x.state, stops[1..]);
      Batch(r.state, [x.order] + r.orders, x.trades + r.trades, x.reports + r.reports)
  }

  /** A trigger pass as the code does it. */
  function Trigger64(s: BookState, price: int): Batch {
    SubmitAll64(s.(stops := Select(s.stops, price, false)), Select(s.stops, price, true))
  }

  lemma {:induction false} SubmitAll64Fits(s: BookState, stops: seq<Order>)
    requires WellFormed(s) && Load(s) + Qty(stops) < TWO64
    ensures SubmitAll64(s, stops) == SubmitAll(s, stops)
    decreases stops
  {
    hide Submit, Submit64, WellFormed;
    if stops == [] {
    } else {
      Submit64Fits(s, Convert(stops[0]));
      SubmitWellFormed(s, Convert(stops[0]));
      SubmitConserves(s, Convert(stops[0]));
      SubmitAll64Fits(Submit(s, Convert(stops[0])).state, stops[1..]);
    }
  }

  lemma {:induction false} Trigger64Fits(s: BookState, price: int)
    requires WellFormed(s) && Load(s) < TWO64
    ensures Trigger64(s, price) == Trigger(s, price)
  {
    hide SubmitAll, SubmitAll64, WellFormed;
    var s1 := s.(stops := Select(s.stops, price, false));
    UnparkedWellFormed(s, price);
    SelectQty(s.stops, price);
    SubmitAll64Fits(s1, Select(s.stops, price, true));
  }

  // ----- The opening price --------------------------------------------------------------------------

  /** One round of the candidate loop on 64-bit cumulative sums. */
  function Consider64(bids: seq<Order>, asks: seq<Order>, best: Best, p: int): Best {
    var cumBuy, cumSell := CumBuy(bids, p) % TWO64, CumSell(asks, p) % TWO64;
    var volume: nat := Min(cumBuy, cumSell);
    var surplus: nat := if cumBuy > cumSell then cumBuy - cumSell else cumSell - cumBuy;
    if volume > best.volume
       || (volume == best.volume && surplus < best.surplus)
       || (volume == best.volume && surplus == best.surplus && cumBuy > cumSell && p > best.price)
    then Best(p, volume, surplus)
    else best
  }

  function Choose64(bids: seq<Order>, asks: seq<Order>, prices: seq<int>, best: Best): Best {
    if prices == [] then best else Choose64(bids, asks, prices[1..], Consider64(bids, asks, best, prices[0]))
  }

  /** The opening price as the code computes it. */
  function Iop64(bids: seq<Order>, asks: seq<Order>): int {
    if bids == [] || asks == [] then 0
    else
      var best := Choose64(bids, asks, Candidates(bids, asks), NO_BEST);
      if best.volume > 0 then best.price else 0
  }

  lemma {:induction false} Consider64Fits(bids: seq<Order>, asks: seq<Order>, best: Best, p: int)
    requires Qty(bids) < TWO64 && Qty(asks) < TWO64
    ensures Consider64(bids, asks, best, p) == Consider(bids, asks, best, p)
  {
    hide Reachable, Qty;
    ReachableAtMostQty(AtLeast(p), bids);
    ReachableAtMostQty(AtMost(p), asks);
    assert CumBuy(bids, p) % TWO64 == CumBuy(bids, p) && CumSell(asks, p) % TWO64 == CumSell(asks, p);
  }

  lemma {:induction false} Choose64Fits(bids: seq<Order>, asks: seq<Order>, prices: seq<int>, best: Best)
    requires Qty(bids) < TWO64 && Qty(asks) < TWO64
    ensures Choose64(bids, asks, prices, best) == Choose(bids, asks, prices, best)
    decreases prices
  {
    if prices == [] {
    } else {
      hide Consider, Consider64;
      var p := prices[0];
      Consider64Fits(bids, asks, best, p);
      Choose64Fits(bids, asks, prices[1..], Consider(bids, asks, best, p));
    }
  }

  lemma {:induction false} Iop64Fits(bids: seq<Order>, asks: seq<Order>)
    requires Qty(bids) < TWO64 && Qty(asks) < TWO64
    ensures Iop64(bids, asks) == Iop(bids, asks)
  {
    hide Choose, Choose64;
    Choose64Fits(bids, asks, Candidates(bids, asks), NO_BEST);
  }

  /** The auction as the code does it. */
  function Uncross64(s: BookState): Batch {
    UncrossAt(s, Iop64(s.bids, s.asks))
  }

  lemma {:induction false} Uncross64Fits(s: BookState)
    requires Load(s) < TWO64
    ensures Uncross64(s) == Uncross(s)
  {
    Iop64Fits(s.bids, s.asks);
  }
}
