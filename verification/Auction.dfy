/** The opening auction (src/common/Book.cpp:20-148): the indicative opening price and the
    uncrossing of two flat sides at that price. */
module AuctionSpec {
  import opened Types
  import opened PriceTime
  import opened Tape

  // ----- Executable volume ---------------------------------------------------------------

  function CumBuy(bids: seq<Order>, p: int): nat { Reachable(AtLeast(p), bids) }

  function CumSell(asks: seq<Order>, p: int): nat { Reachable(AtMost(p), asks) }

  function Volume(bids: seq<Order>, asks: seq<Order>, p: int): nat {
    Min(CumBuy(bids, p), CumSell(asks, p))
  }

  function Surplus(bids: seq<Order>, asks: seq<Order>, p: int): nat {
    var b, s := CumBuy(bids, p), CumSell(asks, p);
    if b > s then b - s else s - b
  }

  predicate BuySurplus(bids: seq<Order>, asks: seq<Order>, p: int) {
    CumBuy(bids, p) > CumSell(asks, p)
  }

  // ----- The indicative opening price ------------------------------------------------------

  /** Insert a price into an ascending list without repeating it. */
  function AddPrice(prices: seq<int>, p: int): seq<int> {
    if prices == [] || p < prices[0] then [p] + prices
    else if p == prices[0] then prices
    else [prices[0]] + AddPrice(prices[1..], p)
  }

  /** The prices of the book, ascending, each once: collected, sorted, made unique. */
  function AddPrices(prices: seq<int>, book: seq<Order>): seq<int>
    decreases book
  {
    if book == [] then prices else AddPrices(AddPrice(prices, book[0].price), book[1..])
  }

  function Candidates(bids: seq<Order>, asks: seq<Order>): seq<int> {
    AddPrices(AddPrices([], bids), asks)
  }

  predicate Ascending(prices: seq<int>) {
    forall i, j :: 0 <= i < j < |prices| ==> prices[i] < prices[j]
  }

  /** The running best of the candidate loop. */
  datatype Best = Best(price: int, volume: nat, surplus: nat)

  const NO_BEST := Best(0, 0, UINT64_MAX)

  /** One round of the candidate loop: a strictly better volume, else the same volume with a
      strictly smaller surplus, else the same of both with buy surplus and a higher price. */
  function Consider(bids: seq<Order>, asks: seq<Order>, best: Best, p: int): Best {
    var volume, surplus := Volume(bids, asks, p), Surplus(bids, asks, p);
    if volume > best.volume
       || (volume == best.volume && surplus < best.surplus)
       || (volume == best.volume && surplus == best.surplus && BuySurplus(bids, asks, p) && p > best.price)
    then Best(p, volume, surplus)
    else best
  }

  function Choose(bids: seq<Order>, asks: seq<Order>, prices: seq<int>, best: Best): Best {
    if prices == [] then best else Choose(bids, asks, prices[1..], Consider(bids, asks, best, prices[0]))
  }

  /** The indicative opening price; 0 stands for "none". */
  function Iop(bids: seq<Order>, asks: seq<Order>): int {
    if bids == [] || asks == [] then 0
    else
      var best := Choose(bids, asks, Candidates(bids, asks), NO_BEST);
      if best.volume > 0 then best.price else 0
  }

  // ----- What makes a price the opening price ------------------------------------------------

  predicate IsBookPrice(bids: seq<Order>, asks: seq<Order>, p: int) {
    HasPrice(bids, p) || HasPrice(asks, p)
  }

  /** `w` is preferred to, or is, `p`: more volume; on equal volume less surplus; on equal
      surplus the higher price under buy surplus, else the lower. */
  predicate Prefers(bids: seq<Order>, asks: seq<Order>, w: int, p: int) {
    var vw, vp := Volume(bids, asks, w), Volume(bids, asks, p);
    var sw, sp := Surplus(bids, asks, w), Surplus(bids, asks, p);
    || vw > vp
    || (vw == vp && sw < sp)
    || (vw == vp && sw == sp
        && (w == p || (if BuySurplus(bids, asks, w) then p < w || !BuySurplus(bids, asks, p) else w < p)))
  }

  ghost predicate Wins(bids: seq<Order>, asks: seq<Order>, w: int) {
    && IsBookPrice(bids, asks, w)
    && Volume(bids, asks, w) > 0
    && (forall p :: IsBookPrice(bids, asks, p) ==> Prefers(bids, asks, w, p))
    && (forall p :: Volume(bids, asks, p) <= Volume(bids, asks, w))
  }

  /** Some price could execute something. */
  ghost predicate CanTrade(bids: seq<Order>, asks: seq<Order>) {
    exists p :: Volume(bids, asks, p) > 0
  }

  // ----- Candidate prices -------------------------------------------------------------------

  lemma {:induction false} AddPriceSorted(prices: seq<int>, p: int)
    requires Ascending(prices)
    ensures Ascending(AddPrice(prices, p))
    ensures forall q :: q in AddPrice(prices, p) <==> q == p || q in prices
  {
    if prices == [] || p <= prices[0] {
    } else {
      AddPriceSorted(prices[1..], p);
      var r := AddPrice(prices[1..], p);
      assert forall q :: q in prices <==> q == prices[0] || q in prices[1..];
      forall j | 0 <= j < |r| ensures prices[0] < r[j] {
        assert r[j] in r;
      }
    }
  }

  lemma {:induction false} AddPricesSorted(prices: seq<int>, book: seq<Order>)
    requires Ascending(prices)
    ensures Ascending(AddPrices(prices, book))
    ensures forall q :: q in AddPrices(prices, book) <==> q in prices || HasPrice(book, q)
    decreases book
  {
    if book == [] {
    } else {
      AddPriceSorted(prices, book[0].price);
      AddPricesSorted(AddPrice(prices, book[0].price), book[1..]);
      assert forall o :: o in book <==> o == book[0] || o in book[1..];
    }
  }

  lemma {:induction false} CandidatesAreBookPrices(bids: seq<Order>, asks: seq<Order>)
    ensures Ascending(Candidates(bids, asks))
    ensures forall p :: p in Candidates(bids, asks) <==> IsBookPrice(bids, asks, p)
  {
    AddPricesSorted([], bids);
    AddPricesSorted(AddPrices([], bids), asks);
  }

  // ----- The loop picks the preferred candidate --------------------------------------------------

  /** `best` records a price of `seen` preferred to all of `seen`, or `seen` has no volume. */
  ghost predicate BestOf(bids: seq<Order>, asks: seq<Order>, seen: seq<int>, best: Best) {
    if best.volume == 0 then forall p :: p in seen ==> Volume(bids, asks, p) == 0
    else
      && best.price in seen
      && best.volume == Volume(bids, asks, best.price)
      && best.surplus == Surplus(bids, asks, best.price)
      && forall p :: p in seen ==> Prefers(bids, asks, best.price, p)
  }

  /** The imbalance falls as the price rises. */
  lemma {:induction false} CumMonotone(bids: seq<Order>, asks: seq<Order>, p: int, q: int)
    requires p <= q
    ensures CumBuy(bids, q) <= CumBuy(bids, p)
    ensures CumSell(asks, p) <= CumSell(asks, q)
    decreases |bids| + |asks|
  {
    if bids == [] {
    } else {
      CumMonotone(bids[1..], asks, p, q);
    }
    if asks == [] {
    } else {
      CumMonotone(bids, asks[1..], p, q);
    }
  }

  lemma {:induction false} ConsiderStep(bids: seq<Order>, asks: seq<Order>, seen: seq<int>, best: Best, p: int)
    requires BestOf(bids, asks, seen, best)
    requires forall q :: q in seen ==> q < p
    ensures BestOf(bids, asks, seen + [p], Consider(bids, asks, best, p))
  {
    var next := Consider(bids, asks, best, p);
    forall q | q in seen && next.volume > 0 ensures Prefers(bids, asks, next.price, q) {
      CumMonotone(bids, asks, q, p);
      if best.volume > 0 { CumMonotone(bids, asks, best.price, p); }
    }
    if best.volume > 0 { CumMonotone(bids, asks, best.price, p); }
  }

  lemma {:induction false} ChooseIsBest(bids: seq<Order>, asks: seq<Order>, seen: seq<int>, prices: seq<int>,
          best: Best)
    requires Ascending(seen + prices)
    requires BestOf(bids, asks, seen, best)
    ensures BestOf(bids, asks, seen + prices, Choose(bids, asks, prices, best))
    decreases prices
  {
    if prices == [] {
      assert seen + prices == seen;
    } else {
      forall q | q in seen ensures q < prices[0] {
        var i :| 0 <= i < |seen| && seen[i] == q;
        assert (seen + prices)[i] < (seen + prices)[|seen|];
      }
      ConsiderStep(bids, asks, seen, best, prices[0]);
      assert seen + prices == seen + [prices[0]] + prices[1..];
      ChooseIsBest(bids, asks, seen + [prices[0]], prices[1..], Consider(bids, asks, best, prices[0]));
    }
  }

  // ----- No price off the book does better --------------------------------------------------------

  /** A price with buyers has a bid price at or above it with exactly the same buyers. */
  lemma {:induction false} NearestBid(bids: seq<Order>, p: int) returns (q: int)
    requires InPriority(Buy, bids) && CumBuy(bids, p) > 0
    ensures p <= q && HasPrice(bids, q) && CumBuy(bids, q) == CumBuy(bids, p)
  {
    if bids[0].price < p {
      BeyondBound(Buy, AtLeast(p), bids);
      assert false;
    }
    if CumBuy(bids[1..], p) > 0 {
      q := NearestBid(bids[1..], p);
      var o :| o in bids[1..] && o.price == q;
      assert Ahead(Buy, bids[0], o);
      assert o in bids;
    } else {
      q := bids[0].price;
      CumMonotone(bids[1..], [], p, q);
    }
  }

  lemma {:induction false} BestBookPriceIsBest(bids: seq<Order>, asks: seq<Order>, w: int, p: int)
    requires InPriority(Buy, bids)
    requires forall q :: IsBookPrice(bids, asks, q) ==> Prefers(bids, asks, w, q)
    ensures Volume(bids, asks, p) <= Volume(bids, asks, w)
  {
    if Volume(bids, asks, p) > 0 {
      var q := NearestBid(bids, p);
      CumMonotone([], asks, p, q);
      assert IsBookPrice(bids, asks, q);
    }
  }

  /** The loop of `getIOP` finds the opening price whenever some price can trade. */
  lemma {:induction false} IopChoice(bids: seq<Order>, asks: seq<Order>)
    requires InPriority(Buy, bids) && bids != [] && asks != []
    ensures var best := Choose(bids, asks, Candidates(bids, asks), NO_BEST);
            && (CanTrade(bids, asks) <==> best.volume > 0)
            && (CanTrade(bids, asks) ==> Wins(bids, asks, best.price))
  {
    var cs := Candidates(bids, asks);
    var best := Choose(bids, asks, cs, NO_BEST);
    CandidatesAreBookPrices(bids, asks);
    assert [] + cs == cs;
    ChooseIsBest(bids, asks, [], cs, NO_BEST);
    if best.volume == 0 {
      forall p ensures Volume(bids, asks, p) == 0 {
        if Volume(bids, asks, p) > 0 {
          var q := NearestBid(bids, p);
          CumMonotone([], asks, p, q);
          assert IsBookPrice(bids, asks, q);
        }
      }
    } else {
      forall p ensures Volume(bids, asks, p) <= best.volume {
        BestBookPriceIsBest(bids, asks, best.price, p);
      }
    }
  }

  /** The tie-breaks leave one price only. */
  lemma {:induction false} WinnerIsUnique(bids: seq<Order>, asks: seq<Order>, v: int, w: int)
    requires Wins(bids, asks, v) && Wins(bids, asks, w)
    ensures v == w
  {
    assert Prefers(bids, asks, v, w) && Prefers(bids, asks, w, v);
    CumMonotone(bids, asks, Min(v, w), Max(v, w));
  }

  /** `getIOP`: a non-zero result is the unique winning price; zero is returned exactly when
      nothing can trade, or when the winning price is itself 0. */
  lemma {:induction false} IopIsOptimal(bids: seq<Order>, asks: seq<Order>)
    requires InPriority(Buy, bids)
    ensures Iop(bids, asks) != 0 ==> Wins(bids, asks, Iop(bids, asks))
    ensures Iop(bids, asks) == 0 <==> !CanTrade(bids, asks) || Wins(bids, asks, 0)
  {
    if bids != [] && asks != [] {
      IopChoice(bids, asks);
      var best := Choose(bids, asks, Candidates(bids, asks), NO_BEST);
      if CanTrade(bids, asks) && Wins(bids, asks, 0) { WinnerIsUnique(bids, asks, 0, best.price); }
    }
  }

  // ----- Uncrossing ------------------------------------------------------------------------

  datatype Crossing = Crossing(bids: seq<Order>, asks: seq<Order>, fills: seq<Fill>)

  /** Each ask at or below the opening price, in priority order, sweeps the bids at or above
      it; asks with nothing left go away. */
  function Cross(iop: int, bids: seq<Order>, asks: seq<Order>): Crossing
    decreases asks
  {
    if asks == [] || asks[0].price > iop then Crossing(bids, asks, [])
    else
      var m := Match(AtLeast(iop), asks[0].remainingQty, bids);
      var r := Cross(iop, m.book, asks[1..]);
      Crossing(r.bids, Keep(asks[0].(remainingQty := m.left)) + r.asks,
               FillsOf(Auction(iop), asks[0], m.hits) + r.fills)
  }

  function FillQty(fills: seq<Fill>): nat {
    if fills == [] then 0 else fills[0].qty + FillQty(fills[1..])
  }

  lemma {:induction false} FillQtyConcat(a: seq<Fill>, b: seq<Fill>)
    ensures FillQty(a + b) == FillQty(a) + FillQty(b)
  {
    if a == [] {
      assert a + b == b;
    } else {
      assert (a + b)[1..] == a[1..] + b;
      FillQtyConcat(a[1..], b);
    }
  }

  lemma {:induction false} FillQtyOfHits(mode: Mode, active: Order, hits: seq<Hit>)
    ensures FillQty(FillsOf(mode, active, hits)) == HitQty(hits)
    decreases hits
  {
    if hits == [] {
    } else {
      FillQtyOfHits(mode, Residue(active, hits[0].qty), hits[1..]);
      assert FillsOf(mode, active, hits)[1..] == FillsOf(mode, Residue(active, hits[0].qty), hits[1..]);
    }
  }

  lemma {:induction false} FillsAtIop(iop: int, active: Order, hits: seq<Hit>)
    ensures forall f :: f in FillsOf(Auction(iop), active, hits) ==> f.price == iop
    decreases hits
  {
    if hits == [] {
    } else {
      FillsAtIop(iop, Residue(active, hits[0].qty), hits[1..]);
    }
  }

  /** Every execution of the auction is at the opening price. */
  lemma {:induction false} CrossAtIop(iop: int, bids: seq<Order>, asks: seq<Order>)
    ensures forall f :: f in Cross(iop, bids, asks).fills ==> f.price == iop
    decreases asks
  {
    if asks == [] || asks[0].price > iop {
    } else {
      var m := Match(AtLeast(iop), asks[0].remainingQty, bids);
      FillsAtIop(iop, asks[0], m.hits);
      CrossAtIop(iop, m.book, asks[1..]);
    }
  }

  lemma {:induction false} FillsWilling(iop: int, active: Order, hits: seq<Hit>)
    requires active.side == Sell && active.price <= iop
    requires forall h :: h in hits ==> h.resting.price >= iop
    ensures forall f :: f in FillsOf(Auction(iop), active, hits) ==> f.sell.price <= iop <= f.buy.price
    decreases hits
  {
    if hits == [] {
    } else {
      assert hits[0] in hits;
      FillsWilling(iop, Residue(active, hits[0].qty), hits[1..]);
    }
  }

  /** ... which neither side of any execution finds worse than its own limit. */
  lemma {:induction false} CrossWilling(iop: int, bids: seq<Order>, asks: seq<Order>)
    requires forall a :: a in asks ==> a.side == Sell
    ensures forall f :: f in Cross(iop, bids, asks).fills ==> f.sell.price <= iop <= f.buy.price
    decreases asks
  {
    if asks == [] || asks[0].price > iop {
    } else {
      var m := Match(AtLeast(iop), asks[0].remainingQty, bids);
      assert asks[0] in asks;
      forall h | h in m.hits ensures h.resting.price >= iop {
        var k :| 0 <= k < |m.hits| && m.hits[k] == h;
        MatchHit(AtLeast(iop), asks[0].remainingQty, bids, k);
      }
      FillsWilling(iop, asks[0], m.hits);
      CrossWilling(iop, m.book, asks[1..]);
    }
  }

  /** The auction executes min(buyers at the price or better, sellers at the price or better). */
  lemma {:induction false} CrossVolume(iop: int, bids: seq<Order>, asks: seq<Order>)
    requires InPriority(Buy, bids) && DistinctIds(bids) && InPriority(Sell, asks)
    ensures FillQty(Cross(iop, bids, asks).fills) == Volume(bids, asks, iop)
    decreases asks
  {
    if asks == [] {
    } else if asks[0].price > iop {
      BeyondBound(Sell, AtMost(iop), asks);
    } else {
      var q := asks[0].remainingQty;
      var m := Match(AtLeast(iop), q, bids);
      MatchAmount(Buy, AtLeast(iop), q, bids);
      MatchDepletes(Buy, AtLeast(iop), q, bids, iop);
      MatchInPriority(Buy, AtLeast(iop), q, bids);
      CrossVolume(iop, m.book, asks[1..]);
      FillQtyOfHits(Auction(iop), asks[0], m.hits);
      FillQtyConcat(FillsOf(Auction(iop), asks[0], m.hits), Cross(iop, m.book, asks[1..]).fills);
    }
  }

  /** Bids are consumed best first: at every price the buyers drop by the executed volume. */
  lemma {:induction false} CrossDepletesBids(iop: int, bids: seq<Order>, asks: seq<Order>, p: int)
    requires InPriority(Buy, bids) && DistinctIds(bids)
    ensures CumBuy(Cross(iop, bids, asks).bids, p)
         == Monus(CumBuy(bids, p), FillQty(Cross(iop, bids, asks).fills))
    decreases asks
  {
    if asks == [] || asks[0].price > iop {
    } else {
      var q := asks[0].remainingQty;
      var m := Match(AtLeast(iop), q, bids);
      MatchDepletes(Buy, AtLeast(iop), q, bids, p);
      MatchInPriority(Buy, AtLeast(iop), q, bids);
      CrossDepletesBids(iop, m.book, asks[1..], p);
      FillQtyOfHits(Auction(iop), asks[0], m.hits);
      FillQtyConcat(FillsOf(Auction(iop), asks[0], m.hits), Cross(iop, m.book, asks[1..]).fills);
    }
  }

  /** Asks are consumed best first as well. */
  lemma {:induction false} CrossDepletesAsks(iop: int, bids: seq<Order>, asks: seq<Order>, p: int)
    requires InPriority(Buy, bids) && DistinctIds(bids) && InPriority(Sell, asks)
    ensures CumSell(Cross(iop, bids, asks).asks, p)
         == Monus(CumSell(asks, p), FillQty(Cross(iop, bids, asks).fills))
    decreases asks
  {
    hide Match, InPriority, DistinctIds, FillQty, Reachable, Cross;
    if asks == [] || asks[0].price > iop {
      assert Cross(iop, bids, asks) == Crossing(bids, asks, []) by { CrossNothing(iop, bids, asks); }
      FillQtyNone();
    } else {
      var q := asks[0].remainingQty;
      var m := Match(AtLeast(iop), q, bids);
      MatchAmount(Buy, AtLeast(iop), q, bids);
      MatchDepletes(Buy, AtLeast(iop), q, bids, iop);
      MatchInPriority(Buy, AtLeast(iop), q, bids);
      PriorityTail(Sell, asks);
      CrossVolume(iop, m.book, asks[1..]);
      CrossDepletesAsks(iop, m.book, asks[1..], p);
      CrossFillQty(iop, bids, asks);
      CrossFront(iop, bids, asks);
      AskCum(asks, m.left, Cross(iop, m.book, asks[1..]).asks, p);
    }
  }

  lemma {:induction false} CrossNothing(iop: int, bids: seq<Order>, asks: seq<Order>)
    requires asks == [] || asks[0].price > iop
    ensures Cross(iop, bids, asks) == Crossing(bids, asks, [])
  {
  }

  lemma {:induction false} AskCum(asks: seq<Order>, left: nat, rest: seq<Order>, p: int)
    requires asks != [] && left <= asks[0].remainingQty && InPriority(Sell, asks)
    ensures CumSell(Keep(asks[0].(remainingQty := left)) + rest, p)
         == CumSell(rest, p) + if asks[0].price <= p then left else 0
    ensures CumSell(asks, p) == CumSell(asks[1..], p) + if asks[0].price <= p then asks[0].remainingQty else 0
    ensures asks[0].price > p ==> CumSell(asks, p) == 0
  {
    ReachableConcat(AtMost(p), Keep(asks[0].(remainingQty := left)), rest);
    ReachableKeep(AtMost(p), asks[0].(remainingQty := left));
    if asks[0].price > p { BeyondBound(Sell, AtMost(p), asks); }
  }

  // ----- One sweep of each side --------------------------------------------------------------

  /** Where no bid is acceptable, no ask trades. */
  lemma {:induction false} CrossOut(iop: int, bids: seq<Order>, asks: seq<Order>, id: nat)
    requires forall o :: o in bids ==> !Within(AtLeast(iop), o.price)
    ensures var c := Cross(iop, bids, asks);
            && c.bids == bids && c.fills == [] && QtyOf(c.asks, id) == QtyOf(asks, id)
            && (AllPositive(asks) ==> c.asks == asks)
    decreases asks
  {
    hide Match;
    if asks == [] || asks[0].price > iop {
    } else {
      var a := asks[0];
      MatchNothing(AtLeast(iop), a.remainingQty, bids);
      CrossOut(iop, bids, asks[1..], id);
      assert a.(remainingQty := a.remainingQty) == a && [] + Cross(iop, bids, asks[1..]).fills == [];
      QtyOfConcat(Keep(a), Cross(iop, bids, asks[1..]).asks, id);
      QtyOfKeep(a, id);
      assert AllPositive(asks) ==> a in asks;
    }
  }

  /** The auction consumes the bids like one sweep for the executed quantity: an earlier order at the
      same price trades first. */
  lemma {:induction false} CrossSweepsBids(iop: int, bids: seq<Order>, asks: seq<Order>, id: nat)
    requires InPriority(Buy, bids) && DistinctIds(bids)
    ensures var c := Cross(iop, bids, asks);
            var m := Match(AtLeast(iop), FillQty(c.fills), bids).book;
            QtyOf(c.bids, id) == QtyOf(m, id) && (AllPositive(bids) ==> c.bids == m)
    decreases asks
  {
    hide Match, FillQty, InPriority, DistinctIds;
    var bd := AtLeast(iop);
    if asks == [] || asks[0].price > iop {
      FillQtyNone();
      MatchNothing(bd, 0, bids);
    } else {
      var q := asks[0].remainingQty;
      var m := Match(bd, q, bids);
      CrossFillQty(iop, bids, asks);
      if m.left == 0 {
        MatchInPriority(Buy, bd, q, bids);
        CrossSweepsBids(iop, m.book, asks[1..], id);
        MatchTwice(bd, q, FillQty(Cross(iop, m.book, asks[1..]).fills), bids);
        if AllPositive(bids) { MatchAllPositive(bd, q, bids); }
      } else {
        SweptClean(Buy, bd, q, bids);
        CrossOut(iop, m.book, asks[1..], id);
        FillQtyNone();
        MatchFilled(bd, q, bids, id);
      }
    }
  }

  lemma {:induction false} MatchAllPositive(bd: Bound, qty: nat, book: seq<Order>)
    requires AllPositive(book)
    ensures AllPositive(Match(bd, qty, book).book)
    decreases book
  {
    hide Match;
    if qty == 0 || book == [] || !Within(bd, book[0].price) {
      MatchNothing(bd, qty, book);
    } else {
      MatchFirst(bd, qty, book);
      assert book[0] in book;
      if book[0].remainingQty <= qty { MatchAllPositive(bd, qty - book[0].remainingQty, book[1..]); }
    }
  }

  lemma {:induction false} FillQtyNone()
    ensures FillQty([]) == 0
  {
  }

  lemma {:induction false} CrossFillQty(iop: int, bids: seq<Order>, asks: seq<Order>)
    requires asks != [] && asks[0].price <= iop
    ensures var m := Match(AtLeast(iop), asks[0].remainingQty, bids);
            && FillQty(Cross(iop, bids, asks).fills) == HitQty(m.hits) + FillQty(Cross(iop, m.book, asks[1..]).fills)
            && HitQty(m.hits) + m.left == asks[0].remainingQty
  {
    hide Match, FillQty;
    var m := Match(AtLeast(iop), asks[0].remainingQty, bids);
    FillQtyOfHits(Auction(iop), asks[0], m.hits);
    FillQtyConcat(FillsOf(Auction(iop), asks[0], m.hits), Cross(iop, m.book, asks[1..]).fills);
  }

  /** And the asks. */
  lemma {:induction false} CrossSweepsAsks(iop: int, bids: seq<Order>, asks: seq<Order>, id: nat)
    requires InPriority(Buy, bids) && DistinctIds(bids)
    ensures LikeSweep(iop, asks, Cross(iop, bids, asks), id)
    decreases asks
  {
    hide Match, FillQty, InPriority, DistinctIds, QtyOf, LikeSweep, Cross;
    if asks == [] || asks[0].price > iop {
      NoCrossing(iop, bids, asks, id);
    } else {
      var a, rest := asks[0], asks[1..];
      var m := Match(AtLeast(iop), a.remainingQty, bids);
      CrossFillQty(iop, bids, asks);
      CrossFront(iop, bids, asks);
      if m.left == 0 {
        MatchInPriority(Buy, AtLeast(iop), a.remainingQty, bids);
        CrossSweepsAsks(iop, m.book, rest, id);
        UsedFront(iop, asks, Cross(iop, bids, asks), Cross(iop, m.book, rest), id);
      } else {
        SweptClean(Buy, AtLeast(iop), a.remainingQty, bids);
        CrossOut(iop, m.book, rest, id);
        FillQtyNone();
        LeftFront(iop, asks, Cross(iop, bids, asks), Cross(iop, m.book, rest).asks, m.left, id);
      }
    }
  }

  /** What is left of the asks is what one sweep for the executed quantity leaves. */
  ghost predicate LikeSweep(iop: int, asks: seq<Order>, c: Crossing, id: nat) {
    var m := Match(AtMost(iop), FillQty(c.fills), asks).book;
    QtyOf(c.asks, id) == QtyOf(m, id) && (AllPositive(asks) ==> c.asks == m)
  }

  lemma {:induction false} NoCrossing(iop: int, bids: seq<Order>, asks: seq<Order>, id: nat)
    requires asks == [] || asks[0].price > iop
    ensures LikeSweep(iop, asks, Cross(iop, bids, asks), id)
  {
    hide Match;
    CrossNothing(iop, bids, asks);
    MatchNothing(AtMost(iop), 0, asks);
  }

  lemma {:induction false} CrossFront(iop: int, bids: seq<Order>, asks: seq<Order>)
    requires asks != [] && asks[0].price <= iop
    ensures var m := Match(AtLeast(iop), asks[0].remainingQty, bids);
            && m.left <= asks[0].remainingQty
            && Cross(iop, bids, asks).asks
               == Keep(asks[0].(remainingQty := m.left)) + Cross(iop, m.book, asks[1..]).asks
  {
    hide Match, FillsOf;
  }

  lemma {:induction false} UsedFront(iop: int, asks: seq<Order>, c: Crossing, r: Crossing, id: nat)
    requires asks != [] && asks[0].price <= iop && LikeSweep(iop, asks[1..], r, id)
    requires FillQty(c.fills) == asks[0].remainingQty + FillQty(r.fills)
    requires c.asks == Keep(asks[0].(remainingQty := 0)) + r.asks
    ensures LikeSweep(iop, asks, c, id)
  {
    hide Match, FillQty, QtyOf;
    assert c.asks == r.asks;
    FrontUsed(iop, asks, FillQty(r.fills), id);
    if AllPositive(asks) { assert asks[0] in asks && AllPositive(asks[1..]); }
  }

  lemma {:induction false} LeftFront(iop: int, asks: seq<Order>, c: Crossing, rest: seq<Order>, left: nat, id: nat)
    requires asks != [] && asks[0].price <= iop && 0 < left <= asks[0].remainingQty
    requires FillQty(c.fills) == asks[0].remainingQty - left && c.asks == Keep(asks[0].(remainingQty := left)) + rest
    requires QtyOf(rest, id) == QtyOf(asks[1..], id) && (AllPositive(asks[1..]) ==> rest == asks[1..])
    ensures LikeSweep(iop, asks, c, id)
  {
    hide Match, FillQty, QtyOf;
    FrontLeft(iop, asks, rest, left, id);
    if AllPositive(asks) { assert AllPositive(asks[1..]); }
  }

  /** A sweep that uses up the front ask is one of the asks behind it. */
  lemma {:induction false} FrontUsed(iop: int, asks: seq<Order>, more: nat, id: nat)
    requires asks != [] && asks[0].price <= iop
    ensures var m := Match(AtMost(iop), asks[0].remainingQty + more, asks).book;
            var r := Match(AtMost(iop), more, asks[1..]).book;
            QtyOf(m, id) == QtyOf(r, id) && (asks[0].remainingQty > 0 ==> m == r)
  {
    hide Match;
    if asks[0].remainingQty + more == 0 {
      MatchNothing(AtMost(iop), 0, asks);
      MatchNothing(AtMost(iop), 0, asks[1..]);
    } else {
      MatchFirst(AtMost(iop), asks[0].remainingQty + more, asks);
    }
  }

  /** A sweep that leaves some of the front ask leaves everything behind it. */
  lemma {:induction false} FrontLeft(iop: int, asks: seq<Order>, rest: seq<Order>, left: nat, id: nat)
    requires asks != [] && asks[0].price <= iop && 0 < left <= asks[0].remainingQty
    requires QtyOf(rest, id) == QtyOf(asks[1..], id)
    ensures var m := Match(AtMost(iop), asks[0].remainingQty - left, asks).book;
            var b := Keep(asks[0].(remainingQty := left)) + rest;
            QtyOf(b, id) == QtyOf(m, id) && (rest == asks[1..] ==> b == m)
  {
    hide Match;
    var a := asks[0].(remainingQty := left);
    var m := Match(AtMost(iop), asks[0].remainingQty - left, asks).book;
    if left == asks[0].remainingQty {
      MatchNothing(AtMost(iop), 0, asks);
      assert a == asks[0];
    } else {
      MatchFirst(AtMost(iop), asks[0].remainingQty - left, asks);
      assert Residue(asks[0], asks[0].remainingQty - left) == a;
    }
    assert m == [a] + asks[1..];
    QtyOfConcat([a], rest, id);
    QtyOfConcat([a], asks[1..], id);
  }

  // ----- What each order trades -----------------------------------------------------------------

  lemma {:induction false} TradedOfFills(sym: nat, a: seq<Fill>, b: seq<Fill>, n: nat, id: nat)
    ensures TradedOf(TradesOf(sym, a + b, n), id)
         == TradedOf(TradesOf(sym, a, n), id) + TradedOf(TradesOf(sym, b, n + |a|), id)
  {
    TradesConcat(sym, a, b, n);
    TradedOfConcat(TradesOf(sym, a, n), TradesOf(sym, b, n + |a|), id);
  }

  /** The executions of one ask move what they move under its own id and under those it hits. */
  lemma {:induction false} AskTraded(iop: int, sym: nat, a: Order, hits: seq<Hit>, n: nat, id: nat)
    requires a.side == Sell && forall h :: h in hits ==> h.resting.orderId != a.orderId
    ensures TradedOf(TradesOf(sym, FillsOf(Auction(iop), a, hits), n), id)
         == HitQtyOf(hits, id) + if id == a.orderId then HitQty(hits) else 0
    decreases hits
  {
    if hits == [] {
    } else {
      var f, rest := FillOf(Auction(iop), a, hits[0]), FillsOf(Auction(iop), Residue(a, hits[0].qty), hits[1..]);
      AskTraded(iop, sym, Residue(a, hits[0].qty), hits[1..], n + 1, id);
      assert ([f] + rest)[1..] == rest;
      assert hits[0] in hits;
      var ts := TradesOf(sym, rest, n + 1);
      assert ([TradeOf(sym, f, n)] + ts)[1..] == ts;
    }
  }

  /** What an order trades in the auction, it no longer has afterwards. */
  lemma {:induction false} CrossTraded(iop: int, sym: nat, bids: seq<Order>, asks: seq<Order>, n: nat, id: nat)
    requires Ids(bids) !! Ids(asks) && forall a :: a in asks ==> a.side == Sell
    ensures var c := Cross(iop, bids, asks);
            QtyOf(c.bids, id) + QtyOf(c.asks, id) + TradedOf(TradesOf(sym, c.fills, n), id)
            == QtyOf(bids, id) + QtyOf(asks, id)
    decreases asks
  {
    hide Match, HitQty, QtyOf, TradedOf, TradesOf, FillsOf, HitQtyOf;
    if asks == [] || asks[0].price > iop {
      NoTrades(sym, n, id);
    } else {
      var a := asks[0];
      var m := Match(AtLeast(iop), a.remainingQty, bids);
      var r := Cross(iop, m.book, asks[1..]);
      var fills := FillsOf(Auction(iop), a, m.hits);
      assert a in asks && a.orderId in Ids(asks);
      forall h | h in m.hits ensures h.resting.orderId != a.orderId {
        var k :| 0 <= k < |m.hits| && m.hits[k] == h;
        MatchHit(AtLeast(iop), a.remainingQty, bids, k);
        assert bids[k].orderId in Ids(bids);
      }
      MatchResidues(AtLeast(iop), a.remainingQty, bids);
      ResidueIds(m.book, bids);
      assert Ids(asks[1..]) <= Ids(asks);
      AskTraded(iop, sym, a, m.hits, n, id);
      CrossTraded(iop, sym, m.book, asks[1..], n + |fills|, id);
      TradedOfFills(sym, fills, r.fills, n, id);
      MatchQtyOf(AtLeast(iop), a.remainingQty, bids, id);
      AskQtyOf(asks, m.left, r.asks, id);
    }
  }

  lemma {:induction false} NoTrades(sym: nat, n: nat, id: nat)
    ensures TradedOf(TradesOf(sym, [], n), id) == 0
  {
  }

  lemma {:induction false} AskQtyOf(asks: seq<Order>, left: nat, rest: seq<Order>, id: nat)
    requires asks != [] && left <= asks[0].remainingQty
    ensures QtyOf(Keep(asks[0].(remainingQty := left)) + rest, id)
         == QtyOf(rest, id) + if asks[0].orderId == id then left else 0
    ensures QtyOf(asks, id) == QtyOf(asks[1..], id) + if asks[0].orderId == id then asks[0].remainingQty else 0
  {
    QtyOfConcat(Keep(asks[0].(remainingQty := left)), rest, id);
    QtyOfKeep(asks[0].(remainingQty := left), id);
  }

  lemma {:induction false} NotHeld(book: seq<Order>, id: nat)
    requires id !in Ids(book)
    ensures QtyOf(book, id) == 0
  {
    if book == [] {
    } else {
      assert book[0] in book && Ids(book[1..]) <= Ids(book);
      NotHeld(book[1..], id);
    }
  }

  /** Price-time priority of the auction: at any price, the order at each position of either side
      trades what one sweep for the executable volume would give it. */
  lemma {:induction false} CrossAllocates(iop: int, sym: nat, bids: seq<Order>, asks: seq<Order>, n: nat, k: nat)
    requires InPriority(Buy, bids) && DistinctIds(bids) && InPriority(Sell, asks) && DistinctIds(asks)
    requires Ids(bids) !! Ids(asks) && forall a :: a in asks ==> a.side == Sell
    ensures var trades, v := TradesOf(sym, Cross(iop, bids, asks).fills, n), Volume(bids, asks, iop);
            && (k < |bids| ==> TradedOf(trades, bids[k].orderId) == Allocation(AtLeast(iop), v, bids, k))
            && (k < |asks| ==> TradedOf(trades, asks[k].orderId) == Allocation(AtMost(iop), v, asks, k))
  {
    hide Match, InPriority, DistinctIds, Allocation, QtyOf, HitQtyOf, TradedOf, TradesOf, Cross, Volume;
    CrossVolume(iop, bids, asks);
    if k < |bids| {
      assert bids[k].orderId in Ids(bids) by { assert bids[k] in bids; }
      BothSides(iop, sym, bids, asks, n, bids[k].orderId);
      NotHeld(asks, bids[k].orderId);
      MatchTakes(Buy, AtLeast(iop), Volume(bids, asks, iop), bids, k);
    }
    if k < |asks| {
      assert asks[k].orderId in Ids(asks) by { assert asks[k] in asks; }
      BothSides(iop, sym, bids, asks, n, asks[k].orderId);
      NotHeld(bids, asks[k].orderId);
      MatchTakes(Sell, AtMost(iop), Volume(bids, asks, iop), asks, k);
    }
  }

  /** What is traded under an id is what the two sweeps take from under it. */
  lemma {:induction false} BothSides(iop: int, sym: nat, bids: seq<Order>, asks: seq<Order>, n: nat, id: nat)
    requires InPriority(Buy, bids) && DistinctIds(bids)
    requires Ids(bids) !! Ids(asks) && forall a :: a in asks ==> a.side == Sell
    ensures var c := Cross(iop, bids, asks);
            var v := FillQty(c.fills);
            && TradedOf(TradesOf(sym, c.fills, n), id)
               == HitQtyOf(Match(AtLeast(iop), v, bids).hits, id) + HitQtyOf(Match(AtMost(iop), v, asks).hits, id)
            && HitQtyOf(Match(AtLeast(iop), v, bids).hits, id) <= QtyOf(bids, id)
            && HitQtyOf(Match(AtMost(iop), v, asks).hits, id) <= QtyOf(asks, id)
  {
    hide Match, InPriority, DistinctIds, QtyOf, HitQtyOf, TradedOf, TradesOf, Cross;
    var c := Cross(iop, bids, asks);
    CrossTraded(iop, sym, bids, asks, n, id);
    CrossSweepsBids(iop, bids, asks, id);
    CrossSweepsAsks(iop, bids, asks, id);
    MatchQtyOf(AtLeast(iop), FillQty(c.fills), bids, id);
    MatchQtyOf(AtMost(iop), FillQty(c.fills), asks, id);
  }

  /** Uncrossing at any price leaves, at every price, the executable volume it did not use. */
  lemma {:induction false} CrossLeaves(iop: int, bids: seq<Order>, asks: seq<Order>, p: int)
    requires InPriority(Buy, bids) && DistinctIds(bids) && InPriority(Sell, asks)
    ensures var c := Cross(iop, bids, asks);
            Volume(c.bids, c.asks, p) == Monus(Volume(bids, asks, p), Volume(bids, asks, iop))
  {
    CrossVolume(iop, bids, asks);
    CrossDepletesBids(iop, bids, asks, p);
    CrossDepletesAsks(iop, bids, asks, p);
  }

  /** After uncrossing at the opening price nothing can trade at any price, and the executed
      quantity is the largest any single price could execute. */
  lemma {:induction false} UncrossClears(bids: seq<Order>, asks: seq<Order>)
    requires InPriority(Buy, bids) && DistinctIds(bids) && InPriority(Sell, asks)
    requires Iop(bids, asks) != 0
    ensures var c := Cross(Iop(bids, asks), bids, asks);
            && !CanTrade(c.bids, c.asks)
            && (forall f :: f in c.fills ==> f.price == Iop(bids, asks))
            && (forall p :: Volume(bids, asks, p) <= FillQty(c.fills))
            && (exists p :: Volume(bids, asks, p) == FillQty(c.fills))
  {
    var iop := Iop(bids, asks);
    var c := Cross(iop, bids, asks);
    IopIsOptimal(bids, asks);
    CrossAtIop(iop, bids, asks);
    CrossVolume(iop, bids, asks);
    forall p ensures Volume(c.bids, c.asks, p) == 0 {
      CrossLeaves(iop, bids, asks, p);
    }
  }

  /** Every bid is priced below every ask. */
  ghost predicate Uncrossed(bids: seq<Order>, asks: seq<Order>) {
    forall b, a :: b in bids && a in asks ==> b.price < a.price
  }

  lemma {:induction false} ReachableFrom(bd: Bound, book: seq<Order>, o: Order)
    requires o in book && Within(bd, o.price)
    ensures o.remainingQty <= Reachable(bd, book)
  {
    if book[0] == o {
    } else {
      ReachableFrom(bd, book[1..], o);
    }
  }

  /** When every resting order has quantity, "crossed" and "can trade" are the same thing. */
  lemma {:induction false} CrossedCanTrade(bids: seq<Order>, asks: seq<Order>)
    requires AllPositive(bids) && AllPositive(asks)
    ensures Uncrossed(bids, asks) <==> !CanTrade(bids, asks)
  {
    forall b, a | b in bids && a in asks && b.price >= a.price ensures CanTrade(bids, asks) {
      ReachableFrom(AtLeast(b.price), bids, b);
      ReachableFrom(AtMost(b.price), asks, a);
      assert Volume(bids, asks, b.price) > 0;
    }
    if Uncrossed(bids, asks) {
      forall p ensures Volume(bids, asks, p) == 0 {
        if exists b :: b in bids && b.price >= p {
          NothingReachable(AtMost(p), asks);
        } else {
          NothingReachable(AtLeast(p), bids);
        }
      }
    }
  }
}
