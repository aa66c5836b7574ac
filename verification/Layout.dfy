/** How the levelled representation of `Book` (two ladders and an id index) lays out a flat book.

    `Laid` relates the two: the levels, flattened, are the sides of the flat book, and the index
    holds exactly the resting ids, each with its side and price. The lemmas follow that relation
    through the elementary updates of the matching code: an execution at the front of a side, an
    order coming to rest, an order refilled or taken out anywhere, an empty level erased, a stop
    parked or removed, and an order looked up by id. */
module Layout {
  import opened Types
  import opened PriceTime
  import opened Tape
  import opened Ladder
  import opened BookSpec
  import opened AuctionSpec

  /** The id index agrees with the two sides: it holds exactly the resting ids, each with the
      side and price at which the order rests. */
  ghost predicate Indexed(index: map<nat, (Side, int)>, bids: seq<Order>, asks: seq<Order>) {
    && index.Keys == Ids(bids) + Ids(asks)
    && (forall o :: o in bids ==> o.orderId in index && index[o.orderId] == (Buy, o.price))
    && (forall o :: o in asks ==> o.orderId in index && index[o.orderId] == (Sell, o.price))
  }

  lemma {:induction false} IndexDropAsk(index: map<nat, (Side, int)>, bids: seq<Order>, asks: seq<Order>)
    requires Indexed(index, bids, asks) && asks != [] && DistinctIds(asks) && Ids(bids) !! Ids(asks)
    ensures Indexed(index - {asks[0].orderId}, bids, asks[1..])
  {
    assert Ids(asks) == Ids(asks[1..]) + {asks[0].orderId} by {
      assert forall o :: o in asks <==> o == asks[0] || o in asks[1..];
    }
    forall o | o in asks[1..] ensures o.orderId != asks[0].orderId { assert o.orderId in Ids(asks[1..]); }
    forall o | o in bids ensures o.orderId != asks[0].orderId {
      assert o.orderId in Ids(bids) && asks[0].orderId in Ids(asks);
    }
  }

  lemma {:induction false} IndexDropBid(index: map<nat, (Side, int)>, bids: seq<Order>, asks: seq<Order>)
    requires Indexed(index, bids, asks) && bids != [] && DistinctIds(bids) && Ids(bids) !! Ids(asks)
    ensures Indexed(index - {bids[0].orderId}, bids[1..], asks)
  {
    assert Ids(bids) == Ids(bids[1..]) + {bids[0].orderId} by {
      assert forall o :: o in bids <==> o == bids[0] || o in bids[1..];
    }
    forall o | o in bids[1..] ensures o.orderId != bids[0].orderId { assert o.orderId in Ids(bids[1..]); }
    forall o | o in asks ensures o.orderId != bids[0].orderId {
      assert o.orderId in Ids(asks) && bids[0].orderId in Ids(bids);
    }
  }

  /** Refilling an order in place does not concern the index. */
  lemma {:induction false} IndexResize(index: map<nat, (Side, int)>, bids: seq<Order>, asks: seq<Order>, rem: nat)
    requires Indexed(index, bids, asks)
    ensures asks != [] ==> Indexed(index, bids, [asks[0].(remainingQty := rem)] + asks[1..])
    ensures bids != [] ==> Indexed(index, [bids[0].(remainingQty := rem)] + bids[1..], asks)
  {
    if asks != [] {
      var a := [asks[0].(remainingQty := rem)] + asks[1..];
      assert forall o :: o in asks <==> o == asks[0] || o in asks[1..];
      assert Ids(a) == Ids(asks) by {
        assert a[0] in a;
        assert forall o :: o in asks[1..] ==> o in a;
      }
    }
    if bids != [] {
      var b := [bids[0].(remainingQty := rem)] + bids[1..];
      assert forall o :: o in bids <==> o == bids[0] || o in bids[1..];
      assert Ids(b) == Ids(bids) by {
        assert b[0] in b;
        assert forall o :: o in bids[1..] ==> o in b;
      }
    }
  }

  /** Levels and index lay out the flat book `s`; levels may be empty for a moment. */
  ghost predicate Laid(bids: seq<Level>, asks: seq<Level>, index: map<nat, (Side, int)>, s: BookState) {
    && Sorted(Buy, bids) && Keyed(bids) && s.bids == Flatten(bids)
    && Sorted(Sell, asks) && Keyed(asks) && s.asks == Flatten(asks)
    && Indexed(index, s.bids, s.asks)
    && WellFormed(s)
  }

  /** The index after an order has been refilled to `o`. */
  function Reindex(index: map<nat, (Side, int)>, o: Order): map<nat, (Side, int)> {
    if o.remainingQty == 0 then index - {o.orderId} else index
  }

  lemma {:induction false} AskFront(bids: seq<Level>, asks: seq<Level>, index: map<nat, (Side, int)>, s: BookState)
    requires Laid(bids, asks, index, s) && asks != [] && asks[0].orders != []
    ensures s.asks != [] && s.asks[0] == asks[0].orders[0] && s.asks[0].price == asks[0].price
    ensures s.asks[0].remainingQty <= s.asks[0].quantity
  {
    FrontFlat(asks);
    assert asks[0] in asks && asks[0].orders[0] in asks[0].orders;
    assert s.asks[0] in s.asks;
  }

  lemma {:induction false} BidFront(bids: seq<Level>, asks: seq<Level>, index: map<nat, (Side, int)>, s: BookState)
    requires Laid(bids, asks, index, s) && bids != [] && bids[0].orders != []
    ensures s.bids != [] && s.bids[0] == bids[0].orders[0] && s.bids[0].price == bids[0].price
    ensures s.bids[0].remainingQty <= s.bids[0].quantity
  {
    FrontFlat(bids);
    assert bids[0] in bids && bids[0].orders[0] in bids[0].orders;
    assert s.bids[0] in s.bids;
  }

  /** An empty front level may be erased. */
  lemma {:induction false} DropAskLevel(bids: seq<Level>, asks: seq<Level>, index: map<nat, (Side, int)>, s: BookState)
    requires Laid(bids, asks, index, s) && asks != [] && asks[0].orders == []
    ensures Laid(bids, asks[1..], index, s)
  {
    DropFront(Sell, asks);
  }

  lemma {:induction false} DropBidLevel(bids: seq<Level>, asks: seq<Level>, index: map<nat, (Side, int)>, s: BookState)
    requires Laid(bids, asks, index, s) && bids != [] && bids[0].orders == []
    ensures Laid(bids[1..], asks, index, s)
  {
    DropFront(Buy, bids);
  }

  /** The layout follows the flat book through one execution against the best ask ... */
  lemma {:induction false} HitAskLaid(mode: Mode, bids: seq<Level>, asks: seq<Level>, index: map<nat, (Side, int)>,
          s: BookState, o: Order)
    requires Laid(bids, asks, index, s) && o.side == Buy && asks != [] && asks[0].orders != []
    requires s.asks != []
    ensures var h := FirstHit(s, o); var r := Residue(h.resting, h.qty);
            Laid(bids, ReplaceFront(asks, Keep(r)), Reindex(index, r), AfterHit(mode, s, o))
  {
    hide WellFormed;
    AskFront(bids, asks, index, s);
    var h := FirstHit(s, o);
    var r := Residue(h.resting, h.qty);
    AfterHitWellFormed(mode, s, o);
    ReplaceFrontKeeps(Sell, asks, Keep(r));
    assert DistinctIds(s.asks) && Ids(s.bids) !! Ids(s.asks) by { IdsOf(s); }
    if r.remainingQty == 0 {
      IndexDropAsk(index, s.bids, s.asks);
      assert [] + s.asks[1..] == s.asks[1..];
    } else {
      IndexResize(index, s.bids, s.asks, r.remainingQty);
    }
  }

  /** ... and against the best bid. */
  lemma {:induction false} HitBidLaid(mode: Mode, bids: seq<Level>, asks: seq<Level>, index: map<nat, (Side, int)>,
          s: BookState, o: Order)
    requires Laid(bids, asks, index, s) && o.side == Sell && bids != [] && bids[0].orders != []
    requires s.bids != []
    ensures var h := FirstHit(s, o); var r := Residue(h.resting, h.qty);
            Laid(ReplaceFront(bids, Keep(r)), asks, Reindex(index, r), AfterHit(mode, s, o))
  {
    hide WellFormed;
    BidFront(bids, asks, index, s);
    var h := FirstHit(s, o);
    var r := Residue(h.resting, h.qty);
    AfterHitWellFormed(mode, s, o);
    ReplaceFrontKeeps(Buy, bids, Keep(r));
    assert DistinctIds(s.bids) && Ids(s.bids) !! Ids(s.asks) by { IdsOf(s); }
    if r.remainingQty == 0 {
      IndexDropBid(index, s.bids, s.asks);
      assert [] + s.bids[1..] == s.bids[1..];
    } else {
      IndexResize(index, s.bids, s.asks, r.remainingQty);
    }
  }

  // ----- Insertion ----------------------------------------------------------------------------

  /** The index with an order inserted (`orderIndex_[order.orderId] = {side, price}`). */
  function Enter(index: map<nat, (Side, int)>, o: Order): map<nat, (Side, int)> {
    index[o.orderId := (o.side, o.price)]
  }

  lemma {:induction false} EnterIndexed(index: map<nat, (Side, int)>, s: BookState, o: Order)
    requires Indexed(index, s.bids, s.asks) && Older(s, o.orderId)
    ensures Indexed(Enter(index, o), Rest(s, o).bids, Rest(s, o).asks)
  {
    InsertMembers(o.side, if o.side == Buy then s.bids else s.asks, o);
  }

  lemma {:induction false} RestBidLaid(bids: seq<Level>, asks: seq<Level>, index: map<nat, (Side, int)>,
          s: BookState, o: Order)
    requires Laid(bids, asks, index, s) && NoneEmpty(bids) && o.side == Buy
    requires Newest(s, o) && Older(s, o.orderId) && o.remainingQty <= o.quantity && !IsStop(o)
    ensures Laid(PushBack(Buy, bids, o), asks, Enter(index, o), Rest(s, o)) && NoneEmpty(PushBack(Buy, bids, o))
  {
    hide WellFormed, Indexed, Newest, Older;
    RestWellFormed(s, o);
    EnterIndexed(index, s, o);
    PushBackSorted(Buy, bids, o);
    PushBackInserts(Buy, bids, o);
  }

  lemma {:induction false} RestAskLaid(bids: seq<Level>, asks: seq<Level>, index: map<nat, (Side, int)>,
          s: BookState, o: Order)
    requires Laid(bids, asks, index, s) && NoneEmpty(asks) && o.side == Sell
    requires Newest(s, o) && Older(s, o.orderId) && o.remainingQty <= o.quantity && !IsStop(o)
    ensures Laid(bids, PushBack(Sell, asks, o), Enter(index, o), Rest(s, o)) && NoneEmpty(PushBack(Sell, asks, o))
  {
    hide WellFormed, Indexed, Newest, Older;
    RestWellFormed(s, o);
    EnterIndexed(index, s, o);
    PushBackSorted(Sell, asks, o);
    PushBackInserts(Sell, asks, o);
  }

  // ----- Updates in the middle of a side ---------------------------------------------------------

  /** The flat book with one ask replaced. */
  function WithAsk(s: BookState, n: nat, repl: seq<Order>): BookState
    requires n < |s.asks|
  {
    s.(asks := ReplaceAt(s.asks, n, repl))
  }

  function WithBid(s: BookState, n: nat, repl: seq<Order>): BookState
    requires n < |s.bids|
  {
    s.(bids := ReplaceAt(s.bids, n, repl))
  }

  lemma {:induction false} DistinctWithout(book: seq<Order>, n: nat)
    requires n < |book| && DistinctIds(book)
    ensures book[n].orderId !in Ids(book[..n] + book[n + 1..])
    ensures Ids(book[..n] + book[n + 1..]) == Ids(book) - {book[n].orderId}
  {
    var w := book[..n] + book[n + 1..];
    forall o | o in w ensures o.orderId != book[n].orderId && o in book {
      var k :| 0 <= k < |w| && w[k] == o;
      if k < n { DistinctAt(book, k, n); } else { DistinctAt(book, n, k + 1); }
    }
    forall o | o in book && o.orderId != book[n].orderId ensures o in w {
      assert o in book[..n] || o in book[n + 1..];
    }
  }

  lemma {:induction false} WithAskWellFormed(s: BookState, n: nat, rem: nat)
    requires WellFormed(s) && n < |s.asks| && rem <= s.asks[n].remainingQty
    ensures WellFormed(WithAsk(s, n, Keep(s.asks[n].(remainingQty := rem))))
  {
    ReplaceAtInPriority(Sell, s.asks, n, rem);
    ReplaceAtResidues(s.asks, n, rem);
    FacingWellFormed(s, Buy, ReplaceAt(s.asks, n, Keep(s.asks[n].(remainingQty := rem))), s.nextTradeId,
        s.lastTradePrice);
  }

  lemma {:induction false} WithBidWellFormed(s: BookState, n: nat, rem: nat)
    requires WellFormed(s) && n < |s.bids| && rem <= s.bids[n].remainingQty
    ensures WellFormed(WithBid(s, n, Keep(s.bids[n].(remainingQty := rem))))
  {
    ReplaceAtInPriority(Buy, s.bids, n, rem);
    ReplaceAtResidues(s.bids, n, rem);
    FacingWellFormed(s, Sell, ReplaceAt(s.bids, n, Keep(s.bids[n].(remainingQty := rem))), s.nextTradeId,
        s.lastTradePrice);
  }

  lemma {:induction false} IndexAskAt(index: map<nat, (Side, int)>, bids: seq<Order>, asks: seq<Order>, n: nat,
          rem: nat)
    requires Indexed(index, bids, asks) && n < |asks| && rem <= asks[n].remainingQty
    requires DistinctIds(asks) && Ids(bids) !! Ids(asks)
    ensures var x := asks[n].(remainingQty := rem);
            Indexed(Reindex(index, x), bids, ReplaceAt(asks, n, Keep(x)))
  {
    var x := asks[n].(remainingQty := rem);
    var b := ReplaceAt(asks, n, Keep(x));
    ReplaceAtResidues(asks, n, rem);
    DistinctWithout(asks, n);
    assert x.orderId in Ids(asks);
    forall o | o in b ensures o.orderId in Reindex(index, x) && Reindex(index, x)[o.orderId] == (Sell, o.price) {
      assert o.orderId in Ids(b);
      var o' :| o' in asks && Later(o, o');
      assert o.price == o'.price && o.orderId == o'.orderId;
    }
    forall o | o in bids ensures o.orderId in Reindex(index, x) {
      assert o.orderId in Ids(bids);
    }
  }

  lemma {:induction false} IndexBidAt(index: map<nat, (Side, int)>, bids: seq<Order>, asks: seq<Order>, n: nat,
          rem: nat)
    requires Indexed(index, bids, asks) && n < |bids| && rem <= bids[n].remainingQty
    requires DistinctIds(bids) && Ids(bids) !! Ids(asks)
    ensures var x := bids[n].(remainingQty := rem);
            Indexed(Reindex(index, x), ReplaceAt(bids, n, Keep(x)), asks)
  {
    var x := bids[n].(remainingQty := rem);
    var b := ReplaceAt(bids, n, Keep(x));
    ReplaceAtResidues(bids, n, rem);
    DistinctWithout(bids, n);
    assert x.orderId in Ids(bids);
    forall o | o in b ensures o.orderId in Reindex(index, x) && Reindex(index, x)[o.orderId] == (Buy, o.price) {
      assert o.orderId in Ids(b);
      var o' :| o' in bids && Later(o, o');
      assert o.price == o'.price && o.orderId == o'.orderId;
    }
    forall o | o in asks ensures o.orderId in Reindex(index, x) {
      assert o.orderId in Ids(asks);
    }
  }

  /** Refilling or erasing order `j` of ask level `i`. */
  lemma {:induction false} SetAskLaid(bids: seq<Level>, asks: seq<Level>, index: map<nat, (Side, int)>,
          s: BookState, i: nat, j: nat, rem: nat)
    requires Laid(bids, asks, index, s)
    requires i < |asks| && j < |asks[i].orders| && rem <= asks[i].orders[j].remainingQty
    ensures Pos(asks, i, j) < |s.asks| && s.asks[Pos(asks, i, j)] == asks[i].orders[j]
    ensures var x := asks[i].orders[j].(remainingQty := rem);
            Laid(bids, SetAt(asks, i, j, Keep(x)), Reindex(index, x), WithAsk(s, Pos(asks, i, j), Keep(x)))
  {
    hide WellFormed, Indexed;
    var x, n := asks[i].orders[j].(remainingQty := rem), Pos(asks, i, j);
    SetAtFlat(asks, i, j, Keep(x));
    SetAtSorted(Sell, asks, i, SetAt(asks, i, j, Keep(x))[i]);
    assert asks[i] in asks && asks[i].orders[j] in asks[i].orders;
    SetAtKeyed(asks, i, j, Keep(x));
    WithAskWellFormed(s, n, rem);
    IdsOf(s);
    IndexAskAt(index, s.bids, s.asks, n, rem);
  }

  /** Refilling or erasing order `j` of bid level `i`. */
  lemma {:induction false} SetBidLaid(bids: seq<Level>, asks: seq<Level>, index: map<nat, (Side, int)>,
          s: BookState, i: nat, j: nat, rem: nat)
    requires Laid(bids, asks, index, s)
    requires i < |bids| && j < |bids[i].orders| && rem <= bids[i].orders[j].remainingQty
    ensures Pos(bids, i, j) < |s.bids| && s.bids[Pos(bids, i, j)] == bids[i].orders[j]
    ensures var x := bids[i].orders[j].(remainingQty := rem);
            Laid(SetAt(bids, i, j, Keep(x)), asks, Reindex(index, x), WithBid(s, Pos(bids, i, j), Keep(x)))
  {
    hide WellFormed, Indexed;
    var x, n := bids[i].orders[j].(remainingQty := rem), Pos(bids, i, j);
    SetAtFlat(bids, i, j, Keep(x));
    SetAtSorted(Buy, bids, i, SetAt(bids, i, j, Keep(x))[i]);
    assert bids[i] in bids && bids[i].orders[j] in bids[i].orders;
    SetAtKeyed(bids, i, j, Keep(x));
    WithBidWellFormed(s, n, rem);
    IdsOf(s);
    IndexBidAt(index, s.bids, s.asks, n, rem);
  }

  /** Erasing an empty level anywhere. */
  lemma {:induction false} EraseAskLevel(bids: seq<Level>, asks: seq<Level>, index: map<nat, (Side, int)>,
          s: BookState, i: nat)
    requires Laid(bids, asks, index, s) && i < |asks| && asks[i].orders == []
    ensures Laid(bids, asks[..i] + asks[i + 1..], index, s)
  {
    EraseLevel(Sell, asks, i);
  }

  lemma {:induction false} EraseBidLevel(bids: seq<Level>, asks: seq<Level>, index: map<nat, (Side, int)>,
          s: BookState, i: nat)
    requires Laid(bids, asks, index, s) && i < |bids| && bids[i].orders == []
    ensures Laid(bids[..i] + bids[i + 1..], asks, index, s)
  {
    EraseLevel(Buy, bids, i);
  }

  // ----- Looking an order up ----------------------------------------------------------------------

  /** The key an order rests under leads to the level that queues it. */
  lemma {:induction false} LevelOf(side: Side, levels: seq<Level>, o: Order)
    requires Sorted(side, levels) && Keyed(levels) && o in Flatten(levels)
    ensures Find(levels, o.price) < |levels| && o in levels[Find(levels, o.price)].orders
  {
    FlattenMembers(levels);
    var l :| l in levels && o in l.orders;
    var j :| 0 <= j < |levels| && levels[j] == l;
    var i := Find(levels, o.price);
    if i < j { SortedAt(side, levels, i, j); }
  }

  /** The first order of a distinct book with the given id is the only one. */
  lemma {:induction false} OnlyOne(book: seq<Order>, n: nat, id: nat)
    requires DistinctIds(book) && n < |book| && book[n].orderId == id
    ensures IndexOfId(book, id) == n && RemoveId(book, id) == ReplaceAt(book, n, [])
  {
    var i := IndexOfId(book, id);
    if i < n { DistinctAt(book, i, n); }
    RemoveIdQty(book, id);
    assert book[..n] + [] + book[n + 1..] == book[..n] + book[n + 1..];
  }

  lemma {:induction false} LaidSides(bids: seq<Level>, asks: seq<Level>, index: map<nat, (Side, int)>, s: BookState)
    requires Laid(bids, asks, index, s)
    ensures Sorted(Buy, bids) && Keyed(bids) && s.bids == Flatten(bids)
    ensures Sorted(Sell, asks) && Keyed(asks) && s.asks == Flatten(asks)
    ensures WellFormed(s)
  {
  }

  lemma {:induction false} LaidNumbered(bids: seq<Level>, asks: seq<Level>, index: map<nat, (Side, int)>, s: BookState)
    requires Laid(bids, asks, index, s)
    ensures Laid(bids, asks, index, Numbered(s)) && Older(Numbered(s), s.nextOrderId) && 0 < s.nextOrderId
  {
    NextIdWellFormed(s);
  }

  lemma {:induction false} LaidParked(bids: seq<Level>, asks: seq<Level>, index: map<nat, (Side, int)>,
          s: BookState, o: Order)
    requires Laid(bids, asks, index, s) && Newest(s, o) && Older(s, o.orderId)
    requires o.remainingQty == o.quantity && IsStop(o)
    ensures Laid(bids, asks, index, s.(stops := s.stops + [o]))
  {
    ParkWellFormed(s, o);
  }

  /** What a matching loop leaves true for the order to rest afterwards. */
  lemma {:induction false} SweepFacts(s: BookState, o: Order)
    requires WellFormed(s) && Older(s, o.orderId)
    ensures var x := Sweeping(s, o);
            && Older(x.state, o.orderId) && x.state.nextOrderId == s.nextOrderId
            && x.order == o.(remainingQty := x.order.remainingQty) && x.order.remainingQty <= o.remainingQty
  {
    SweepWellFormed(Continuous, BoundOf(o), s, o);
  }

  // ----- Stops and cancellation ----------------------------------------------------------------

  lemma {:induction false} LaidUnparked(bids: seq<Level>, asks: seq<Level>, index: map<nat, (Side, int)>,
          s: BookState, price: int)
    requires Laid(bids, asks, index, s)
    ensures Laid(bids, asks, index, s.(stops := Select(s.stops, price, false)))
  {
    SelectMembers(s.stops, price, false);
    SelectInArrival(s.stops, price, false);
    ParkedSubset(s, Select(s.stops, price, false));
  }

  lemma {:induction false} LaidUnstop(bids: seq<Level>, asks: seq<Level>, index: map<nat, (Side, int)>,
          s: BookState, id: nat)
    requires Laid(bids, asks, index, s)
    ensures Laid(bids, asks, index, s.(stops := RemoveId(s.stops, id)))
  {
    ArrivalDistinct(s.stops);
    RemoveIdMembers(s.stops, id);
    RemoveInArrival(s.stops, id);
    ParkedSubset(s, RemoveId(s.stops, id));
  }

  /** The index finds an order exactly when it rests, and finds it in its level. */
  lemma {:induction false} LaidLookup(bids: seq<Level>, asks: seq<Level>, index: map<nat, (Side, int)>,
          s: BookState, id: nat)
    requires Laid(bids, asks, index, s)
    ensures id in index <==> IndexOfId(s.bids, id) < |s.bids| || IndexOfId(s.asks, id) < |s.asks|
    ensures id in index ==>
              var (side, price) := index[id];
              var levels := if side == Buy then bids else asks;
              && Find(levels, price) < |levels|
              && IndexOfId(levels[Find(levels, price)].orders, id) < |levels[Find(levels, price)].orders|
    ensures id in index && index[id].0 == Buy ==> IndexOfId(s.bids, id) < |s.bids|
    ensures id in index && index[id].0 == Sell ==> IndexOfId(s.asks, id) < |s.asks| && |s.bids| <= IndexOfId(s.bids, id)
  {
    hide WellFormed;
    IdPresent(s.bids, id);
    IdPresent(s.asks, id);
    IdsOf(s);
    if id in Ids(s.bids) {
      var o :| o in s.bids && o.orderId == id;
      LevelOf(Buy, bids, o);
      IdPresent(bids[Find(bids, o.price)].orders, id);
    } else if id in Ids(s.asks) {
      var o :| o in s.asks && o.orderId == id;
      LevelOf(Sell, asks, o);
      IdPresent(asks[Find(asks, o.price)].orders, id);
    }
  }

  lemma {:induction false} LaidBidOut(bids: seq<Level>, asks: seq<Level>, index: map<nat, (Side, int)>,
          s: BookState, i: nat, k: nat)
    requires Laid(bids, asks, index, s) && i < |bids| && k < |bids[i].orders|
    ensures var id := bids[i].orders[k].orderId;
            && Laid(SetAt(bids, i, k, []), asks, index - {id}, s.(bids := RemoveId(s.bids, id)))
            && IndexOfId(s.bids, id) < |s.bids| && s.bids[IndexOfId(s.bids, id)] == bids[i].orders[k]
            && IndexOfId(s.stops, id) == |s.stops|
  {
    hide WellFormed;
    var id := bids[i].orders[k].orderId;
    SetBidLaid(bids, asks, index, s, i, k, 0);
    IdsOf(s);
    OnlyOne(s.bids, Pos(bids, i, k), id);
    assert id in Ids(s.bids);
    assert id !in Ids(s.stops) by { StopsApart(s, id); }
    IdPresent(s.stops, id);
  }

  lemma {:induction false} LaidAskOut(bids: seq<Level>, asks: seq<Level>, index: map<nat, (Side, int)>,
          s: BookState, i: nat, k: nat)
    requires Laid(bids, asks, index, s) && i < |asks| && k < |asks[i].orders|
    ensures var id := asks[i].orders[k].orderId;
            && Laid(bids, SetAt(asks, i, k, []), index - {id}, s.(asks := RemoveId(s.asks, id)))
            && IndexOfId(s.asks, id) < |s.asks| && s.asks[IndexOfId(s.asks, id)] == asks[i].orders[k]
            && IndexOfId(s.stops, id) == |s.stops|
  {
    hide WellFormed;
    var id := asks[i].orders[k].orderId;
    SetAskLaid(bids, asks, index, s, i, k, 0);
    IdsOf(s);
    OnlyOne(s.asks, Pos(asks, i, k), id);
    assert id in Ids(s.asks);
    assert id !in Ids(s.stops) by { StopsApart(s, id); }
    IdPresent(s.stops, id);
  }

  lemma {:induction false} StopsApart(s: BookState, id: nat)
    requires WellFormed(s) && (id in Ids(s.bids) || id in Ids(s.asks))
    ensures id !in Ids(s.stops)
  {
  }

  lemma {:induction false} LaidHasLevel(bids: seq<Level>, asks: seq<Level>, index: map<nat, (Side, int)>,
          s: BookState, p: int)
    requires Laid(bids, asks, index, s) && NoneEmpty(bids)
    ensures Find(bids, p) < |bids| <==> HasPrice(s.bids, p)
  {
    FlattenMembers(bids);
    var i := Find(bids, p);
    if i < |bids| {
      assert bids[i] in bids && bids[i].orders[0] in bids[i].orders;
      assert bids[i].orders[0] in s.bids;
    }
    forall o | o in s.bids && o.price == p ensures i < |bids| {
      LevelOf(Buy, bids, o);
    }
  }

  lemma {:induction false} LaidAsk(bids: seq<Level>, asks: seq<Level>, index: map<nat, (Side, int)>, s: BookState,
          i: nat, j: nat)
    requires Laid(bids, asks, index, s) && i < |asks| && j < |asks[i].orders|
    ensures var n := Pos(asks, i, j);
            n < |s.asks| && s.asks[n] == asks[i].orders[j] && s.asks[n].side == Sell && s.asks[n].price == asks[i].price
  {
    SetAtFlat(asks, i, j, []);
    assert s.asks[Pos(asks, i, j)] in s.asks;
    assert asks[i] in asks && asks[i].orders[j] in asks[i].orders;
  }

  lemma {:induction false} SweptOrder(mode: Mode, bd: Bound, s: BookState, o: Order)
    ensures var x := SweepAt(mode, bd, s, o);
            && x.order == o.(remainingQty := x.order.remainingQty) && x.order.remainingQty <= o.remainingQty
            && (o.side == Sell ==> x.state.asks == s.asks)
  {
  }

  /** One level of a cumulative sum. */
  lemma {:induction false} LevelReach(levels: seq<Level>, i: nat, bd: Bound)
    requires Keyed(levels) && i < |levels|
    ensures Reachable(bd, Flatten(levels[i..]))
         == (if Within(bd, levels[i].price) then Qty(levels[i].orders) else 0) + Reachable(bd, Flatten(levels[i + 1..]))
  {
    assert levels[i..][1..] == levels[i + 1..];
    ReachableConcat(bd, levels[i].orders, Flatten(levels[i + 1..]));
    assert levels[i] in levels;
    if Within(bd, levels[i].price) {
      AllReachable(bd, levels[i].orders);
    } else {
      NothingReachable(bd, levels[i].orders);
    }
  }

  /** The keys of the levels are the prices of the book. */
  lemma {:induction false} SamePrices(prices: seq<int>, bids: seq<Level>, asks: seq<Level>)
    requires Ascending(prices) && Keyed(bids) && Keyed(asks) && NoneEmpty(bids) && NoneEmpty(asks)
    requires forall p :: p in prices <==> HasKey(bids, p) || HasKey(asks, p)
    ensures prices == Candidates(Flatten(bids), Flatten(asks))
  {
    var b, a := Flatten(bids), Flatten(asks);
    CandidatesAreBookPrices(b, a);
    KeysArePrices(bids);
    KeysArePrices(asks);
    assert forall p :: p in prices <==> p in Candidates(b, a);
    AscendingUnique(prices, Candidates(b, a));
  }

  lemma {:induction false} KeysArePrices(levels: seq<Level>)
    requires Keyed(levels) && NoneEmpty(levels)
    ensures forall p :: HasKey(levels, p) <==> HasPrice(Flatten(levels), p)
  {
    FlattenMembers(levels);
    forall l | l in levels ensures HasPrice(Flatten(levels), l.price) {
      assert l.orders[0] in l.orders && l.orders[0] in Flatten(levels);
    }
  }

  lemma {:induction false} AscendingUnique(a: seq<int>, b: seq<int>)
    requires Ascending(a) && Ascending(b) && forall p :: p in a <==> p in b
    ensures a == b
  {
    assert b == [] || b[0] in b;
    if a == [] {
    } else {
      assert a[0] in a;
      var j :| 0 <= j < |b| && b[j] == a[0];
      assert b[0] in b;
      var i :| 0 <= i < |a| && a[i] == b[0];
      assert i == 0 && j == 0;
      assert forall p :: p in a[1..] <==> p in a && p != a[0];
      assert forall p :: p in b[1..] <==> p in b && p != b[0];
      AscendingUnique(a[1..], b[1..]);
    }
  }
}
