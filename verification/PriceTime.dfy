/** Price-time priority on one flat side of a book: the greedy sweep every matching loop of
    the system refines, insertion in priority order, and removal by id. */
module PriceTime {
  import opened Types

  // ----- Priority ---------------------------------------------------------------------

  /** `p` has strict price priority over `q` among orders resting on `side`. */
  predicate Better(side: Side, p: int, q: int) {
    if side == Buy then p > q else p < q
  }

  /** `a` stands before `b`: better price, or the same price and an earlier id. */
  predicate Ahead(side: Side, a: Order, b: Order) {
    Better(side, a.price, b.price) || (a.price == b.price && a.orderId < b.orderId)
  }

  /** Every order stands before all the orders behind it. */
  ghost predicate InPriority(side: Side, book: seq<Order>) {
    book == [] || ((forall o :: o in book[1..] ==> Ahead(side, book[0], o)) && InPriority(side, book[1..]))
  }

  ghost predicate DistinctIds(book: seq<Order>) {
    book == [] || (book[0].orderId !in Ids(book[1..]) && DistinctIds(book[1..]))
  }

  ghost function Ids(book: seq<Order>): set<nat> {
    set o | o in book :: o.orderId
  }

  lemma {:induction false} PriorityAt(side: Side, book: seq<Order>, i: nat, j: nat)
    requires InPriority(side, book) && i < j < |book|
    ensures Ahead(side, book[i], book[j])
  {
    if i == 0 {
      assert book[j] == book[1..][j - 1];
    } else {
      PriorityAt(side, book[1..], i - 1, j - 1);
    }
  }

  lemma {:induction false} DistinctAt(book: seq<Order>, i: nat, j: nat)
    requires DistinctIds(book) && i < j < |book|
    ensures book[i].orderId != book[j].orderId
  {
    if i == 0 {
      assert book[j] == book[1..][j - 1];
      assert book[1..][j - 1] in book[1..];
    } else {
      DistinctAt(book[1..], i - 1, j - 1);
    }
  }

  // ----- Prices an aggressor accepts ----------------------------------------------------

  datatype Bound = Unbounded | AtMost(p: int) | AtLeast(p: int)

  predicate Within(b: Bound, price: int) {
    match b
    case Unbounded => true
    case AtMost(p) => price <= p
    case AtLeast(p) => price >= p
  }

  /** The prices an incoming order may trade at. */
  function BoundOf(o: Order): Bound {
    if o.ordType == Market then Unbounded
    else if o.side == Buy then AtMost(o.price)
    else AtLeast(o.price)
  }

  /** `b` bounds the prices of orders resting on `side` from the worse end only. */
  predicate Faces(b: Bound, side: Side) {
    b.Unbounded? || (if side == Buy then b.AtLeast? else b.AtMost?)
  }

  /** The bound "at `p` or better" for orders resting on `side`. */
  function AtOrBetter(side: Side, p: int): Bound {
    if side == Buy then AtLeast(p) else AtMost(p)
  }

  // ----- Quantities -------------------------------------------------------------------

  function Qty(book: seq<Order>): nat {
    if book == [] then 0 else book[0].remainingQty + Qty(book[1..])
  }

  /** Quantity resting at prices within the bound, wherever it stands in the book. */
  function Reachable(b: Bound, book: seq<Order>): nat {
    if book == [] then 0
    else (if Within(b, book[0].price) then book[0].remainingQty else 0) + Reachable(b, book[1..])
  }

  lemma {:induction false} QtyConcat(a: seq<Order>, b: seq<Order>)
    ensures Qty(a + b) == Qty(a) + Qty(b)
  {
    if a == [] {
      assert a + b == b;
    } else {
      assert (a + b)[1..] == a[1..] + b;
      QtyConcat(a[1..], b);
    }
  }

  lemma {:induction false} ReachableConcat(bd: Bound, a: seq<Order>, b: seq<Order>)
    ensures Reachable(bd, a + b) == Reachable(bd, a) + Reachable(bd, b)
  {
    if a == [] {
      assert a + b == b;
    } else {
      assert (a + b)[1..] == a[1..] + b;
      ReachableConcat(bd, a[1..], b);
    }
  }

  lemma {:induction false} ReachableAtMostQty(bd: Bound, book: seq<Order>)
    ensures Reachable(bd, book) <= Qty(book)
  {
    if book == [] {
    } else {
      ReachableAtMostQty(bd, book[1..]);
    }
  }

  lemma {:induction false} NothingReachable(bd: Bound, book: seq<Order>)
    requires forall o :: o in book ==> !Within(bd, o.price)
    ensures Reachable(bd, book) == 0
  {
    if book == [] {
    } else {
      NothingReachable(bd, book[1..]);
    }
  }

  lemma {:induction false} AllReachable(bd: Bound, book: seq<Order>)
    requires forall o :: o in book ==> Within(bd, o.price)
    ensures Reachable(bd, book) == Qty(book)
  {
    if book == [] {
    } else {
      AllReachable(bd, book[1..]);
    }
  }

  /** In priority order, nothing behind an unacceptable order is acceptable. */
  lemma {:induction false} BeyondBound(side: Side, bd: Bound, book: seq<Order>)
    requires InPriority(side, book) && Faces(bd, side)
    requires book != [] && !Within(bd, book[0].price)
    ensures forall o :: o in book ==> !Within(bd, o.price)
    ensures Reachable(bd, book) == 0
  {
    forall o | o in book ensures !Within(bd, o.price) {
      assert o == book[0] || o in book[1..];
    }
    NothingReachable(bd, book);
  }

  /** The longest run of orders at the price of the first. */
  function RunLength(book: seq<Order>, p: int): (n: nat)
    ensures n <= |book|
  {
    if book == [] || book[0].price != p then 0 else 1 + RunLength(book[1..], p)
  }

  predicate HasPrice(book: seq<Order>, p: int) {
    exists o :: o in book && o.price == p
  }

  // ----- The greedy sweep -------------------------------------------------------------

  /** One resting order (as it stood before) and the quantity taken from it. */
  datatype Hit = Hit(resting: Order, qty: nat)

  datatype Sweep = Sweep(left: nat, book: seq<Order>, hits: seq<Hit>)

  /** `o` after `taken` has been filled from it. */
  function Residue(o: Order, taken: nat): Order {
    o.(remainingQty := Monus(o.remainingQty, taken))
  }

  function Keep(o: Order): seq<Order> {
    if o.remainingQty == 0 then [] else [o]
  }

  /** Take up to `qty` from the front of the book while the price is within the bound. */
  function Match(bd: Bound, qty: nat, book: seq<Order>): (m: Sweep)
    ensures m.left + HitQty(m.hits) == qty
  {
    if qty == 0 || book == [] || !Within(bd, book[0].price) then Sweep(qty, book, [])
    else
      var t: nat := Min(qty, book[0].remainingQty);
      var m := Match(bd, qty - t, book[1..]);
      Sweep(m.left, Keep(Residue(book[0], t)) + m.book, [Hit(book[0], t)] + m.hits)
  }

  function HitQty(hits: seq<Hit>): nat {
    if hits == [] then 0 else hits[0].qty + HitQty(hits[1..])
  }

  lemma {:induction false} MatchUnfold(bd: Bound, qty: nat, book: seq<Order>)
    requires qty > 0 && book != [] && Within(bd, book[0].price)
    ensures var t: nat := Min(qty, book[0].remainingQty);
            var m := Match(bd, qty - t, book[1..]);
            Match(bd, qty, book) == Sweep(m.left, Keep(Residue(book[0], t)) + m.book, [Hit(book[0], t)] + m.hits)
  {
  }

  lemma {:induction false} MatchNothing(bd: Bound, qty: nat, book: seq<Order>)
    requires qty == 0 || book == [] || !Within(bd, book[0].price)
    ensures Match(bd, qty, book) == Sweep(qty, book, [])
  {
  }

  /** The first step of a sweep that takes anything: the front order is either used up, and
      the sweep goes on behind it, or partly filled, and the sweep is over. */
  lemma {:induction false} MatchFirst(bd: Bound, qty: nat, book: seq<Order>)
    requires qty > 0 && book != [] && Within(bd, book[0].price)
    ensures book[0].remainingQty <= qty ==>
              var r := Match(bd, qty - book[0].remainingQty, book[1..]);
              Match(bd, qty, book) == Sweep(r.left, r.book, [Hit(book[0], book[0].remainingQty)] + r.hits)
    ensures qty < book[0].remainingQty ==>
              Match(bd, qty, book) == Sweep(0, [Residue(book[0], qty)] + book[1..], [Hit(book[0], qty)])
  {
    if book[0].remainingQty <= qty {
      var r := Match(bd, qty - book[0].remainingQty, book[1..]);
      assert [] + r.book == r.book;
    } else {
      assert Match(bd, 0, book[1..]) == Sweep(0, book[1..], []);
    }
  }

  /** A sweep is its first hit followed by a sweep of the book that hit leaves. */
  lemma {:induction false} MatchStep(bd: Bound, qty: nat, book: seq<Order>)
    requires qty > 0 && book != [] && Within(bd, book[0].price)
    ensures var t: nat := Min(qty, book[0].remainingQty);
            var m, r := Match(bd, qty, book), Match(bd, qty - t, Keep(Residue(book[0], t)) + book[1..]);
            m == Sweep(r.left, r.book, [Hit(book[0], t)] + r.hits)
  {
    MatchFirst(bd, qty, book);
    if book[0].remainingQty <= qty {
      assert Keep(Residue(book[0], book[0].remainingQty)) + book[1..] == book[1..];
    }
  }

  /** A sweep touches exactly a prefix of the book, only at acceptable prices, ... */
  lemma {:induction false} MatchHit(bd: Bound, qty: nat, book: seq<Order>, k: nat)
    requires k < |Match(bd, qty, book).hits|
    ensures k < |book|
    ensures var h := Match(bd, qty, book).hits[k];
            h.resting == book[k] && h.qty <= h.resting.remainingQty && Within(bd, h.resting.price)
  {
    if k == 0 {
    } else {
      MatchHit(bd, qty - Min(qty, book[0].remainingQty), book[1..], k - 1);
    }
  }

  /** ... exhausts every order it touches but the last, ... */
  lemma {:induction false} MatchExhausts(bd: Bound, qty: nat, book: seq<Order>, k: nat)
    requires k + 1 < |Match(bd, qty, book).hits|
    ensures Match(bd, qty, book).hits[k].qty == Match(bd, qty, book).hits[k].resting.remainingQty
  {
    if k == 0 {
    } else {
      MatchExhausts(bd, qty - Min(qty, book[0].remainingQty), book[1..], k - 1);
    }
  }

  /** ... leaves the rest of the book as it was, ... */
  lemma {:induction false} MatchRest(bd: Bound, qty: nat, book: seq<Order>)
    ensures var m := Match(bd, qty, book);
            && |m.hits| <= |book|
            && (m.hits == [] ==> m.book == book)
            && (m.hits != [] ==>
                  var h := m.hits[|m.hits| - 1];
                  h.qty <= h.resting.remainingQty && m.book == Keep(Residue(h.resting, h.qty)) + book[|m.hits|..])
  {
    hide Match;
    if qty == 0 || book == [] || !Within(bd, book[0].price) {
      MatchNothing(bd, qty, book);
    } else {
      var t: nat := Min(qty, book[0].remainingQty);
      var r := Match(bd, qty - t, book[1..]);
      MatchUnfold(bd, qty, book);
      MatchRest(bd, qty - t, book[1..]);
      if t == qty { MatchNothing(bd, 0, book[1..]); }
      if r.hits == [] {
        assert Match(bd, qty, book).hits == [Hit(book[0], t)];
      } else {
        assert Keep(Residue(book[0], t)) == [];
        assert [] + r.book == r.book;
        assert book[1..][|r.hits|..] == book[1 + |r.hits|..];
      }
    }
  }

  /** ... and stops short of its quantity only when nothing acceptable is in front. */
  lemma {:induction false} MatchStops(bd: Bound, qty: nat, book: seq<Order>)
    requires Match(bd, qty, book).left > 0
    ensures var b := Match(bd, qty, book).book; b == [] || !Within(bd, b[0].price)
  {
    if book == [] || !Within(bd, book[0].price) {
    } else {
      var t: nat := Min(qty, book[0].remainingQty);
      MatchStops(bd, qty - t, book[1..]);
      var r := Match(bd, qty - t, book[1..]);
      assert Keep(Residue(book[0], t)) == [];
      assert [] + r.book == r.book;
    }
  }

  /** A sweep of a sorted side fills min(quantity, total acceptable quantity). */
  lemma {:induction false} MatchAmount(side: Side, bd: Bound, qty: nat, book: seq<Order>)
    requires InPriority(side, book) && Faces(bd, side)
    ensures Match(bd, qty, book).left == Monus(qty, Reachable(bd, book))
    ensures HitQty(Match(bd, qty, book).hits) == Min(qty, Reachable(bd, book))
  {
    if qty == 0 || book == [] {
    } else if !Within(bd, book[0].price) {
      BeyondBound(side, bd, book);
    } else {
      MatchAmount(side, bd, qty - Min(qty, book[0].remainingQty), book[1..]);
    }
  }

  /** What a sweep of size `qty` takes from the order at position `k` of a sorted side: the
      part of the quantity that the acceptable orders ahead of it could not absorb. */
  function Allocation(bd: Bound, qty: nat, book: seq<Order>, k: nat): nat
    requires k < |book|
  {
    if Within(bd, book[k].price)
    then Min(book[k].remainingQty, Monus(qty, Reachable(bd, book[..k])))
    else 0
  }

  function TakenAt(hits: seq<Hit>, k: nat): nat {
    if k < |hits| then hits[k].qty else 0
  }

  /** The recursive sweep and the closed-form allocation agree on every resting order. */
  lemma {:induction false} MatchAllocates(side: Side, bd: Bound, qty: nat, book: seq<Order>, k: nat)
    requires InPriority(side, book) && Faces(bd, side)
    requires k < |book|
    ensures TakenAt(Match(bd, qty, book).hits, k) == Allocation(bd, qty, book, k)
  {
    hide Match, InPriority, Faces, Reachable;
    if qty == 0 {
      MatchNothing(bd, qty, book);
    } else if !Within(bd, book[0].price) {
      MatchNothing(bd, qty, book);
      assert forall o :: o in book ==> !Within(bd, o.price) by { BeyondBound(side, bd, book); }
      assert book[k] in book;
    } else {
      var t: nat := Min(qty, book[0].remainingQty);
      MatchUnfold(bd, qty, book);
      if k == 0 {
        assert Reachable(bd, book[..0]) == 0 by { NothingReachable(bd, book[..0]); }
      } else {
        assert InPriority(side, book[1..]) by { PriorityTail(side, book); }
        MatchAllocates(side, bd, qty - t, book[1..], k - 1);
        ReachableFront(bd, book, k);
      }
    }
  }

  lemma {:induction false} PriorityTail(side: Side, book: seq<Order>)
    requires InPriority(side, book) && book != []
    ensures InPriority(side, book[1..])
  {
  }

  lemma {:induction false} ReachableFront(bd: Bound, book: seq<Order>, k: nat)
    requires 0 < k < |book| && Within(bd, book[0].price)
    ensures Reachable(bd, book[..k]) == book[0].remainingQty + Reachable(bd, book[1..][..k - 1])
    ensures book[1..][k - 1] == book[k]
  {
    assert book[..k][1..] == book[1..][..k - 1];
  }

  /** Best-first consumption: at every price, the quantity available at that price or better
      drops by exactly the filled quantity, and never below zero. */
  lemma {:induction false} MatchDepletes(side: Side, bd: Bound, qty: nat, book: seq<Order>, p: int)
    requires InPriority(side, book) && Faces(bd, side)
    ensures Reachable(AtOrBetter(side, p), Match(bd, qty, book).book)
         == Monus(Reachable(AtOrBetter(side, p), book), HitQty(Match(bd, qty, book).hits))
  {
    hide Match, InPriority, HitQty, Faces, Reachable, AtOrBetter;
    if qty == 0 || book == [] || !Within(bd, book[0].price) {
      MatchNothing(bd, qty, book);
      HitQtySplit([], []);
    } else {
      var t: nat := Min(qty, book[0].remainingQty);
      PriorityTail(side, book);
      MatchDepletes(side, bd, qty - t, book[1..], p);
      DepletesFront(side, bd, qty, book, p);
    }
  }

  /** The first step of a sweep depletes the front order, and the rest of it what is behind. */
  lemma {:induction false} DepletesFront(side: Side, bd: Bound, qty: nat, book: seq<Order>, p: int)
    requires InPriority(side, book) && qty > 0 && book != [] && Within(bd, book[0].price)
    requires var at, r := AtOrBetter(side, p), Match(bd, qty - Min(qty, book[0].remainingQty), book[1..]);
             Reachable(at, r.book) == Monus(Reachable(at, book[1..]), HitQty(r.hits))
    ensures var at, m := AtOrBetter(side, p), Match(bd, qty, book);
            Reachable(at, m.book) == Monus(Reachable(at, book), HitQty(m.hits))
  {
    hide Match, InPriority, HitQty;
    var at := AtOrBetter(side, p);
    var t: nat := Min(qty, book[0].remainingQty);
    var r := Match(bd, qty - t, book[1..]);
    MatchUnfold(bd, qty, book);
    ReachableConcat(at, Keep(Residue(book[0], t)), r.book);
    HitQtySplit([Hit(book[0], t)], r.hits);
    ReachableKeep(at, Residue(book[0], t));
    if !Within(at, book[0].price) { BeyondBound(side, at, book); }
  }

  lemma {:induction false} HitQtySplit(a: seq<Hit>, b: seq<Hit>)
    requires |a| <= 1
    ensures HitQty(a + b) == (if a == [] then 0 else a[0].qty) + HitQty(b)
    ensures HitQty([]) == 0
  {
    if a != [] { assert (a + b)[1..] == b; } else { assert a + b == b; }
  }

  lemma {:induction false} ReachableKeep(bd: Bound, o: Order)
    ensures Reachable(bd, Keep(o)) == if Within(bd, o.price) then o.remainingQty else 0
  {
  }

  /** Two sweeps in a row leave the side that one sweep for both quantities leaves. */
  lemma {:induction false} MatchTwice(bd: Bound, first: nat, second: nat, book: seq<Order>)
    ensures Match(bd, first + second, book).book == Match(bd, second, Match(bd, first, book).book).book
  {
    hide Match;
    if first == 0 || book == [] || !Within(bd, book[0].price) {
      MatchNothing(bd, first, book);
      if first > 0 {
        MatchNothing(bd, first + second, book);
        MatchNothing(bd, second, book);
      }
    } else {
      var b, rest := book[0], book[1..];
      MatchFirst(bd, first, book);
      MatchFirst(bd, first + second, book);
      if b.remainingQty <= first {
        MatchTwice(bd, first - b.remainingQty, second, rest);
      } else {
        SplitHit(bd, first, second, b, rest);
      }
    }
  }

  /** A sweep of an order that is partly filled already. */
  lemma {:induction false} SplitHit(bd: Bound, first: nat, second: nat, b: Order, rest: seq<Order>)
    requires 0 < first < b.remainingQty && Within(bd, b.price)
    ensures Match(bd, second, [Residue(b, first)] + rest).book
         == if b.remainingQty <= first + second then Match(bd, first + second - b.remainingQty, rest).book
            else [Residue(b, first + second)] + rest
  {
    hide Match;
    var left := [Residue(b, first)] + rest;
    assert left[0] == Residue(b, first) && left[1..] == rest;
    if second == 0 {
      MatchNothing(bd, 0, left);
    } else {
      MatchFirst(bd, second, left);
    }
  }

  /** A sweep for as much as another one found fills leaves every order with the same quantity; on a
      book without empty orders it leaves the same book. */
  lemma {:induction false} MatchFilled(bd: Bound, qty: nat, book: seq<Order>, id: nat)
    ensures var m := Match(bd, qty, book);
            var f := Match(bd, HitQty(m.hits), book).book;
            QtyOf(f, id) == QtyOf(m.book, id) && (AllPositive(book) ==> f == m.book)
  {
    hide Match, HitQty;
    HitQtySplit([], []);
    if qty == 0 || book == [] || !Within(bd, book[0].price) {
      MatchNothing(bd, qty, book);
      MatchNothing(bd, 0, book);
    } else {
      var b, rest := book[0], book[1..];
      MatchFirst(bd, qty, book);
      if b.remainingQty <= qty {
        var r := Match(bd, qty - b.remainingQty, rest);
        HitQtySplit([Hit(b, b.remainingQty)], r.hits);
        MatchFilled(bd, qty - b.remainingQty, rest, id);
        var h := HitQty(r.hits);
        if b.remainingQty + h == 0 {
          MatchNothing(bd, 0, book);
          MatchNothing(bd, 0, rest);
        } else {
          MatchFirst(bd, b.remainingQty + h, book);
        }
      } else {
        HitQtySplit([Hit(b, qty)], []);
        assert [Hit(b, qty)] + [] == [Hit(b, qty)];
      }
    }
  }

  ghost predicate AllPositive(book: seq<Order>) {
    forall o :: o in book ==> o.remainingQty > 0
  }

  /** The quantity the book holds for one order id. */
  function QtyOf(book: seq<Order>, id: nat): nat {
    if book == [] then 0 else (if book[0].orderId == id then book[0].remainingQty else 0) + QtyOf(book[1..], id)
  }

  /** The quantity taken from the orders with one id. */
  function HitQtyOf(hits: seq<Hit>, id: nat): nat {
    if hits == [] then 0 else (if hits[0].resting.orderId == id then hits[0].qty else 0) + HitQtyOf(hits[1..], id)
  }

  lemma {:induction false} QtyOfConcat(a: seq<Order>, b: seq<Order>, id: nat)
    ensures QtyOf(a + b, id) == QtyOf(a, id) + QtyOf(b, id)
  {
    if a == [] {
      assert a + b == b;
    } else {
      assert (a + b)[1..] == a[1..] + b;
      QtyOfConcat(a[1..], b, id);
    }
  }

  lemma {:induction false} QtyOfKeep(o: Order, id: nat)
    ensures QtyOf(Keep(o), id) == if o.orderId == id then o.remainingQty else 0
  {
  }

  /** What a sweep takes from an order, that order no longer has. */
  lemma {:induction false} MatchQtyOf(bd: Bound, qty: nat, book: seq<Order>, id: nat)
    ensures QtyOf(Match(bd, qty, book).book, id) + HitQtyOf(Match(bd, qty, book).hits, id) == QtyOf(book, id)
  {
    hide Match;
    if qty == 0 || book == [] || !Within(bd, book[0].price) {
      MatchNothing(bd, qty, book);
    } else {
      var t: nat := Min(qty, book[0].remainingQty);
      var r := Match(bd, qty - t, book[1..]);
      MatchUnfold(bd, qty, book);
      MatchQtyOf(bd, qty - t, book[1..], id);
      QtyOfConcat(Keep(Residue(book[0], t)), r.book, id);
      QtyOfKeep(Residue(book[0], t), id);
      assert ([Hit(book[0], t)] + r.hits)[1..] == r.hits;
    }
  }

  /** With distinct ids, what is taken under the id of a position is taken from that position. */
  lemma {:induction false} TakenUnder(book: seq<Order>, hits: seq<Hit>, k: nat)
    requires DistinctIds(book) && k < |book| && |hits| <= |book|
    requires forall i :: 0 <= i < |hits| ==> hits[i].resting == book[i]
    ensures HitQtyOf(hits, book[k].orderId) == TakenAt(hits, k)
  {
    if hits == [] {
    } else if k == 0 {
      NotTaken(book[1..], hits[1..], book[0].orderId);
    } else {
      assert book[k] == book[1..][k - 1];
      assert book[1..][k - 1] in book[1..];
      TakenUnder(book[1..], hits[1..], k - 1);
    }
  }

  lemma {:induction false} NotTaken(book: seq<Order>, hits: seq<Hit>, id: nat)
    requires id !in Ids(book) && |hits| <= |book|
    requires forall i :: 0 <= i < |hits| ==> hits[i].resting == book[i]
    ensures HitQtyOf(hits, id) == 0
  {
    if hits == [] {
    } else {
      assert book[0] in book;
      assert Ids(book[1..]) <= Ids(book);
      NotTaken(book[1..], hits[1..], id);
    }
  }

  /** So a sweep takes its allocation from under the id of every position. */
  lemma {:induction false} MatchTakes(side: Side, bd: Bound, qty: nat, book: seq<Order>, k: nat)
    requires InPriority(side, book) && DistinctIds(book) && Faces(bd, side) && k < |book|
    ensures HitQtyOf(Match(bd, qty, book).hits, book[k].orderId) == Allocation(bd, qty, book, k)
  {
    hide Match, InPriority, DistinctIds, Allocation;
    var hits := Match(bd, qty, book).hits;
    MatchRest(bd, qty, book);
    forall i | 0 <= i < |hits| ensures hits[i].resting == book[i] { MatchHit(bd, qty, book, i); }
    TakenUnder(book, hits, k);
    MatchAllocates(side, bd, qty, book, k);
  }

  // ----- What a sweep keeps -----------------------------------------------------------

  /** `o` is `o'`, at most partly filled since. */
  ghost predicate Later(o: Order, o': Order) {
    o == o'.(remainingQty := o.remainingQty) && o.remainingQty <= o'.remainingQty
  }

  /** Every order of `small` is an order of `big`, at most partly filled since. */
  ghost predicate Residues(small: seq<Order>, big: seq<Order>) {
    forall o :: o in small ==> exists o' :: o' in big && Later(o, o')
  }

  lemma {:induction false} ResidueIds(small: seq<Order>, big: seq<Order>)
    requires Residues(small, big)
    ensures Ids(small) <= Ids(big)
  {
    forall id | id in Ids(small) ensures id in Ids(big) {
      var o :| o in small && o.orderId == id;
      var o' :| o' in big && Later(o, o');
      assert o'.orderId == id;
    }
  }

  lemma {:induction false} MatchResidues(bd: Bound, qty: nat, book: seq<Order>)
    ensures Residues(Match(bd, qty, book).book, book)
  {
    var m := Match(bd, qty, book);
    MatchRest(bd, qty, book);
    var n := |m.hits|;
    if n > 0 { MatchHit(bd, qty, book, n - 1); }
    forall o | o in m.book ensures exists o' :: o' in book && Later(o, o') {
      if o in book[n..] {
        assert o in book && Later(o, o);
      } else {
        assert Later(o, book[n - 1]);
      }
    }
  }

  lemma {:induction false} MatchInPriority(side: Side, bd: Bound, qty: nat, book: seq<Order>)
    requires InPriority(side, book) && DistinctIds(book)
    ensures InPriority(side, Match(bd, qty, book).book) && DistinctIds(Match(bd, qty, book).book)
  {
    hide Match;
    if qty == 0 || book == [] || !Within(bd, book[0].price) {
      MatchNothing(bd, qty, book);
    } else {
      MatchFirst(bd, qty, book);
      if book[0].remainingQty <= qty {
        MatchInPriority(side, bd, qty - book[0].remainingQty, book[1..]);
      } else {
        ResizeHead(side, book, book[0].remainingQty - qty);
      }
    }
  }

  lemma {:induction false} ResizeHead(side: Side, book: seq<Order>, rem: nat)
    requires book != [] && InPriority(side, book) && DistinctIds(book)
    ensures var b := [book[0].(remainingQty := rem)] + book[1..]; InPriority(side, b) && DistinctIds(b)
  {
    var b := [book[0].(remainingQty := rem)] + book[1..];
    assert b[1..] == book[1..];
  }

  /** A sweep that leaves quantity leaves no acceptable order behind. */
  lemma {:induction false} SweptClean(side: Side, bd: Bound, qty: nat, book: seq<Order>)
    requires InPriority(side, book) && DistinctIds(book) && Faces(bd, side)
    requires Match(bd, qty, book).left > 0
    ensures forall o :: o in Match(bd, qty, book).book ==> !Within(bd, o.price)
  {
    var b := Match(bd, qty, book).book;
    MatchStops(bd, qty, book);
    MatchInPriority(side, bd, qty, book);
    if b != [] { BeyondBound(side, bd, b); }
  }

  lemma {:induction false} MatchQty(bd: Bound, qty: nat, book: seq<Order>)
    ensures Qty(Match(bd, qty, book).book) + HitQty(Match(bd, qty, book).hits) == Qty(book)
  {
    if qty == 0 || book == [] || !Within(bd, book[0].price) {
    } else {
      var t: nat := Min(qty, book[0].remainingQty);
      var r := Match(bd, qty - t, book[1..]);
      MatchQty(bd, qty - t, book[1..]);
      QtyConcat(Keep(Residue(book[0], t)), r.book);
      assert ([Hit(book[0], t)] + r.hits)[1..] == r.hits;
    }
  }

  // ----- Insertion and removal ---------------------------------------------------------

  /** Queue `o` behind every order at its price or better. */
  function Insert(side: Side, book: seq<Order>, o: Order): seq<Order> {
    if book == [] || Better(side, o.price, book[0].price) then [o] + book
    else [book[0]] + Insert(side, book[1..], o)
  }

  lemma {:induction false} InsertMembers(side: Side, book: seq<Order>, o: Order)
    ensures multiset(Insert(side, book, o)) == multiset(book) + multiset{o}
    ensures forall x :: x in Insert(side, book, o) <==> x == o || x in book
    ensures Ids(Insert(side, book, o)) == Ids(book) + {o.orderId}
    ensures Qty(Insert(side, book, o)) == Qty(book) + o.remainingQty
  {
    if book == [] || Better(side, o.price, book[0].price) {
      assert ([o] + book)[1..] == book;
    } else {
      var r := Insert(side, book[1..], o);
      InsertMembers(side, book[1..], o);
      assert ([book[0]] + r)[1..] == r;
      assert book == [book[0]] + book[1..];
    }
  }

  lemma {:induction false} InsertInPriority(side: Side, book: seq<Order>, o: Order)
    requires InPriority(side, book) && DistinctIds(book)
    requires forall x :: x in book ==> x.orderId < o.orderId
    ensures InPriority(side, Insert(side, book, o)) && DistinctIds(Insert(side, book, o))
  {
    if book == [] {
    } else if Better(side, o.price, book[0].price) {
      assert ([o] + book)[1..] == book;
      forall x | x in book ensures Ahead(side, o, x) {
        assert x == book[0] || x in book[1..];
      }
    } else {
      var r := Insert(side, book[1..], o);
      InsertInPriority(side, book[1..], o);
      InsertMembers(side, book[1..], o);
      assert ([book[0]] + r)[1..] == r;
      assert book[0] in book;
    }
  }

  /** Position of the order with the given id, or the length of the book. */
  function IndexOfId(book: seq<Order>, id: nat): (i: nat)
    ensures i <= |book|
    ensures i < |book| ==> book[i].orderId == id
    ensures forall k :: 0 <= k < i ==> book[k].orderId != id
  {
    if book == [] then 0
    else if book[0].orderId == id then 0
    else 1 + IndexOfId(book[1..], id)
  }

  /** The book without the first order that has the given id. */
  function RemoveId(book: seq<Order>, id: nat): seq<Order> {
    if book == [] then []
    else if book[0].orderId == id then book[1..]
    else [book[0]] + RemoveId(book[1..], id)
  }

  lemma {:induction false} RemoveIdMembers(book: seq<Order>, id: nat)
    requires DistinctIds(book)
    ensures forall o :: o in RemoveId(book, id) <==> o in book && o.orderId != id
    ensures Ids(RemoveId(book, id)) == Ids(book) - {id}
  {
    if book == [] {
    } else {
      RemoveIdMembers(book[1..], id);
      assert forall o :: o in book <==> o == book[0] || o in book[1..];
    }
  }

  lemma {:induction false} RemoveIdInPriority(side: Side, book: seq<Order>, id: nat)
    requires InPriority(side, book) && DistinctIds(book)
    ensures InPriority(side, RemoveId(book, id)) && DistinctIds(RemoveId(book, id))
  {
    if book == [] || book[0].orderId == id {
    } else {
      var r := RemoveId(book[1..], id);
      RemoveIdInPriority(side, book[1..], id);
      RemoveIdMembers(book[1..], id);
      assert ([book[0]] + r)[1..] == r;
    }
  }

  /** Removing an order takes away its own quantity and nothing else. */
  lemma {:induction false} RemoveIdQty(book: seq<Order>, id: nat)
    ensures var i := IndexOfId(book, id);
            Qty(RemoveId(book, id)) + (if i < |book| then book[i].remainingQty else 0) == Qty(book)
    ensures var i := IndexOfId(book, id);
            RemoveId(book, id) == if i < |book| then book[..i] + book[i + 1..] else book
  {
    if book == [] || book[0].orderId == id {
    } else {
      RemoveIdQty(book[1..], id);
      assert ([book[0]] + RemoveId(book[1..], id))[1..] == RemoveId(book[1..], id);
    }
  }

  lemma {:induction false} IdPresent(book: seq<Order>, id: nat)
    ensures id in Ids(book) <==> IndexOfId(book, id) < |book|
  {
    var i := IndexOfId(book, id);
    if i < |book| { assert book[i] in book; }
  }
}
