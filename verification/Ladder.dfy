/** One side of the levelled book: a price-ordered map from prices to queues of orders (the
    `std::map` of `src/common/Book.hpp`), kept as its list of entries in map order.

    `Flatten` reads a ladder as one sequence of orders. The lemmas say what the map operations of
    the source do to that sequence: appending to the queue under a key, replacing or erasing an
    order at the front or anywhere, erasing an empty level, and summing up the best levels. */
module Ladder {
  import opened Types
  import opened PriceTime

  datatype Level = Level(price: int, orders: seq<Order>)

  function Flatten(levels: seq<Level>): seq<Order> {
    if levels == [] then [] else levels[0].orders + Flatten(levels[1..])
  }

  lemma {:induction false} FlattenNone()
    ensures Flatten([]) == []
  {
  }

  /** Keys in strict map order: best price first. */
  ghost predicate Sorted(side: Side, levels: seq<Level>) {
    levels == [] ||
    ((forall l :: l in levels[1..] ==> Better(side, levels[0].price, l.price)) && Sorted(side, levels[1..]))
  }

  /** Every order is queued under its own price. */
  ghost predicate Keyed(levels: seq<Level>) {
    forall l, o :: l in levels && o in l.orders ==> o.price == l.price
  }

  ghost predicate NoneEmpty(levels: seq<Level>) {
    forall l :: l in levels ==> l.orders != []
  }

  predicate HasKey(levels: seq<Level>, p: int) {
    exists l :: l in levels && l.price == p
  }

  /** Position of a key, or the number of levels (`std::map::find`). */
  function Find(levels: seq<Level>, price: int): (i: nat)
    ensures i <= |levels|
    ensures i < |levels| ==> levels[i].price == price
    ensures forall k :: 0 <= k < i ==> levels[k].price != price
  {
    if levels == [] then 0 else if levels[0].price == price then 0 else 1 + Find(levels[1..], price)
  }

  /** `levels[price].push_back(o)`, creating the level when the key is new. */
  function PushBack(side: Side, levels: seq<Level>, o: Order): seq<Level> {
    if levels == [] || Better(side, o.price, levels[0].price) then [Level(o.price, [o])] + levels
    else if levels[0].price == o.price then [Level(o.price, levels[0].orders + [o])] + levels[1..]
    else [levels[0]] + PushBack(side, levels[1..], o)
  }

  lemma {:induction false} PushBackPrices(side: Side, levels: seq<Level>, o: Order)
    ensures forall l :: l in PushBack(side, levels, o) ==>
        l.price == o.price || exists l' :: l' in levels && l'.price == l.price
  {
    if levels == [] || Better(side, o.price, levels[0].price) || levels[0].price == o.price {
    } else {
      PushBackPrices(side, levels[1..], o);
    }
  }

  /** A proper level in front of proper levels with worse keys. */
  lemma {:induction false} LevelInFront(side: Side, l: Level, rest: seq<Level>)
    requires Sorted(side, rest) && Keyed(rest) && NoneEmpty(rest)
    requires forall x :: x in rest ==> Better(side, l.price, x.price)
    requires l.orders != [] && forall o :: o in l.orders ==> o.price == l.price
    ensures var ls := [l] + rest; Sorted(side, ls) && Keyed(ls) && NoneEmpty(ls)
  {
    assert ([l] + rest)[1..] == rest;
  }

  lemma {:induction false} PushBackSorted(side: Side, levels: seq<Level>, o: Order)
    requires Sorted(side, levels) && Keyed(levels) && NoneEmpty(levels)
    ensures var ls := PushBack(side, levels, o); Sorted(side, ls) && Keyed(ls) && NoneEmpty(ls)
  {
    if levels == [] {
      LevelInFront(side, Level(o.price, [o]), []);
    } else if Better(side, o.price, levels[0].price) {
      assert forall l :: l in levels ==> l == levels[0] || l in levels[1..];
      LevelInFront(side, Level(o.price, [o]), levels);
    } else if levels[0].price == o.price {
      assert levels[0] in levels;
      LevelInFront(side, Level(o.price, levels[0].orders + [o]), levels[1..]);
    } else {
      PushBackSorted(side, levels[1..], o);
      PushBackPrices(side, levels[1..], o);
      assert levels[0] in levels;
      LevelInFront(side, levels[0], PushBack(side, levels[1..], o));
    }
  }

  lemma {:induction false} FlattenMembers(levels: seq<Level>)
    ensures forall o :: o in Flatten(levels) <==> exists l :: l in levels && o in l.orders
  {
    if levels == [] {
    } else {
      FlattenMembers(levels[1..]);
      assert forall l :: l in levels <==> l == levels[0] || l in levels[1..];
    }
  }

  lemma {:induction false} FlattenConcat(a: seq<Level>, b: seq<Level>)
    ensures Flatten(a + b) == Flatten(a) + Flatten(b)
  {
    if a == [] {
      assert a + b == b;
    } else {
      assert (a + b)[1..] == a[1..] + b;
      FlattenConcat(a[1..], b);
    }
  }

  /** Insertion behind equal-or-better prices, past a run of such prices. */
  lemma {:induction false} InsertPast(side: Side, run: seq<Order>, rest: seq<Order>, o: Order)
    requires forall x :: x in run ==> !Better(side, o.price, x.price)
    ensures Insert(side, run + rest, o) == run + Insert(side, rest, o)
  {
    if run == [] {
      assert run + rest == rest;
      assert run + Insert(side, rest, o) == Insert(side, rest, o);
    } else {
      assert (run + rest)[1..] == run[1..] + rest;
      InsertPast(side, run[1..], rest, o);
      assert run + Insert(side, rest, o) == [run[0]] + (run[1..] + Insert(side, rest, o));
    }
  }

  /** Queueing at the back of the price level is insertion in price-time order. */
  lemma {:induction false} PushBackInserts(side: Side, levels: seq<Level>, o: Order)
    requires Sorted(side, levels) && Keyed(levels) && NoneEmpty(levels)
    ensures Flatten(PushBack(side, levels, o)) == Insert(side, Flatten(levels), o)
  {
    if levels == [] {
      assert Flatten([Level(o.price, [o])]) == [o] + Flatten([]);
    } else {
      var hd, tl := levels[0], levels[1..];
      assert hd in levels;
      if Better(side, o.price, hd.price) {
        assert ([Level(o.price, [o])] + levels)[1..] == levels;
        assert hd.orders[0] in hd.orders;
        assert Flatten(levels)[0] == hd.orders[0];
      } else {
        InsertPast(side, hd.orders, Flatten(tl), o);
        if hd.price == o.price {
          assert ([Level(o.price, hd.orders + [o])] + tl)[1..] == tl;
          FlattenFront(side, tl, o);
        } else {
          assert ([hd] + PushBack(side, tl, o))[1..] == PushBack(side, tl, o);
          PushBackInserts(side, tl, o);
        }
      }
    }
  }

  /** An order better than every level goes to the very front. */
  lemma {:induction false} FlattenFront(side: Side, levels: seq<Level>, o: Order)
    requires Keyed(levels)
    requires forall l :: l in levels ==> Better(side, o.price, l.price)
    ensures Insert(side, Flatten(levels), o) == [o] + Flatten(levels)
  {
    FlattenMembers(levels);
    if Flatten(levels) != [] { assert Flatten(levels)[0] in Flatten(levels); }
  }

  // ----- Working on the front of a side -----------------------------------------------------

  /** The levels with the first order of the best level replaced (or dropped). */
  function ReplaceFront(levels: seq<Level>, front: seq<Order>): seq<Level>
    requires levels != [] && levels[0].orders != []
  {
    [Level(levels[0].price, front + levels[0].orders[1..])] + levels[1..]
  }

  lemma {:induction false} FrontFlat(levels: seq<Level>)
    requires levels != [] && levels[0].orders != []
    ensures Flatten(levels) != [] && Flatten(levels)[0] == levels[0].orders[0]
    ensures Flatten(levels)[1..] == levels[0].orders[1..] + Flatten(levels[1..])
  {
  }

  lemma {:induction false} ReplaceFrontKeeps(side: Side, levels: seq<Level>, front: seq<Order>)
    requires levels != [] && levels[0].orders != []
    requires Sorted(side, levels) && Keyed(levels)
    requires forall o :: o in front ==> o.price == levels[0].price
    ensures var ls := ReplaceFront(levels, front);
            Sorted(side, ls) && Keyed(ls) && Flatten(ls) == front + Flatten(levels)[1..] && ls[1..] == levels[1..]
  {
    var ls := ReplaceFront(levels, front);
    assert ls[1..] == levels[1..];
    assert levels[0] in levels;
    forall l, o | l in ls && o in l.orders ensures o.price == l.price {
      if l in levels[1..] {
        assert l in levels;
      } else {
        assert o in front || o in levels[0].orders;
      }
    }
    FrontFlat(levels);
  }

  lemma {:induction false} DropFront(side: Side, levels: seq<Level>)
    requires levels != [] && levels[0].orders == []
    ensures Flatten(levels[1..]) == Flatten(levels)
    ensures Sorted(side, levels) ==> Sorted(side, levels[1..])
    ensures Keyed(levels) ==> Keyed(levels[1..])
  {
    assert [] + Flatten(levels[1..]) == Flatten(levels[1..]);
  }

  lemma {:induction false} NoneEmptyFlat(levels: seq<Level>)
    requires NoneEmpty(levels)
    ensures Flatten(levels) == [] <==> levels == []
  {
    if levels != [] { assert levels[0] in levels; }
  }

  // ----- Working in the middle of a side ------------------------------------------------------

  /** The flat book with the order at position `n` replaced by `repl`. */
  function ReplaceAt(book: seq<Order>, n: nat, repl: seq<Order>): seq<Order>
    requires n < |book|
  {
    book[..n] + repl + book[n + 1..]
  }

  /** The levels with order `j` of level `i` replaced by `repl`. */
  function SetAt(levels: seq<Level>, i: nat, j: nat, repl: seq<Order>): seq<Level>
    requires i < |levels| && j < |levels[i].orders|
  {
    levels[i := levels[i].(orders := ReplaceAt(levels[i].orders, j, repl))]
  }

  /** Flat position of slot `j` of level `i`. */
  ghost function Pos(levels: seq<Level>, i: nat, j: nat): nat
    requires i <= |levels|
  {
    |Flatten(levels[..i])| + j
  }

  lemma {:induction false} FlattenSplit(levels: seq<Level>, i: nat)
    requires i < |levels|
    ensures Flatten(levels) == Flatten(levels[..i]) + (levels[i].orders + Flatten(levels[i + 1..]))
  {
    assert levels == levels[..i] + levels[i..];
    FlattenConcat(levels[..i], levels[i..]);
    assert levels[i..][1..] == levels[i + 1..];
  }

  lemma {:induction false} SetAtFlat(levels: seq<Level>, i: nat, j: nat, repl: seq<Order>)
    requires i < |levels| && j < |levels[i].orders|
    ensures Pos(levels, i, j) < |Flatten(levels)| && Flatten(levels)[Pos(levels, i, j)] == levels[i].orders[j]
    ensures Flatten(SetAt(levels, i, j, repl)) == ReplaceAt(Flatten(levels), Pos(levels, i, j), repl)
    ensures SetAt(levels, i, j, repl)[..i] == levels[..i]
    ensures SetAt(levels, i, j, repl)[i + 1..] == levels[i + 1..]
  {
    var ls := SetAt(levels, i, j, repl);
    FlattenSplit(levels, i);
    FlattenSplit(ls, i);
    assert ls[..i] == levels[..i] && ls[i + 1..] == levels[i + 1..];
    MidReplace(Flatten(levels[..i]), levels[i].orders, Flatten(levels[i + 1..]), j, repl);
  }

  lemma {:induction false} MidReplace(a: seq<Order>, o: seq<Order>, b: seq<Order>, j: nat, repl: seq<Order>)
    requires j < |o|
    ensures |a| + j < |a + (o + b)| && (a + (o + b))[|a| + j] == o[j]
    ensures ReplaceAt(a + (o + b), |a| + j, repl) == a + (ReplaceAt(o, j, repl) + b)
  {
    assert (a + (o + b))[..|a| + j] == a + o[..j];
    assert (a + (o + b))[|a| + j + 1..] == o[j + 1..] + b;
    assert a + o[..j] + repl + (o[j + 1..] + b) == a + (o[..j] + repl + o[j + 1..] + b);
  }

  lemma {:induction false} SetAtSorted(side: Side, levels: seq<Level>, i: nat, l: Level)
    requires i < |levels| && l.price == levels[i].price
    requires Sorted(side, levels)
    ensures Sorted(side, levels[i := l])
  {
    if i == 0 {
      assert levels[i := l][1..] == levels[1..];
    } else {
      SetAtSorted(side, levels[1..], i - 1, l);
      assert levels[i := l][1..] == levels[1..][i - 1 := l];
      assert levels[i] == levels[1..][i - 1];
    }
  }

  lemma {:induction false} SetAtKeyed(levels: seq<Level>, i: nat, j: nat, repl: seq<Order>)
    requires i < |levels| && j < |levels[i].orders|
    requires Keyed(levels) && forall o :: o in repl ==> o.price == levels[i].price
    ensures Keyed(SetAt(levels, i, j, repl))
  {
    var ls := SetAt(levels, i, j, repl);
    assert levels[i] in levels;
    forall l, o | l in ls && o in l.orders ensures o.price == l.price {
      if l in levels {
      } else {
        assert l == ls[i];
        assert o in repl || o in levels[i].orders;
      }
    }
  }

  /** Erasing an empty level. */
  lemma {:induction false} EraseLevel(side: Side, levels: seq<Level>, i: nat)
    requires i < |levels| && levels[i].orders == []
    requires Sorted(side, levels) && Keyed(levels)
    ensures var ls := levels[..i] + levels[i + 1..];
            Sorted(side, ls) && Keyed(ls) && Flatten(ls) == Flatten(levels)
  {
    if i == 0 {
      assert levels[..0] + levels[1..] == levels[1..];
      DropFront(side, levels);
    } else {
      var tl := levels[1..];
      EraseLevel(side, tl, i - 1);
      var ls := levels[..i] + levels[i + 1..];
      assert ls[1..] == tl[..i - 1] + tl[i..];
    }
  }

  /** Levels beyond the given one are worse. */
  lemma {:induction false} SortedAt(side: Side, levels: seq<Level>, i: nat, j: nat)
    requires Sorted(side, levels) && i < j < |levels|
    ensures Better(side, levels[i].price, levels[j].price)
  {
    if i == 0 {
      assert levels[j] == levels[1..][j - 1];
    } else {
      SortedAt(side, levels[1..], i - 1, j - 1);
    }
  }

  /** Resizing or dropping an order in the middle keeps a side in order. */
  lemma {:induction false} ReplaceAtInPriority(side: Side, book: seq<Order>, n: nat, rem: nat)
    requires n < |book| && InPriority(side, book) && DistinctIds(book)
    ensures var b := ReplaceAt(book, n, Keep(book[n].(remainingQty := rem)));
            InPriority(side, b) && DistinctIds(b)
  {
    var k := Keep(book[n].(remainingQty := rem));
    var b := ReplaceAt(book, n, k);
    if n == 0 {
      assert b == k + book[1..];
      if rem == 0 { assert b == book[1..]; } else { ResizeHead(side, book, rem); }
    } else {
      var tl := book[1..];
      ReplaceAtInPriority(side, tl, n - 1, rem);
      assert b == [book[0]] + ReplaceAt(tl, n - 1, k);
      assert b[1..] == ReplaceAt(tl, n - 1, k);
      ReplacedBehind(side, book, n, rem);
    }
  }

  lemma {:induction false} ReplacedBehind(side: Side, book: seq<Order>, n: nat, rem: nat)
    requires 0 < n < |book| && InPriority(side, book) && DistinctIds(book)
    ensures forall o :: o in ReplaceAt(book[1..], n - 1, Keep(book[n].(remainingQty := rem))) ==>
              Ahead(side, book[0], o) && o.orderId != book[0].orderId
  {
    var tl := book[1..];
    var k := Keep(book[n].(remainingQty := rem));
    assert tl[n - 1] == book[n] && book[n] in tl && book[n].orderId in Ids(tl);
    forall o | o in ReplaceAt(tl, n - 1, k) ensures Ahead(side, book[0], o) && o.orderId != book[0].orderId {
      if o in tl { assert o.orderId in Ids(tl); } else { assert o in k; }
    }
  }

  lemma {:induction false} ReplaceAtResidues(book: seq<Order>, n: nat, rem: nat)
    requires n < |book| && rem <= book[n].remainingQty
    ensures var b := ReplaceAt(book, n, Keep(book[n].(remainingQty := rem)));
            Residues(b, book) && Ids(b) == if rem == 0 then Ids(book[..n] + book[n + 1..]) else Ids(book)
  {
    var x := book[n].(remainingQty := rem);
    var b := ReplaceAt(book, n, Keep(x));
    assert Later(x, book[n]);
    assert forall o :: o in book ==> Later(o, o);
    assert forall o :: o in b ==> o == x || o in book;
    if rem == 0 {
      assert b == book[..n] + book[n + 1..];
    } else {
      assert forall o :: o in book ==> o == book[n] || o in book[..n] || o in book[n + 1..];
      assert b[n] == x;
      assert x in b;
    }
  }

  /** Erasing one order can empty its own level only. */
  lemma {:induction false} SetAtTidy(levels: seq<Level>, i: nat, j: nat)
    requires NoneEmpty(levels) && i < |levels| && j < |levels[i].orders|
    ensures var ls := SetAt(levels, i, j, []);
            && |ls| == |levels|
            && NoneEmpty(ls[..i] + ls[i + 1..])
            && (ls[i].orders != [] ==> NoneEmpty(ls))
  {
    var ls := SetAt(levels, i, j, []);
    assert ls[..i] == levels[..i] && ls[i + 1..] == levels[i + 1..];
    assert forall l :: l in ls ==> l == ls[i] || l in levels;
  }

  lemma {:induction false} SetAtSlot(levels: seq<Level>, i: nat, j: nat, left: nat)
    requires i < |levels| && j < |levels[i].orders|
    ensures var repl := Keep(levels[i].orders[j].(remainingQty := left));
            var ls := SetAt(levels, i, j, repl);
            && |ls| == |levels| && ls[i].price == levels[i].price
            && |ls[i].orders| == |levels[i].orders| - 1 + |repl|
            && ls[..i] + ls[i + 1..] == levels[..i] + levels[i + 1..]
            && Pos(ls, i, j) == Pos(levels, i, j)
  {
    var ls := SetAt(levels, i, j, Keep(levels[i].orders[j].(remainingQty := left)));
    assert ls[..i] == levels[..i] && ls[i + 1..] == levels[i + 1..];
  }

  lemma {:induction false} PosNext(levels: seq<Level>, i: nat)
    requires i < |levels|
    ensures Pos(levels, i + 1, 0) == Pos(levels, i, |levels[i].orders|)
  {
    assert levels[..i + 1] == levels[..i] + [levels[i]];
    FlattenConcat(levels[..i], [levels[i]]);
  }

  lemma {:induction false} PosErase(levels: seq<Level>, i: nat)
    requires i < |levels|
    ensures Pos(levels[..i] + levels[i + 1..], i, 0) == Pos(levels, i, 0)
  {
    assert (levels[..i] + levels[i + 1..])[..i] == levels[..i];
  }

  lemma {:induction false} PosEnd(levels: seq<Level>)
    ensures Pos(levels, |levels|, 0) == |Flatten(levels)|
  {
    assert levels[..|levels|] == levels;
  }

  // ----- Published depth ---------------------------------------------------------------------------

  datatype LevelInfo = LevelInfo(price: int, totalQty: nat, orderCount: nat)

  function Summaries(levels: seq<Level>): seq<LevelInfo> {
    if levels == [] then []
    else [LevelInfo(levels[0].price, Qty(levels[0].orders) % TWO64, |levels[0].orders|)] + Summaries(levels[1..])
  }

  /** The first `depth` levels, or all there are. */
  function Top(levels: seq<Level>, depth: nat): seq<LevelInfo> {
    Summaries(levels[..Min(depth, |levels|)])
  }

  lemma {:induction false} SummariesNone()
    ensures Summaries([]) == []
  {
  }

  lemma {:induction false} SummariesSnoc(levels: seq<Level>, i: nat)
    requires i < |levels|
    ensures Summaries(levels[..i + 1])
         == Summaries(levels[..i]) + [LevelInfo(levels[i].price, Qty(levels[i].orders) % TWO64, |levels[i].orders|)]
  {
    if i == 0 {
      assert levels[..1] == [levels[0]] && levels[..0] == [];
    } else {
      SummariesSnoc(levels[1..], i - 1);
      assert levels[..i + 1][1..] == levels[1..][..i];
      assert levels[..i][1..] == levels[1..][..i - 1];
    }
  }

  /** The depth of a flat side: per price, best first, the total quantity (a 64-bit sum) and
      number of orders resting there. */
  function Depth(book: seq<Order>, depth: nat): seq<LevelInfo>
    decreases depth
  {
    if depth == 0 || book == [] then []
    else
      var n := RunLength(book, book[0].price);
      [LevelInfo(book[0].price, Qty(book[..n]) % TWO64, n)] + Depth(book[n..], depth - 1)
  }

  lemma {:induction false} RunOfLevel(run: seq<Order>, rest: seq<Order>, p: int)
    requires forall o :: o in run ==> o.price == p
    requires rest != [] ==> rest[0].price != p
    ensures RunLength(run + rest, p) == |run|
  {
    if run == [] {
      assert run + rest == rest;
    } else {
      assert run[0] in run;
      assert (run + rest)[1..] == run[1..] + rest;
      RunOfLevel(run[1..], rest, p);
    }
  }

  /** The levels of a proper side are the price runs of its flat form. */
  lemma {:induction false} DepthOfLevels(side: Side, levels: seq<Level>, depth: nat)
    requires Sorted(side, levels) && Keyed(levels) && NoneEmpty(levels)
    ensures Summaries(levels[..Min(depth, |levels|)]) == Depth(Flatten(levels), depth)
    decreases depth
  {
    hide Sorted, RunLength;
    NoneEmptyFlat(levels);
    if depth == 0 || levels == [] {
      SummariesNone();
    } else {
      var hd, tl := levels[0], levels[1..];
      FrontRun(side, levels);
      assert Sorted(side, tl) by { SortedTail(side, levels); }
      DepthOfLevels(side, tl, depth - 1);
      var n: nat := Min(depth, |levels|);
      assert levels[..n][1..] == tl[..n - 1] && levels[..n][0] == hd;
    }
  }

  lemma {:induction false} SortedFrom(side: Side, levels: seq<Level>, i: nat)
    requires Sorted(side, levels) && i <= |levels|
    ensures Sorted(side, levels[i..])
  {
    if i == 0 {
      assert levels[0..] == levels;
    } else {
      SortedFrom(side, levels[1..], i - 1);
      assert levels[1..][i - 1..] == levels[i..];
    }
  }

  lemma {:induction false} SortedTail(side: Side, levels: seq<Level>)
    requires Sorted(side, levels) && levels != []
    ensures Sorted(side, levels[1..])
  {
  }

  /** The first level is the first price run. */
  lemma {:induction false} FrontRun(side: Side, levels: seq<Level>)
    requires Sorted(side, levels) && Keyed(levels) && NoneEmpty(levels) && levels != []
    ensures var book, hd := Flatten(levels), levels[0];
            && book != [] && book[0].price == hd.price && RunLength(book, hd.price) == |hd.orders|
            && book[..|hd.orders|] == hd.orders && book[|hd.orders|..] == Flatten(levels[1..])
  {
    hide RunLength;
    var hd, tl := levels[0], levels[1..];
    assert hd in levels && hd.orders[0] in hd.orders;
    if tl != [] {
      assert tl[0] in tl && tl[0].orders[0] in tl[0].orders && tl[0] in levels;
      assert Flatten(tl)[0] == tl[0].orders[0];
    }
    RunOfLevel(hd.orders, Flatten(tl), hd.price);
  }
}
