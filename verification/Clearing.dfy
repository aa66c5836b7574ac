/** The clearing house (src/actors/ClearingHouseActor.cpp): members, their capital and holdings. */
module Clearing {
  // Trades are attributed to members through their sessions. Capital is counted in price ticks
  // times quantity, exactly.

  import opened Types

  const NUM_MEMBERS: nat := 10
  const PRICE_SCALE: int := 100_000_000
  const INITIAL_CAPITAL: int := 100_000 * PRICE_SCALE

  type Holdings = map<nat, int>

  datatype Member = Member(capital: int, tradeCount: nat, distinctSymbols: nat, holdings: Holdings)

  type Members = map<nat, Member>
  type Sessions = map<nat, nat>

  const NEW_MEMBER: Member := Member(INITIAL_CAPITAL, 0, 0, map[])

  ghost predicate Roster(ids: set<nat>) {
    forall id: nat :: id in ids <==> 1 <= id <= NUM_MEMBERS
  }

  /** The members are the ten of the start, and the number of symbols each holds is kept right. */
  ghost predicate Sound(members: Members) {
    && Roster(members.Keys)
    && forall id :: id in members ==> members[id].distinctSymbols == |members[id].holdings|
  }

  /** The members as they start. */
  ghost predicate NewMembers(members: Members) {
    Roster(members.Keys) && forall id :: id in members ==> members[id] == NEW_MEMBER
  }

  /** A holding that is missing counts as zero. */
  function Position(m: Member, symbol: nat): int {
    if symbol in m.holdings then m.holdings[symbol] else 0
  }

  // ----- What a trade means ------------------------------------------------------------------------

  /** One side of a trade, as it concerns one member. */
  datatype Leg = Leg(member: nat, symbol: nat, buy: bool, quantity: nat, price: int)

  function Signed(leg: Leg): int { if leg.buy then leg.quantity else -(leg.quantity as int) }

  function Cost(leg: Leg): int { leg.price * Signed(leg) }

  /** A position sold to exactly zero disappears; one bought back to zero stays. */
  function Adjust(h: Holdings, leg: Leg): Holdings {
    if leg.symbol !in h then h[leg.symbol := Signed(leg)]
    else if !leg.buy && h[leg.symbol] == leg.quantity then h - {leg.symbol}
    else h[leg.symbol := h[leg.symbol] + Signed(leg)]
  }

  function Post(m: Member, leg: Leg): Member {
    var h := Adjust(m.holdings, leg);
    Member(m.capital - Cost(leg), m.tradeCount + 1, |h|, h)
  }

  /** A leg of a member that does not exist is passed over. */
  function PostOne(members: Members, leg: Leg): Members {
    if leg.member in members then members[leg.member := Post(members[leg.member], leg)] else members
  }

  function PostAll(members: Members, legs: seq<Leg>): Members
    decreases legs
  {
    if legs == [] then members else PostAll(PostOne(members, legs[0]), legs[1..])
  }

  function LegOf(sessions: Sessions, session: nat, t: Trade, buy: bool): seq<Leg> {
    if session in sessions then [Leg(sessions[session], t.symbolIdx, buy, t.quantity, t.price)] else []
  }

  /** The purchase, then the sale, of those sides whose session is mapped. */
  function Legs(sessions: Sessions, t: Trade): seq<Leg> {
    LegOf(sessions, t.buySessionId, t, true) + LegOf(sessions, t.sellSessionId, t, false)
  }

  lemma {:induction false} PostAllConcat(members: Members, a: seq<Leg>, b: seq<Leg>)
    ensures PostAll(members, a + b) == PostAll(PostAll(members, a), b)
    decreases a
  {
    hide PostOne;
    if a == [] {
      assert a + b == b;
    } else {
      assert (a + b)[0] == a[0] && (a + b)[1..] == a[1..] + b;
      PostAllConcat(PostOne(members, a[0]), a[1..], b);
    }
  }

  lemma {:induction false} PostAllOne(members: Members, leg: Leg)
    ensures PostAll(members, [leg]) == PostOne(members, leg)
  {
    hide PostOne;
    assert [leg][1..] == [];
  }

  lemma {:induction false} PostOneSound(members: Members, leg: Leg)
    requires Sound(members)
    ensures Sound(PostOne(members, leg))
  {
    assert PostOne(members, leg).Keys == members.Keys;
  }

  // ----- The actor ------------------------------------------------------------------------------------

  class ClearingHouse {
    var sessionToMember: Sessions
    var members: Members

    ghost predicate Valid()
      reads this
    {
      Sound(members)
    }

    constructor ()
      ensures Valid() && sessionToMember == map[]
      ensures NewMembers(members)
      ensures forall id :: id in members <==> 1 <= id <= 10
      ensures forall id :: id in members ==> members[id] == Member(100_000 * 100_000_000, 0, 0, map[])
    {
      var all: Members := map[];
      for i := 0 to NUM_MEMBERS
        invariant forall id: nat :: id in all <==> 1 <= id <= i
        invariant forall id :: id in all ==> all[id] == NEW_MEMBER
      {
        all := all[i + 1 := NEW_MEMBER];
      }
      sessionToMember, members := map[], all;
    }

    method MapSession(session: nat, member: nat)
      modifies this`sessionToMember
      ensures sessionToMember == old(sessionToMember)[session := member]
    {
      sessionToMember := sessionToMember[session := member];
    }

    method OnTrade(t: Trade)
      requires Valid()
      modifies this`members
      ensures Valid()
      ensures members == PostAll(old(members), Legs(sessionToMember, t))
    {
      hide PostAll, Sound;
      ghost var start := members;
      ghost var bought := LegOf(sessionToMember, t.buySessionId, t, true);
      if t.buySessionId in sessionToMember {
        ProcessTradeSide(sessionToMember[t.buySessionId], t.symbolIdx, t.price, t.quantity, true);
      }
      PostAllNone(start);
      assert members == PostAll(start, bought);
      if t.sellSessionId in sessionToMember {
        ProcessTradeSide(sessionToMember[t.sellSessionId], t.symbolIdx, t.price, t.quantity, false);
      }
      PostAllNone(PostAll(start, bought));
      PostAllConcat(start, bought, LegOf(sessionToMember, t.sellSessionId, t, false));
    }

    method ProcessTradeSide(memberId: nat, symbol: nat, price: int, qty: nat, isBuy: bool)
      requires Valid()
      modifies this`members
      ensures Valid()
      ensures members == PostAll(old(members), [Leg(memberId, symbol, isBuy, qty, price)])
    {
      hide PostAll, Sound;
      ghost var leg := Leg(memberId, symbol, isBuy, qty, price);
      PostAllOne(members, leg);
      PostOneSound(members, leg);
      if memberId !in members {
        return;
      }
      var m := members[memberId];
      SizeKept(members, leg);
      m := m.(tradeCount := m.tradeCount + 1);
      var cost := price * qty;
      m := m.(capital := if isBuy then m.capital - cost else m.capital + cost);
      if symbol !in m.holdings {
        m := m.(holdings := m.holdings[symbol := if isBuy then qty else -(qty as int)]);
        m := m.(distinctSymbols := |m.holdings|);
      } else if isBuy {
        m := m.(holdings := m.holdings[symbol := m.holdings[symbol] + qty]);
      } else {
        m := m.(holdings := m.holdings[symbol := m.holdings[symbol] - qty]);
        if m.holdings[symbol] == 0 {
          m := m.(holdings := m.holdings - {symbol});
          m := m.(distinctSymbols := |m.holdings|);
        }
      }
      assert Cost(leg) == if isBuy then cost else -cost;
      assert m.holdings == Adjust(members[memberId].holdings, leg);
      members := members[memberId := m];
    }
  }

  lemma {:induction false} PostAllNone(members: Members)
    ensures PostAll(members, []) == members
  {
  }

  /** The count of symbols is right already where an entry is only adjusted. */
  lemma {:induction false} SizeKept(members: Members, leg: Leg)
    requires Sound(members) && leg.member in members
    ensures var m := members[leg.member];
            leg.symbol in m.holdings && (leg.buy || m.holdings[leg.symbol] != leg.quantity) ==>
              m.distinctSymbols == |Adjust(m.holdings, leg)|
  {
    var m := members[leg.member];
    if leg.symbol in m.holdings && (leg.buy || m.holdings[leg.symbol] != leg.quantity) {
      assert Adjust(m.holdings, leg).Keys == m.holdings.Keys;
    }
  }

  // ----- The account of one member, from its own legs ------------------------------------------------

  function Paid(legs: seq<Leg>, member: nat): int {
    if legs == [] then 0
    else (if legs[0].member == member then Cost(legs[0]) else 0) + Paid(legs[1..], member)
  }

  function Bought(legs: seq<Leg>, member: nat, symbol: nat): int {
    if legs == [] then 0
    else (if legs[0].member == member && legs[0].symbol == symbol then Signed(legs[0]) else 0)
         + Bought(legs[1..], member, symbol)
  }

  function LegCount(legs: seq<Leg>, member: nat): nat {
    if legs == [] then 0
    else (if legs[0].member == member then 1 else 0) + LegCount(legs[1..], member)
  }

  lemma {:induction false} PostMoves(m: Member, leg: Leg, symbol: nat)
    ensures Position(Post(m, leg), symbol)
         == Position(m, symbol) + if leg.symbol == symbol then Signed(leg) else 0
  {
  }

  /** Each member's account is the closed form over its own legs, erased holdings counting as zero. */
  lemma {:induction false} AccountIsClosedForm(members: Members, legs: seq<Leg>, id: nat, symbol: nat)
    requires id in members
    ensures id in PostAll(members, legs)
    ensures var m := PostAll(members, legs)[id];
            && m.capital == members[id].capital - Paid(legs, id)
            && m.tradeCount == members[id].tradeCount + LegCount(legs, id)
            && Position(m, symbol) == Position(members[id], symbol) + Bought(legs, id, symbol)
    decreases legs
  {
    if legs == [] {
    } else {
      hide Position;
      var leg := legs[0];
      if leg.member in members {
        PostMoves(members[leg.member], leg, symbol);
        AccountIsClosedForm(members[leg.member := Post(members[leg.member], leg)], legs[1..], id, symbol);
      } else {
        AccountIsClosedForm(members, legs[1..], id, symbol);
      }
    }
  }

  // ----- Conservation --------------------------------------------------------------------------------

  function Sum(xs: seq<int>): int {
    if xs == [] then 0 else xs[0] + Sum(xs[1..])
  }

  lemma {:induction false} SumUpdate(xs: seq<int>, k: nat, x: int)
    requires k < |xs|
    ensures Sum(xs[k := x]) == Sum(xs) - xs[k] + x
  {
    if k == 0 {
      assert xs[k := x][1..] == xs[1..];
    } else {
      assert xs[k := x][1..] == xs[1..][k - 1 := x];
      SumUpdate(xs[1..], k - 1, x);
    }
  }

  /** The members' capital, in the order of their ids. */
  function Capitals(members: Members): seq<int>
    requires Roster(members.Keys)
  {
    seq(NUM_MEMBERS, i requires 0 <= i < NUM_MEMBERS => members[i + 1].capital)
  }

  function Positions(members: Members, symbol: nat): seq<int>
    requires Roster(members.Keys)
  {
    seq(NUM_MEMBERS, i requires 0 <= i < NUM_MEMBERS => Position(members[i + 1], symbol))
  }

  /** What the members as a whole paid, and bought of a symbol. */
  function AllPaid(legs: seq<Leg>): int {
    if legs == [] then 0
    else (if 1 <= legs[0].member <= NUM_MEMBERS then Cost(legs[0]) else 0) + AllPaid(legs[1..])
  }

  function AllBought(legs: seq<Leg>, symbol: nat): int {
    if legs == [] then 0
    else (if 1 <= legs[0].member <= NUM_MEMBERS && legs[0].symbol == symbol then Signed(legs[0]) else 0)
         + AllBought(legs[1..], symbol)
  }

  lemma {:induction false} TotalsMove(members: Members, leg: Leg, symbol: nat)
    requires Roster(members.Keys) && leg.member in members
    ensures var after := members[leg.member := Post(members[leg.member], leg)];
            && Roster(after.Keys)
            && Sum(Capitals(after)) == Sum(Capitals(members)) - Cost(leg)
            && Sum(Positions(after, symbol))
               == Sum(Positions(members, symbol)) + if leg.symbol == symbol then Signed(leg) else 0
  {
    hide Sum, Position, Adjust;
    var m, k := Post(members[leg.member], leg), leg.member - 1;
    var after := members[leg.member := m];
    assert after.Keys == members.Keys;
    assert Capitals(after) == Capitals(members)[k := m.capital];
    assert Positions(after, symbol) == Positions(members, symbol)[k := Position(m, symbol)];
    SumUpdate(Capitals(members), k, m.capital);
    SumUpdate(Positions(members, symbol), k, Position(m, symbol));
    PostMoves(members[leg.member], leg, symbol);
  }

  lemma {:induction false} TotalsAre(members: Members, legs: seq<Leg>, symbol: nat)
    requires Roster(members.Keys)
    ensures var after := PostAll(members, legs);
            && Roster(after.Keys)
            && Sum(Capitals(after)) == Sum(Capitals(members)) - AllPaid(legs)
            && Sum(Positions(after, symbol)) == Sum(Positions(members, symbol)) + AllBought(legs, symbol)
    decreases legs
  {
    if legs == [] {
    } else {
      hide Sum, Capitals, Positions, Post, Cost, Signed;
      var leg := legs[0];
      if leg.member in members {
        TotalsMove(members, leg, symbol);
        TotalsAre(members[leg.member := Post(members[leg.member], leg)], legs[1..], symbol);
      } else {
        TotalsAre(members, legs[1..], symbol);
      }
    }
  }

  /** A session that leads to a member. */
  predicate Known(sessions: Sessions, session: nat) {
    session in sessions && 1 <= sessions[session] <= NUM_MEMBERS
  }

  predicate TwoSided(sessions: Sessions, t: Trade) {
    Known(sessions, t.buySessionId) <==> Known(sessions, t.sellSessionId)
  }

  lemma {:induction false} TradeTotals(sessions: Sessions, t: Trade, symbol: nat)
    ensures var sides := (if Known(sessions, t.buySessionId) then 1 else 0)
                       - (if Known(sessions, t.sellSessionId) then 1 else 0);
            && AllPaid(Legs(sessions, t)) == sides * (t.price * t.quantity)
            && AllBought(Legs(sessions, t), symbol) == if t.symbolIdx == symbol then sides * t.quantity else 0
  {
    var buy, sell := LegOf(sessions, t.buySessionId, t, true), LegOf(sessions, t.sellSessionId, t, false);
    TotalsConcat(buy, sell, symbol);
    if buy != [] { assert buy[1..] == []; }
    if sell != [] { assert sell[1..] == []; }
    assert t.price * -(t.quantity as int) == -(t.price * t.quantity);
  }

  /** A trade keeps the total of capital exactly when both of its sides lead to members, or neither
      does, or nothing is paid; likewise for the positions in its symbol. */
  lemma {:induction false} TradeConservesIff(members: Members, sessions: Sessions, t: Trade)
    requires Roster(members.Keys)
    ensures var after := PostAll(members, Legs(sessions, t));
            && Roster(after.Keys)
            && (Sum(Capitals(after)) == Sum(Capitals(members))
                <==> TwoSided(sessions, t) || t.price == 0 || t.quantity == 0)
            && (Sum(Positions(after, t.symbolIdx)) == Sum(Positions(members, t.symbolIdx))
                <==> TwoSided(sessions, t) || t.quantity == 0)
  {
    hide Sum, Capitals, Positions, PostAll, AllPaid, AllBought, Legs;
    TotalsAre(members, Legs(sessions, t), t.symbolIdx);
    TradeTotals(sessions, t, t.symbolIdx);
    assert t.price * t.quantity == 0 <==> t.price == 0 || t.quantity == 0;
  }

  // ----- Whole runs -------------------------------------------------------------------------------------

  datatype Event = SessionMapped(session: nat, member: nat) | TradeCleared(trade: Trade)

  function SessionsAfter(sessions: Sessions, events: seq<Event>): Sessions
    decreases events
  {
    if events == [] then sessions
    else SessionsAfter(
           if events[0].SessionMapped? then sessions[events[0].session := events[0].member] else sessions,
           events[1..])
  }

  /** All legs of a run, each resolved by the mapping in force when its trade arrived. */
  function RunLegs(sessions: Sessions, events: seq<Event>): seq<Leg>
    decreases events
  {
    if events == [] then []
    else match events[0]
      case SessionMapped(session, member) => RunLegs(sessions[session := member], events[1..])
      case TradeCleared(t) => Legs(sessions, t) + RunLegs(sessions, events[1..])
  }

  /** Every trade of the run has both of its sides known when it arrives, or neither. */
  ghost predicate AllTwoSided(sessions: Sessions, events: seq<Event>)
    decreases events
  {
    if events == [] then true
    else match events[0]
      case SessionMapped(session, member) => AllTwoSided(sessions[session := member], events[1..])
      case TradeCleared(t) => TwoSided(sessions, t) && AllTwoSided(sessions, events[1..])
  }

  lemma {:induction false} TotalsConcat(a: seq<Leg>, b: seq<Leg>, symbol: nat)
    ensures AllPaid(a + b) == AllPaid(a) + AllPaid(b)
    ensures AllBought(a + b, symbol) == AllBought(a, symbol) + AllBought(b, symbol)
  {
    if a == [] {
      assert a + b == b;
    } else {
      hide Cost, Signed;
      assert (a + b)[1..] == a[1..] + b;
      TotalsConcat(a[1..], b, symbol);
    }
  }

  lemma {:induction false} NothingNet(sessions: Sessions, events: seq<Event>, symbol: nat)
    requires AllTwoSided(sessions, events)
    ensures AllPaid(RunLegs(sessions, events)) == 0 && AllBought(RunLegs(sessions, events), symbol) == 0
    decreases events
  {
    if events != [] {
      hide AllPaid, AllBought, Legs;
      match events[0]
      case SessionMapped(session, member) => NothingNet(sessions[session := member], events[1..], symbol);
      case TradeCleared(t) =>
        NothingNet(sessions, events[1..], symbol);
        TradeTotals(sessions, t, symbol);
        TotalsConcat(Legs(sessions, t), RunLegs(sessions, events[1..]), symbol);
    } else {
      assert RunLegs(sessions, events) == [];
    }
  }

  /** Over every run of trades whose sides are both known (possibly to the same member) or both
      unknown, sessions being mapped and remapped in between: the total of capital and, in every
      symbol, the sum of signed positions never change. */
  lemma {:induction false} RunConserves(members: Members, sessions: Sessions, events: seq<Event>, symbol: nat)
    requires Roster(members.Keys) && AllTwoSided(sessions, events)
    ensures var after := PostAll(members, RunLegs(sessions, events));
            && Roster(after.Keys)
            && Sum(Capitals(after)) == Sum(Capitals(members))
            && Sum(Positions(after, symbol)) == Sum(Positions(members, symbol))
  {
    hide Sum, Capitals, Positions, PostAll, RunLegs, AllTwoSided;
    TotalsAre(members, RunLegs(sessions, events), symbol);
    NothingNet(sessions, events, symbol);
  }

  /** A run that breaks it: one session is mapped and buys from one that is not; what it pays goes
      to nobody. */
  lemma {:induction false} UnmappedSellerLosesCapital(members: Members, member: nat, t: Trade)
    requires NewMembers(members) && 1 <= member <= NUM_MEMBERS
    requires t.buySessionId != t.sellSessionId && t.price > 0 && t.quantity > 0
    ensures var events := [SessionMapped(t.buySessionId, member), TradeCleared(t)];
            var after := PostAll(members, RunLegs(map[], events));
            && Roster(after.Keys)
            && Sum(Capitals(members)) == NUM_MEMBERS * INITIAL_CAPITAL
            && Sum(Capitals(after)) == NUM_MEMBERS * INITIAL_CAPITAL - t.price * t.quantity
            && Sum(Capitals(after)) < Sum(Capitals(members))
  {
    hide Sum, Capitals, Positions, PostAll, Legs, AllPaid, AllBought;
    var events, sessions := [SessionMapped(t.buySessionId, member), TradeCleared(t)], map[t.buySessionId := member];
    assert events[1..] == [TradeCleared(t)] && events[1..][1..] == [];
    assert map[][t.buySessionId := member] == sessions;
    assert RunLegs(sessions, events[1..]) == Legs(sessions, t) + RunLegs(sessions, events[1..][1..]);
    assert RunLegs(map[], events) == Legs(sessions, t) + [];
    assert Legs(sessions, t) + [] == Legs(sessions, t);
    StartTotal(members);
    TotalsAre(members, Legs(sessions, t), t.symbolIdx);
    TradeTotals(sessions, t, t.symbolIdx);
    assert t.price * t.quantity > 0;
  }

  /** Member `a` buys from member `b` and later sells the same quantity back: the buyer's holding is erased
      when it is sold to zero, the seller's stays when it is bought back to zero. */
  lemma {:induction false} SoldToZeroErased(members: Members, a: nat, b: nat, first: Trade, back: Trade)
    requires NewMembers(members) && 1 <= a <= NUM_MEMBERS && 1 <= b <= NUM_MEMBERS && a != b
    requires first.quantity == back.quantity > 0 && first.symbolIdx == back.symbolIdx
    requires first.buySessionId != first.sellSessionId
    requires back.buySessionId == first.sellSessionId && back.sellSessionId == first.buySessionId
    ensures var events := [SessionMapped(first.buySessionId, a), SessionMapped(first.sellSessionId, b),
                           TradeCleared(first), TradeCleared(back)];
            var after := PostAll(members, RunLegs(map[], events));
            var gain := (back.price - first.price) * first.quantity;
            && a in after && b in after
            && after[a] == Member(INITIAL_CAPITAL + gain, 2, 0, map[])
            && after[b] == Member(INITIAL_CAPITAL - gain, 2, 1, map[first.symbolIdx := 0])
  {
    hide PostAll, RunLegs, Post;
    var sessions := map[first.buySessionId := a, first.sellSessionId := b];
    var q, sym := first.quantity, first.symbolIdx;
    var l1, l2 := Leg(a, sym, true, q, first.price), Leg(b, sym, false, q, first.price);
    var l3, l4 := Leg(b, sym, true, q, back.price), Leg(a, sym, false, q, back.price);
    FourLegs(a, b, first, back);
    FourPosted(members, l1, l2, l3, l4);
    BoughtAndSold(q, sym, first.price, back.price, a, b);
  }

  lemma {:induction false} FourLegs(a: nat, b: nat, first: Trade, back: Trade)
    requires first.buySessionId != first.sellSessionId
    requires back.buySessionId == first.sellSessionId && back.sellSessionId == first.buySessionId
    ensures var events := [SessionMapped(first.buySessionId, a), SessionMapped(first.sellSessionId, b),
                           TradeCleared(first), TradeCleared(back)];
            RunLegs(map[], events)
            == [Leg(a, first.symbolIdx, true, first.quantity, first.price),
                Leg(b, first.symbolIdx, false, first.quantity, first.price),
                Leg(b, back.symbolIdx, true, back.quantity, back.price),
                Leg(a, back.symbolIdx, false, back.quantity, back.price)]
  {
    var events := [SessionMapped(first.buySessionId, a), SessionMapped(first.sellSessionId, b),
                   TradeCleared(first), TradeCleared(back)];
    var s1 := map[first.buySessionId := a];
    var s2 := s1[first.sellSessionId := b];
    var r1 := events[1..];
    var r2 := r1[1..];
    var r3 := r2[1..];
    assert r1[0] == events[1] && r2[0] == events[2] && r3[0] == events[3] && r3[1..] == [];
    assert map[][first.buySessionId := a] == s1;
    assert RunLegs(s2, r3) == Legs(s2, back) + RunLegs(s2, []);
    assert RunLegs(s2, r2) == Legs(s2, first) + RunLegs(s2, r3);
    assert RunLegs(map[], events) == RunLegs(s1, r1) == RunLegs(s2, r2);
  }

  lemma {:induction false} FourPosted(members: Members, l1: Leg, l2: Leg, l3: Leg, l4: Leg)
    requires l1.member in members && l2.member in members && l1.member != l2.member
    requires l3.member == l2.member && l4.member == l1.member
    ensures var after := PostAll(members, [l1, l2, l3, l4]);
            && l1.member in after && l2.member in after
            && after[l1.member] == Post(Post(members[l1.member], l1), l4)
            && after[l2.member] == Post(Post(members[l2.member], l2), l3)
  {
    hide Post;
    var all := [l1, l2, l3, l4];
    var r1 := all[1..];
    var r2 := r1[1..];
    var r3 := r2[1..];
    assert r1[0] == l2 && r2[0] == l3 && r3[0] == l4 && r3[1..] == [];
    var m1 := PostOne(members, l1);
    var m2 := PostOne(m1, l2);
    var m3 := PostOne(m2, l3);
    var m4 := PostOne(m3, l4);
    assert PostAll(members, all) == PostAll(m1, r1) == PostAll(m2, r2) == PostAll(m3, r3) == PostAll(m4, []);
  }

  lemma {:induction false} BoughtAndSold(q: nat, sym: nat, p: int, p': int, a: nat, b: nat)
    requires q > 0
    ensures Post(Post(NEW_MEMBER, Leg(a, sym, true, q, p)), Leg(a, sym, false, q, p'))
         == Member(INITIAL_CAPITAL + (p' - p) * q, 2, 0, map[])
    ensures Post(Post(NEW_MEMBER, Leg(b, sym, false, q, p)), Leg(b, sym, true, q, p'))
         == Member(INITIAL_CAPITAL - (p' - p) * q, 2, 1, map[sym := 0])
  {
    var long, short: Holdings := map[sym := q], map[sym := -(q as int)];
    assert Adjust(map[], Leg(a, sym, true, q, p)) == long && Adjust(map[], Leg(b, sym, false, q, p)) == short;
    assert long - {sym} == map[] && short[sym := 0] == map[sym := 0];
    assert p * q - p' * q == (p - p') * q;
    assert p * -(q as int) == -(p * q) && p' * -(q as int) == -(p' * q);
  }

  lemma {:induction false} StartTotal(members: Members)
    requires NewMembers(members)
    ensures Sum(Capitals(members)) == NUM_MEMBERS * INITIAL_CAPITAL
  {
    SumSame(Capitals(members), INITIAL_CAPITAL);
  }

  lemma {:induction false} SumSame(xs: seq<int>, x: int)
    requires forall i :: 0 <= i < |xs| ==> xs[i] == x
    ensures Sum(xs) == |xs| * x
  {
    if xs == [] {
    } else {
      SumSame(xs[1..], x);
      assert |xs| * x == x + |xs[1..]| * x;
    }
  }

  /** The actor fed with a run of events ends in the state the lemmas speak of. */
  method Feed(house: ClearingHouse, events: seq<Event>)
    requires house.Valid()
    modifies house
    ensures house.Valid()
    ensures house.sessionToMember == SessionsAfter(old(house.sessionToMember), events)
    ensures house.members == PostAll(old(house.members), RunLegs(old(house.sessionToMember), events))
    decreases events
  {
    if events == [] {
      return;
    }
    hide PostAll, Sound, Legs;
    ghost var sessions, start := house.sessionToMember, house.members;
    match events[0]
    case SessionMapped(session, member) =>
      house.MapSession(session, member);
      Feed(house, events[1..]);
    case TradeCleared(t) =>
      house.OnTrade(t);
      Feed(house, events[1..]);
      PostAllConcat(start, Legs(sessions, t), RunLegs(sessions, events[1..]));
  }
}
