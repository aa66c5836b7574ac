/** Runs of the book: every sequence of operations from the empty book, and what holds after
    each of them. */
module Runs {
  import opened Types
  import opened Tape
  import opened BookSpec
  import opened Ledger
  import opened Accounts

  datatype Command =
    | Enter(request: Order)
    | TriggerAt(price: int)
    | CancelId(id: nat)
    | ModifyId(id: nat, newPrice: int, newQty: nat)
    | SetPhase(phase: TradingPhase)
    | UncrossNow

  /** The book, all it has emitted, and the quantities that came in and went away. */
  datatype World = World(
    book: BookState, trades: seq<Trade>, reports: seq<ExecutionReport>, submitted: nat, gone: nat)

  function Told(report: Option<ExecutionReport>): seq<ExecutionReport> {
    if report.Some? then [report.value] else []
  }

  /** The world after a new order that went the way of `x`. */
  function Entered(w: World, o: Order, x: Submission): World {
    World(x.state, w.trades + x.trades, w.reports + x.reports, w.submitted + o.quantity, w.gone + Gone(x.order))
  }

  /** The world after a trigger pass or an auction that went the way of `x`. */
  function Batched(w: World, x: Batch): World {
    World(x.state, w.trades + x.trades, w.reports + x.reports, w.submitted, w.gone + AllGone(x.orders))
  }

  function Step(w: World, c: Command): World {
    match c
    case Enter(o) => Entered(w, o, Submit(w.book, o))
    case TriggerAt(p) => Batched(w, Trigger(w.book, p))
    case CancelId(id) =>
      var x := Cancel(w.book, id);
      w.(book := x.state, reports := w.reports + Told(x.report), gone := w.gone + RemovedQty(x))
    case ModifyId(id, p, q) =>
      var x := Modify(w.book, id, p, q);
      w.(book := x.state, reports := w.reports + Told(x.report), gone := w.gone + RemovedQty(x),
         submitted := w.submitted + (if x.report.Some? then q else 0))
    case SetPhase(p) => w.(book := w.book.(phase := p))
    case UncrossNow => Batched(w, Uncross(w.book))
  }

  function Run(w: World, commands: seq<Command>): World
    decreases commands
  {
    if commands == [] then w else Run(Step(w, commands[0]), commands[1..])
  }

  function Start(sym: nat): World {
    World(BookState(sym, 1, 1, 0, CTS, [], [], []), [], [], 0, 0)
  }

  lemma {:induction false} RunOfTwo(w: World, first: Command, second: Command)
    ensures Run(w, [first]) == Step(w, first)
    ensures Run(w, [first, second]) == Step(Step(w, first), second)
  {
    hide Step;
    var all, w1 := [first, second], Step(w, first);
    var w2 := Step(w1, second);
    assert [first][1..] == [] && all[1..] == [second] && [second][1..] == [];
    assert Run(w, all) == Run(w1, [second]) == Run(w2, []);
    assert Run(w, [first]) == Run(w1, []);
  }

  lemma {:induction false} RunOfThree(w: World, all: seq<Command>)
    requires |all| == 3
    ensures Run(w, all) == Step(Step(Step(w, all[0]), all[1]), all[2])
  {
    hide Step;
    var w1 := Step(w, all[0]);
    var w2 := Step(w1, all[1]);
    var w3 := Step(w2, all[2]);
    assert all[1..][1..][1..] == [];
    assert Run(w, all) == Run(w1, all[1..]) == Run(w2, all[1..][1..]) == Run(w3, []);
  }

  // ----- What every run keeps -----------------------------------------------------------------

  /** Conservation: what was submitted was traded (each trade uses it up on two orders), or is
      still in the book, or was cancelled, expired or rejected. */
  ghost predicate Balanced(w: World) {
    w.submitted == 2 * Traded(w.trades) + Load(w.book) + w.gone
  }

  ghost predicate Sound(w: World) {
    WellFormed(w.book) && Account(w.book, w.trades, w.reports) && Balanced(w)
  }

  lemma {:induction false} StepWellFormed(w: World, c: Command)
    requires WellFormed(w.book)
    ensures WellFormed(Step(w, c).book)
  {
    match c
    case Enter(o) => SubmitWellFormed(w.book, o);
    case TriggerAt(p) => TriggerWellFormed(w.book, p);
    case CancelId(id) => CancelWellFormed(w.book, id);
    case ModifyId(id, p, q) => ModifyWellFormed(w.book, id, p, q);
    case SetPhase(p) =>
    case UncrossNow => UncrossWellFormed(w.book);
  }

  lemma {:induction false} PhaseAccount(s: BookState, p: TradingPhase, t: seq<Trade>, r: seq<ExecutionReport>)
    requires Account(s, t, r)
    ensures Account(s.(phase := p), t, r)
  {
  }

  lemma {:induction false} StepAccount(w: World, c: Command)
    requires WellFormed(w.book) && Account(w.book, w.trades, w.reports)
    ensures Account(Step(w, c).book, Step(w, c).trades, Step(w, c).reports)
  {
    hide Account, WellFormed;
    assert w.reports + [] == w.reports;
    match c
    case Enter(o) => SubmitAccounts(w.book, o, w.trades, w.reports);
    case TriggerAt(p) => TriggerAccounts(w.book, p, w.trades, w.reports);
    case CancelId(id) => CancelAccounts(w.book, id, w.trades, w.reports);
    case ModifyId(id, p, q) => ModifyAccounts(w.book, id, p, q, w.trades, w.reports);
    case SetPhase(p) => PhaseAccount(w.book, p, w.trades, w.reports);
    case UncrossNow => UncrossAccounts(w.book, w.trades, w.reports);
  }

  lemma {:induction false} StepBalanced(w: World, c: Command)
    requires Balanced(w)
    ensures Balanced(Step(w, c))
  {
    match c
    case Enter(o) =>
      SubmitConserves(w.book, o);
      TradedConcat(w.trades, Submit(w.book, o).trades);
    case TriggerAt(p) =>
      TriggerConserves(w.book, p);
      TradedConcat(w.trades, Trigger(w.book, p).trades);
    case CancelId(id) => CancelConserves(w.book, id);
    case ModifyId(id, p, q) => ModifyConserves(w.book, id, p, q);
    case SetPhase(p) =>
    case UncrossNow =>
      UncrossConserves(w.book);
      TradedConcat(w.trades, Uncross(w.book).trades);
  }

  lemma {:induction false} RunSound(w: World, commands: seq<Command>)
    requires Sound(w)
    ensures Sound(Run(w, commands))
    decreases commands
  {
    hide WellFormed, Account, Balanced, Step;
    if commands == [] {
    } else {
      StepWellFormed(w, commands[0]);
      StepAccount(w, commands[0]);
      StepBalanced(w, commands[0]);
      RunSound(Step(w, commands[0]), commands[1..]);
    }
  }

  /** After every run from the empty book: the book is in price-time order; every resting order
      has traded exactly what it misses; the last report on every id ever issued states what
      that id has traded; and no quantity was created or lost. */
  lemma {:induction false} EveryRun(sym: nat, commands: seq<Command>)
    ensures var w := Run(Start(sym), commands);
            && WellFormed(w.book)
            && (forall o :: o in w.book.bids || o in w.book.asks ==>
                  TradedOf(w.trades, o.orderId) == o.quantity - o.remainingQty)
            && (forall o :: o in w.book.stops ==> TradedOf(w.trades, o.orderId) == 0)
            && (forall id: nat :: 0 < id < w.book.nextOrderId ==>
                  LastFilled(w.reports, id) == Some(TradedOf(w.trades, id)))
            && w.submitted == 2 * Traded(w.trades) + Load(w.book) + w.gone
  {
    hide WellFormed, Run, Account, Balanced;
    StartSound(sym);
    RunSound(Start(sym), commands);
    var w := Run(Start(sym), commands);
    AccountSays(w.book, w.trades, w.reports);
    BalancedSays(w);
    StopsUntouched(w.book);
  }

  lemma {:induction false} StartSound(sym: nat)
    ensures Sound(Start(sym))
  {
  }

  lemma {:induction false} StopsUntouched(s: BookState)
    requires WellFormed(s)
    ensures forall o :: o in s.stops ==> o.quantity == o.remainingQty
  {
  }

  lemma {:induction false} BalancedSays(w: World)
    requires Balanced(w)
    ensures w.submitted == 2 * Traded(w.trades) + Load(w.book) + w.gone
  {
  }

  lemma {:induction false} AccountSays(s: BookState, trades: seq<Trade>, reports: seq<ExecutionReport>)
    requires Account(s, trades, reports)
    ensures forall o :: o in s.bids || o in s.asks ==> TradedOf(trades, o.orderId) == o.quantity - o.remainingQty
    ensures forall o :: o in s.stops ==> TradedOf(trades, o.orderId) == o.quantity - o.remainingQty
    ensures forall id: nat :: 0 < id < s.nextOrderId ==> LastFilled(reports, id) == Some(TradedOf(trades, id))
  {
    forall id: nat | 0 < id < s.nextOrderId ensures LastFilled(reports, id) == Some(TradedOf(trades, id)) {
      assert Tracked(trades, reports, id);
    }
  }

  // ----- 64-bit sums never wrap -----------------------------------------------------------------

  /** The quantity a command asks the book to take in. */
  function Asked(c: Command): nat {
    match c
    case Enter(o) => o.quantity
    case ModifyId(_, _, q) => q
    case _ => 0
  }

  function AllAsked(commands: seq<Command>): nat {
    if commands == [] then 0 else Asked(commands[0]) + AllAsked(commands[1..])
  }

  lemma {:induction false} SubmittedAtMostAsked(w: World, commands: seq<Command>)
    ensures Run(w, commands).submitted <= w.submitted + AllAsked(commands)
    decreases commands
  {
    if commands == [] {
    } else {
      SubmittedAtMostAsked(Step(w, commands[0]), commands[1..]);
    }
  }

  lemma {:induction false} AllAskedSplit(a: seq<Command>, b: seq<Command>)
    ensures AllAsked(a + b) == AllAsked(a) + AllAsked(b)
  {
    if a == [] {
      assert a + b == b;
    } else {
      assert (a + b)[1..] == a[1..] + b;
      AllAskedSplit(a[1..], b);
    }
  }

  /** While the total asked for fits 64 bits, so do the accumulations of every command: its own
      quantity and everything the book holds when it arrives. */
  lemma {:induction false} SumsFit(sym: nat, commands: seq<Command>, k: nat)
    requires k < |commands| && AllAsked(commands) < TWO64
    ensures Load(Run(Start(sym), commands[..k]).book) + Asked(commands[k]) < TWO64
  {
    var before, rest := commands[..k], commands[k..];
    assert commands == before + rest;
    AllAskedSplit(before, rest);
    SubmittedAtMostAsked(Start(sym), before);
    EveryRun(sym, before);
  }
}
