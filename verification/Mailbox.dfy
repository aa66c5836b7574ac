/** Event delivery to one core (src/engine/SimplxShim.hpp): its mailbox, filled by other cores and
    emptied by its owner, and the choice between queueing and delivering inline. */
module Mailbox {
  // Every critical section is one step; the steps of all cores interleave freely.

  /** An event: the core that pushed it, and its number among the events of that core. */
  datatype Event = Event(sender: nat, number: nat)

  /** The receiving core: its mailbox, the batch its owner has taken out but not finished, and
      the events delivered and pushed so far; `enqueued` and `executed` are the history of the
      mailbox alone. */
  datatype State = State(
    core: nat, threaded: bool, shut: bool,
    queue: seq<Event>, hand: seq<Event>, delivered: seq<Event>, pushed: seq<Event>,
    enqueued: seq<Event>, executed: seq<Event>)

  datatype Action =
    | Push(event: Event)        // any core pushes an event
    | Take                      // the owner swaps the queue for its empty batch
    | Execute                   // the owner runs the next task of its batch
    | Shutdown                  // the engine stops
    | SetThreaded(on: bool)     // the engine enters or leaves threaded mode

  predicate Enabled(s: State, a: Action) {
    match a
    case Take => s.hand == []
    case Execute => s.hand != []
    case _ => true
  }

  /** `push` queues an event only in threaded mode and across cores. */
  predicate Queued(s: State, e: Event) { s.threaded && e.sender != s.core }

  function Step(s: State, a: Action): State
    requires Enabled(s, a)
  {
    match a
    case Push(e) =>
      if Queued(s, e) then s.(queue := s.queue + [e], pushed := s.pushed + [e], enqueued := s.enqueued + [e])
      else s.(delivered := s.delivered + [e], pushed := s.pushed + [e])
    case Take => s.(hand := s.queue, queue := [])
    case Execute =>
      s.(delivered := s.delivered + [s.hand[0]], hand := s.hand[1..], executed := s.executed + [s.hand[0]])
    case Shutdown => s.(shut := true)
    case SetThreaded(on) => s.(threaded := on)
  }

  ghost predicate CanRun(s: State, actions: seq<Action>)
    decreases actions
  {
    actions == [] || (Enabled(s, actions[0]) && CanRun(Step(s, actions[0]), actions[1..]))
  }

  function Run(s: State, actions: seq<Action>): State
    requires CanRun(s, actions)
    decreases actions
  {
    if actions == [] then s else Run(Step(s, actions[0]), actions[1..])
  }

  function Idle(core: nat): State { State(core, false, false, [], [], [], [], [], []) }

  /** Events on their way. */
  function InFlight(s: State): seq<Event> { s.hand + s.queue }

  /** The events of one core, in order. */
  function From(events: seq<Event>, sender: nat): seq<Event> {
    if events == [] then []
    else (if events[0].sender == sender then [events[0]] else []) + From(events[1..], sender)
  }

  lemma {:induction false} FromConcat(a: seq<Event>, b: seq<Event>, sender: nat)
    ensures From(a + b, sender) == From(a, sender) + From(b, sender)
  {
    hide From;
    if a == [] {
      FromNone(sender);
      assert a + b == b;
    } else {
      assert (a + b)[1..] == a[1..] + b;
      FromConcat(a[1..], b, sender);
      FromFront(a, sender);
      FromFront(a + b, sender);
    }
  }

  lemma {:induction false} FromNone(sender: nat)
    ensures From([], sender) == []
  {
  }

  // ----- Nothing is lost or duplicated ----------------------------------------------------------

  ghost predicate Kept(s: State) {
    multiset(s.pushed) == multiset(s.delivered) + multiset(s.hand) + multiset(s.queue)
  }

  lemma {:induction false} StepKept(s: State, a: Action)
    requires Enabled(s, a) && Kept(s)
    ensures Kept(Step(s, a))
  {
    if a.Execute? { assert s.hand == [s.hand[0]] + s.hand[1..]; }
  }

  /** In every interleaving, shutdown and mode switches included: every event pushed is delivered
      once, or in the batch in hand, or in the queue. */
  lemma {:induction false} NothingLost(s: State, actions: seq<Action>)
    requires Kept(s) && CanRun(s, actions)
    ensures Kept(Run(s, actions))
    decreases actions
  {
    if actions == [] {
    } else {
      StepKept(s, actions[0]);
      NothingLost(Step(s, actions[0]), actions[1..]);
    }
  }

  // ----- The mailbox is first in, first out ---------------------------------------------------------

  ghost predicate Fifo(s: State) {
    s.enqueued == s.executed + s.hand + s.queue
  }

  lemma {:induction false} StepFifo(s: State, a: Action)
    requires Enabled(s, a) && Fifo(s)
    ensures Fifo(Step(s, a))
  {
    var t := Step(s, a);
    assert t.enqueued == t.executed + t.hand + t.queue;
  }

  /** In every interleaving, without any condition: what was enqueued is what was executed, then
      the batch in hand, then the queue, all in the order of enqueueing. */
  lemma {:induction false} MailboxIsFifo(s: State, actions: seq<Action>)
    requires Fifo(s) && CanRun(s, actions)
    ensures Fifo(Run(s, actions))
    decreases actions
  {
    if actions == [] {
    } else {
      StepFifo(s, actions[0]);
      MailboxIsFifo(Step(s, actions[0]), actions[1..]);
    }
  }

  // ----- Order per sender -------------------------------------------------------------------------

  /** What a core has pushed is what was delivered of it, followed by what is on its way. */
  ghost predicate InOrder(s: State, sender: nat) {
    From(s.pushed, sender) == From(s.delivered, sender) + From(s.hand, sender) + From(s.queue, sender)
  }

  ghost predicate AllInOrder(s: State) {
    forall sender: nat :: InOrder(s, sender)
  }

  /** An inline delivery overtakes nothing of its own sender. */
  predicate Overtakes(s: State, a: Action) {
    a.Push? && !Queued(s, a.event) && From(InFlight(s), a.event.sender) != []
  }

  lemma {:induction false} FromAppend(events: seq<Event>, e: Event, sender: nat)
    ensures From(events + [e], sender) == From(events, sender) + (if e.sender == sender then [e] else [])
  {
    FromConcat(events, [e], sender);
    assert [e][1..] == [];
  }

  lemma {:induction false} QueuedInOrder(s: State, e: Event, sender: nat)
    requires InOrder(s, sender) && Queued(s, e)
    ensures InOrder(Step(s, Push(e)), sender)
  {
    FromAppend(s.pushed, e, sender);
    FromAppend(s.queue, e, sender);
  }

  lemma {:induction false} InlineInOrder(s: State, e: Event, sender: nat)
    requires InOrder(s, sender) && !Queued(s, e)
    requires From(InFlight(s), e.sender) == []
    ensures InOrder(Step(s, Push(e)), sender)
  {
    hide From;
    FromAppend(s.pushed, e, sender);
    FromAppend(s.delivered, e, sender);
    FromConcat(s.hand, s.queue, e.sender);
    assert |From(s.hand, e.sender)| + |From(s.queue, e.sender)| == 0;
  }

  lemma {:induction false} ExecuteInOrder(s: State, sender: nat)
    requires s.hand != [] && InOrder(s, sender)
    ensures InOrder(Step(s, Execute), sender)
  {
    hide From;
    FromAppend(s.delivered, s.hand[0], sender);
    FromFront(s.hand, sender);
  }

  lemma {:induction false} FromFront(events: seq<Event>, sender: nat)
    requires events != []
    ensures From(events, sender)
         == if events[0].sender == sender then [events[0]] + From(events[1..], sender) else From(events[1..], sender)
  {
  }

  lemma {:induction false} StepInOrder(s: State, a: Action, sender: nat)
    requires Enabled(s, a) && InOrder(s, sender) && !Overtakes(s, a)
    ensures InOrder(Step(s, a), sender)
  {
    match a
    case Push(e) => if Queued(s, e) { QueuedInOrder(s, e, sender); } else { InlineInOrder(s, e, sender); }
    case Execute => ExecuteInOrder(s, sender);
    case Take =>
    case Shutdown =>
    case SetThreaded(_) =>
  }

  /** Along the run no inline delivery overtakes an event of its own sender. */
  ghost predicate NeverOvertakes(s: State, actions: seq<Action>)
    requires CanRun(s, actions)
    decreases actions
  {
    actions == [] || (!Overtakes(s, actions[0]) && NeverOvertakes(Step(s, actions[0]), actions[1..]))
  }

  /** An event is pushed only while it is not on its way. */
  ghost predicate FreshPushes(s: State, actions: seq<Action>)
    requires CanRun(s, actions)
    decreases actions
  {
    actions == [] ||
    (&& (actions[0].Push? ==> actions[0].event !in InFlight(s))
     && FreshPushes(Step(s, actions[0]), actions[1..]))
  }

  lemma {:induction false} StepAllInOrder(s: State, a: Action)
    requires Enabled(s, a) && AllInOrder(s) && !Overtakes(s, a)
    ensures AllInOrder(Step(s, a))
  {
    forall sender: nat ensures InOrder(Step(s, a), sender) {
      assert InOrder(s, sender);
      StepInOrder(s, a, sender);
    }
  }

  /** Two events of the sender have been pushed and delivered in different places. */
  ghost predicate Swapped(s: State, sender: nat, n: nat) {
    var pushed, delivered := From(s.pushed, sender), From(s.delivered, sender);
    n < |pushed| && n < |delivered| && pushed[n] != delivered[n]
  }

  lemma {:induction false} SwappedBreaks(s: State, sender: nat, n: nat)
    requires Swapped(s, sender, n)
    ensures !InOrder(s, sender)
  {
    assert (From(s.delivered, sender) + From(s.hand, sender) + From(s.queue, sender))[n]
        == From(s.delivered, sender)[n];
  }

  /** Deliveries cannot be taken back. */
  lemma {:induction false} SwappedStays(s: State, actions: seq<Action>, sender: nat, n: nat)
    requires CanRun(s, actions) && Swapped(s, sender, n)
    ensures Swapped(Run(s, actions), sender, n)
    decreases actions
  {
    if actions == [] {
    } else {
      var a := actions[0];
      if a.Push? {
        FromAppend(s.pushed, a.event, sender);
        FromAppend(s.delivered, a.event, sender);
      } else if a.Execute? {
        FromAppend(s.delivered, s.hand[0], sender);
      }
      SwappedStays(Step(s, a), actions[1..], sender, n);
    }
  }

  /** An inline delivery past an event of its own sender swaps the two. */
  lemma {:induction false} OvertakingSwaps(s: State, a: Action)
    requires Enabled(s, a) && Overtakes(s, a) && a.event !in InFlight(s) && InOrder(s, a.event.sender)
    ensures Swapped(Step(s, a), a.event.sender, |From(s.delivered, a.event.sender)|)
  {
    var e := a.event;
    hide From;
    FromConcat(s.hand, s.queue, e.sender);
    FromAppend(s.pushed, e, e.sender);
    FromAppend(s.delivered, e, e.sender);
    FromMembers(InFlight(s), e.sender);
    Displaced(From(s.delivered, e.sender), From(s.hand, e.sender), From(s.queue, e.sender), e);
  }

  /** With `e` behind `d` and something else already there, the place behind `d` differs. */
  lemma {:induction false} Displaced(d: seq<Event>, h: seq<Event>, q: seq<Event>, e: Event)
    requires h + q != [] && e !in h + q
    ensures |d| < |d + h + q + [e]| && (d + h + q + [e])[|d|] != (d + [e])[|d|]
  {
    assert (d + h + q + [e])[|d|] == (h + q)[0] && (h + q)[0] in h + q;
  }

  lemma {:induction false} FromMembers(events: seq<Event>, sender: nat)
    ensures forall e :: e in From(events, sender) ==> e in events
  {
    if events == [] {
    } else {
      FromMembers(events[1..], sender);
    }
  }

  /** In every interleaving of any number of pushing cores with the owner, mode changes included:
      at the end each core's events stand in the order it pushed them (delivered, then in hand,
      then queued) exactly when no event was ever delivered inline past one of its own sender. */
  lemma {:induction false} OrderKeptIff(s: State, actions: seq<Action>)
    requires CanRun(s, actions) && FreshPushes(s, actions) && AllInOrder(s)
    ensures AllInOrder(Run(s, actions)) <==> NeverOvertakes(s, actions)
    decreases actions
  {
    hide InOrder, Swapped;
    if actions == [] {
    } else if Overtakes(s, actions[0]) {
      var sender := actions[0].event.sender;
      var n := |From(s.delivered, sender)|;
      assert InOrder(s, sender);
      OvertakingSwaps(s, actions[0]);
      SwappedStays(Step(s, actions[0]), actions[1..], sender, n);
      SwappedBreaks(Run(s, actions), sender, n);
    } else {
      StepAllInOrder(s, actions[0]);
      OrderKeptIff(Step(s, actions[0]), actions[1..]);
    }
  }

  /** From an idle core, with everything drained: the events that arrived are those that were
      pushed, once each; and each core's in order exactly when none was overtaken. */
  lemma {:induction false} DrainedMeansDelivered(core: nat, actions: seq<Action>)
    requires CanRun(Idle(core), actions) && FreshPushes(Idle(core), actions)
    requires InFlight(Run(Idle(core), actions)) == []
    ensures var s := Run(Idle(core), actions);
            && multiset(s.delivered) == multiset(s.pushed)
            && (ArrivedInOrder(s) <==> NeverOvertakes(Idle(core), actions))
  {
    hide ArrivedInOrder, AllInOrder, NeverOvertakes, Run, Kept, FreshPushes;
    var s := Run(Idle(core), actions);
    Drained(s);
    NothingYet(core);
    NothingLost(Idle(core), actions);
    OrderKeptIff(Idle(core), actions);
    DrainedOrder(s);
  }

  lemma {:induction false} NothingYet(core: nat)
    ensures Kept(Idle(core)) && AllInOrder(Idle(core))
  {
    forall sender: nat ensures InOrder(Idle(core), sender) { FromNone(sender); }
  }

  lemma {:induction false} Drained(s: State)
    requires InFlight(s) == []
    ensures Kept(s) ==> multiset(s.delivered) == multiset(s.pushed)
  {
    assert s.hand == [] && s.queue == [];
  }

  /** The events of each core have arrived in the order it pushed them. */
  ghost predicate ArrivedInOrder(s: State) {
    forall sender: nat :: From(s.delivered, sender) == From(s.pushed, sender)
  }

  lemma {:induction false} DrainedOrder(s: State)
    requires InFlight(s) == []
    ensures AllInOrder(s) <==> ArrivedInOrder(s)
  {
    assert s.hand == [] && s.queue == [];
    forall sender: nat ensures InOrder(s, sender) <==> From(s.delivered, sender) == From(s.pushed, sender) {
      FromNone(sender);
      assert From(s.delivered, sender) + [] + [] == From(s.delivered, sender);
    }
  }

  // ----- What is delivered at once -----------------------------------------------------------------------

  /** Every event the owner's own core has pushed is delivered, and none of them is on its way. */
  ghost predicate OwnDelivered(s: State) {
    From(s.delivered, s.core) == From(s.pushed, s.core) && forall e :: e in InFlight(s) ==> e.sender != s.core
  }

  lemma {:induction false} OwnDeliveredStep(s: State, a: Action)
    requires Enabled(s, a) && OwnDelivered(s)
    ensures OwnDelivered(Step(s, a)) && Step(s, a).core == s.core
  {
    hide From;
    match a
    case Push(e) =>
      FromAppend(s.pushed, e, s.core);
      FromAppend(s.delivered, e, s.core);
    case Execute =>
      assert s.hand[0] in InFlight(s);
      FromAppend(s.delivered, s.hand[0], s.core);
    case Take =>
    case Shutdown =>
    case SetThreaded(_) =>
  }

  /** In every interleaving from an idle core, mode changes included: what a core pushes to itself is delivered
      at once and in order, never queued. */
  lemma {:induction false} OwnDeliveredAtOnce(core: nat, actions: seq<Action>)
    requires CanRun(Idle(core), actions)
    ensures var s := Run(Idle(core), actions);
            && From(s.delivered, core) == From(s.pushed, core)
            && forall e :: e in InFlight(s) ==> e.sender != core
  {
    hide Run, CanRun;
    OwnDeliveredRun(Idle(core), actions);
  }

  lemma {:induction false} OwnDeliveredRun(s: State, actions: seq<Action>)
    requires CanRun(s, actions) && OwnDelivered(s)
    ensures OwnDelivered(Run(s, actions)) && Run(s, actions).core == s.core
    decreases actions
  {
    hide OwnDelivered, Step;
    if actions == [] {
    } else {
      OwnDeliveredStep(s, actions[0]);
      OwnDeliveredRun(Step(s, actions[0]), actions[1..]);
    }
  }

  /** Until threaded mode is entered everything is delivered at once, in the order of pushing. */
  lemma {:induction false} SynchronousDelivers(s: State, actions: seq<Action>)
    requires CanRun(s, actions) && SetThreaded(true) !in actions
    requires !s.threaded && InFlight(s) == [] && s.delivered == s.pushed
    ensures var n := Run(s, actions); n.delivered == n.pushed && InFlight(n) == []
    decreases actions
  {
    if actions == [] {
    } else {
      assert actions[0] in actions;
      SynchronousDelivers(Step(s, actions[0]), actions[1..]);
    }
  }

  /** In threaded mode what another core pushes is only queued, behind what is queued already; the owner's
      next turn delivers it. */
  lemma {:induction false} CrossCoreWaits(s: State, e: Event)
    requires s.threaded && e.sender != s.core && s.hand == [] && s.queue == []
    ensures var pushed := Step(s, Push(e));
            && pushed.delivered == s.delivered && pushed.queue == [e]
            && CanRun(pushed, [Take, Execute])
            && Run(pushed, [Take, Execute]).delivered == s.delivered + [e]
            && InFlight(Run(pushed, [Take, Execute])) == []
  {
    var pushed, all := Step(s, Push(e)), [Take, Execute];
    var taken := Step(pushed, Take);
    assert all[1..] == [Execute] && [Execute][1..] == [];
    assert [] + [e] == [e] && [e][1..] == [];
    assert CanRun(taken, [Execute]) && Run(taken, [Execute]) == Run(Step(taken, Execute), []);
    assert CanRun(pushed, all) && Run(pushed, all) == Run(taken, [Execute]);
  }

  // ----- Leaving threaded mode -----------------------------------------------------------------------

  /** Threaded mode is left only when the mailbox is empty. */
  ghost predicate DrainsBeforeSwitch(s: State, actions: seq<Action>)
    requires CanRun(s, actions)
    decreases actions
  {
    actions == [] ||
    (&& (actions[0] == SetThreaded(false) ==> InFlight(s) == [])
     && DrainsBeforeSwitch(Step(s, actions[0]), actions[1..]))
  }

  /** The owner's own events are never queued, and outside threaded mode nothing is. */
  ghost predicate Settled(s: State) {
    && (forall e :: e in InFlight(s) ==> e.sender != s.core)
    && (!s.threaded ==> InFlight(s) == [])
  }

  lemma {:induction false} NoneFrom(events: seq<Event>, sender: nat)
    requires forall e :: e in events ==> e.sender != sender
    ensures From(events, sender) == []
  {
    if events == [] {
    } else {
      NoneFrom(events[1..], sender);
    }
  }

  lemma {:induction false} SettledStep(s: State, a: Action)
    requires Enabled(s, a) && Settled(s) && (a == SetThreaded(false) ==> InFlight(s) == [])
    ensures Settled(Step(s, a)) && !Overtakes(s, a)
  {
    if a.Push? && !Queued(s, a.event) { NoneFrom(InFlight(s), a.event.sender); }
    var t := Step(s, a);
    forall e | e in InFlight(t) ensures e.sender != t.core {
      if !(e in InFlight(s)) { assert a.Push? && e == a.event; }
    }
  }

  /** If threaded mode is only left with an empty mailbox, nothing is ever overtaken. */
  lemma {:induction false} DrainingKeepsOrder(s: State, actions: seq<Action>)
    requires CanRun(s, actions) && DrainsBeforeSwitch(s, actions) && Settled(s)
    ensures NeverOvertakes(s, actions)
    decreases actions
  {
    if actions == [] {
    } else {
      SettledStep(s, actions[0]);
      DrainingKeepsOrder(Step(s, actions[0]), actions[1..]);
    }
  }

  /** A core pushes an event in threaded mode, the engine shuts down and leaves threaded mode
      without draining, the core pushes another, and only then the mailbox is drained. */
  function UndrainedSwitch(first: Event, second: Event): seq<Action> {
    [SetThreaded(true), Push(first), Shutdown, SetThreaded(false), Push(second), Take, Execute]
  }

  /** Such a run loses the order: the second event arrives first. */
  lemma {:induction false} UndrainedSwitchReorders(core: nat, first: Event, second: Event)
    requires first.sender == second.sender != core && first != second
    ensures var actions := UndrainedSwitch(first, second);
            && CanRun(Idle(core), actions) && FreshPushes(Idle(core), actions)
            && var s := Run(Idle(core), actions);
            && InFlight(s) == [] && s.pushed == [first, second] && s.delivered == [second, first]
            && !InOrder(s, first.sender)
  {
    hide From, Run, CanRun, FreshPushes, InOrder, Step, Queued;
    var s1 := Idle(core).(threaded := true);
    var s2 := s1.(queue := [first], pushed := [first], enqueued := [first]);
    var s3 := s2.(shut := true);
    var s4 := s3.(threaded := false);
    var s5 := s4.(delivered := [second], pushed := [first, second]);
    var s6 := s5.(hand := [first], queue := []);
    var s7 := s6.(delivered := [second, first], hand := [], executed := [first]);
    UndrainedSteps(core, first, second);
    var all := UndrainedSwitch(first, second);
    assert all[7..] == [] && all[0..] == all;
    RunDone(s7);
    RunFrom(s6, s7, all, 6);
    RunFrom(s5, s6, all, 5);
    RunFrom(s4, s5, all, 4);
    RunFrom(s3, s4, all, 3);
    RunFrom(s2, s3, all, 2);
    RunFrom(s1, s2, all, 1);
    RunFrom(Idle(core), s1, all, 0);
    FromTwo(first, second);
    FromTwo(second, first);
    assert Swapped(s7, first.sender, 0);
    SwappedBreaks(s7, first.sender, 0);
  }

  /** The states of that run. */
  lemma {:induction false} UndrainedSteps(core: nat, first: Event, second: Event)
    requires first.sender == second.sender != core
    ensures var s1 := Idle(core).(threaded := true);
            var s2 := s1.(queue := [first], pushed := [first], enqueued := [first]);
            var s3 := s2.(shut := true);
            var s4 := s3.(threaded := false);
            var s5 := s4.(delivered := [second], pushed := [first, second]);
            var s6 := s5.(hand := [first], queue := []);
            var s7 := s6.(delivered := [second, first], hand := [], executed := [first]);
            && Step(Idle(core), SetThreaded(true)) == s1 && Step(s1, Push(first)) == s2
            && Step(s2, Shutdown) == s3 && Step(s3, SetThreaded(false)) == s4
            && Step(s4, Push(second)) == s5 && Step(s5, Take) == s6 && Step(s6, Execute) == s7
  {
    assert [] + [first] == [first] && [] + [second] == [second];
    assert [first] + [second] == [first, second] && [second] + [first] == [second, first];
    assert [first][1..] == [];
  }

  lemma {:induction false} FromTwo(e: Event, f: Event)
    requires e.sender == f.sender
    ensures From([e, f], e.sender) == [e, f]
  {
    FromFront([e, f], e.sender);
    FromFront([f], e.sender);
    FromNone(e.sender);
    assert [e, f][1..] == [f] && [f][1..] == [] && [e] + ([f] + []) == [e, f];
  }

  lemma {:induction false} RunDone(s: State)
    ensures CanRun(s, []) && FreshPushes(s, []) && Run(s, []) == s
  {
  }

  lemma {:induction false} RunFrom(s: State, t: State, all: seq<Action>, k: nat)
    requires k < |all| && Enabled(s, all[k]) && Step(s, all[k]) == t
    requires CanRun(t, all[k + 1..]) && FreshPushes(t, all[k + 1..])
    requires all[k].Push? ==> all[k].event !in InFlight(s)
    ensures CanRun(s, all[k..]) && FreshPushes(s, all[k..]) && Run(s, all[k..]) == Run(t, all[k + 1..])
  {
    hide Step;
    assert all[k..][1..] == all[k + 1..];
  }

  // ----- The mailbox object ---------------------------------------------------------------------------

  /** What other cores enqueue while the owner runs its tasks: `arriving(i)` during the i-th. */
  type Arrivals = nat -> seq<Event>

  function Arrived(arriving: Arrivals, from: nat, n: nat): seq<Event>
    decreases n
  {
    if n == 0 then [] else arriving(from) + Arrived(arriving, from + 1, n - 1)
  }

  function Pushes(events: seq<Event>): seq<Action> {
    if events == [] then [] else [Push(events[0])] + Pushes(events[1..])
  }

  /** The owner runs `n` tasks, the others pushing meanwhile. */
  function Works(arriving: Arrivals, from: nat, n: nat): seq<Action>
    decreases n
  {
    if n == 0 then [] else [Execute] + Pushes(arriving(from)) + Works(arriving, from + 1, n - 1)
  }

  /** The steps of one drain of `n` queued tasks. */
  function Drain(arriving: Arrivals, n: nat): seq<Action> { [Take] + Works(arriving, 0, n) }

  /** The events a waiting owner is woken by, and the shutdown. */
  function Wake(waking: seq<Event>, closing: bool): seq<Action> {
    Pushes(waking) + if closing then [Shutdown] else []
  }

  ghost predicate AllQueued(s: State, events: seq<Event>) {
    forall e :: e in events ==> Queued(s, e)
  }

  ghost predicate ArrivalsQueued(s: State, arriving: Arrivals) {
    forall i: nat :: AllQueued(s, arriving(i))
  }

  /** The state after events have been pushed into the queue. */
  function Pushed(s: State, events: seq<Event>): State {
    s.(queue := s.queue + events, pushed := s.pushed + events, enqueued := s.enqueued + events)
  }

  /** The state after the owner has run its batch. */
  function Emptied(s: State): State {
    s.(hand := [], delivered := s.delivered + s.hand, executed := s.executed + s.hand)
  }

  lemma {:induction false} RunConcat(s: State, a: seq<Action>, b: seq<Action>)
    requires CanRun(s, a) && CanRun(Run(s, a), b)
    ensures CanRun(s, a + b) && Run(s, a + b) == Run(Run(s, a), b)
    decreases a
  {
    hide Step;
    if a == [] {
      assert a + b == b;
    } else {
      assert (a + b)[1..] == a[1..] + b;
      RunConcat(Step(s, a[0]), a[1..], b);
    }
  }

  lemma {:induction false} RunOne(s: State, a: Action)
    requires Enabled(s, a)
    ensures CanRun(s, [a]) && Run(s, [a]) == Step(s, a)
  {
    hide Step;
    assert [a][1..] == [];
  }

  lemma {:induction false} PushesRun(s: State, events: seq<Event>)
    requires AllQueued(s, events)
    ensures CanRun(s, Pushes(events)) && Run(s, Pushes(events)) == Pushed(s, events)
    decreases events
  {
    if events == [] {
      assert Pushed(s, []) == s;
    } else {
      var e, rest := events[0], events[1..];
      var t := Step(s, Push(e));
      assert events == [e] + rest && e in events && Queued(s, e);
      assert forall x :: x in rest ==> x in events && Queued(t, x) == Queued(s, x);
      assert s.queue + events == s.queue + [e] + rest && s.pushed + events == s.pushed + [e] + rest;
      assert s.enqueued + events == s.enqueued + [e] + rest;
      PushesRun(t, rest);
      RunOne(s, Push(e));
      RunConcat(s, [Push(e)], Pushes(rest));
    }
  }

  lemma {:induction false} WorksRun(s: State, arriving: Arrivals, from: nat)
    requires ArrivalsQueued(s, arriving)
    ensures CanRun(s, Works(arriving, from, |s.hand|))
    ensures Run(s, Works(arriving, from, |s.hand|)) == Pushed(Emptied(s), Arrived(arriving, from, |s.hand|))
    decreases |s.hand|
  {
    hide Step, Run, CanRun, Enabled;
    if s.hand == [] {
      RunDone(s);
      assert Pushed(Emptied(s), []) == s;
    } else {
      var now, n := arriving(from), |s.hand| - 1;
      var t := ExecuteStep(s);
      var u := Pushed(t, now);
      assert AllQueued(s, now);
      RunOne(s, Execute);
      PushesRun(t, now);
      RunConcat(s, [Execute], Pushes(now));
      WorksRun(u, arriving, from + 1);
      RunConcat(s, [Execute] + Pushes(now), Works(arriving, from + 1, n));
      WorkedOn(s, t, now, Arrived(arriving, from + 1, n));
    }
  }

  lemma {:induction false} ExecuteStep(s: State) returns (t: State)
    requires s.hand != []
    ensures Enabled(s, Execute) && t == Step(s, Execute)
    ensures t == s.(hand := s.hand[1..], delivered := s.delivered + [s.hand[0]], executed := s.executed + [s.hand[0]])
  {
    t := Step(s, Execute);
  }

  lemma {:induction false} WorkedOn(s: State, t: State, now: seq<Event>, later: seq<Event>)
    requires s.hand != []
    requires t == s.(hand := s.hand[1..], delivered := s.delivered + [s.hand[0]], executed := s.executed + [s.hand[0]])
    ensures Pushed(Emptied(Pushed(t, now)), later) == Pushed(Emptied(s), now + later)
  {
    assert s.hand == [s.hand[0]] + s.hand[1..];
    assert s.delivered + s.hand == s.delivered + [s.hand[0]] + s.hand[1..];
    assert s.executed + s.hand == s.executed + [s.hand[0]] + s.hand[1..];
    assert s.queue + (now + later) == s.queue + now + later;
    assert s.pushed + (now + later) == s.pushed + now + later;
    assert s.enqueued + (now + later) == s.enqueued + now + later;
  }

  /** One drain as steps: what was queued is delivered, what arrived meanwhile is queued. */
  lemma {:induction false} DrainRun(s: State, arriving: Arrivals)
    requires s.hand == [] && ArrivalsQueued(s, arriving)
    ensures CanRun(s, Drain(arriving, |s.queue|))
    ensures Run(s, Drain(arriving, |s.queue|))
         == Pushed(Emptied(s.(hand := s.queue, queue := [])), Arrived(arriving, 0, |s.queue|))
  {
    hide Run, CanRun;
    var t := Step(s, Take);
    RunOne(s, Take);
    WorksRun(t, arriving, 0);
    RunConcat(s, [Take], Works(arriving, 0, |s.queue|));
  }

  lemma {:induction false} WakeRun(s: State, waking: seq<Event>, closing: bool)
    requires AllQueued(s, waking)
    ensures CanRun(s, Wake(waking, closing))
    ensures Run(s, Wake(waking, closing)) == Pushed(s, waking).(shut := s.shut || closing)
  {
    hide Run, CanRun;
    var t := Pushed(s, waking);
    PushesRun(s, waking);
    if closing { RunOne(t, Shutdown); } else { RunDone(t); }
    RunConcat(s, Pushes(waking), if closing then [Shutdown] else []);
  }

  lemma {:induction false} ArrivedNone(arriving: Arrivals, from: nat)
    ensures Arrived(arriving, from, 0) == []
  {
  }

  lemma {:induction false} ArrivedSnoc(arriving: Arrivals, from: nat, n: nat)
    ensures Arrived(arriving, from, n + 1) == Arrived(arriving, from, n) + arriving(from + n)
    decreases n
  {
    if n == 0 {
      assert Arrived(arriving, from, 1) == arriving(from) + Arrived(arriving, from + 1, 0);
      assert arriving(from) + [] == [] + arriving(from);
    } else {
      ArrivedSnoc(arriving, from + 1, n - 1);
    }
  }

  /** What other cores do during one turn of the owner's loop: before it wakes, and while it works. */
  datatype Round = Round(waking: seq<Event>, closing: bool, arriving: Arrivals)

  /** The steps of one turn, from a state whose batch is finished. */
  function Turn(s: State, r: Round): seq<Action> {
    var waits := s.queue == [] && !s.shut;
    var tasks := if waits then r.waking else s.queue;
    (if waits then Wake(r.waking, r.closing) else [])
    + (if (s.shut || (waits && r.closing)) && tasks == [] then [] else Drain(r.arriving, |tasks|))
  }

  lemma {:induction false} TurnRun(s: State, r: Round)
    requires s.hand == [] && AllQueued(s, r.waking) && ArrivalsQueued(s, r.arriving)
    ensures CanRun(s, Turn(s, r))
    ensures var t := Run(s, Turn(s, r)); t.threaded == s.threaded && t.core == s.core && t.hand == []
    ensures var t, waits := Run(s, Turn(s, r)), s.queue == [] && !s.shut;
            var tasks := if waits then r.waking else s.queue;
            && t.shut == (s.shut || (waits && r.closing))
            && t.queue == Arrived(r.arriving, 0, |tasks|) && t.executed == s.executed + tasks
  {
    hide Run, CanRun, Drain, Wake, Step;
    var waits := s.queue == [] && !s.shut;
    var wake := if waits then Wake(r.waking, r.closing) else [];
    var t := if waits then Pushed(s, r.waking).(shut := s.shut || r.closing) else s;
    if waits { WakeRun(s, r.waking, r.closing); } else { RunDone(s); }
    if t.shut && t.queue == [] {
      ArrivedNone(r.arriving, 0);
      assert wake + [] == wake;
    } else {
      DrainRun(t, r.arriving);
      RunConcat(s, wake, Drain(r.arriving, |t.queue|));
    }
  }

  /** The mailbox itself; `executed` records the tasks its owner has run. */
  class TaskBox {
    var queue: seq<Event>
    var closed: bool
    var executed: seq<Event>

    /** The mailbox of a core whose owner has finished its batch. */
    ghost predicate Shows(s: State)
      reads this
    {
      s.hand == [] && queue == s.queue && executed == s.executed && closed == s.shut
    }

    constructor ()
      ensures queue == [] && !closed && executed == []
      ensures forall core: nat :: Shows(Idle(core))
    {
      queue, closed, executed := [], false, [];
    }

    /** A push in threaded mode by another core. */
    method Enqueue(task: Event)
      modifies this`queue
      ensures queue == old(queue) + [task]
      ensures forall s: State | old(Shows(s)) && Queued(s, task) :: Shows(Step(s, Push(task)))
    {
      queue := queue + [task];
    }

    /** `drainAll`: everything queued at the start is run in order; what other cores enqueue
        meanwhile is left in the queue. */
    method DrainAll(arriving: Arrivals)
      modifies this`queue, this`executed
      ensures queue == Arrived(arriving, 0, |old(queue)|) && executed == old(executed) + old(queue)
      ensures forall s: State | old(Shows(s)) && ArrivalsQueued(s, arriving) ::
                && CanRun(s, Drain(arriving, |old(queue)|))
                && Shows(Run(s, Drain(arriving, |old(queue)|)))
    {
      hide Run, CanRun, Drain, Arrived;
      var batch := queue;
      queue := [];
      ArrivedNone(arriving, 0);
      for i := 0 to |batch|
        invariant queue == Arrived(arriving, 0, i) && executed == old(executed) + batch[..i]
      {
        assert batch[..i + 1] == batch[..i] + [batch[i]];
        ArrivedSnoc(arriving, 0, i);
        executed := executed + [batch[i]];
        queue := queue + arriving(i);
      }
      assert batch[..|batch|] == batch;
      forall s: State | old(Shows(s)) && ArrivalsQueued(s, arriving)
        ensures CanRun(s, Drain(arriving, |batch|)) && Shows(Run(s, Drain(arriving, |batch|)))
      {
        DrainRun(s, arriving);
      }
    }

    /** `waitAndDrain`: an open mailbox without tasks is waited on, until tasks arrive, it is shut
        down, or the time is over. It gives up exactly when the mailbox is shut down and nothing is
        left to run, and drains it otherwise. */
    method WaitAndDrain(r: Round) returns (more: bool)
      modifies this
      ensures var waits := old(queue) == [] && !old(closed);
        var tasks := if waits then r.waking else old(queue);
        && closed == (old(closed) || (waits && r.closing))
        && more == !(closed && tasks == [])
        && queue == Arrived(r.arriving, 0, |tasks|) && executed == old(executed) + tasks
      ensures forall s: State | old(Shows(s)) && AllQueued(s, r.waking) && ArrivalsQueued(s, r.arriving) ::
                CanRun(s, Turn(s, r)) && Shows(Run(s, Turn(s, r)))
    {
      hide Run, CanRun, Turn;
      if queue == [] && !closed {
        queue, closed := r.waking, r.closing;
      }
      forall s: State | old(Shows(s)) && AllQueued(s, r.waking) && ArrivalsQueued(s, r.arriving)
        ensures CanRun(s, Turn(s, r))
        ensures var t, tasks := Run(s, Turn(s, r)), queue;
                && t.hand == [] && t.shut == closed
                && t.queue == Arrived(r.arriving, 0, |tasks|) && t.executed == executed + tasks
      {
        TurnRun(s, r);
      }
      if closed && queue == [] {
        ArrivedNone(r.arriving, 0);
        return false;
      }
      DrainAll(r.arriving);
      more := true;
    }

    method Close()
      modifies this`closed
      ensures closed
      ensures forall s: State | old(Shows(s)) :: Shows(Step(s, Shutdown))
    {
      closed := true;
    }
  }

  // ----- The owner's loop -------------------------------------------------------------------------------

  ghost predicate Foreign(core: nat, r: Round) {
    && (forall e :: e in r.waking ==> e.sender != core)
    && (forall i: nat, e :: e in r.arriving(i) ==> e.sender != core)
  }

  function Started(core: nat): State { Step(Idle(core), SetThreaded(true)) }

  /** The steps of all turns of the owner's loop. */
  ghost function Turns(s: State, rounds: seq<Round>): seq<Action>
    decreases rounds
  {
    if rounds == [] || !CanRun(s, Turn(s, rounds[0])) then []
    else Turn(s, rounds[0]) + Turns(Run(s, Turn(s, rounds[0])), rounds[1..])
  }

  lemma {:induction false} NextTurn(s: State, rounds: seq<Round>, i: nat)
    requires i <= |rounds|
    ensures i == |rounds| ==> Turns(s, rounds[i..]) == []
    ensures i < |rounds| && CanRun(s, Turn(s, rounds[i])) ==>
              Turns(s, rounds[i..]) == Turn(s, rounds[i]) + Turns(Run(s, Turn(s, rounds[i])), rounds[i + 1..])
  {
    hide Turn, Run, CanRun;
    if i < |rounds| { assert rounds[i..][1..] == rounds[i + 1..]; }
  }

  /** The owner's loop in threaded mode: whatever other cores do, turn by turn, the mailbox ends in the
      state of the run of all turns, and has run or still holds what was enqueued, in order. */
  method RunFor(core: nat, rounds: seq<Round>) returns (box: TaskBox)
    requires forall r :: r in rounds ==> Foreign(core, r)
    ensures var all := Turns(Started(core), rounds);
      && fresh(box) && CanRun(Started(core), all) && box.Shows(Run(Started(core), all))
      && box.executed + box.queue == Run(Started(core), all).enqueued
  {
    hide Run, CanRun, Turn, Turns;
    box := new TaskBox();
    ghost var start, done: seq<Action> := Started(core), [];
    RunDone(start);
    assert rounds[0..] == rounds && [] + Turns(start, rounds) == Turns(start, rounds);
    for i := 0 to |rounds|
      invariant fresh(box) && CanRun(start, done)
      invariant var s := Run(start, done);
        && box.Shows(s) && s.threaded && s.core == core
        && done + Turns(s, rounds[i..]) == Turns(start, rounds)
    {
      ghost var s, r := Run(start, done), rounds[i];
      assert r in rounds;
      assert AllQueued(s, r.waking) && ArrivalsQueued(s, r.arriving);
      TurnRun(s, r);
      RunConcat(start, done, Turn(s, r));
      NextTurn(s, rounds, i);
      ghost var rest := Turns(Run(s, Turn(s, r)), rounds[i + 1..]);
      assert done + (Turn(s, r) + rest) == done + Turn(s, r) + rest;
      var more := box.WaitAndDrain(rounds[i]);
      done := done + Turn(s, r);
    }
    NextTurn(Run(start, done), rounds, |rounds|);
    assert done + [] == done;
    MailboxIsFifo(start, done);
  }
}
