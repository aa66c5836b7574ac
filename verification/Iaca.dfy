/** Assembly of fragment chains (src/iaca/IacaAggregator.cpp, src/iaca/Fragment.hpp). */
module Iaca {
  // Fragments of many trees arrive interleaved; a chain is handed on as soon as every fragment
  // collected for it has as many children in the collection as it announced.

  datatype Origin = Origin(originId: nat, key: nat, sequenceNumber: nat)

  const NULL_ORIGIN := Origin(0xFFFF, 0, 0)

  datatype Fragment = Fragment(chainId: nat, origin: Origin, previousOrigin: Origin, nextCount: int, causeId: int)

  /** A handler accepts some chains (`canProcess`). */
  type Handler = seq<Fragment> -> bool

  // ----- Completion ------------------------------------------------------------------------------

  function Children(fs: seq<Fragment>, o: Origin): nat {
    if fs == [] then 0 else (if fs[0].previousOrigin == o then 1 else 0) + Children(fs[1..], o)
  }

  predicate Complete(fs: seq<Fragment>) {
    fs != [] && forall f :: f in fs ==> Children(fs, f.origin) == f.nextCount
  }

  /** `FragmentChain::checkComplete`: count the children of every fragment, stop at the first
      mismatch. */
  method CheckComplete(fragments: seq<Fragment>) returns (complete: bool)
    ensures complete <==> Complete(fragments)
  {
    for i := 0 to |fragments|
      invariant forall k :: 0 <= k < i ==> Children(fragments, fragments[k].origin) == fragments[k].nextCount
    {
      var childCount: nat := 0;
      for j := 0 to |fragments|
        invariant childCount + Children(fragments[j..], fragments[i].origin) == Children(fragments, fragments[i].origin)
      {
        assert fragments[j..][1..] == fragments[j + 1..];
        if fragments[j].previousOrigin == fragments[i].origin {
          childCount := childCount + 1;
        }
      }
      assert fragments[|fragments|..] == [];
      if childCount != fragments[i].nextCount {
        assert fragments[i] in fragments;
        return false;
      }
    }
    complete := fragments != [];
  }

  // ----- The aggregator ------------------------------------------------------------------------------

  /** Pending chains, and every chain completed so far. */
  datatype State = State(pending: map<nat, seq<Fragment>>, done: seq<seq<Fragment>>)

  function Collected(s: State, chain: nat): seq<Fragment> {
    if chain in s.pending then s.pending[chain] else []
  }

  function Add(s: State, f: Fragment): State {
    var fs := Collected(s, f.chainId) + [f];
    if Complete(fs) then State(s.pending - {f.chainId}, s.done + [fs]) else s.(pending := s.pending[f.chainId := fs])
  }

  /** What the handlers are given: each completed chain goes, in registration order, to the
      handlers that accept it. */
  function Given(handlers: seq<Handler>, from: nat, chain: seq<Fragment>): seq<(nat, seq<Fragment>)>
    requires from <= |handlers|
    decreases |handlers| - from
  {
    if from == |handlers| then []
    else (if handlers[from](chain) then [(from, chain)] else []) + Given(handlers, from + 1, chain)
  }

  class IacaAggregator {
    var chains: map<nat, seq<Fragment>>
    var handlers: seq<Handler>
    var completedCount: nat
    var processed: seq<(nat, seq<Fragment>)>
    ghost var done: seq<seq<Fragment>>

    ghost function Abs(): State
      reads this
    {
      State(chains, done)
    }

    ghost predicate Valid()
      reads this
    {
      completedCount == |done|
    }

    constructor ()
      ensures Valid() && Abs() == State(map[], []) && handlers == [] && processed == []
    {
      chains, handlers, completedCount, processed, done := map[], [], 0, [], [];
    }

    method RegisterHandler(handler: Handler)
      requires Valid()
      modifies this`handlers
      ensures Valid() && handlers == old(handlers) + [handler]
    {
      handlers := handlers + [handler];
    }

    method AddFragment(fragment: Fragment)
      requires Valid()
      modifies this`chains, this`completedCount, this`processed, this`done
      ensures Valid()
      ensures Abs() == Add(old(Abs()), fragment)
      ensures processed == old(processed) +
        (if |done| > |old(done)| then Given(handlers, 0, Collected(old(Abs()), fragment.chainId) + [fragment]) else [])
    {
      var fragments := if fragment.chainId in chains then chains[fragment.chainId] else [];
      chains := chains[fragment.chainId := fragments + [fragment]];
      TryComplete(fragment.chainId);
      assert (old(chains)[fragment.chainId := fragments + [fragment]]) - {fragment.chainId}
          == old(chains) - {fragment.chainId};
    }

    method TryComplete(chainId: nat)
      requires Valid()
      modifies this`chains, this`completedCount, this`processed, this`done
      ensures Valid()
      ensures chainId in old(chains) && Complete(old(chains[chainId])) ==>
        && Abs() == State(old(chains) - {chainId}, old(done) + [old(chains[chainId])])
        && processed == old(processed) + Given(handlers, 0, old(chains[chainId]))
      ensures !(chainId in old(chains) && Complete(old(chains[chainId]))) ==>
          Abs() == old(Abs()) && processed == old(processed)
    {
      if chainId !in chains {
        return;
      }
      var chain := chains[chainId];
      var complete := CheckComplete(chain);
      if !complete {
        return;
      }
      completedCount := completedCount + 1;
      done := done + [chain];
      for i := 0 to |handlers|
        invariant processed + Given(handlers, i, chain) == old(processed) + Given(handlers, 0, chain)
        invariant chains == old(chains) && Valid() && done == old(done) + [chain]
      {
        if handlers[i](chain) {
          processed := processed + [(i, chain)];
        }
      }
      chains := chains - {chainId};
    }
  }

  /** The calls are of accepting handlers from `from` on, with the chain, in ascending order. */
  ghost predicate InRegistrationOrder(calls: seq<(nat, seq<Fragment>)>, handlers: seq<Handler>, from: nat,
          chain: seq<Fragment>)
  {
    && (forall c :: c in calls ==> from <= c.0 < |handlers| && handlers[c.0](chain) && c.1 == chain)
    && (forall j, k :: 0 <= j < k < |calls| ==> calls[j].0 < calls[k].0)
  }

  /** A chain goes to exactly the handlers that accept it, each once, in the order of registration. */
  lemma {:induction false} GivenInOrder(handlers: seq<Handler>, chain: seq<Fragment>)
    ensures InRegistrationOrder(Given(handlers, 0, chain), handlers, 0, chain)
    ensures forall i :: 0 <= i < |handlers| && handlers[i](chain) ==> (i, chain) in Given(handlers, 0, chain)
  {
    hide Given, InRegistrationOrder;
    GivenAscends(handlers, 0, chain);
    forall i | 0 <= i < |handlers| && handlers[i](chain) ensures (i, chain) in Given(handlers, 0, chain) {
      GivenTo(handlers, 0, chain, i);
    }
  }

  lemma {:induction false} GivenAscends(handlers: seq<Handler>, from: nat, chain: seq<Fragment>)
    requires from <= |handlers|
    ensures InRegistrationOrder(Given(handlers, from, chain), handlers, from, chain)
    decreases |handlers| - from
  {
    hide InRegistrationOrder;
    if from == |handlers| {
      NoCalls(handlers, from, chain);
    } else {
      var rest := Given(handlers, from + 1, chain);
      GivenAscends(handlers, from + 1, chain);
      GivenFront(handlers, from, chain);
      if handlers[from](chain) {
        CallInFront(rest, handlers, from, chain);
      } else {
        CallsFrom(rest, handlers, from, chain);
      }
    }
  }

  lemma {:induction false} NoCalls(handlers: seq<Handler>, from: nat, chain: seq<Fragment>)
    ensures InRegistrationOrder([], handlers, from, chain)
  {
  }

  lemma {:induction false} CallsFrom(calls: seq<(nat, seq<Fragment>)>, handlers: seq<Handler>, from: nat,
          chain: seq<Fragment>)
    requires InRegistrationOrder(calls, handlers, from + 1, chain)
    ensures InRegistrationOrder(calls, handlers, from, chain)
  {
  }

  lemma {:induction false} GivenTo(handlers: seq<Handler>, from: nat, chain: seq<Fragment>, i: nat)
    requires from <= i < |handlers| && handlers[i](chain)
    ensures (i, chain) in Given(handlers, from, chain)
    decreases |handlers| - from
  {
    hide Given;
    GivenFront(handlers, from, chain);
    var rest := Given(handlers, from + 1, chain);
    if i > from {
      GivenTo(handlers, from + 1, chain, i);
      if handlers[from](chain) { assert (i, chain) in [(from, chain)] + rest; }
    } else {
      assert (i, chain) in [(from, chain)] + rest;
    }
  }

  lemma {:induction false} CallInFront(calls: seq<(nat, seq<Fragment>)>, handlers: seq<Handler>, from: nat,
          chain: seq<Fragment>)
    requires from < |handlers| && handlers[from](chain) && InRegistrationOrder(calls, handlers, from + 1, chain)
    ensures InRegistrationOrder([(from, chain)] + calls, handlers, from, chain)
  {
    var all := [(from, chain)] + calls;
    forall k | 0 < k < |all| ensures from < all[k].0 { assert all[k] == calls[k - 1] && calls[k - 1] in calls; }
    forall j, k | 0 <= j < k < |all| ensures all[j].0 < all[k].0 {
      if j > 0 { assert all[j] == calls[j - 1] && all[k] == calls[k - 1]; }
    }
  }

  // ----- Fragment trees --------------------------------------------------------------------------------

  ghost predicate DistinctOrigins(fs: seq<Fragment>) {
    forall i, j :: 0 <= i < j < |fs| ==> fs[i].origin != fs[j].origin
  }

  /** `f` comes down from `root` through `n` parent links within the tree. */
  ghost predicate Descends(tree: seq<Fragment>, root: Fragment, f: Fragment, n: nat)
    decreases n
  {
    if n == 0 then f == root
    else exists p :: p in tree && f.previousOrigin == p.origin && Descends(tree, root, p, n - 1)
  }

  ghost predicate ComesDown(tree: seq<Fragment>, root: Fragment, f: Fragment) {
    exists n: nat :: Descends(tree, root, f, n)
  }

  /** A finite fragment tree of one chain: distinct non-null origins, one root, everything comes
      down from it, and every fragment announces its number of children. */
  ghost predicate Tree(tree: seq<Fragment>, root: Fragment) {
    && root in tree && root.previousOrigin == NULL_ORIGIN
    && DistinctOrigins(tree)
    && (forall f :: f in tree ==> f.origin != NULL_ORIGIN && f.chainId == root.chainId)
    && (forall f :: f in tree ==> ComesDown(tree, root, f))
    && (forall f :: f in tree ==> Children(tree, f.origin) == f.nextCount)
  }

  lemma {:induction false} ChildrenConcat(a: seq<Fragment>, b: seq<Fragment>, o: Origin)
    ensures Children(a + b, o) == Children(a, o) + Children(b, o)
  {
    if a == [] {
      assert a + b == b;
    } else {
      assert (a + b)[1..] == a[1..] + b;
      ChildrenConcat(a[1..], b, o);
    }
  }

  lemma {:induction false} ChildCounts(fs: seq<Fragment>, f: Fragment)
    requires f in fs
    ensures Children(fs, f.previousOrigin) > 0
  {
    if fs[0] == f {
    } else {
      ChildCounts(fs[1..], f);
    }
  }

  /** No fragment of `rest` has its parent in `part`. */
  ghost predicate Closed(part: seq<Fragment>, rest: seq<Fragment>) {
    forall p, f :: p in part && f in rest ==> f.previousOrigin != p.origin
  }

  /** A collection is complete exactly when no missing fragment is a child of a collected one. */
  lemma {:induction false} CompleteIffClosed(part: seq<Fragment>, rest: seq<Fragment>, root: Fragment)
    requires Tree(part + rest, root) && part != []
    ensures Complete(part) <==> Closed(part, rest)
  {
    forall p | p in part ensures Children(part, p.origin) + Children(rest, p.origin) == p.nextCount {
      ChildrenConcat(part, rest, p.origin);
      assert p in part + rest;
    }
    forall p, f | Complete(part) && p in part && f in rest ensures f.previousOrigin != p.origin {
      if f.previousOrigin == p.origin { ChildCounts(rest, f); }
    }
    if Closed(part, rest) {
      forall p | p in part ensures Children(rest, p.origin) == 0 {
        NoChildren(rest, p.origin);
      }
    }
  }

  lemma {:induction false} NoChildren(fs: seq<Fragment>, o: Origin)
    requires forall f :: f in fs ==> f.previousOrigin != o
    ensures Children(fs, o) == 0
  {
    if fs == [] {
    } else {
      NoChildren(fs[1..], o);
    }
  }

  /** Whatever comes down from a collected root is collected, if the collection is closed. */
  lemma {:induction false} ClosedReaches(part: seq<Fragment>, rest: seq<Fragment>, root: Fragment, f: Fragment, n: nat)
    requires Closed(part, rest) && root in part && f in part + rest && Descends(part + rest, root, f, n)
    ensures f in part
    decreases n
  {
    if n == 0 {
    } else {
      var p :| p in part + rest && f.previousOrigin == p.origin && Descends(part + rest, root, p, n - 1);
      ClosedReaches(part, rest, root, p, n - 1);
    }
  }

  lemma {:induction false} InBoth(part: seq<Fragment>, rest: seq<Fragment>, f: Fragment)
    requires DistinctOrigins(part + rest) && rest != [] && f == rest[0]
    ensures f !in part
  {
    forall i | 0 <= i < |part| ensures part[i] != f {
      assert (part + rest)[i].origin != (part + rest)[|part|].origin;
    }
  }

  /** Once the root is there, only the whole tree is complete. */
  lemma {:induction false} RootedIncomplete(part: seq<Fragment>, rest: seq<Fragment>, root: Fragment)
    requires Tree(part + rest, root) && root in part && rest != []
    ensures !Complete(part)
  {
    if Complete(part) {
      CompleteIffClosed(part, rest, root);
      var f := rest[0];
      assert f in part + rest;
      var n: nat :| Descends(part + rest, root, f, n);
      ClosedReaches(part, rest, root, f, n);
      InBoth(part, rest, f);
      assert false;
    }
  }

  // ----- Interleaved delivery ---------------------------------------------------------------------------

  function Deliver(s: State, stream: seq<Fragment>): State
    decreases stream
  {
    if stream == [] then s else Deliver(Add(s, stream[0]), stream[1..])
  }

  const NOTHING := State(map[], [])

  /** The fragments of one chain, in order of arrival. */
  function Project(stream: seq<Fragment>, c: nat): seq<Fragment> {
    if stream == [] then []
    else (if stream[0].chainId == c then [stream[0]] else []) + Project(stream[1..], c)
  }

  /** The completions that closed on a fragment of the chain. */
  function DoneOf(done: seq<seq<Fragment>>, c: nat): seq<seq<Fragment>> {
    if done == [] then []
    else (if done[0] != [] && done[0][|done[0]| - 1].chainId == c then [done[0]] else []) + DoneOf(done[1..], c)
  }

  lemma {:induction false} DoneOfSnoc(done: seq<seq<Fragment>>, fs: seq<Fragment>, c: nat)
    ensures DoneOf(done + [fs], c)
         == DoneOf(done, c) + (if fs != [] && fs[|fs| - 1].chainId == c then [fs] else [])
  {
    hide DoneOf;
    if done == [] {
      assert [] + [fs] == [fs] + [];
      DoneOfCons(fs, [], c);
    } else {
      assert done + [fs] == [done[0]] + (done[1..] + [fs]) && done == [done[0]] + done[1..];
      DoneOfSnoc(done[1..], fs, c);
      DoneOfCons(done[0], done[1..] + [fs], c);
      DoneOfCons(done[0], done[1..], c);
    }
  }

  lemma {:induction false} DoneOfCons(fs: seq<Fragment>, done: seq<seq<Fragment>>, c: nat)
    ensures DoneOf([fs] + done, c)
         == if fs != [] && fs[|fs| - 1].chainId == c then [fs] + DoneOf(done, c) else DoneOf(done, c)
    ensures DoneOf([], c) == []
  {
    assert ([fs] + done)[1..] == done;
  }

  /** One arrival, seen from one chain. */
  lemma {:induction false} AddSeen(s: State, f: Fragment, c: nat)
    ensures var t := Add(s, f);
            var fs := Collected(s, c) + [f];
            && (f.chainId != c ==> Collected(t, c) == Collected(s, c) && DoneOf(t.done, c) == DoneOf(s.done, c))
            && (f.chainId == c && Complete(fs) ==>
                Collected(t, c) == [] && DoneOf(t.done, c) == DoneOf(s.done, c) + [fs])
            && (f.chainId == c && !Complete(fs) ==> Collected(t, c) == fs && DoneOf(t.done, c) == DoneOf(s.done, c))
  {
    DoneOfSnoc(s.done, Collected(s, f.chainId) + [f], c);
  }

  /** As long as what has arrived of a chain is never complete, it just accumulates. */
  lemma {:induction false} Accumulates(s: State, stream: seq<Fragment>, c: nat)
    requires forall k :: 0 < k <= |Project(stream, c)| ==> !Complete(Collected(s, c) + Project(stream, c)[..k])
    ensures Collected(Deliver(s, stream), c) == Collected(s, c) + Project(stream, c)
    ensures DoneOf(Deliver(s, stream).done, c) == DoneOf(s.done, c)
    decreases stream
  {
    hide Complete, Add, Collected, DoneOf, Project;
    if stream == [] {
      ProjectCons(c, []);
    } else {
      var f, rest := stream[0], Project(stream[1..], c);
      AddSeen(s, f, c);
      ProjectCons(c, stream);
      if f.chainId == c {
        StillIncomplete(Collected(s, c), f, rest);
        assert Collected(s, c) + ([f] + rest) == Collected(s, c) + [f] + rest;
      }
      Accumulates(Add(s, f), stream[1..], c);
    }
  }

  lemma {:induction false} ProjectCons(c: nat, stream: seq<Fragment>)
    ensures Project([], c) == []
    ensures stream != [] ==>
              Project(stream, c) == if stream[0].chainId == c then [stream[0]] + Project(stream[1..], c)
                  else Project(stream[1..], c)
  {
  }

  lemma {:induction false} StillIncomplete(part: seq<Fragment>, f: Fragment, rest: seq<Fragment>)
    requires forall k :: 0 < k <= |[f] + rest| ==> !Complete(part + ([f] + rest)[..k])
    ensures !Complete(part + [f])
    ensures forall k :: 0 < k <= |rest| ==> !Complete(part + [f] + rest[..k])
  {
    hide Complete;
    assert ([f] + rest)[..1] == [f];
    forall k | 0 < k <= |rest| ensures !Complete(part + [f] + rest[..k]) {
      assert ([f] + rest)[..k + 1] == [f] + rest[..k];
      assert part + ([f] + rest[..k]) == part + [f] + rest[..k];
    }
  }

  lemma {:induction false} DeliverSplit(s: State, a: seq<Fragment>, b: seq<Fragment>)
    ensures Deliver(s, a + b) == Deliver(Deliver(s, a), b)
    decreases a
  {
    if a == [] {
      assert a + b == b;
    } else {
      assert (a + b)[1..] == a[1..] + b;
      DeliverSplit(Add(s, a[0]), a[1..], b);
    }
  }

  /** The arrival that brings the `k`-th fragment of the chain. */
  lemma {:induction false} ArrivalOf(stream: seq<Fragment>, c: nat, k: nat) returns (i: nat)
    requires 0 < k <= |Project(stream, c)|
    ensures i < |stream| && stream[i] == Project(stream, c)[k - 1] && stream[i].chainId == c
    ensures Project(stream[..i], c) == Project(stream, c)[..k - 1]
    ensures Project(stream[i + 1..], c) == Project(stream, c)[k..]
  {
    if stream[0].chainId == c && k == 1 {
      i := 0;
      assert stream[..0] == [];
    } else {
      var j := ArrivalOf(stream[1..], c, if stream[0].chainId == c then k - 1 else k);
      i := j + 1;
      assert stream[..i][1..] == stream[1..][..j];
      assert stream[i + 1..] == stream[1..][j + 1..];
    }
  }

  /** The `k`-th fragment completes what has arrived of the chain, and no earlier one did: at its
      arrival, and not before, that much is handed on. */
  lemma {:induction false} FirstCompletion(stream: seq<Fragment>, c: nat, k: nat) returns (i: nat)
    requires 0 < k <= |Project(stream, c)|
    requires Complete(Project(stream, c)[..k])
    requires forall j :: 0 < j < k ==> !Complete(Project(stream, c)[..j])
    ensures i < |stream|
    ensures DoneOf(Deliver(NOTHING, stream[..i]).done, c) == []
    ensures DoneOf(Deliver(NOTHING, stream[..i + 1]).done, c) == [Project(stream, c)[..k]]
    ensures Collected(Deliver(NOTHING, stream[..i + 1]), c) == []
    ensures stream[i] == Project(stream, c)[k - 1] && Project(stream[i + 1..], c) == Project(stream, c)[k..]
  {
    hide Complete;
    var d := Project(stream, c);
    i := ArrivalOf(stream, c, k);
    var before := Project(stream[..i], c);
    forall j | 0 < j <= |before| ensures !Complete(Collected(NOTHING, c) + before[..j]) {
      assert Collected(NOTHING, c) + before[..j] == d[..j];
    }
    Accumulates(NOTHING, stream[..i], c);
    var s := Deliver(NOTHING, stream[..i]);
    assert stream[..i + 1] == stream[..i] + [stream[i]];
    DeliverSplit(NOTHING, stream[..i], [stream[i]]);
    assert Deliver(s, [stream[i]]) == Add(s, stream[i]);
    assert Collected(s, c) + [stream[i]] == d[..k];
    AddSeen(s, stream[i], c);
  }

  /** Completions only accumulate. */
  lemma {:induction false} DoneGrows(s: State, stream: seq<Fragment>, c: nat)
    ensures DoneOf(s.done, c) <= DoneOf(Deliver(s, stream).done, c)
    decreases stream
  {
    if stream == [] {
    } else {
      AddSeen(s, stream[0], c);
      DoneGrows(Add(s, stream[0]), stream[1..], c);
    }
  }

  /** Every proper non-empty beginning of the arrivals is incomplete. */
  ghost predicate NeverEarly(d: seq<Fragment>) {
    forall k :: 0 < k < |d| ==> !Complete(d[..k])
  }

  /** The chain is handed on once, as a whole, by the arrival of its last fragment. */
  ghost predicate OnceWhole(stream: seq<Fragment>, c: nat) {
    && DoneOf(Deliver(NOTHING, stream).done, c) == [Project(stream, c)]
    && (forall i :: 0 <= i <= |stream| && |Project(stream[..i], c)| < |Project(stream, c)| ==>
          DoneOf(Deliver(NOTHING, stream[..i]).done, c) == [])
  }

  lemma {:induction false} ProjectPrefix(stream: seq<Fragment>, c: nat, i: nat)
    requires i <= |stream|
    ensures Project(stream, c) == Project(stream[..i], c) + Project(stream[i..], c)
  {
    if i == 0 {
      assert stream[..0] == [] && stream[0..] == stream;
    } else {
      ProjectPrefix(stream[1..], c, i - 1);
      assert stream[..i][1..] == stream[1..][..i - 1];
      assert stream[i..] == stream[1..][i - 1..];
    }
  }

  lemma {:induction false} OnceWholeIfNeverEarly(stream: seq<Fragment>, c: nat)
    requires var d := Project(stream, c); d != [] && Complete(d) && NeverEarly(d)
    ensures OnceWhole(stream, c)
  {
    hide Complete;
    var d := Project(stream, c);
    assert d[..|d|] == d;
    var i := FirstCompletion(stream, c, |d|);
    var s, rest := Deliver(NOTHING, stream[..i + 1]), stream[i + 1..];
    assert stream == stream[..i + 1] + rest;
    DeliverSplit(NOTHING, stream[..i + 1], rest);
    Accumulates(s, rest, c);
    forall k | 0 <= k <= |stream| && |Project(stream[..k], c)| < |d|
        ensures DoneOf(Deliver(NOTHING, stream[..k]).done, c) == [] {
      var p := Project(stream[..k], c);
      ProjectPrefix(stream, c, k);
      forall j | 0 < j <= |p| ensures !Complete(Collected(NOTHING, c) + p[..j]) {
        assert Collected(NOTHING, c) + p[..j] == d[..j];
      }
      Accumulates(NOTHING, stream[..k], c);
    }
  }

  lemma {:induction false} FirstEarly(d: seq<Fragment>) returns (k: nat)
    requires !NeverEarly(d)
    ensures 0 < k < |d| && Complete(d[..k]) && forall j :: 0 < j < k ==> !Complete(d[..j])
  {
    hide Complete;
    k := 1;
    while k < |d| && !Complete(d[..k])
      invariant 0 < k && (k <= |d| || d == []) && forall j :: 0 < j < k && j < |d| ==> !Complete(d[..j])
    {
      k := k + 1;
    }
  }

  lemma {:induction false} NotOnceIfEarly(stream: seq<Fragment>, c: nat)
    requires !NeverEarly(Project(stream, c))
    ensures !OnceWhole(stream, c)
  {
    hide Complete;
    var d := Project(stream, c);
    var k := FirstEarly(d);
    var i := FirstCompletion(stream, c, k);
    assert stream == stream[..i + 1] + stream[i + 1..];
    DeliverSplit(NOTHING, stream[..i + 1], stream[i + 1..]);
    DoneGrows(Deliver(NOTHING, stream[..i + 1]), stream[i + 1..], c);
    var all := DoneOf(Deliver(NOTHING, stream).done, c);
    assert all[0] == d[..k];
  }

  // ----- When trees complete ------------------------------------------------------------------------------

  /** A fragment tree in order of arrival, its root first. */
  ghost predicate RootFirst(d: seq<Fragment>) {
    d != [] && Tree(d, d[0])
  }

  /** For every fragment tree delivered root first and then in any order, interleaved with any
      other fragments: its chain completes exactly once, on its last fragment, as a whole. */
  lemma {:induction false} RootFirstCompletesOnce(stream: seq<Fragment>, c: nat)
    requires RootFirst(Project(stream, c))
    ensures OnceWhole(stream, c)
  {
    var d := Project(stream, c);
    forall k | 0 < k < |d| ensures !Complete(d[..k]) {
      assert d == d[..k] + d[k..];
      assert d[..k][0] == d[0];
      RootedIncomplete(d[..k], d[k..], d[0]);
    }
    OnceWholeIfNeverEarly(stream, c);
  }

  // ----- What the handlers get ----------------------------------------------------------------

  /** What the handlers are given for several completed chains, in order. */
  function AllGiven(handlers: seq<Handler>, done: seq<seq<Fragment>>): seq<(nat, seq<Fragment>)> {
    if done == [] then [] else Given(handlers, 0, done[0]) + AllGiven(handlers, done[1..])
  }

  /** Those of the handler calls whose chain closed on a fragment of chain `c`. */
  function GivenOf(calls: seq<(nat, seq<Fragment>)>, c: nat): seq<(nat, seq<Fragment>)> {
    if calls == [] then []
    else
      var fs := calls[0].1;
      (if fs != [] && fs[|fs| - 1].chainId == c then [calls[0]] else []) + GivenOf(calls[1..], c)
  }

  lemma {:induction false} AllGivenSnoc(handlers: seq<Handler>, done: seq<seq<Fragment>>, chain: seq<Fragment>)
    ensures AllGiven(handlers, done + [chain]) == AllGiven(handlers, done) + Given(handlers, 0, chain)
  {
    if done == [] {
      assert done + [chain] == [chain] && [chain][1..] == [];
    } else {
      assert (done + [chain])[0] == done[0] && (done + [chain])[1..] == done[1..] + [chain];
      AllGivenSnoc(handlers, done[1..], chain);
      assert AllGiven(handlers, done + [chain])
          == Given(handlers, 0, done[0]) + (AllGiven(handlers, done[1..]) + Given(handlers, 0, chain));
    }
  }

  lemma {:induction false} GivenOfFront(first: (nat, seq<Fragment>), rest: seq<(nat, seq<Fragment>)>, c: nat)
    ensures GivenOf([first] + rest, c) == GivenOf([first], c) + GivenOf(rest, c)
    ensures GivenOf([], c) == []
  {
    assert ([first] + rest)[1..] == rest && [first][1..] == [];
  }

  lemma {:induction false} GivenOfConcat(a: seq<(nat, seq<Fragment>)>, b: seq<(nat, seq<Fragment>)>, c: nat)
    ensures GivenOf(a + b, c) == GivenOf(a, c) + GivenOf(b, c)
  {
    hide GivenOf;
    if a == [] {
      assert a + b == b;
      GivenOfFront((0, []), [], c);
      assert [] + GivenOf(b, c) == GivenOf(b, c);
    } else {
      assert a == [a[0]] + a[1..] && a + b == [a[0]] + (a[1..] + b);
      GivenOfConcat(a[1..], b, c);
      GivenOfFront(a[0], a[1..], c);
      GivenOfFront(a[0], a[1..] + b, c);
    }
  }

  lemma {:induction false} GivenIsOf(handlers: seq<Handler>, from: nat, chain: seq<Fragment>, c: nat)
    requires from <= |handlers|
    ensures GivenOf(Given(handlers, from, chain), c)
         == if chain != [] && chain[|chain| - 1].chainId == c then Given(handlers, from, chain) else []
    decreases |handlers| - from
  {
    if from == |handlers| {
    } else {
      GivenIsOf(handlers, from + 1, chain, c);
      var first := if handlers[from](chain) then [(from, chain)] else [];
      GivenOfConcat(first, Given(handlers, from + 1, chain), c);
      if first != [] { assert first[1..] == []; }
    }
  }

  /** The handler calls of one chain are those for its completions. */
  lemma {:induction false} GivenOfChain(handlers: seq<Handler>, done: seq<seq<Fragment>>, c: nat)
    ensures GivenOf(AllGiven(handlers, done), c) == AllGiven(handlers, DoneOf(done, c))
  {
    hide Given;
    if done == [] {
    } else {
      GivenOfChain(handlers, done[1..], c);
      GivenIsOf(handlers, 0, done[0], c);
      GivenOfConcat(Given(handlers, 0, done[0]), AllGiven(handlers, done[1..]), c);
      var own := if done[0] != [] && done[0][|done[0]| - 1].chainId == c then [done[0]] else [];
      assert (own + DoneOf(done[1..], c))[|own|..] == DoneOf(done[1..], c);
    }
  }

  lemma {:induction false} GivenFront(handlers: seq<Handler>, from: nat, chain: seq<Fragment>)
    requires from < |handlers|
    ensures Given(handlers, from, chain)
         == if handlers[from](chain) then [(from, chain)] + Given(handlers, from + 1, chain)
            else Given(handlers, from + 1, chain)
  {
  }

  /** How often handler `i` is called with the chain. */
  function Times(calls: seq<(nat, seq<Fragment>)>, i: nat, chain: seq<Fragment>): nat {
    if calls == [] then 0 else (if calls[0] == (i, chain) then 1 else 0) + Times(calls[1..], i, chain)
  }

  lemma {:induction false} TimesFront(first: (nat, seq<Fragment>), calls: seq<(nat, seq<Fragment>)>, i: nat,
          chain: seq<Fragment>)
    ensures Times([first] + calls, i, chain) == (if first == (i, chain) then 1 else 0) + Times(calls, i, chain)
  {
    assert ([first] + calls)[1..] == calls;
  }

  /** Each accepting handler is called once with the chain, the others never. */
  lemma {:induction false} EachAcceptingOnce(handlers: seq<Handler>, from: nat, chain: seq<Fragment>, i: nat)
    requires from <= |handlers|
    ensures Times(Given(handlers, from, chain), i, chain)
         == if from <= i < |handlers| && handlers[i](chain) then 1 else 0
    decreases |handlers| - from
  {
    if from == |handlers| {
    } else {
      hide Given, Times;
      EachAcceptingOnce(handlers, from + 1, chain, i);
      GivenFront(handlers, from, chain);
      TimesFront((from, chain), Given(handlers, from + 1, chain), i, chain);
    }
  }

  /** The aggregator fed with a stream: its state is the one the statements speak of, and its
      handlers have been called for exactly the chains completed on the way. */
  method Feed(aggregator: IacaAggregator, stream: seq<Fragment>)
    requires aggregator.Valid()
    modifies aggregator
    ensures aggregator.Valid() && aggregator.handlers == old(aggregator.handlers)
    ensures aggregator.Abs() == Deliver(old(aggregator.Abs()), stream)
    ensures old(aggregator.processed) == AllGiven(aggregator.handlers, old(aggregator.done)) ==>
              aggregator.processed == AllGiven(aggregator.handlers, aggregator.done)
  {
    hide Add, Given, AllGiven;
    ghost var start := aggregator.Abs();
    assert stream[0..] == stream;
    for i := 0 to |stream|
      invariant aggregator.Valid() && aggregator.handlers == old(aggregator.handlers)
      invariant Deliver(aggregator.Abs(), stream[i..]) == Deliver(start, stream)
      invariant old(aggregator.processed) == AllGiven(aggregator.handlers, old(aggregator.done)) ==>
                  aggregator.processed == AllGiven(aggregator.handlers, aggregator.done)
    {
      ghost var before := aggregator.Abs();
      assert stream[i..][1..] == stream[i + 1..];
      aggregator.AddFragment(stream[i]);
      AddDone(before, stream[i]);
      AllGivenSnoc(aggregator.handlers, before.done, Collected(before, stream[i].chainId) + [stream[i]]);
    }
    assert stream[|stream|..] == [];
  }

  lemma {:induction false} AddDone(s: State, f: Fragment)
    ensures var fs, t := Collected(s, f.chainId) + [f], Add(s, f);
            t.done == if |t.done| > |s.done| then s.done + [fs] else s.done
  {
  }

  /** For every tree delivered root first, interleaved with other chains: over the whole stream each
      handler that accepts the tree is called once with it, whole, and no handler is called with
      anything else of that chain; before its last fragment, no handler is called for it at all. */
  lemma {:induction false} HandedOnOnce(handlers: seq<Handler>, stream: seq<Fragment>, c: nat, i: nat)
    requires RootFirst(Project(stream, c))
    ensures var tree := Project(stream, c);
            var calls := GivenOf(AllGiven(handlers, Deliver(NOTHING, stream).done), c);
            && calls == Given(handlers, 0, tree)
            && Times(calls, i, tree) == (if i < |handlers| && handlers[i](tree) then 1 else 0)
    ensures forall k :: 0 <= k <= |stream| && |Project(stream[..k], c)| < |Project(stream, c)| ==>
              GivenOf(AllGiven(handlers, Deliver(NOTHING, stream[..k]).done), c) == []
  {
    hide Given, RootFirst, Deliver, Project;
    var tree := Project(stream, c);
    RootFirstCompletesOnce(stream, c);
    GivenOfChain(handlers, Deliver(NOTHING, stream).done, c);
    assert [tree][1..] == [] && Given(handlers, 0, tree) + [] == Given(handlers, 0, tree);
    EachAcceptingOnce(handlers, 0, tree, i);
    forall k | 0 <= k <= |stream| && |Project(stream[..k], c)| < |Project(stream, c)|
      ensures GivenOf(AllGiven(handlers, Deliver(NOTHING, stream[..k]).done), c) == []
    {
      GivenOfChain(handlers, Deliver(NOTHING, stream[..k]).done, c);
    }
  }

  /** In whatever order a tree arrives: it completes once and whole exactly when, up to the
      arrival of its root, what has arrived always still misses a child. */
  lemma {:induction false} CompletesOnceIff(stream: seq<Fragment>, c: nat, r: nat)
    requires var d := Project(stream, c); r < |d| && Tree(d, d[r])
    ensures OnceWhole(stream, c) <==>
              forall k :: 0 < k <= r ==> !Closed(Project(stream, c)[..k], Project(stream, c)[k..])
  {
    var d := Project(stream, c);
    forall k | 0 < k < |d| ensures Complete(d[..k]) <==> k <= r && Closed(d[..k], d[k..]) {
      assert d == d[..k] + d[k..];
      CompleteIffClosed(d[..k], d[k..], d[r]);
      if k > r {
        assert d[..k][r] == d[r];
        RootedIncomplete(d[..k], d[k..], d[r]);
      }
    }
    if NeverEarly(d) { OnceWholeIfNeverEarly(stream, c); } else { NotOnceIfEarly(stream, c); }
  }

  /** A leaf that arrives before its root is handed on alone, and the root, announcing a child
      that never counts, stays pending: the order of the repository's own example. */
  lemma {:induction false} LeafFirstCompletesAlone(root: Fragment, leaf: Fragment)
    requires root.chainId == leaf.chainId && root.nextCount == 1 && leaf.nextCount == 0
    requires root.previousOrigin == NULL_ORIGIN && leaf.previousOrigin == root.origin
    requires root.origin != leaf.origin && root.origin != NULL_ORIGIN && leaf.origin != NULL_ORIGIN
    ensures Tree([leaf, root], root) && Tree([root, leaf], root)
    ensures Deliver(NOTHING, [leaf, root]) == State(map[root.chainId := [root]], [[leaf]])
    ensures Deliver(NOTHING, [root, leaf]).done == [[root, leaf]]
  {
    hide Complete, Add, Deliver;
    var a, b := [leaf, root], [root, leaf];
    forall o ensures Children(a, o) == Children([leaf], o) + Children([root], o)
             ensures Children(b, o) == Children([leaf], o) + Children([root], o) {
      ChildrenConcat([leaf], [root], o);
      ChildrenConcat([root], [leaf], o);
      ChildrenOne(leaf, o);
      ChildrenOne(root, o);
      assert [leaf] + [root] == a && [root] + [leaf] == b;
    }
    assert Descends(a, root, root, 0) && Descends(b, root, root, 0);
    assert Descends(a, root, leaf, 1) && Descends(b, root, leaf, 1);
    LeafSteps(root, leaf);
  }

  lemma {:induction false} LeafSteps(root: Fragment, leaf: Fragment)
    requires root.chainId == leaf.chainId && root.nextCount == 1 && leaf.nextCount == 0
    requires root.previousOrigin == NULL_ORIGIN && leaf.previousOrigin == root.origin
    requires root.origin != leaf.origin && root.origin != NULL_ORIGIN && leaf.origin != NULL_ORIGIN
    ensures Deliver(NOTHING, [leaf, root]) == State(map[root.chainId := [root]], [[leaf]])
    ensures Deliver(NOTHING, [root, leaf]).done == [[root, leaf]]
  {
    hide Complete, Add, Deliver;
    LeafCompletes(root, leaf);
    var c := root.chainId;
    AddCloses(NOTHING, leaf, [leaf]);
    AddOpens(State(map[], [[leaf]]), root, [root]);
    AddOpens(NOTHING, root, [root]);
    AddCloses(State(map[c := [root]], []), leaf, [root, leaf]);
    assert [] + [[leaf]] == [[leaf]] && [] + [[root, leaf]] == [[root, leaf]];
    assert Add(NOTHING, leaf) == State(map[], [[leaf]]);
    DeliverTwo(NOTHING, leaf, root);
    DeliverTwo(NOTHING, root, leaf);
  }

  lemma {:induction false} AddCloses(s: State, f: Fragment, fs: seq<Fragment>)
    requires Complete(fs) && fs == Collected(s, f.chainId) + [f]
    ensures Add(s, f).done == s.done + [fs]
    ensures s.pending == map[] ==> Add(s, f).pending == map[]
  {
  }

  lemma {:induction false} AddOpens(s: State, f: Fragment, fs: seq<Fragment>)
    requires !Complete(fs) && fs == Collected(s, f.chainId) + [f]
    ensures Add(s, f) == s.(pending := s.pending[f.chainId := fs])
  {
  }

  lemma {:induction false} DeliverTwo(s: State, f: Fragment, g: Fragment)
    ensures Deliver(s, [f, g]) == Add(Add(s, f), g)
  {
    assert [f, g][1..] == [g] && [g][1..] == [];
    assert Deliver(Add(s, f), [g]) == Deliver(Add(Add(s, f), g), []);
  }

  lemma {:induction false} LeafCompletes(root: Fragment, leaf: Fragment)
    requires root.nextCount == 1 && leaf.nextCount == 0
    requires root.previousOrigin == NULL_ORIGIN && leaf.previousOrigin == root.origin
    requires root.origin != leaf.origin && root.origin != NULL_ORIGIN && leaf.origin != NULL_ORIGIN
    ensures Complete([leaf]) && !Complete([root]) && Complete([root, leaf])
  {
    hide Children;
    assert root in [root];
    ChildrenOne(root, root.origin);
    ChildrenOne(leaf, leaf.origin);
    ChildrenOne(leaf, root.origin);
    ChildrenOne(root, leaf.origin);
    ChildrenConcat([root], [leaf], root.origin);
    ChildrenConcat([root], [leaf], leaf.origin);
    assert [root] + [leaf] == [root, leaf];
  }

  lemma {:induction false} ChildrenOne(f: Fragment, o: Origin)
    ensures Children([f], o) == if f.previousOrigin == o then 1 else 0
  {
    assert [f][1..] == [];
  }

  // ----- The documented sum rule ----------------------------------------------------------------------------

  function SumNext(fs: seq<Fragment>): int {
    if fs == [] then 0 else fs[0].nextCount + SumNext(fs[1..])
  }

  /** Over all of `fs`, the number of children found in `among`. */
  function SumChildren(fs: seq<Fragment>, among: seq<Fragment>): nat {
    if fs == [] then 0 else Children(among, fs[0].origin) + SumChildren(fs[1..], among)
  }

  function Count(fs: seq<Fragment>, o: Origin): nat {
    if fs == [] then 0 else (if fs[0].origin == o then 1 else 0) + Count(fs[1..], o)
  }

  lemma {:induction false} SumChildrenStep(fs: seq<Fragment>, among: seq<Fragment>)
    requires among != []
    ensures SumChildren(fs, among) == SumChildren(fs, among[1..]) + Count(fs, among[0].previousOrigin)
  {
    if fs == [] {
    } else {
      SumChildrenStep(fs[1..], among);
    }
  }

  lemma {:induction false} CountAbsent(fs: seq<Fragment>, o: Origin)
    requires forall f :: f in fs ==> f.origin != o
    ensures Count(fs, o) == 0
  {
    if fs == [] {
    } else {
      CountAbsent(fs[1..], o);
    }
  }

  lemma {:induction false} CountOnce(fs: seq<Fragment>, k: nat)
    requires DistinctOrigins(fs) && k < |fs|
    ensures Count(fs, fs[k].origin) == 1
  {
    if k == 0 {
      forall f | f in fs[1..] ensures f.origin != fs[0].origin {
        var j :| 0 <= j < |fs| - 1 && fs[1..][j] == f;
        assert fs[j + 1] == f;
      }
      CountAbsent(fs[1..], fs[0].origin);
    } else {
      assert fs[0].origin != fs[k].origin;
      CountOnce(fs[1..], k - 1);
    }
  }

  /** The fragments of `among` whose parent is not in `fs`; the root is one of them. */
  function Orphans(among: seq<Fragment>, fs: seq<Fragment>): nat {
    if among == [] then 0
    else (if Count(fs, among[0].previousOrigin) == 0 then 1 else 0) + Orphans(among[1..], fs)
  }

  lemma {:induction false} CountAtMostOnce(fs: seq<Fragment>, o: Origin)
    requires DistinctOrigins(fs)
    ensures Count(fs, o) <= 1
  {
    if k :| 0 <= k < |fs| && fs[k].origin == o {
      CountOnce(fs, k);
    } else {
      forall f | f in fs ensures f.origin != o {
        var k :| 0 <= k < |fs| && fs[k] == f;
      }
      CountAbsent(fs, o);
    }
  }

  lemma {:induction false} NoSum(fs: seq<Fragment>)
    ensures SumChildren(fs, []) == 0
  {
    if fs == [] {
    } else {
      NoSum(fs[1..]);
    }
  }

  /** Double counting the links from `among` to parents in `fs`: a fragment is a child of exactly
      one of them, or an orphan. */
  lemma {:induction false} LinksCounted(fs: seq<Fragment>, among: seq<Fragment>)
    requires DistinctOrigins(fs)
    ensures SumChildren(fs, among) + Orphans(among, fs) == |among|
    decreases among
  {
    hide DistinctOrigins, SumChildren, Count;
    if among == [] {
      NoSum(fs);
    } else {
      SumChildrenStep(fs, among);
      CountAtMostOnce(fs, among[0].previousOrigin);
      LinksCounted(fs, among[1..]);
    }
  }

  lemma {:induction false} SumChildrenConcat(fs: seq<Fragment>, a: seq<Fragment>, b: seq<Fragment>)
    ensures SumChildren(fs, a + b) == SumChildren(fs, a) + SumChildren(fs, b)
  {
    if fs == [] {
    } else {
      SumChildrenConcat(fs[1..], a, b);
      ChildrenConcat(a, b, fs[0].origin);
    }
  }

  /** In a tree the announced children are the ones there are. */
  lemma {:induction false} AnnouncedSum(fs: seq<Fragment>, tree: seq<Fragment>)
    requires forall f :: f in fs ==> Children(tree, f.origin) == f.nextCount
    ensures SumNext(fs) == SumChildren(fs, tree)
  {
    if fs == [] {
    } else {
      assert fs[0] in fs;
      AnnouncedSum(fs[1..], tree);
    }
  }

  lemma {:induction false} NoneMissing(part: seq<Fragment>, rest: seq<Fragment>)
    ensures SumChildren(part, rest) == 0 <==> forall p :: p in part ==> Children(rest, p.origin) == 0
  {
    if part == [] {
    } else {
      NoneMissing(part[1..], rest);
      assert forall p :: p in part <==> p == part[0] || p in part[1..];
    }
  }

  /** For any part of a tree, in any order: the test of the code asks that no child is missing; the
      documented sum rule asks that the part has one orphan more than it misses children. */
  lemma {:induction false} RulesCompared(part: seq<Fragment>, rest: seq<Fragment>, root: Fragment)
    requires Tree(part + rest, root) && part != []
    ensures var missing, orphans := SumChildren(part, rest), Orphans(part, part);
            && (Complete(part) <==> missing == 0)
            && (SumNext(part) == |part| - 1 <==> orphans == missing + 1)
  {
    var tree := part + rest;
    forall f | f in part ensures Children(tree, f.origin) == f.nextCount { assert f in tree; }
    AnnouncedSum(part, tree);
    SumChildrenConcat(part, part, rest);
    forall i, j | 0 <= i < j < |part| ensures part[i].origin != part[j].origin {
      assert tree[i] == part[i] && tree[j] == part[j];
    }
    LinksCounted(part, part);
    NoneMissing(part, rest);
    forall f | f in part ensures Children(part, f.origin) + Children(rest, f.origin) == f.nextCount {
      ChildrenConcat(part, rest, f.origin);
    }
  }

  /** So the two rules agree on a part of a tree exactly when either nothing is missing and the only
      orphan is the root, or something is missing and the orphans do not make up for it. */
  lemma {:induction false} SumRuleAgreesIff(part: seq<Fragment>, rest: seq<Fragment>, root: Fragment)
    requires Tree(part + rest, root) && part != []
    ensures (Complete(part) <==> SumNext(part) == |part| - 1)
       <==> (SumChildren(part, rest) == 0 <==> Orphans(part, part) == SumChildren(part, rest) + 1)
  {
    RulesCompared(part, rest, root);
  }

  /** Every arrived fragment but the root arrived after its parent. */
  ghost predicate ParentFirst(d: seq<Fragment>) {
    && d != [] && d[0].previousOrigin == NULL_ORIGIN
    && forall i :: 0 < i < |d| ==> exists j :: 0 <= j < i && d[i].previousOrigin == d[j].origin
  }

  /** Fragments that all have their parent in `fs` are no orphans. */
  lemma {:induction false} NoOrphans(among: seq<Fragment>, fs: seq<Fragment>)
    requires forall f :: f in among ==> exists j :: 0 <= j < |fs| && f.previousOrigin == fs[j].origin
    ensures Orphans(among, fs) == 0
  {
    if among == [] {
    } else {
      assert among[0] in among;
      var j :| 0 <= j < |fs| && among[0].previousOrigin == fs[j].origin;
      CountPresent(fs, j);
      NoOrphans(among[1..], fs);
    }
  }

  lemma {:induction false} CountPresent(fs: seq<Fragment>, k: nat)
    requires k < |fs|
    ensures Count(fs, fs[k].origin) > 0
  {
    if k == 0 {
    } else {
      CountPresent(fs[1..], k - 1);
    }
  }

  /** While a tree arrives parents first, the root is the only orphan, so the per-fragment test of
      the code and the documented rule agree at every step. */
  lemma {:induction false} SumRuleAgrees(d: seq<Fragment>, k: nat)
    requires RootFirst(d) && ParentFirst(d) && 0 < k <= |d|
    ensures Complete(d[..k]) <==> SumNext(d[..k]) == k - 1
  {
    hide Tree, Complete;
    var part, rest := d[..k], d[k..];
    assert d == part + rest;
    forall f | f in part[1..] ensures exists j :: 0 <= j < |part| && f.previousOrigin == part[j].origin {
      var i :| 0 <= i < |part| - 1 && part[1..][i] == f;
      var j :| 0 <= j < i + 1 && d[i + 1].previousOrigin == d[j].origin;
      assert part[j] == d[j];
    }
    NoOrphans(part[1..], part);
    assert forall f :: f in part ==> f.origin != NULL_ORIGIN by { InTree(d, d[0]); }
    CountAbsent(part, NULL_ORIGIN);
    RulesCompared(part, rest, d[0]);
  }

  lemma {:induction false} InTree(tree: seq<Fragment>, root: Fragment)
    requires Tree(tree, root)
    ensures forall f :: f in tree ==> f.origin != NULL_ORIGIN
  {
  }

  /** Parents first is not needed: the two rules also agree at both steps of a leaf that arrives
      before its root. */
  lemma {:induction false} LeafFirstRulesAgree(root: Fragment, leaf: Fragment)
    requires root.nextCount == 1 && leaf.nextCount == 0
    requires root.previousOrigin == NULL_ORIGIN && leaf.previousOrigin == root.origin
    requires root.origin != leaf.origin && root.origin != NULL_ORIGIN && leaf.origin != NULL_ORIGIN
    ensures !ParentFirst([leaf, root])
    ensures Complete([leaf]) && SumNext([leaf]) == |[leaf]| - 1
    ensures Complete([leaf, root]) && SumNext([leaf, root]) == |[leaf, root]| - 1
  {
    hide Children;
    LeafCompletes(root, leaf);
    ChildrenOne(root, root.origin);
    ChildrenOne(leaf, root.origin);
    ChildrenOne(leaf, leaf.origin);
    ChildrenOne(root, leaf.origin);
    ChildrenConcat([leaf], [root], root.origin);
    ChildrenConcat([leaf], [root], leaf.origin);
    assert [leaf] + [root] == [leaf, root];
    assert [leaf][1..] == [] && [leaf, root][1..] == [root] && [root][1..] == [];
  }

  /** Where they disagree: a line of three whose middle fragment is late. The sum is right, one
      announced child being made up for by one orphan too many, but the root misses its child. */
  lemma {:induction false} GrandchildFoolsSumRule(root: Fragment, child: Fragment, grandchild: Fragment)
    requires Line(root, child, grandchild)
    ensures Tree([root, grandchild] + [child], root)
    ensures SumNext([root, grandchild]) == |[root, grandchild]| - 1
    ensures !Complete([root, grandchild])
  {
    hide Children, Complete;
    var part := [root, grandchild];
    assert part[1..] == [grandchild] && [grandchild][1..] == [];
    assert SumNext(part) == root.nextCount + SumNext([grandchild]) && SumNext([grandchild]) == 0 + SumNext([]);
    LineIsTree(root, child, grandchild);
    ChildrenOne(root, root.origin);
    ChildrenOne(grandchild, root.origin);
    ChildrenConcat([root], [grandchild], root.origin);
    assert [root] + [grandchild] == part && root in part;
    assert Children(part, root.origin) == 0;
    assert !Complete(part) by { MissesChild(part, root); }
  }

  lemma {:induction false} MissesChild(fs: seq<Fragment>, f: Fragment)
    requires f in fs && Children(fs, f.origin) != f.nextCount
    ensures !Complete(fs)
  {
  }

  /** A line of three fragments. */
  predicate Line(root: Fragment, child: Fragment, grandchild: Fragment) {
    && root.nextCount == 1 && child.nextCount == 1 && grandchild.nextCount == 0
    && root.chainId == child.chainId == grandchild.chainId
    && root.previousOrigin == NULL_ORIGIN
    && child.previousOrigin == root.origin && grandchild.previousOrigin == child.origin
    && root.origin != child.origin && root.origin != grandchild.origin && child.origin != grandchild.origin
    && root.origin != NULL_ORIGIN && child.origin != NULL_ORIGIN && grandchild.origin != NULL_ORIGIN
  }

  lemma {:induction false} LineIsTree(root: Fragment, child: Fragment, grandchild: Fragment)
    requires Line(root, child, grandchild)
    ensures Tree([root, grandchild] + [child], root)
  {
    hide Children;
    var tree := [root, grandchild] + [child];
    assert tree == [root] + [grandchild] + [child];
    forall o
      ensures Children(tree, o) == Children([root], o) + Children([grandchild], o) + Children([child], o)
    {
      ChildrenConcat([root] + [grandchild], [child], o);
      ChildrenConcat([root], [grandchild], o);
    }
    forall f, o ensures Children([f], o) == if f.previousOrigin == o then 1 else 0 { ChildrenOne(f, o); }
    assert root in tree && child in tree;
    assert Descends(tree, root, root, 0) && Descends(tree, root, child, 1) && Descends(tree, root, grandchild, 2);
  }
}
