/** The evaluator graph object, updated in place. Every method does to the object what its
    specification function does to the value of the object. */
module EvaluatorGraph {
  import opened Wrappers
  import opened RequestGraph
  import EI = EvaluatorInvariant

  /** `r` is `nodes` after node `n` was taken out of the dependents of the nodes in `before`, put into
      those of the nodes in `after`, and given the dependencies `own`. */
  ghost predicate RelinkedTo(nodes: seq<Node>, n: nat, before: seq<nat>, after: seq<nat>, own: seq<nat>, r: seq<Node>) {
    && |r| == |nodes|
    && forall m | 0 <= m < |nodes| ::
         r[m] == nodes[m].(
           dependents := (if m in before then nodes[m].dependents - {n}
               else nodes[m].dependents) + (if m in after then {n} else {}),
           dependencies := if m == n then own else nodes[m].dependencies)
  }

  ghost predicate Link(nodes: seq<Node>, u: nat, v: nat) { u < |nodes| && v in nodes[u].dependents }

  /** A chain of dependents: each node is depended on by the next. */
  ghost predicate Chain(nodes: seq<Node>, p: seq<nat>) {
    forall i | 0 < i < |p| :: Link(nodes, p[i - 1], p[i])
  }

  /** `v` depends, through any number of steps, on one of the roots. */
  ghost predicate InCone(nodes: seq<Node>, roots: seq<nat>, v: nat) {
    exists p: seq<nat> :: p != [] && p[0] in roots && p[|p| - 1] == v && Chain(nodes, p)
  }

  lemma {:induction false} ConeRoot(nodes: seq<Node>, roots: seq<nat>, v: nat)
    requires v in roots
    ensures InCone(nodes, roots, v)
  {
    assert [v][0] in roots && Chain(nodes, [v]);
  }

  lemma {:induction false} ConeStep(nodes: seq<Node>, roots: seq<nat>, u: nat, v: nat)
    requires InCone(nodes, roots, u) && Link(nodes, u, v)
    ensures InCone(nodes, roots, v)
  {
    var p: seq<nat> :| p != [] && p[0] in roots && p[|p| - 1] == u && Chain(nodes, p);
    assert Chain(nodes, p + [v]);
  }

  /** A set closed under dependents. */
  ghost predicate Closed(nodes: seq<Node>, cone: set<nat>) {
    forall u: nat, v: nat | u in cone && Link(nodes, u, v) :: v in cone
  }

  /** A closed set holds every chain that starts in it. */
  lemma {:induction false} ClosedHolds(nodes: seq<Node>, cone: set<nat>, p: seq<nat>)
    requires p != [] && p[0] in cone && Chain(nodes, p) && Closed(nodes, cone)
    ensures p[|p| - 1] in cone
  {
    if |p| > 1 {
      ClosedHolds(nodes, cone, p[..|p| - 1]);
      assert Link(nodes, p[|p| - 2], p[|p| - 1]);
    }
  }

  lemma {:induction false} ClosedIsCone(nodes: seq<Node>, roots: seq<nat>, cone: set<nat>)
    requires Closed(nodes, cone) && forall v | v in roots :: v in cone
    requires forall v | v in cone :: InCone(nodes, roots, v)
    ensures forall v: nat :: v in cone <==> InCone(nodes, roots, v)
  {
    forall v: nat | InCone(nodes, roots, v) ensures v in cone {
      var p: seq<nat> :| p != [] && p[0] in roots && p[|p| - 1] == v && Chain(nodes, p);
      ClosedHolds(nodes, cone, p);
    }
  }

  function Backwards(p: seq<nat>): (r: seq<nat>)
    ensures |r| == |p| && forall i | 0 <= i < |p| :: r[i] == p[|p| - 1 - i]
  {
    seq(|p|, i requires 0 <= i < |p| => p[|p| - 1 - i])
  }

  /** A chain of dependents read backwards is a walk along dependencies, and the other way round. */
  lemma {:induction false} ChainIsWalk(nodes: seq<Node>, p: seq<nat>)
    requires EI.Linked(nodes) && forall i | 0 <= i < |p| :: p[i] < |nodes|
    ensures Chain(nodes, p) <==> EI.Walk(nodes, Backwards(p))
  {
    var b := Backwards(p);
    if Chain(nodes, p) {
      forall i | 0 < i < |b| ensures b[i] in nodes[b[i - 1]].dependencies {
        assert Link(nodes, p[|p| - 1 - i], p[|p| - i]);
      }
    }
    if EI.Walk(nodes, b) {
      forall i | 0 < i < |p| ensures Link(nodes, p[i - 1], p[i]) {
        assert b[|p| - i] in nodes[b[|p| - i - 1]].dependencies;
        assert b[|p| - i] == p[i - 1] && b[|p| - i - 1] == p[i];
      }
    }
  }

  ghost function Elements(s: seq<nat>): set<nat> { set n | n in s }

  /** Every node in `active` settles. */
  method Settle(nodes: seq<Node>, active: seq<nat>) returns (r: seq<Node>)
    requires forall i | 0 <= i < |active| :: active[i] < |nodes|
    ensures r == SettleAll(nodes, active)
  {
    r := nodes;
    for i := 0 to |active|
      invariant r == SettleAll(nodes, active[..i])
    {
      var n := active[i];
      assert active[..i + 1] == active[..i] + [n];
      r := r[n := r[n].(state := if r[n].memo.Some? then Published else Vacant)];
    }
    assert active[..|active|] == active;
  }

  /** Takes `n` out of the dependents of the nodes in `before`, and its dependencies from `n`. */
  method Unlink(nodes: seq<Node>, n: nat, before: seq<nat>) returns (r: seq<Node>)
    requires n < |nodes| && forall i | 0 <= i < |before| :: before[i] < |nodes|
    ensures RelinkedTo(nodes, n, before, [], [], r)
  {
    r := nodes[n := nodes[n].(dependencies := [])];
    for i := 0 to |before|
      invariant RelinkedTo(nodes, n, before[..i], [], [], r)
    {
      var d := before[i];
      assert before[..i + 1] == before[..i] + [d];
      r := r[d := r[d].(dependents := r[d].dependents - {n})];
    }
    assert before[..|before|] == before;
  }

  /** Puts `n` into the dependents of the nodes in `after`, and gives it these dependencies. */
  method Relink(nodes: seq<Node>, n: nat, after: seq<nat>) returns (r: seq<Node>)
    requires n < |nodes| && forall i | 0 <= i < |after| :: after[i] < |nodes|
    ensures RelinkedTo(nodes, n, [], after, after, r)
  {
    r := nodes;
    for i := 0 to |after|
      invariant RelinkedTo(nodes, n, [], after[..i], nodes[n].dependencies, r)
    {
      var d := after[i];
      assert after[..i + 1] == after[..i] + [d];
      r := r[d := r[d].(dependents := r[d].dependents + {n})];
    }
    assert after[..|after|] == after;
    r := r[n := r[n].(dependencies := after)];
  }

  lemma {:induction false} UnlinkRelink(nodes: seq<Node>, n: nat, after: seq<nat>, unlinked: seq<Node>, r: seq<Node>)
    requires n < |nodes| && RelinkedTo(nodes, n, nodes[n].dependencies, [], [], unlinked)
    requires RelinkedTo(unlinked, n, [], after, after, r)
    ensures r == RequestGraph.ReplaceDependencies(nodes, n, after)
  {
    forall m | 0 <= m < |nodes| ensures r[m] == Relinked(nodes[m], m, n, nodes[n].dependencies, after) {
      assert unlinked[m].identity == nodes[m].identity && unlinked[m].memo == nodes[m].memo &&
          unlinked[m].state == nodes[m].state;
    }
  }

  /** Removing one node more is unlinking it and clearing its memo. */
  lemma {:induction false} RemoveOne(start: seq<Node>, removed: set<nat>, n: nat, unlinked: seq<Node>, m: nat)
    requires EI.Linked(start) && n < |start| && m < |start|
    requires RelinkedTo(WithoutAll(start, removed), n, WithoutAll(start, removed)[n].dependencies, [], [], unlinked)
    ensures Without(start, removed + {n}, m) ==
              if m == n && unlinked[n].state != Removed then unlinked[n].(state := Removed, memo := None)
                  else unlinked[m]
  {
    var was := WithoutAll(start, removed);
    assert unlinked[m].dependents == Without(start, removed + {n}, m).dependents;
  }

  /** Storing the memo before or after the dependencies are replaced makes no difference. */
  lemma {:induction false} MemoFirst(nodes: seq<Node>, n: nat, after: seq<nat>, memo: Option<Memo>, state: State)
    requires n < |nodes|
    ensures var a := RequestGraph.ReplaceDependencies(nodes[n := nodes[n].(memo := memo)], n, after);
            var b := RequestGraph.ReplaceDependencies(nodes, n, after);
            a[n := a[n].(state := state)] == b[n := b[n].(memo := memo, state := state)]
  {
  }

  /** The nodes and the roots: everything a reverse cone can hold. */
  ghost function Universe(nodes: seq<Node>, roots: seq<nat>): (r: set<nat>)
    ensures forall m: nat :: m in r <==> m < |nodes| || m in roots
  {
    Range(|nodes|) + Elements(roots)
  }

  lemma {:induction false} DependentsInCone(nodes: seq<Node>, roots: seq<nat>, u: nat)
    requires EI.Linked(nodes) && u < |nodes| && InCone(nodes, roots, u)
    ensures forall v | v in nodes[u].dependents :: v in Universe(nodes, roots) && InCone(nodes, roots, v)
  {
    forall v | v in nodes[u].dependents ensures v in Universe(nodes, roots) && InCone(nodes, roots, v) {
      ConeStep(nodes, roots, u, v);
    }
  }

  ghost function Range(n: nat): (r: set<nat>)
    ensures forall m: nat :: m in r <==> m < n
  {
    if n == 0 then {} else Range(n - 1) + {n - 1}
  }

  /** The queue with every element of `more` added, in some order. */
  method Enqueue(pending: seq<nat>, more: set<nat>) returns (r: seq<nat>)
    ensures forall v: nat :: v in r <==> v in pending || v in more
  {
    r := pending;
    var rest := more;
    while rest != {}
      invariant rest <= more
      invariant forall v: nat :: v in r <==> v in pending || v in more - rest
    {
      var v :| v in rest;
      r, rest := r + [v], rest - {v};
    }
  }

  /** The cone holds only what it should, and what it still lacks is in the queue. */
  ghost predicate Searching(nodes: seq<Node>, roots: seq<nat>, cone: set<nat>, pending: seq<nat>) {
    && cone <= Universe(nodes, roots)
    && (forall v | v in pending :: v in Universe(nodes, roots) && InCone(nodes, roots, v))
    && (forall v | v in cone :: InCone(nodes, roots, v))
    && (forall v | v in roots :: v in cone || v in pending)
    && (forall u: nat, v: nat | u in cone && Link(nodes, u, v) :: v in cone || v in pending)
  }

  /** The first of the queue can be dropped once it is in the cone. */
  lemma {:induction false} SearchDrop(nodes: seq<Node>, roots: seq<nat>, cone: set<nat>, pending: seq<nat>)
    requires Searching(nodes, roots, cone, pending) && pending != []
    ensures pending[0] in Universe(nodes, roots) && InCone(nodes, roots, pending[0])
    ensures pending[0] in cone ==> Searching(nodes, roots, cone, pending[1..])
    ensures pending[0] >= |nodes| ==> Searching(nodes, roots, cone + {pending[0]}, pending[1..])
  {
    assert forall v | v in pending :: v == pending[0] || v in pending[1..];
  }

  lemma {:induction false} SearchAdd(nodes: seq<Node>, roots: seq<nat>, cone: set<nat>, pending: seq<nat>,
      more: seq<nat>)
    requires EI.Linked(nodes) && Searching(nodes, roots, cone, pending) && pending != [] && pending[0] < |nodes|
    requires forall v: nat :: v in more <==> v in pending[1..] || v in nodes[pending[0]].dependents
    ensures Searching(nodes, roots, cone + {pending[0]}, more)
  {
    DependentsInCone(nodes, roots, pending[0]);
    assert forall v | v in pending :: v == pending[0] || v in pending[1..];
  }

  method Cone(nodes: seq<Node>, roots: seq<nat>) returns (cone: set<nat>)
    requires EI.Linked(nodes)
    ensures forall v: nat :: v in cone <==> InCone(nodes, roots, v)
  {
    cone := {};
    var pending: seq<nat> := roots;
    forall v | v in roots ensures InCone(nodes, roots, v) { ConeRoot(nodes, roots, v); }
    while pending != []
      invariant Searching(nodes, roots, cone, pending)
      decreases Universe(nodes, roots) - cone, |pending|
    {
      var node := pending[0];
      SearchDrop(nodes, roots, cone, pending);
      ghost var queue, found := pending, cone;
      pending := pending[1..];
      if node !in cone {
        cone := cone + {node};
        if node < |nodes| {
          pending := Enqueue(pending, nodes[node].dependents);
          SearchAdd(nodes, roots, found, queue, pending);
        }
      }
    }
    ClosedIsCone(nodes, roots, cone);
  }

  class RequestEvaluatorGraph {
    var revision: nat
    var generation: nat
    var identities: map<Identity, nat>
    var nodes: seq<Node>
    var active: seq<nat>

    /** The fields as one value. */
    function View(): Graph
      reads this
    {
      Graph(revision, generation, identities, nodes, active)
    }

    /** What every method keeps, whatever was removed. */
    ghost predicate Valid()
      reads this
    {
      EI.Core(View())
    }

    /** Verified requests are closed under dependencies, and dependencies have no cycle. */
    ghost predicate Ordered()
      reads this
    {
      EI.Ordered(View())
    }

    constructor (start: nat)
      ensures Valid() && Ordered() && View() == Empty(start)
    {
      revision, generation, identities, nodes, active := start, 0, map[], [], [];
      new;
      EI.EmptyInv(start);
    }

    method AdvanceTo(newer: nat) returns (r: Result<()>)
      requires Valid()
      modifies this
      ensures Valid() && (old(Ordered()) ==> Ordered())
      ensures View() == RequestGraph.AdvanceTo(old(View()), newer).graph
      ensures r == RequestGraph.AdvanceTo(old(View()), newer).result
    {
      ghost var g := View();
      EI.AdvanceInv(g, newer);
      if newer <= revision {
        return Err("compilation evaluator revision is not newer");
      }
      revision, generation := newer, generation + 1;
      nodes := Settle(nodes, active);
      active := [];
      return Ok(());
    }

    method Register(identity: Identity) returns (r: Result<nat>)
      requires Valid()
      modifies this
      ensures Valid() && (old(Ordered()) ==> Ordered())
      ensures View() == RequestGraph.Register(old(View()), identity).graph
      ensures r == RequestGraph.Register(old(View()), identity).result
    {
      EI.RegisterInv(View(), identity);
      if identity in identities {
        var n := identities[identity];
        if nodes[n].state == Removed {
          nodes := nodes[n := nodes[n].(state := Vacant)];
        }
        return Ok(n);
      }
      if |nodes| > U32_MAX {
        return Err("compilation request graph exceeds u32 nodes");
      }
      var n := |nodes|;
      identities := identities[identity := n];
      nodes := nodes + [Node(identity, Vacant, None, [], {})];
      return Ok(n);
    }

    /** Whether every dependency of `n` was verified in this revision and is unchanged since `n` was. */
    method DependenciesUnchanged(n: nat, since: nat) returns (all: bool)
      requires n < |nodes|
      ensures all <==> forall i | 0 <= i < |nodes[n].dependencies| :: Unchanged(View(), nodes[n].dependencies[i], since)
    {
      var i := 0;
      while i < |nodes[n].dependencies|
        invariant i <= |nodes[n].dependencies|
        invariant forall j | 0 <= j < i :: Unchanged(View(), nodes[n].dependencies[j], since)
      {
        var d := nodes[n].dependencies[i];
        if !(d < |nodes| && nodes[d].memo.Some? && nodes[d].memo.value.verifiedAt == revision
             && nodes[d].memo.value.changedAt <= since) {
          assert !Unchanged(View(), nodes[n].dependencies[i], since);
          return false;
        }
        i := i + 1;
      }
      return true;
    }

    method Begin(n: nat, input: Fingerprint) returns (r: Result<Start>)
      requires Valid()
      modifies this
      ensures Valid() && (old(Ordered()) ==> Ordered())
      ensures View() == RequestGraph.Begin(old(View()), n, input).graph
      ensures r == RequestGraph.Begin(old(View()), n, input).result
    {
      EI.BeginInv(View(), n, input);
      if n >= |nodes| {
        return Err("compilation request node is missing");
      }
      var node := nodes[n];
      if node.state.Computing? {
        return Err("compilation request cycle");
      }
      if node.state == Removed {
        return Err("removed compilation request was not re-registered");
      }
      if node.memo.Some? && node.memo.value.verifiedAt == revision {
        if node.memo.value.input != input {
          return Err("compilation request input changed after publication in one revision");
        }
        return Ok(Reused);
      }
      if node.memo.Some? && node.memo.value.input == input {
        var reusable := DependenciesUnchanged(n, node.memo.value.verifiedAt);
        if reusable {
          var memo := node.memo.value.(verifiedAt := revision, dependenciesVerifiedAt := revision);
          nodes := nodes[n := node.(memo := Some(memo), state := Published)];
          return Ok(Reused);
        }
      }
      var at := |active|;
      active := active + [n];
      nodes := nodes[n := node.(state := Computing(revision, generation, at))];
      return Ok(Execute(Ticket(n, revision, generation, at, input, [], node.memo.Some?)));
    }

    method ReplaceDependencies(n: nat, after: seq<nat>)
      requires n < |nodes|
      requires forall i | 0 <= i < |nodes[n].dependencies| :: nodes[n].dependencies[i] < |nodes|
      requires forall i | 0 <= i < |after| :: after[i] < |nodes|
      modifies this`nodes
      ensures nodes == RequestGraph.ReplaceDependencies(old(nodes), n, after)
    {
      ghost var start := nodes;
      nodes := Unlink(nodes, n, nodes[n].dependencies);
      ghost var unlinked := nodes;
      nodes := Relink(nodes, n, after);
      UnlinkRelink(start, n, after, unlinked, nodes);
    }

    method AllCurrent(dependencies: seq<nat>) returns (all: bool)
      ensures all <==> !exists d | d in dependencies :: !IsCurrent(View(), d)
      ensures all ==> forall i | 0 <= i < |dependencies| :: dependencies[i] < |nodes|
    {
      for i := 0 to |dependencies|
        invariant forall j | 0 <= j < i :: IsCurrent(View(), dependencies[j])
      {
        if !IsCurrent(View(), dependencies[i]) {
          assert dependencies[i] in dependencies;
          return false;
        }
      }
      return true;
    }

    method Publish(t: Ticket, result: Fingerprint) returns (r: Result<bool>)
      requires Valid()
      modifies this
      ensures Valid() && (old(Ordered()) ==> Ordered())
      ensures View() == RequestGraph.Publish(old(View()), t, result).graph
      ensures r == RequestGraph.Publish(old(View()), t, result).result
    {
      EI.PublishInv(View(), t, result);
      r := TryPublish(t, result);
    }

    /** The memo a publication would store, or why it is refused. */
    method CheckPublish(t: Ticket, result: Fingerprint) returns (r: Result<Memo>)
      ensures r == PublishCheck(View(), t, result)
      ensures r.Ok? ==> forall i | 0 <= i < |Normalized(t.dependencies)| :: Normalized(t.dependencies)[i] < |nodes|
    {
      if !ValidTicket(View(), t) {
        return Err("compilation evaluator rejected the ticket");
      }
      var after := Normalized(t.dependencies);
      if t.node in after {
        return Err("compilation evaluator request directly depends on itself");
      }
      var current := AllCurrent(after);
      if !current {
        return Err("compilation request dependency became stale before publication");
      }
      r := PublishMemo(View(), t, result);
    }

    method TryPublish(t: Ticket, result: Fingerprint) returns (r: Result<bool>)
      requires EI.Linked(nodes)
      modifies this
      ensures View() == RequestGraph.Publish(old(View()), t, result).graph
      ensures r == RequestGraph.Publish(old(View()), t, result).result
    {
      var memo := CheckPublish(t, result);
      if memo.Err? {
        return Err(memo.message);
      }
      var changed := nodes[t.node].memo.None? || nodes[t.node].memo.value.result != result;
      Commit(t.node, Normalized(t.dependencies), memo.value);
      return Ok(changed);
    }

    /** Stores the memo and the dependencies of the computation on top of the stack. */
    method Commit(n: nat, after: seq<nat>, memo: Memo)
      requires n < |nodes| && active != [] && EI.Linked(nodes)
      requires forall i | 0 <= i < |after| :: after[i] < |nodes|
      modifies this
      ensures var relinked := RequestGraph.ReplaceDependencies(old(nodes), n, after);
              View() == old(View()).(nodes := relinked[n := relinked[n].(memo := Some(memo), state := Published)],
                                     active := old(active)[..|old(active)| - 1])
    {
      MemoFirst(nodes, n, after, Some(memo), Published);
      nodes := nodes[n := nodes[n].(memo := Some(memo))];
      ReplaceDependencies(n, after);
      nodes := nodes[n := nodes[n].(state := Published)];
      active := active[..|active| - 1];
    }

    method Abort(t: Ticket, reason: AbortReason) returns (r: Result<()>)
      requires Valid() && (ValidTicket(View(), t) ==> t.hadPublication == nodes[t.node].memo.Some?)
      modifies this
      ensures Valid() && (old(Ordered()) ==> Ordered())
      ensures View() == RequestGraph.Abort(old(View()), t, reason).graph
      ensures r == RequestGraph.Abort(old(View()), t, reason).result
    {
      EI.AbortInv(View(), t, reason);
      if !ValidTicket(View(), t) {
        return Err("compilation evaluator rejected the ticket");
      }
      active := active[..|active| - 1];
      var state := if reason == AbortFailed then Failed(revision) else if t.hadPublication then Published else Vacant;
      nodes := nodes[t.node := nodes[t.node].(state := state)];
      return Ok(());
    }

    /** The ticket with one more captured dependency. */
    method Require(t: Ticket, d: nat) returns (r: Result<Ticket>)
      ensures r == RequestGraph.Require(View(), t, d)
      ensures r.Ok? <==> ValidTicket(View(), t) && IsCurrent(View(), d)
      ensures r.Ok? ==> r.value == t.(dependencies := t.dependencies + [d])
    {
      if !ValidTicket(View(), t) {
        return Err("compilation evaluator rejected the ticket");
      }
      if d == t.node {
        return Err("compilation request cycle");
      }
      if d >= |nodes| {
        return Err("compilation evaluator dependency node is missing");
      }
      if nodes[d].state.Computing? {
        return Err("compilation request cycle");
      }
      if !IsCurrent(View(), d) {
        return Err("compilation evaluator dependency is not current");
      }
      return Ok(t.(dependencies := t.dependencies + [d]));
    }

    /** The requests that depend, directly or not, on one of the roots, and the roots. */
    method ReverseCone(roots: seq<nat>) returns (cone: set<nat>)
      requires Valid()
      ensures forall v: nat :: v in cone <==> InCone(nodes, roots, v)
    {
      cone := Cone(nodes, roots);
    }

    method RemoveNodes(gone: seq<nat>) returns (r: Result<()>)
      requires Valid() && forall i | 0 <= i < |gone| :: gone[i] < |nodes|
      modifies this`nodes
      ensures View() == RequestGraph.RemoveNodes(old(View()), Elements(gone)).graph
      ensures r == RequestGraph.RemoveNodes(old(View()), Elements(gone)).result
      ensures Valid() && (r.Ok? && old(Ordered()) ==> (Ordered() <==> EI.Detached(old(View()), Elements(gone))))
    {
      if active == [] { EI.RemoveInv(View(), Elements(gone)); }
      if active != [] {
        return Err("cannot remove compilation requests while evaluation is active");
      }
      nodes := Remove(nodes, gone);
      return Ok(());
    }
  }

  /** Removes the nodes one after the other. */
  method Remove(nodes: seq<Node>, gone: seq<nat>) returns (r: seq<Node>)
    requires EI.Linked(nodes) && forall i | 0 <= i < |gone| :: gone[i] < |nodes|
    ensures r == WithoutAll(nodes, Elements(gone))
  {
    r := nodes;
    assert Elements(gone[..0]) == {};
    assert forall m | 0 <= m < |nodes| :: Without(nodes, {}, m).dependents == nodes[m].dependents;
    assert WithoutAll(nodes, {}) == nodes;
    for i := 0 to |gone|
      invariant r == WithoutAll(nodes, Elements(gone[..i]))
    {
      var n := gone[i];
      ghost var removed := Elements(gone[..i]);
      assert Elements(gone[..i + 1]) == removed + {n};
      r := Unlink(r, n, r[n].dependencies);
      forall m | 0 <= m < |nodes|
        ensures Without(nodes, removed + {n}, m) ==
                  if m == n && r[n].state != Removed then r[n].(state := Removed, memo := None) else r[m]
      {
        RemoveOne(nodes, removed, n, r, m);
      }
      if r[n].state != Removed {
        r := r[n := r[n].(state := Removed, memo := None)];
      }
    }
    assert gone[..|gone|] == gone;
  }
}
