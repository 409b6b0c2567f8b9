/** The invariant of the evaluator graph and its preservation by every operation. */
module EvaluatorInvariant {
  import opened Wrappers
  import opened RequestGraph
  import Sorting
  import TarjanSteps

  /** A node is computing exactly when it sits in `active` at its recorded index, with the
      current revision and generation. */
  ghost predicate Stacked(g: Graph) {
    && (forall i | 0 <= i < |g.active| ::
          g.active[i] < |g.nodes| && g.nodes[g.active[i]].state == Computing(g.revision, g.generation, i))
    && (forall n | 0 <= n < |g.nodes| && g.nodes[n].state.Computing? ::
          var at := g.nodes[n].state.stackIndex; at < |g.active| && g.active[at] == n)
  }

  /** Dependencies and dependents are converse to each other. */
  ghost predicate Linked(nodes: seq<Node>) {
    && (forall n, i | 0 <= n < |nodes| && 0 <= i < |nodes[n].dependencies| :: nodes[n].dependencies[i] < |nodes|)
    && (forall n, m | 0 <= n < |nodes| && m in nodes[n].dependents :: m < |nodes|)
    && (forall n: nat, d: nat | n < |nodes| && d < |nodes| ::
          d in nodes[n].dependencies <==> n in nodes[d].dependents)
    && (forall n | 0 <= n < |nodes| :: Sorting.StrictlySorted(nodes[n].dependencies, TarjanSteps.NatLeq))
  }

  ghost predicate MemoOk(revision: nat, node: Node) {
    && (node.state == Vacant || node.state == Removed ==> node.memo.None?)
    && (node.state == Published ==> node.memo.Some?)
    && (node.memo.None? ==> node.dependencies == [])
    && (node.memo.Some? ==>
          var memo := node.memo.value;
          && memo.changedAt <= memo.verifiedAt <= revision
          && memo.dependenciesVerifiedAt == memo.verifiedAt
          && (memo.verifiedAt == revision ==> node.state == Published))
  }

  ghost predicate Memos(g: Graph) {
    forall n | 0 <= n < |g.nodes| :: MemoOk(g.revision, g.nodes[n])
  }

  /** What a node verified in this revision depends on was verified in this revision. */
  ghost predicate CurrentClosed(g: Graph) {
    forall n: nat, d: nat | VerifiedNow(g, n) && d in g.nodes[n].dependencies :: VerifiedNow(g, d)
  }

  /** Verified in this revision, or without a memo. */
  ghost predicate Supported(g: Graph, d: nat) {
    VerifiedNow(g, d) || (d < |g.nodes| && g.nodes[d].memo.None?)
  }

  /** What a node verified in this revision depends on was verified too, unless it was removed since. */
  ghost predicate Grounded(g: Graph) {
    forall n: nat, d: nat | VerifiedNow(g, n) && d in g.nodes[n].dependencies :: Supported(g, d)
  }

  ghost predicate Ranked(nodes: seq<Node>, rank: seq<nat>) {
    && |rank| == |nodes|
    && forall n: nat, d: nat | n < |nodes| && d < |nodes| && d in nodes[n].dependencies :: rank[d] < rank[n]
  }

  ghost predicate Acyclic(nodes: seq<Node>) { exists rank :: Ranked(nodes, rank) }

  ghost predicate Identified(g: Graph) {
    && (forall id | id in g.identities :: g.identities[id] < |g.nodes| && g.nodes[g.identities[id]].identity == id)
    && (forall n | 0 <= n < |g.nodes| :: g.nodes[n].identity in g.identities && g.identities[g.nodes[n].identity] == n)
  }

  /** What every operation keeps, whatever was removed. */
  ghost predicate Core(g: Graph) { Stacked(g) && Linked(g.nodes) && Memos(g) && Grounded(g) && Identified(g) }

  ghost predicate Ordered(g: Graph) { CurrentClosed(g) && Acyclic(g.nodes) }

  ghost predicate Inv(g: Graph) { Core(g) && Ordered(g) }

  /** Nothing has been verified in the current revision yet. */
  ghost predicate Unverified(g: Graph) { forall n: nat :: !VerifiedNow(g, n) }

  lemma {:induction false} EmptyInv(revision: nat)
    ensures Inv(Empty(revision))
  {
    assert Ranked([], []);
  }

  // ---------- Operations that keep every dependency ----------

  /** The two node lists have the same dependencies, dependents and identities. */
  ghost predicate SameLinks(a: seq<Node>, b: seq<Node>) {
    && |a| == |b|
    && forall n | 0 <= n < |a| ::
         a[n].dependencies == b[n].dependencies && a[n].dependents == b[n].dependents && a[n].identity == b[n].identity
  }

  lemma {:induction false} SameLinksKeep(a: seq<Node>, b: seq<Node>)
    requires SameLinks(a, b) && Linked(a)
    ensures Linked(b) && (Acyclic(a) ==> Acyclic(b))
  {
    if Acyclic(a) {
      var rank :| Ranked(a, rank);
      assert Ranked(b, rank);
    }
  }

  lemma {:induction false} SameIdentified(g: Graph, r: Graph)
    requires Identified(g) && SameLinks(g.nodes, r.nodes) && r.identities == g.identities
    ensures Identified(r)
  {
  }

  /** Changing no memo keeps what was verified. */
  lemma {:induction false} SameMemosKeep(g: Graph, r: Graph)
    requires SameLinks(g.nodes, r.nodes) && r.revision == g.revision
    requires forall n | 0 <= n < |g.nodes| :: r.nodes[n].memo == g.nodes[n].memo
    ensures (CurrentClosed(g) ==> CurrentClosed(r)) && (Grounded(g) ==> Grounded(r))
  {
    forall n: nat, d: nat | CurrentClosed(g) && VerifiedNow(r, n) && d in r.nodes[n].dependencies
      ensures VerifiedNow(r, d)
    {
      assert VerifiedNow(g, n) && VerifiedNow(g, d);
    }
    forall n: nat, d: nat | Grounded(g) && VerifiedNow(r, n) && d in r.nodes[n].dependencies ensures Supported(r, d) {
      assert VerifiedNow(g, n) && Supported(g, d);
    }
  }

  lemma {:induction false} StateChangeMemos(g: Graph, r: Graph, n: nat, node: Node)
    requires Memos(g) && n < |g.nodes| && r.revision == g.revision && r.nodes == g.nodes[n := node]
    requires MemoOk(g.revision, node)
    ensures Memos(r)
  {
  }

  /** Giving one node another state is harmless where the stack and the memo allow it. */
  lemma {:induction false} RestateInv(g: Graph, r: Graph, n: nat, state: State)
    requires Core(g) && n < |g.nodes| && r.revision == g.revision && r.identities == g.identities
    requires r.nodes == g.nodes[n := g.nodes[n].(state := state)] && MemoOk(g.revision, r.nodes[n]) && Stacked(r)
    ensures Core(r) && (Ordered(g) ==> Ordered(r))
  {
    SameLinksKeep(g.nodes, r.nodes);
    SameIdentified(g, r);
    SameMemosKeep(g, r);
    StateChangeMemos(g, r, n, r.nodes[n]);
  }

  lemma {:induction false} RegisterNewLinked(nodes: seq<Node>, identity: Identity)
    requires Linked(nodes)
    ensures Linked(nodes + [Node(identity, Vacant, None, [], {})])
    ensures Acyclic(nodes) ==> Acyclic(nodes + [Node(identity, Vacant, None, [], {})])
  {
    if Acyclic(nodes) {
      var rank :| Ranked(nodes, rank);
      assert Ranked(nodes + [Node(identity, Vacant, None, [], {})], rank + [0]);
    }
  }

  lemma {:induction false} RegisterNewClosed(g: Graph, r: Graph, node: Node)
    requires Linked(g.nodes) && r.revision == g.revision && r.nodes == g.nodes + [node]
    requires node.memo.None?
    ensures (CurrentClosed(g) ==> CurrentClosed(r)) && (Grounded(g) ==> Grounded(r))
  {
    forall n: nat, d: nat | CurrentClosed(g) && VerifiedNow(r, n) && d in r.nodes[n].dependencies
      ensures VerifiedNow(r, d)
    {
      assert VerifiedNow(g, n) && VerifiedNow(g, d);
    }
    forall n: nat, d: nat | Grounded(g) && VerifiedNow(r, n) && d in r.nodes[n].dependencies ensures Supported(r, d) {
      assert VerifiedNow(g, n) && Supported(g, d);
    }
  }

  lemma {:induction false} RegisterOldInv(g: Graph, identity: Identity)
    requires Core(g) && identity in g.identities
    ensures Core(Register(g, identity).graph) && (Ordered(g) ==> Ordered(Register(g, identity).graph))
  {
    var r, n := Register(g, identity).graph, g.identities[identity];
    if r != g {
      assert MemoOk(g.revision, g.nodes[n]);
      RestateInv(g, r, n, Vacant);
    }
  }

  lemma {:induction false} RegisterInv(g: Graph, identity: Identity)
    requires Core(g)
    ensures Core(Register(g, identity).graph) && (Ordered(g) ==> Ordered(Register(g, identity).graph))
  {
    var r := Register(g, identity).graph;
    if identity in g.identities {
      RegisterOldInv(g, identity);
    } else if |g.nodes| <= U32_MAX {
      RegisterNewLinked(g.nodes, identity);
      RegisterNewClosed(g, r, r.nodes[|g.nodes|]);
    }
  }

  lemma {:induction false} AdvanceMemos(g: Graph, r: Graph)
    requires Memos(g) && Stacked(g) && r.revision > g.revision && r.nodes == SettleAll(g.nodes, g.active)
    ensures Memos(r) && Unverified(r) && SameLinks(g.nodes, r.nodes)
    ensures forall n | 0 <= n < |r.nodes| :: !r.nodes[n].state.Computing?
  {
    forall n | 0 <= n < |g.nodes|
      ensures MemoOk(r.revision, r.nodes[n]) && !r.nodes[n].state.Computing? && !VerifiedNow(r, n)
    {
      assert MemoOk(g.revision, g.nodes[n]);
    }
  }

  lemma {:induction false} AdvanceInv(g: Graph, revision: nat)
    requires Core(g)
    ensures Core(AdvanceTo(g, revision).graph) && (Ordered(g) ==> Ordered(AdvanceTo(g, revision).graph))
    ensures AdvanceTo(g, revision).result.Ok? ==> Unverified(AdvanceTo(g, revision).graph)
  {
    if revision > g.revision {
      var r := AdvanceTo(g, revision).graph;
      AdvanceMemos(g, r);
      SameLinksKeep(g.nodes, r.nodes);
      SameIdentified(g, r);
    }
  }

  // ---------- Begin and abort ----------

  lemma {:induction false} PushStacked(g: Graph, n: nat)
    requires Stacked(g) && n < |g.nodes| && !g.nodes[n].state.Computing?
    ensures Stacked(g.(nodes := g.nodes[n := g.nodes[n].(state := Computing(g.revision, g.generation, |g.active|))],
                       active := g.active + [n]))
  {
  }

  lemma {:induction false} PopStacked(g: Graph, r: Graph, n: nat)
    requires Stacked(g) && g.active != [] && g.active[|g.active| - 1] == n && n < |g.nodes|
    requires r.revision == g.revision && r.generation == g.generation
    requires r.active == g.active[..|g.active| - 1] && |r.nodes| == |g.nodes| && !r.nodes[n].state.Computing?
    requires forall m | 0 <= m < |g.nodes| && m != n :: r.nodes[m].state == g.nodes[m].state
    ensures Stacked(r)
  {
  }

  /** Verifying a green request keeps the verified requests closed under dependencies. */
  lemma {:induction false} GreenClosed(g: Graph, r: Graph, n: nat, input: Fingerprint)
    requires n < |g.nodes| && Green(g, n, input) && r.revision == g.revision
    requires SameLinks(g.nodes, r.nodes) && VerifiedNow(r, n)
    requires forall m | 0 <= m < |g.nodes| && m != n :: r.nodes[m].memo == g.nodes[m].memo
    ensures (CurrentClosed(g) ==> CurrentClosed(r)) && (Grounded(g) ==> Grounded(r))
  {
    forall d | d in g.nodes[n].dependencies ensures VerifiedNow(g, d) {
      var i :| 0 <= i < |g.nodes[n].dependencies| && g.nodes[n].dependencies[i] == d;
      assert Unchanged(g, g.nodes[n].dependencies[i], g.nodes[n].memo.value.verifiedAt);
    }
    forall m: nat, d: nat | CurrentClosed(g) && VerifiedNow(r, m) && d in r.nodes[m].dependencies
      ensures VerifiedNow(r, d)
    {
      if m != n { assert VerifiedNow(g, m) && VerifiedNow(g, d); }
    }
    forall m: nat, d: nat | Grounded(g) && VerifiedNow(r, m) && d in r.nodes[m].dependencies ensures Supported(r, d) {
      if m != n { assert VerifiedNow(g, m) && Supported(g, d); }
    }
  }

  lemma {:induction false} GreenInv(g: Graph, n: nat, input: Fingerprint)
    requires Core(g) && n < |g.nodes| && Green(g, n, input) && !g.nodes[n].state.Computing?
    ensures var memo := g.nodes[n].memo.value.(verifiedAt := g.revision, dependenciesVerifiedAt := g.revision);
            var r := g.(nodes := g.nodes[n := g.nodes[n].(memo := Some(memo), state := Published)]);
            Core(r) && (Ordered(g) ==> Ordered(r))
  {
    var memo := g.nodes[n].memo.value.(verifiedAt := g.revision, dependenciesVerifiedAt := g.revision);
    var node := g.nodes[n].(memo := Some(memo), state := Published);
    var r := g.(nodes := g.nodes[n := node]);
    SameLinksKeep(g.nodes, r.nodes);
    SameIdentified(g, r);
    assert MemoOk(g.revision, g.nodes[n]);
    StateChangeMemos(g, r, n, node);
    GreenClosed(g, r, n, input);
  }

  lemma {:induction false} ExecuteInv(g: Graph, n: nat)
    requires Core(g) && n < |g.nodes| && !g.nodes[n].state.Computing? && g.nodes[n].state != Removed &&
        !VerifiedNow(g, n)
    ensures var r := g.(nodes := g.nodes[n := g.nodes[n].(state := Computing(g.revision, g.generation, |g.active|))],
                        active := g.active + [n]);
            Core(r) && (Ordered(g) ==> Ordered(r))
  {
    var state := Computing(g.revision, g.generation, |g.active|);
    var r := g.(nodes := g.nodes[n := g.nodes[n].(state := state)], active := g.active + [n]);
    assert MemoOk(g.revision, g.nodes[n]);
    PushStacked(g, n);
    RestateInv(g, r, n, state);
  }

  lemma {:induction false} BeginInv(g: Graph, n: nat, input: Fingerprint)
    requires Core(g)
    ensures Core(Begin(g, n, input).graph) && (Ordered(g) ==> Ordered(Begin(g, n, input).graph))
  {
    var out := Begin(g, n, input);
    if out.result.Ok? && !VerifiedNow(g, n) {
      if Green(g, n, input) {
        GreenInv(g, n, input);
      } else {
        ExecuteInv(g, n);
      }
    }
  }

  lemma {:induction false} AbortInv(g: Graph, t: Ticket, reason: AbortReason)
    requires Core(g) && (ValidTicket(g, t) ==> t.hadPublication == g.nodes[t.node].memo.Some?)
    ensures Core(Abort(g, t, reason).graph) && (Ordered(g) ==> Ordered(Abort(g, t, reason).graph))
  {
    var r := Abort(g, t, reason).graph;
    if r != g {
      assert MemoOk(g.revision, g.nodes[t.node]);
      PopStacked(g, r, t.node);
      RestateInv(g, r, t.node, AbortState(g, t, reason));
    }
  }

  // ---------- Publish ----------

  lemma {:induction false} NormalizedStrict(dependencies: seq<nat>)
    ensures Sorting.StrictlySorted(Normalized(dependencies), TarjanSteps.NatLeq)
  {
    TarjanSteps.NatOrder();
    Sorting.SortSorted(dependencies, TarjanSteps.NatLeq);
    Sorting.DedupStrict(Sorting.Sort(dependencies, TarjanSteps.NatLeq), TarjanSteps.NatLeq);
  }

  lemma {:induction false} ReplaceLinked(nodes: seq<Node>, n: nat, after: seq<nat>)
    requires Linked(nodes) && n < |nodes| && Sorting.StrictlySorted(after, TarjanSteps.NatLeq)
    requires forall i | 0 <= i < |after| :: after[i] < |nodes|
    ensures Linked(ReplaceDependencies(nodes, n, after))
  {
    var r := ReplaceDependencies(nodes, n, after);
    forall x: nat, y: nat | x < |nodes| && y < |nodes|
      ensures y in r[x].dependencies <==> x in r[y].dependents
    {
      assert y in nodes[x].dependencies <==> x in nodes[y].dependents;
    }
  }

  lemma {:induction false} RankBound(rank: seq<nat>) returns (bound: nat)
    ensures forall i | 0 <= i < |rank| :: rank[i] < bound
  {
    if rank == [] {
      bound := 0;
    } else {
      bound := RankBound(rank[1..]);
      if rank[0] >= bound { bound := rank[0] + 1; }
      assert forall i | 0 < i < |rank| :: rank[i] == rank[1..][i - 1];
    }
  }

  /** New edges lead from an unverified node to verified ones, so they close no cycle. */
  lemma {:induction false} ReplaceAcyclic(g: Graph, n: nat, after: seq<nat>)
    requires Acyclic(g.nodes) && CurrentClosed(g) && n < |g.nodes| && !VerifiedNow(g, n)
    requires forall d | d in after :: VerifiedNow(g, d)
    ensures Acyclic(ReplaceDependencies(g.nodes, n, after))
  {
    var rank :| Ranked(g.nodes, rank);
    var bound := RankBound(rank);
    var r := ReplaceDependencies(g.nodes, n, after);
    var lifted := seq(|rank|, i requires 0 <= i < |rank| => if VerifiedNow(g, i) then rank[i] else rank[i] + bound);
    forall x: nat, d: nat | x < |r| && d < |r| && d in r[x].dependencies ensures lifted[d] < lifted[x] {
      if x != n && VerifiedNow(g, x) { assert VerifiedNow(g, d); }
    }
    assert Ranked(r, lifted);
  }

  /** What a successful publication looks like. */
  ghost predicate Publishes(g: Graph, t: Ticket, after: seq<nat>, memo: Memo, r: Graph) {
    && ValidTicket(g, t) && t.node !in after && (forall d | d in after :: IsCurrent(g, d))
    && var relinked := ReplaceDependencies(g.nodes, t.node, after);
       r == g.(nodes := relinked[t.node := relinked[t.node].(memo := Some(memo), state := Published)],
               active := g.active[..|g.active| - 1])
  }

  lemma {:induction false} PublishClosed(g: Graph, t: Ticket, after: seq<nat>, memo: Memo, r: Graph)
    requires Publishes(g, t, after, memo, r) && memo.verifiedAt == g.revision && !VerifiedNow(g, t.node)
    ensures (CurrentClosed(g) ==> CurrentClosed(r)) && (Grounded(g) ==> Grounded(r))
  {
    forall m: nat, d: nat | CurrentClosed(g) && VerifiedNow(r, m) && d in r.nodes[m].dependencies
      ensures VerifiedNow(r, d)
    {
      if m == t.node { assert IsCurrent(g, d); } else { assert VerifiedNow(g, m) && VerifiedNow(g, d); }
    }
    forall m: nat, d: nat | Grounded(g) && VerifiedNow(r, m) && d in r.nodes[m].dependencies ensures Supported(r, d) {
      if m == t.node { assert IsCurrent(g, d); } else { assert VerifiedNow(g, m) && Supported(g, d); }
    }
  }

  lemma {:induction false} PublishMemos(g: Graph, t: Ticket, after: seq<nat>, memo: Memo, r: Graph)
    requires Publishes(g, t, after, memo, r) && Memos(g)
    requires memo.changedAt <= memo.verifiedAt == memo.dependenciesVerifiedAt == g.revision
    ensures Memos(r)
  {
    forall n | 0 <= n < |r.nodes| ensures MemoOk(r.revision, r.nodes[n]) {
      assert MemoOk(g.revision, g.nodes[n]);
    }
  }

  lemma {:induction false} PublishShape(g: Graph, t: Ticket, after: seq<nat>, memo: Memo, r: Graph)
    requires Publishes(g, t, after, memo, r) && Stacked(g) && Identified(g)
    ensures Stacked(r) && Identified(r)
    ensures SameLinks(ReplaceDependencies(g.nodes, t.node, after), r.nodes)
  {
    PopStacked(g, r, t.node);
  }

  lemma {:induction false} PublishesInv(g: Graph, t: Ticket, after: seq<nat>, memo: Memo, r: Graph)
    requires Core(g) && Publishes(g, t, after, memo, r) && Sorting.StrictlySorted(after, TarjanSteps.NatLeq)
    requires memo.changedAt <= memo.verifiedAt == memo.dependenciesVerifiedAt == g.revision
    ensures Core(r) && (Ordered(g) ==> Ordered(r))
  {
    assert MemoOk(g.revision, g.nodes[t.node]);
    assert forall i | 0 <= i < |after| :: after[i] in after;
    ReplaceLinked(g.nodes, t.node, after);
    PublishShape(g, t, after, memo, r);
    PublishMemos(g, t, after, memo, r);
    PublishClosed(g, t, after, memo, r);
    if Ordered(g) { ReplaceAcyclic(g, t.node, after); }
    SameLinksKeep(ReplaceDependencies(g.nodes, t.node, after), r.nodes);
  }

  lemma {:induction false} PublishInv(g: Graph, t: Ticket, result: Fingerprint)
    requires Core(g)
    ensures Core(Publish(g, t, result).graph) && (Ordered(g) ==> Ordered(Publish(g, t, result).graph))
  {
    var out := Publish(g, t, result);
    if out.result.Ok? {
      NormalizedStrict(t.dependencies);
      assert MemoOk(g.revision, g.nodes[t.node]);
      PublishesInv(g, t, Normalized(t.dependencies), PublishMemo(g, t, result).value, out.graph);
    }
  }

  /** Backdating: after a request that `n` has read is published again, `n` can be reused exactly when
      the result did not change and nothing else stands against it. */
  lemma {:induction false} BackdatedReuse(g: Graph, t: Ticket, result: Fingerprint, n: nat, input: Fingerprint)
    requires Publish(g, t, result).result.Ok? && n < |g.nodes| && n != t.node && t.node in g.nodes[n].dependencies
    requires g.nodes[n].memo.Some? && g.nodes[n].memo.value.verifiedAt < g.revision
    requires g.nodes[t.node].memo.Some? && g.nodes[t.node].memo.value.changedAt <= g.nodes[n].memo.value.verifiedAt
    ensures var out, memo := Publish(g, t, result), g.nodes[n].memo.value;
            |out.graph.nodes| == |g.nodes| &&
            (Green(out.graph, n, input) <==>
               && !out.result.value && memo.input == input
               && forall i | 0 <= i < |g.nodes[n].dependencies| && g.nodes[n].dependencies[i] != t.node ::
                    Unchanged(g, g.nodes[n].dependencies[i], memo.verifiedAt))
  {
    var out, memo, dependencies := Publish(g, t, result), g.nodes[n].memo.value, g.nodes[n].dependencies;
    forall i | 0 <= i < |dependencies|
      ensures Unchanged(out.graph, dependencies[i], memo.verifiedAt) <==>
                if dependencies[i] == t.node then !out.result.value else Unchanged(g, dependencies[i], memo.verifiedAt)
    {
    }
  }

  // ---------- Removal ----------

  lemma {:induction false} WithoutLinked(nodes: seq<Node>, gone: set<nat>)
    requires Linked(nodes)
    ensures Linked(WithoutAll(nodes, gone)) && (Acyclic(nodes) ==> Acyclic(WithoutAll(nodes, gone)))
  {
    var r := WithoutAll(nodes, gone);
    forall x: nat, y: nat | x < |nodes| && y < |nodes| ensures y in r[x].dependencies <==> x in r[y].dependents {
      assert y in nodes[x].dependencies <==> x in nodes[y].dependents;
    }
    if Acyclic(nodes) {
      var rank :| Ranked(nodes, rank);
      assert Ranked(r, rank);
    }
  }

  /** No verified request that is kept depends on a removed one. */
  ghost predicate Detached(g: Graph, gone: set<nat>) {
    forall n: nat, d: nat | VerifiedNow(g, n) && n !in gone && d in g.nodes[n].dependencies :: d !in gone
  }

  lemma {:induction false} WithoutVerified(g: Graph, gone: set<nat>, r: Graph, n: nat)
    requires Memos(g) && r.nodes == WithoutAll(g.nodes, gone) && r.revision == g.revision
    ensures VerifiedNow(r, n) <==> VerifiedNow(g, n) && n !in gone
  {
    if n < |g.nodes| { assert MemoOk(g.revision, g.nodes[n]); }
  }

  /** Removal keeps verified requests closed under dependencies exactly when it is detached. */
  lemma {:induction false} RemoveClosed(g: Graph, gone: set<nat>)
    requires Core(g) && CurrentClosed(g) && g.active == []
    ensures CurrentClosed(RemoveNodes(g, gone).graph) <==> Detached(g, gone)
  {
    var r := RemoveNodes(g, gone).graph;
    forall n: nat ensures VerifiedNow(r, n) <==> VerifiedNow(g, n) && n !in gone { WithoutVerified(g, gone, r, n); }
    if CurrentClosed(r) {
      forall n: nat, d: nat | VerifiedNow(g, n) && n !in gone && d in g.nodes[n].dependencies ensures d !in gone {
        assert VerifiedNow(r, n) && d in r.nodes[n].dependencies;
        assert VerifiedNow(r, d);
      }
    }
    if Detached(g, gone) {
      forall n: nat, d: nat | VerifiedNow(r, n) && d in r.nodes[n].dependencies ensures VerifiedNow(r, d) {
        assert VerifiedNow(g, n) && d in g.nodes[n].dependencies;
        assert VerifiedNow(g, d);
      }
    }
  }

  lemma {:induction false} WithoutGrounded(g: Graph, gone: set<nat>, r: Graph)
    requires Memos(g) && Grounded(g) && Linked(g.nodes) && r.nodes == WithoutAll(g.nodes, gone) &&
        r.revision == g.revision
    ensures Grounded(r)
  {
    forall n: nat, d: nat | VerifiedNow(r, n) && d in r.nodes[n].dependencies ensures Supported(r, d) {
      WithoutVerified(g, gone, r, n);
      WithoutVerified(g, gone, r, d);
      assert Supported(g, d);
      assert MemoOk(g.revision, g.nodes[d]);
    }
  }

  lemma {:induction false} WithoutMemos(g: Graph, gone: set<nat>, r: Graph)
    requires Memos(g) && r.nodes == WithoutAll(g.nodes, gone) && r.revision == g.revision
    ensures Memos(r)
    ensures forall n | 0 <= n < |r.nodes| && r.nodes[n].state.Computing? :: g.nodes[n].state.Computing?
  {
    forall n | 0 <= n < |r.nodes| ensures MemoOk(r.revision, r.nodes[n]) {
      assert MemoOk(g.revision, g.nodes[n]);
    }
  }

  lemma {:induction false} WithoutShape(g: Graph, gone: set<nat>, r: Graph)
    requires Stacked(g) && Identified(g) && Memos(g) && g.active == []
    requires r == g.(nodes := WithoutAll(g.nodes, gone))
    ensures Stacked(r) && Identified(r)
  {
    WithoutMemos(g, gone, r);
  }

  /** Removal always keeps the core; it keeps verified requests closed under dependencies, and with
      that the whole invariant, exactly when no kept verified request depends on a removed one. */
  lemma {:induction false} RemoveInv(g: Graph, gone: set<nat>)
    requires Core(g) && g.active == []
    ensures Core(RemoveNodes(g, gone).graph)
    ensures Ordered(g) ==> (Ordered(RemoveNodes(g, gone).graph) <==> Detached(g, gone))
  {
    var r := RemoveNodes(g, gone).graph;
    if Ordered(g) { RemoveClosed(g, gone); }
    WithoutLinked(g.nodes, gone);
    WithoutMemos(g, gone, r);
    WithoutGrounded(g, gone, r);
    WithoutShape(g, gone, r);
  }

  // ---------- No cycles ----------

  /** A walk along dependencies. */
  ghost predicate Walk(nodes: seq<Node>, p: seq<nat>) {
    && (forall i | 0 <= i < |p| :: p[i] < |nodes|)
    && forall i | 0 < i < |p| :: p[i] in nodes[p[i - 1]].dependencies
  }

  lemma {:induction false} WalkDescends(nodes: seq<Node>, rank: seq<nat>, p: seq<nat>)
    requires Ranked(nodes, rank) && Walk(nodes, p) && |p| > 1
    ensures rank[p[|p| - 1]] < rank[p[0]]
  {
    var q := p[..|p| - 1];
    assert p[|p| - 1] in nodes[p[|p| - 2]].dependencies;
    if |q| > 1 {
      assert Walk(nodes, q) by {
        forall i | 0 < i < |q| ensures q[i] in nodes[q[i - 1]].dependencies {
          assert p[i] in nodes[p[i - 1]].dependencies;
        }
      }
      WalkDescends(nodes, rank, q);
    }
  }

  /** No chain of stored dependencies leads from a request back to itself. */
  lemma {:induction false} NoCycle(nodes: seq<Node>, p: seq<nat>)
    requires Acyclic(nodes) && Walk(nodes, p) && |p| > 1
    ensures p[0] != p[|p| - 1]
  {
    var rank :| Ranked(nodes, rank);
    WalkDescends(nodes, rank, p);
  }
}
