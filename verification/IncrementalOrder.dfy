/** Stored dependencies have no cycle, even after what a verified request has read was removed: they
    follow how deep a recomputation is nested. */
module IncrementalOrder {
  import opened Wrappers
  import opened RequestGraph
  import opened RequestTable
  import opened TableInvariant
  import opened TableRuns
  import opened Incremental
  import opened IncrementalRuns
  import EI = EvaluatorInvariant

  // ---------- Depth of a recomputation ----------

  ghost predicate SameRead<K, V>(a: Read<K, V>, b: Read<K, V>) { a.key == b.key && a.value == b.value }

  /** Two evaluations that see the same values ask the same questions. */
  lemma {:induction false} SameTrace<K(!new), V(!new)>(p: Program<K, V>, key: K, input: Fingerprint,
      a: seq<Read<K, V>>, v: V, b: seq<Read<K, V>>, w: V, n: nat)
    requires Returns(p, key, input, a, v) && Returns(p, key, input, b, w) && Agree(a, b)
    requires n <= |a| && n <= |b| && Values(a)[..n] == Values(b)[..n] && forall i | 0 <= i < n :: SameRead(a[i], b[i])
    ensures |a| == |b| && forall i | 0 <= i < |a| :: SameRead(a[i], b[i])
    decreases |a| - n
  {
    assert Values(a)[..|a|] == Values(a) && Values(b)[..|b|] == Values(b);
    if n < |a| && n < |b| {
      assert a[n].key == b[n].key;
      assert Values(a)[..n + 1] == Values(a)[..n] + [a[n].value];
      assert Values(b)[..n + 1] == Values(b)[..n] + [b[n].value];
      SameTrace(p, key, input, a, v, b, w, n + 1);
    }
  }

  ghost function DepthFrom<K(!new), V(!new)>(p: Program<K, V>, revision: nat, key: K, value: V, bound: nat): (d: nat)
    requires Evaluates(p, revision, key, value, bound)
    ensures Evaluates(p, revision, key, value, d) && (d > 0 ==> !Evaluates(p, revision, key, value, d - 1))
  {
    if bound > 0 && Evaluates(p, revision, key, value, bound - 1) then DepthFrom(p, revision, key, value, bound - 1)
        else bound
  }

  /** How deep the recomputation of a request is nested. */
  ghost function Depth<K(!new), V(!new)>(p: Program<K, V>, revision: nat, key: K, value: V): (d: nat)
    requires FromScratch(p, revision, key, value)
    ensures Evaluates(p, revision, key, value, d) && (d > 0 ==> !Evaluates(p, revision, key, value, d - 1))
  {
    var bound: nat :| Evaluates(p, revision, key, value, bound);
    DepthFrom(p, revision, key, value, bound)
  }

  lemma {:induction false} DepthLeast<K(!new), V(!new)>(p: Program<K, V>, revision: nat, key: K, value: V, e: nat)
    requires Evaluates(p, revision, key, value, e)
    ensures FromScratch(p, revision, key, value) && Depth(p, revision, key, value) <= e
  {
    assert FromScratch(p, revision, key, value);
    var d := Depth(p, revision, key, value);
    if e < d { Deeper(p, revision, key, value, e, d - 1); }
  }

  /** What an evaluator reads is nested less deep than the evaluator. */
  lemma {:induction false} ReadShallower<K(!new), V(!new)>(p: Program<K, V>, revision: nat, key: K,
      seen: seq<Read<K, V>>, value: V, i: nat)
    requires Returns(p, key, p.input(revision, key), seen, value) && i < |seen|
    requires forall j | 0 <= j < |seen| :: Recomputed(p, revision, seen[j])
    ensures FromScratch(p, revision, key, value)
    ensures Recomputed(p, revision, seen[i]) && Depth(p, revision, seen[i].key, seen[i].value) <
        Depth(p, revision, key, value)
  {
    assert forall j | 0 <= j < |seen| :: FromScratch(p, revision, seen[j].key, seen[j].value) by {
      assert forall j | 0 <= j < |seen| :: Recomputed(p, revision, seen[j]);
    }
    Composes(p, revision, key, seen, value);
    var d := Depth(p, revision, key, value);
    var b: seq<Read<K, V>> :| Returns(p, key, p.input(revision, key), b, value) && AllEvaluate(p, revision, b, d);
    forall j | 0 <= j < |seen| && j < |b| && seen[j].key == b[j].key ensures seen[j].value == b[j].value {
      assert Evaluates(p, revision, b[j].key, b[j].value, d - 1);
      FromScratchUnique(p, revision, b[j].key, seen[j].value, b[j].value);
    }
    SameTrace(p, key, p.input(revision, key), seen, value, b, value, 0);
    assert SameRead(seen[i], b[i]);
    DepthLeast(p, revision, seen[i].key, seen[i].value, d - 1);
  }

  // ---------- Ranks ----------

  /** The depth of a verified request. */
  ghost function Nesting<K(!new), V(!new)>(p: Program<K, V>, db: Db<K, V>, n: nat): nat {
    if n in db.keys && db.keys[n] in db.cells && db.cells[db.keys[n]].value.Some?
       && FromScratch(p, db.graph.revision, db.keys[n], db.cells[db.keys[n]].value.value)
    then Depth(p, db.graph.revision, db.keys[n], db.cells[db.keys[n]].value.value)
    else 0
  }

  /** A verified dependency of a verified request gives what was read. */
  lemma {:induction false} VerifiedGives<K(!new), V(!new)>(p: Program<K, V>, values: set<V>, db: Db<K, V>, n: nat,
      i: nat)
    requires Good(p, values, db) && VerifiedNow(db.graph, n) && n in db.traces && i < |db.traces[n].seen|
    requires VerifiedNow(db.graph, db.traces[n].seen[i].node)
    ensures var read := db.traces[n].seen[i]; Gives(db.cells, db.keys, read.node, read.key, read.value)
  {
    var read := db.traces[n].seen[i];
    assert EI.MemoOk(db.graph.revision, db.graph.nodes[read.node]);
    assert RightAt(db.graph.nodes, db.cells, db.keys, db.graph.nodes[n], db.traces[n]);
    assert StillRight(db.graph.nodes, db.cells, db.keys, db.graph.nodes[n].memo.value.verifiedAt, read);
  }

  /** Between verified requests, dependencies lead to what is nested less deep. */
  lemma {:induction false} VerifiedEdge<K(!new), V(!new)>(p: Program<K, V>, values: set<V>, db: Db<K, V>, n: nat,
      d: nat)
    requires Good(p, values, db) && VerifiedNow(db.graph, n) && d in db.graph.nodes[n].dependencies
    ensures 0 < Nesting(p, db, n) && (VerifiedNow(db.graph, d) ==> Nesting(p, db, d) < Nesting(p, db, n))
  {
    var i := ReadOf(p, values, db, n, d);
    ReadShallower(p, db.graph.revision, db.keys[n], db.traces[n].seen, db.cells[db.keys[n]].value.value, i);
    if VerifiedNow(db.graph, d) { VerifiedGives(p, values, db, n, i); }
  }

  /** A dependency of a verified request was read in its last execution, for the input of this revision. */
  lemma {:induction false} ReadOf<K(!new), V(!new)>(p: Program<K, V>, values: set<V>, db: Db<K, V>, n: nat, d: nat)
    returns (i: nat)
    requires Stored(p, values, db) && Scratch(p, db) && VerifiedNow(db.graph, n) && d in db.graph.nodes[n].dependencies
    ensures n in db.keys && db.keys[n] in db.cells && db.cells[db.keys[n]].value.Some? && n in db.traces
    ensures i < |db.traces[n].seen| && db.traces[n].seen[i].node == d
    ensures Returns(p, db.keys[n], p.input(db.graph.revision, db.keys[n]), db.traces[n].seen,
        db.cells[db.keys[n]].value.value)
    ensures forall j | 0 <= j < |db.traces[n].seen| :: Recomputed(p, db.graph.revision, db.traces[n].seen[j])
  {
    assert StoredAt(p, values, db.graph.nodes[n], n, db.cells, db.keys, db.traces);
    assert ScratchAt(p, db, n);
    assert d in NodesOf(db.traces[n].seen);
    i :| 0 <= i < |db.traces[n].seen| && NodesOf(db.traces[n].seen)[i] == d;
  }

  ghost predicate OldEdges(a: seq<Node>, g: Graph) {
    forall x: nat, d: nat | x < |g.nodes| && !VerifiedNow(g, x) && d in g.nodes[x].dependencies ::
      x < |a| && d in a[x].dependencies
  }

  /** Verified requests by depth, what has no memo below them, and all others above in their old order. */
  ghost function NewRank<K(!new), V(!new)>(p: Program<K, V>, db: Db<K, V>, earlier: seq<nat>, bound: nat, n: nat): nat
    requires n < |db.graph.nodes|
  {
    if VerifiedNow(db.graph, n) then Nesting(p, db, n)
    else if db.graph.nodes[n].memo.None? then 0
    else bound + (if n < |earlier| then earlier[n] else 0)
  }

  lemma {:induction false} NewRankDescends<K(!new), V(!new)>(p: Program<K, V>, values: set<V>, db: Db<K, V>,
      a: seq<Node>, earlier: seq<nat>, bound: nat, x: nat, d: nat)
    requires Good(p, values, db) && EI.Ranked(a, earlier) && EI.Linked(a) && OldEdges(a, db.graph)
    requires forall n | 0 <= n < |db.graph.nodes| :: Nesting(p, db, n) < bound
    requires x < |db.graph.nodes| && d < |db.graph.nodes| && d in db.graph.nodes[x].dependencies
    ensures NewRank(p, db, earlier, bound, d) < NewRank(p, db, earlier, bound, x)
  {
    if VerifiedNow(db.graph, x) {
      assert EI.Supported(db.graph, d);
      VerifiedEdge(p, values, db, x, d);
    } else {
      assert EI.MemoOk(db.graph.revision, db.graph.nodes[x]);
      assert Nesting(p, db, d) < bound;
      assert x < |a| && d in a[x].dependencies;
      var i :| 0 <= i < |a[x].dependencies| && a[x].dependencies[i] == d;
      assert a[x].dependencies[i] < |a|;
      assert earlier[d] < earlier[x];
    }
  }

  lemma {:induction false} Reranked<K(!new), V(!new)>(p: Program<K, V>, values: set<V>, db: Db<K, V>, a: seq<Node>)
    requires Good(p, values, db) && EI.Acyclic(a) && EI.Linked(a) && OldEdges(a, db.graph)
    ensures EI.Acyclic(db.graph.nodes)
  {
    var earlier :| EI.Ranked(a, earlier);
    var n := |db.graph.nodes|;
    var depths := seq(n, i requires 0 <= i < n => Nesting(p, db, i));
    var bound := EI.RankBound(depths);
    forall i | 0 <= i < n ensures Nesting(p, db, i) < bound { assert depths[i] < bound; }
    var rank := seq(n, i requires 0 <= i < n => NewRank(p, db, earlier, bound, i));
    forall x: nat, d: nat | x < n && d < n && d in db.graph.nodes[x].dependencies ensures rank[d] < rank[x] {
      NewRankDescends(p, values, db, a, earlier, bound, x, d);
    }
    assert EI.Ranked(db.graph.nodes, rank);
  }

  lemma {:induction false} KeptOldEdges(g: Graph, r: Graph)
    requires EI.Memos(r) && forall m | 0 <= m < |r.nodes| :: EdgesKept(g, r, m)
    ensures OldEdges(g.nodes, r)
  {
    forall x: nat, d: nat | x < |r.nodes| && !VerifiedNow(r, x) && d in r.nodes[x].dependencies
      ensures x < |g.nodes| && d in g.nodes[x].dependencies
    {
      assert EdgesKept(g, r, x);
      assert EI.MemoOk(r.revision, r.nodes[x]);
    }
  }

  lemma {:induction false} ApplyOldEdges<K(!new), V(!new)>(p: Program<K, V>, db: Db<K, V>, op: Op<K>)
    requires Core(p, db)
    ensures WellFormed(db) && OldEdges(db.graph.nodes, Apply(p, db, op).graph)
  {
    ApplyEvolves(p, db, op);
    ApplyCore(p, db, op);
    KeptOldEdges(db.graph, Apply(p, db, op).graph);
  }

  // ---------- Runs ----------

  /** Where current values are recomputed values, stored dependencies have no cycle, whatever was removed. */
  lemma {:induction false} RunOrdered<K(!new), V(!new)>(p: Program<K, V>, start: nat, ops: seq<Op<K>>, keys: set<K>,
      values: set<V>)
    requires Tidy(p, start, ops, keys) && Produced(p, start, ops) <= values && Distinguishes(p, values)
    ensures EI.Acyclic(After(p, start, ops).graph.nodes)
    decreases |ops|
  {
    RunGood(p, start, ops, keys, values);
    if ops == [] {
      InitialCore<K, V>(p, start);
    } else {
      var init := ops[..|ops| - 1];
      assert Demanded(init) <= Demanded(ops) && Produced(p, start, init) <= Produced(p, start, ops);
      RunOrdered(p, start, init, keys, values);
      ApplyOldEdges(p, After(p, start, init), ops[|ops| - 1]);
      Reranked(p, values, After(p, start, ops), After(p, start, init).graph.nodes);
    }
  }

  /** So no chain of stored dependencies leads back to its start, in every run whose fingerprints do
      not collide. */
  lemma {:induction false} RunAcyclicWithRemovals<K(!new), V(!new)>(p: Program<K, V>, start: nat, ops: seq<Op<K>>,
      walk: seq<nat>)
    requires Distinguishes(p, Produced(p, start, ops)) && Identifies(p, Demanded(ops))
    requires EI.Walk(After(p, start, ops).graph.nodes, walk) && |walk| > 1
    ensures walk[0] != walk[|walk| - 1]
  {
    RunOrdered(p, start, ops, Demanded(ops), Produced(p, start, ops));
    EI.NoCycle(After(p, start, ops).graph.nodes, walk);
  }
}
