/** Incremental evaluation agrees with recomputing everything from scratch. */
module Incremental {
  import opened Wrappers
  import opened RequestGraph
  import opened RequestTable
  import opened TableInvariant

  // ---------- Recomputation from scratch ----------

  /** It asks for these reads and then returns `value`. */
  ghost predicate Returns<K, V>(p: Program<K, V>, key: K, input: Fingerprint, seen: seq<Read<K, V>>, value: V) {
    Asks(p, key, input, seen) && p.eval(key, input, Values(seen)) == Done(value)
  }

  /** `key` evaluates to `value` from the inputs of `revision` alone, with nested evaluations at most
      `depth` deep. */
  ghost predicate Evaluates<K(!new), V(!new)>(p: Program<K, V>, revision: nat, key: K, value: V, depth: nat)
    decreases depth, 1
  {
    exists seen: seq<Read<K, V>> ::
      Returns(p, key, p.input(revision, key), seen, value) && AllEvaluate(p, revision, seen, depth)
  }

  ghost predicate AllEvaluate<K(!new), V(!new)>(p: Program<K, V>, revision: nat, seen: seq<Read<K, V>>, depth: nat)
    decreases depth, 0
  {
    && (seen != [] ==> depth > 0)
    && forall i | 0 <= i < |seen| :: Evaluates(p, revision, seen[i].key, seen[i].value, depth - 1)
  }

  /** A full recomputation from the inputs of `revision` gives `value` for `key`. */
  ghost predicate FromScratch<K(!new), V(!new)>(p: Program<K, V>, revision: nat, key: K, value: V) {
    exists depth: nat :: Evaluates(p, revision, key, value, depth)
  }

  /** Reads at the same place of the same request agree. */
  ghost predicate Agree<K, V>(a: seq<Read<K, V>>, b: seq<Read<K, V>>) {
    forall i | 0 <= i < |a| && i < |b| && a[i].key == b[i].key :: a[i].value == b[i].value
  }

  /** Two evaluations that see the same values return the same value. */
  lemma {:induction false} SameReads<K(!new), V(!new)>(p: Program<K, V>, key: K, input: Fingerprint,
      a: seq<Read<K, V>>, v: V, b: seq<Read<K, V>>, w: V, n: nat)
    requires Returns(p, key, input, a, v) && Returns(p, key, input, b, w) && Agree(a, b)
    requires n <= |a| && n <= |b| && Values(a)[..n] == Values(b)[..n]
    ensures v == w
    decreases |a| - n
  {
    if n < |a| && n < |b| {
      assert a[n].key == b[n].key;
      assert Values(a)[..n + 1] == Values(a)[..n] + [a[n].value];
      assert Values(b)[..n + 1] == Values(b)[..n] + [b[n].value];
      SameReads(p, key, input, a, v, b, w, n + 1);
    } else {
      assert Values(a)[..|a|] == Values(a) && Values(b)[..|b|] == Values(b);
    }
  }

  /** A full recomputation has at most one result. */
  lemma {:induction false} EvaluatesUnique<K(!new), V(!new)>(p: Program<K, V>, revision: nat, key: K,
      v: V, d: nat, w: V, e: nat)
    requires Evaluates(p, revision, key, v, d) && Evaluates(p, revision, key, w, e)
    ensures v == w
    decreases d
  {
    var a: seq<Read<K, V>> :| Returns(p, key, p.input(revision, key), a, v) && AllEvaluate(p, revision, a, d);
    var b: seq<Read<K, V>> :| Returns(p, key, p.input(revision, key), b, w) && AllEvaluate(p, revision, b, e);
    forall i | 0 <= i < |a| && i < |b| && a[i].key == b[i].key ensures a[i].value == b[i].value {
      EvaluatesUnique(p, revision, a[i].key, a[i].value, d - 1, b[i].value, e - 1);
    }
    SameReads(p, key, p.input(revision, key), a, v, b, w, 0);
  }

  lemma {:induction false} Deeper<K(!new), V(!new)>(p: Program<K, V>, revision: nat, key: K, value: V, d: nat, e: nat)
    requires Evaluates(p, revision, key, value, d) && d <= e
    ensures Evaluates(p, revision, key, value, e)
    decreases d
  {
    var seen: seq<Read<K, V>> :| Returns(p, key, p.input(revision, key), seen, value) &&
        AllEvaluate(p, revision, seen, d);
    forall i | 0 <= i < |seen| ensures Evaluates(p, revision, seen[i].key, seen[i].value, e - 1) {
      Deeper(p, revision, seen[i].key, seen[i].value, d - 1, e - 1);
    }
    assert AllEvaluate(p, revision, seen, e);
  }

  lemma {:induction false} CommonDepth<K(!new), V(!new)>(p: Program<K, V>, revision: nat, seen: seq<Read<K, V>>)
    returns (depth: nat)
    requires forall i | 0 <= i < |seen| :: FromScratch(p, revision, seen[i].key, seen[i].value)
    ensures forall i | 0 <= i < |seen| :: Evaluates(p, revision, seen[i].key, seen[i].value, depth)
    decreases |seen|
  {
    depth := 0;
    if seen != [] {
      var last := seen[|seen| - 1];
      var below := CommonDepth(p, revision, seen[..|seen| - 1]);
      assert FromScratch(p, revision, last.key, last.value);
      var own: nat :| Evaluates(p, revision, last.key, last.value, own);
      depth := below + own;
      Deeper(p, revision, last.key, last.value, own, depth);
      forall i | 0 <= i < |seen| - 1 ensures Evaluates(p, revision, seen[i].key, seen[i].value, depth) {
        assert seen[i] == seen[..|seen| - 1][i];
        Deeper(p, revision, seen[i].key, seen[i].value, below, depth);
      }
    }
  }

  /** What an evaluator returns after reading recomputed values is the recomputed value. */
  lemma {:induction false} Composes<K(!new), V(!new)>(p: Program<K, V>, revision: nat, key: K, seen: seq<Read<K, V>>,
      value: V)
    requires Returns(p, key, p.input(revision, key), seen, value)
    requires forall i | 0 <= i < |seen| :: FromScratch(p, revision, seen[i].key, seen[i].value)
    ensures FromScratch(p, revision, key, value)
  {
    var depth := CommonDepth(p, revision, seen);
    assert AllEvaluate(p, revision, seen, depth + 1);
    assert Evaluates(p, revision, key, value, depth + 1);
  }

  // ---------- Invariant ----------

  /** Output fingerprints tell the given values apart. */
  ghost predicate Distinguishes<K, V>(p: Program<K, V>, values: set<V>) {
    forall v, w | v in values && w in values && p.output(v).Some? && p.output(v) == p.output(w) :: v == w
  }

  /** The stored value of `n` is what its evaluator returned in the recorded execution. */
  ghost predicate StoredAt<K(!new), V(!new)>(p: Program<K, V>, values: set<V>, node: Node, n: nat,
      cells: map<K, Cell<V>>, keys: map<nat, K>, traces: map<nat, Trace<K, V>>) {
    node.memo.Some? ==>
      && n in keys && keys[n] in cells && cells[keys[n]].value.Some? && n in traces
      && var v := cells[keys[n]].value.value;
         && v in values && p.output(v) == Some(node.memo.value.result)
         && traces[n].input == node.memo.value.input
         && Returns(p, keys[n], traces[n].input, traces[n].seen, v)
         && (forall d: nat :: d in node.dependencies <==> d in NodesOf(traces[n].seen))
  }

  ghost predicate Stored<K(!new), V(!new)>(p: Program<K, V>, values: set<V>, db: Db<K, V>) {
    forall n | 0 <= n < |db.graph.nodes| ::
      StoredAt(p, values, db.graph.nodes[n], n, db.cells, db.keys, db.traces)
  }

  /** A recorded read is still right, unless what it read has changed since `since`. */
  ghost predicate StillRight<K, V>(nodes: seq<Node>, cells: map<K, Cell<V>>, keys: map<nat, K>, since: nat,
      r: Read<K, V>) {
    (r.node < |nodes| && nodes[r.node].memo.Some? && nodes[r.node].memo.value.changedAt <= since) ==>
      Gives(cells, keys, r.node, r.key, r.value)
  }

  ghost predicate RightAt<K, V>(nodes: seq<Node>, cells: map<K, Cell<V>>, keys: map<nat, K>, node: Node,
      trace: Trace<K, V>) {
    node.memo.Some? ==> forall i | 0 <= i < |trace.seen| ::
      StillRight(nodes, cells, keys, node.memo.value.verifiedAt, trace.seen[i])
  }

  ghost predicate Right<K, V>(db: Db<K, V>) {
    forall n | 0 <= n < |db.graph.nodes| && n in db.traces ::
      RightAt(db.graph.nodes, db.cells, db.keys, db.graph.nodes[n], db.traces[n])
  }

  ghost predicate Recomputed<K(!new), V(!new)>(p: Program<K, V>, revision: nat, read: Read<K, V>) {
    FromScratch(p, revision, read.key, read.value)
  }

  /** If `n` was verified in this revision, then for its input of this revision, and its value is the
      recomputed one, and so are its reads. */
  ghost predicate ScratchAt<K(!new), V(!new)>(p: Program<K, V>, db: Db<K, V>, n: nat) {
    VerifiedNow(db.graph, n) ==>
      && n in db.keys && db.keys[n] in db.cells && db.cells[db.keys[n]].value.Some? && n in db.traces
      && db.traces[n].input == p.input(db.graph.revision, db.keys[n])
      && FromScratch(p, db.graph.revision, db.keys[n], db.cells[db.keys[n]].value.value)
      && forall i | 0 <= i < |db.traces[n].seen| :: Recomputed(p, db.graph.revision, db.traces[n].seen[i])
  }

  ghost predicate Scratch<K(!new), V(!new)>(p: Program<K, V>, db: Db<K, V>) {
    forall n | 0 <= n < |db.graph.nodes| :: ScratchAt(p, db, n)
  }

  ghost predicate Faithful<K(!new), V(!new)>(p: Program<K, V>, values: set<V>, db: Db<K, V>) {
    Stored(p, values, db) && Right(db) && Scratch(p, db)
  }

  ghost predicate Good<K(!new), V(!new)>(p: Program<K, V>, values: set<V>, db: Db<K, V>) {
    Core(p, db) && Faithful(p, values, db)
  }

  // ---------- The theorem about states ----------

  lemma {:induction false} FromScratchUnique<K(!new), V(!new)>(p: Program<K, V>, revision: nat, key: K, v: V, w: V)
    requires FromScratch(p, revision, key, v) && FromScratch(p, revision, key, w)
    ensures v == w
  {
    var d: nat :| Evaluates(p, revision, key, v, d);
    var e: nat :| Evaluates(p, revision, key, w, e);
    EvaluatesUnique(p, revision, key, v, d, w, e);
  }

  /** Whatever a client reads as current is what a full recomputation at this revision gives. */
  lemma {:induction false} CurrentIsFromScratch<K(!new), V(!new)>(p: Program<K, V>, values: set<V>, db: Db<K, V>,
      key: K)
    requires Good(p, values, db)
    requires CurrentValue(db, key).Ok? && CurrentValue(db, key).value.Some?
    ensures forall v :: FromScratch(p, db.graph.revision, key, v) <==> v == CurrentValue(db, key).value.value
  {
    var n := db.cells[key].node;
    assert CellAt(p, db.graph.nodes, db.keys, key, n);
    assert ScratchAt(p, db, n);
    forall v | FromScratch(p, db.graph.revision, key, v) ensures v == CurrentValue(db, key).value.value {
      FromScratchUnique(p, db.graph.revision, key, v, CurrentValue(db, key).value.value);
    }
  }
}
