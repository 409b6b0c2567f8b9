/** At every point of every run, what a client reads is what recomputing from scratch gives. */
module IncrementalRuns {
  import opened Wrappers
  import opened RequestGraph
  import opened RequestTable
  import opened TableInvariant
  import opened TableRuns
  import opened Incremental
  import opened IncrementalSteps
  import EI = EvaluatorInvariant

  // ---------- Where requests sit ----------

  /** Node `m` was verified just now, or has no memo, or has kept its dependencies. */
  ghost predicate EdgesKept(db: Graph, r: Graph, m: nat)
    requires m < |r.nodes|
  {
    VerifiedNow(r, m) || r.nodes[m].memo.None? || (m < |db.nodes| &&
        r.nodes[m].dependencies == db.nodes[m].dependencies)
  }

  /** How a request of a client changes what is recorded: nodes keep their identities, only a demand
      adds a request, only a publication adds an execution, and only what is verified gets new
      dependencies. */
  ghost predicate Evolves<K(!new), V>(db: Db<K, V>, op: Op<K>, r: Db<K, V>) {
    && |db.graph.nodes| <= |r.graph.nodes|
    && (forall m | 0 <= m < |db.graph.nodes| :: r.graph.nodes[m].identity == db.graph.nodes[m].identity)
    && (forall k | k in r.cells :: k in db.cells || op == Demand(k))
    && (forall n | n in r.traces ::
          || (n in db.traces && r.traces[n] == db.traces[n])
          || (db.frames != [] && r.traces[n].seen == db.frames[|db.frames| - 1].seen))
    && (forall m | 0 <= m < |r.graph.nodes| :: EdgesKept(db.graph, r.graph, m))
  }

  /** Neither requests nor executions nor identities nor dependencies differ, and what was verified is. */
  ghost predicate Alike<K, V>(a: Db<K, V>, b: Db<K, V>) {
    && b.cells == a.cells && b.traces == a.traces && |b.graph.nodes| == |a.graph.nodes|
    && forall m | 0 <= m < |a.graph.nodes| ::
         && b.graph.nodes[m].identity == a.graph.nodes[m].identity
         && b.graph.nodes[m].dependencies == a.graph.nodes[m].dependencies
         && (VerifiedNow(a.graph, m) ==> VerifiedNow(b.graph, m))
         && (a.graph.nodes[m].memo.None? ==> b.graph.nodes[m].memo.None?)
  }

  lemma {:induction false} AlikeEvolves<K(!new), V>(db: Db<K, V>, op: Op<K>, a: Db<K, V>, b: Db<K, V>)
    requires Evolves(db, op, a) && Alike(a, b)
    ensures Evolves(db, op, b)
  {
    forall m | 0 <= m < |b.graph.nodes| ensures EdgesKept(db.graph, b.graph, m) {
      assert EdgesKept(db.graph, a.graph, m);
    }
  }

  lemma {:induction false} RecordsEvolve<K(!new), V>(db: Db<K, V>, op: Op<K>, r: Db<K, V>)
    requires SameRecords(db, r)
    ensures Evolves(db, op, r)
  {
  }

  lemma {:induction false} BeginNodeAlike<K(!new), V>(p: Program<K, V>, db: Db<K, V>, key: K)
    requires Tables(p, db) && key in db.cells
    ensures Alike(db, BeginNode(db, key, db.cells[key].node, p.input(db.graph.revision, key)).db)
  {
    BeginNodeShape(p, db, key);
  }

  lemma {:induction false} EnsureEvolves<K(!new), V>(p: Program<K, V>, db: Db<K, V>, key: K)
    requires Core(p, db)
    ensures WellFormed(db) && Evolves(db, Demand(key), EnsureNode(p, db, key).db)
  {
    CoreWellFormed(p, db);
    EnsureShape(p, db, key);
    var e := EnsureNode(p, db, key);
    if key in db.cells || e.result.Err? {
      RecordsEvolve(db, Demand(key), e.db);
    } else {
      AddsEvolves(p, db, key, e.result.value, e.db);
    }
  }

  lemma {:induction false} AddsEvolves<K(!new), V>(p: Program<K, V>, db: Db<K, V>, key: K, n: nat, r: Db<K, V>)
    requires Adds(p, db, key, n, r)
    ensures Evolves(db, Demand(key), r)
  {
    forall m | 0 <= m < |r.graph.nodes| ensures EdgesKept(db.graph, r.graph, m) {}
  }

  lemma {:induction false} BeginEvolves<K(!new), V>(p: Program<K, V>, db: Db<K, V>, key: K)
    requires Core(p, db)
    ensures WellFormed(db) && Evolves(db, Demand(key), BeginKey(p, db, key, p.input(db.graph.revision, key)).db)
  {
    EnsureCore(p, db, key);
    EnsureEvolves(p, db, key);
    var e := EnsureNode(p, db, key);
    if e.result.Ok? {
      BeginNodeAlike(p, e.db, key);
      AlikeEvolves(db, Demand(key), e.db, BeginKey(p, db, key, p.input(db.graph.revision, key)).db);
    }
  }

  lemma {:induction false} PostsEvolves<K(!new), V>(db: Db<K, V>, stored: V, memo: Memo, r: Db<K, V>)
    requires Posts(db, stored, memo, r)
    ensures Evolves(db, Continue, r)
  {
    forall m | 0 <= m < |db.graph.nodes|
      ensures r.graph.nodes[m].identity == db.graph.nodes[m].identity && EdgesKept(db.graph, r.graph, m)
    {
      PostsNode(db, stored, memo, r, m);
      if m != TopNode(db) { assert SameButDependents(db.graph.nodes[m], r.graph.nodes[m]); }
    }
  }

  lemma {:induction false} PublishEvolves<K(!new), V>(p: Program<K, V>, db: Db<K, V>, value: V)
    requires Core(p, db) && db.frames != []
    ensures WellFormed(db) && Evolves(db, Continue, PublishKey(p, db, value).db)
  {
    CoreWellFormed(p, db);
    TopTicket(p, db);
    if p.output(value).None? {
      AbortShape(p, db, AbortFailed);
      RecordsEvolve(db, Continue, PublishKey(p, db, value).db);
    } else {
      var t, result := db.frames[|db.frames| - 1].ticket, p.output(value).value;
      TopPublishes(p, db, result);
      PublishPosts(p, db, value);
      PostsEvolves(db, StoredBy(db, value, Publish(db.graph, t, result).result.value),
                   PublishMemo(db.graph, t, result).value, PublishKey(p, db, value).db);
    }
  }

  lemma {:induction false} ContinueEvolves<K(!new), V>(p: Program<K, V>, db: Db<K, V>)
    requires Core(p, db) && db.frames != []
    ensures WellFormed(db) && Evolves(db, Continue, ContinueTop(p, db))
  {
    CoreWellFormed(p, db);
    ContinueIs(p, db);
    var f := db.frames[|db.frames| - 1];
    match p.eval(f.key, f.ticket.input, Values(f.seen))
    case Need(key) => ReadEvolves(p, db, key);
    case Done(value) => PublishEvolves(p, db, value);
    case Fail => RecordsEvolve(db, Continue, db);
  }

  lemma {:induction false} ReadEvolves<K(!new), V>(p: Program<K, V>, db: Db<K, V>, key: K)
    requires Core(p, db) && db.frames != []
    requires var f := db.frames[|db.frames| - 1]; p.eval(f.key, f.ticket.input, Values(f.seen)) == Need(key)
    ensures Evolves(db, Continue, RequireKey(db, key).db)
  {
    RequireCore(p, db, key);
    RecordsEvolve(db, Continue, RequireKey(db, key).db);
  }

  lemma {:induction false} RetainEdges<K(!new), V>(p: Program<K, V>, db: Db<K, V>, gone: set<K>, m: nat)
    requires db.graph.active == [] && m < |db.graph.nodes| && EI.Memos(RetainOthers(db, gone).db.graph)
    ensures var r := RetainOthers(db, gone).db;
            |r.graph.nodes| == |db.graph.nodes| && r.graph.nodes[m].identity == db.graph.nodes[m].identity &&
                EdgesKept(db.graph, r.graph, m)
  {
    RetainNode(db, gone, m);
    assert EI.MemoOk(db.graph.revision, RetainOthers(db, gone).db.graph.nodes[m]);
  }

  lemma {:induction false} RetainEvolves<K(!new), V>(p: Program<K, V>, db: Db<K, V>, gone: set<K>)
    requires Core(p, db)
    ensures Evolves(db, Retain(gone), RetainOthers(db, gone).db)
  {
    var r := RetainOthers(db, gone).db;
    if db.graph.active == [] {
      RetainCore(p, db, gone);
      forall m | 0 <= m < |db.graph.nodes|
        ensures r.graph.nodes[m].identity == db.graph.nodes[m].identity && EdgesKept(db.graph, r.graph, m)
      {
        RetainEdges(p, db, gone, m);
      }
    } else {
      RecordsEvolve(db, Retain(gone), r);
    }
  }

  lemma {:induction false} CancelEvolves<K(!new), V>(p: Program<K, V>, db: Db<K, V>, reason: AbortReason)
    requires Core(p, db) && db.frames != []
    ensures Evolves(db, Cancel(reason), AbortKey(db, reason).db)
  {
    AbortShape(p, db, reason);
    RecordsEvolve(db, Cancel(reason), AbortKey(db, reason).db);
  }

  lemma {:induction false} AdvanceEvolves<K(!new), V>(p: Program<K, V>, db: Db<K, V>, revision: nat)
    requires Core(p, db)
    ensures Evolves(db, NewRevision(revision), Advance(db, revision).db)
  {
    if revision > db.graph.revision { AdvanceShape(db, revision); }
    RecordsEvolve(db, NewRevision(revision), Advance(db, revision).db);
  }

  lemma {:induction false} ApplyEvolves<K(!new), V>(p: Program<K, V>, db: Db<K, V>, op: Op<K>)
    requires Core(p, db)
    ensures WellFormed(db) && Evolves(db, op, Apply(p, db, op))
  {
    CoreWellFormed(p, db);
    ApplyIs(p, db, op);
    RecordsEvolve(db, op, db);
    match op
    case Demand(key) => BeginEvolves(p, db, key);
    case Continue => if db.frames != [] { ContinueEvolves(p, db); }
    case Cancel(reason) => if db.frames != [] { CancelEvolves(p, db, reason); }
    case NewRevision(revision) => AdvanceEvolves(p, db, revision);
    case Retain(gone) => RetainEvolves(p, db, gone);
  }

  /** The node of a read carries the identity of the request that was read. */
  ghost predicate PlacedRead<K, V>(p: Program<K, V>, keys: set<K>, nodes: seq<Node>, read: Read<K, V>) {
    read.key in keys && read.node < |nodes| && nodes[read.node].identity == p.identity(read.key)
  }

  ghost predicate Placed<K(!new), V>(p: Program<K, V>, keys: set<K>, db: Db<K, V>) {
    && (forall k | k in db.cells :: k in keys)
    && (forall n, i | n in db.traces && 0 <= i < |db.traces[n].seen| ::
          PlacedRead(p, keys, db.graph.nodes, db.traces[n].seen[i]))
  }

  lemma {:induction false} HeldPlaced<K(!new), V>(p: Program<K, V>, keys: set<K>, db: Db<K, V>, i: nat)
    requires Core(p, db) && Placed(p, keys, db) && db.frames != [] && i < |db.frames[|db.frames| - 1].seen|
    ensures PlacedRead(p, keys, db.graph.nodes, db.frames[|db.frames| - 1].seen[i])
  {
    var f := db.frames[|db.frames| - 1];
    assert FrameAt(p, db, f, |db.frames| - 1);
    assert Holds(db, f.seen[i]);
    assert KeyAt(db.cells, f.seen[i].node, f.seen[i].key);
    assert CellAt(p, db.graph.nodes, db.keys, f.seen[i].key, f.seen[i].node);
  }

  lemma {:induction false} ApplyPlaced<K(!new), V>(p: Program<K, V>, keys: set<K>, db: Db<K, V>, op: Op<K>)
    requires Core(p, db) && Placed(p, keys, db) && (op.Demand? ==> op.key in keys)
    ensures WellFormed(db) && Placed(p, keys, Apply(p, db, op))
  {
    ApplyEvolves(p, db, op);
    var r := Apply(p, db, op);
    forall n, i | n in r.traces && 0 <= i < |r.traces[n].seen|
      ensures PlacedRead(p, keys, r.graph.nodes, r.traces[n].seen[i])
    {
      if n in db.traces && r.traces[n] == db.traces[n] {
        assert PlacedRead(p, keys, db.graph.nodes, db.traces[n].seen[i]);
      } else {
        HeldPlaced(p, keys, db, i);
      }
    }
  }

  /** The identities of the given requests tell them apart. */
  ghost predicate Identifies<K, V>(p: Program<K, V>, keys: set<K>) {
    forall k, l | k in keys && l in keys && p.identity(k) == p.identity(l) :: k == l
  }

  lemma {:induction false} PlacedClear<K(!new), V>(p: Program<K, V>, keys: set<K>, db: Db<K, V>)
    requires Core(p, db) && Placed(p, keys, db) && Identifies(p, keys)
    ensures Clear(db)
  {
    forall m: nat, i | VerifiedNow(db.graph, m) && m in db.traces && 0 <= i < |db.traces[m].seen|
      ensures ClearRead(db, db.traces[m].seen[i])
    {
      var read := db.traces[m].seen[i];
      assert PlacedRead(p, keys, db.graph.nodes, read);
      if read.node in db.keys {
        var k := db.keys[read.node];
        assert KeyAt(db.cells, read.node, k);
        assert CellAt(p, db.graph.nodes, db.keys, k, read.node);
      }
    }
  }

  lemma {:induction false} OrderedClear<K(!new), V(!new)>(p: Program<K, V>, values: set<V>, db: Db<K, V>)
    requires Stored(p, values, db) && EI.CurrentClosed(db.graph)
    ensures Clear(db)
  {
    forall m: nat, i | VerifiedNow(db.graph, m) && m in db.traces && 0 <= i < |db.traces[m].seen|
      ensures ClearRead(db, db.traces[m].seen[i])
    {
      assert StoredAt(p, values, db.graph.nodes[m], m, db.cells, db.keys, db.traces);
      assert NodesOf(db.traces[m].seen)[i] in db.graph.nodes[m].dependencies;
    }
  }

  // ---------- Runs ----------

  /** The requests that are demanded in a run. */
  ghost function Demanded<K(!new)>(ops: seq<Op<K>>): set<K>
    decreases |ops|
  {
    if ops == [] then {}
    else Demanded(ops[..|ops| - 1]) + (if ops[|ops| - 1].Demand? then {ops[|ops| - 1].key} else {})
  }

  /** The value that the computation on top of the stack publishes next, if any. */
  ghost function NextValue<K(!new), V(!new)>(p: Program<K, V>, db: Db<K, V>): set<V> {
    if db.frames == [] then {}
    else
      var f := db.frames[|db.frames| - 1];
      match p.eval(f.key, f.ticket.input, Values(f.seen))
      case Done(value) => {value}
      case _ => {}
  }

  /** The values that evaluators return in a run. */
  ghost function Produced<K(!new), V(!new)>(p: Program<K, V>, start: nat, ops: seq<Op<K>>): set<V>
    decreases |ops|
  {
    if ops == [] then {}
    else
      var init := ops[..|ops| - 1];
      Produced(p, start, init) + (if ops[|ops| - 1].Continue? then NextValue(p, After(p, start, init)) else {})
  }

  lemma {:induction false} RunPlaced<K(!new), V>(p: Program<K, V>, start: nat, ops: seq<Op<K>>, keys: set<K>)
    requires Demanded(ops) <= keys
    ensures Placed(p, keys, After(p, start, ops))
    decreases |ops|
  {
    if ops != [] {
      var init, op := ops[..|ops| - 1], ops[|ops| - 1];
      RunPlaced(p, start, init, keys);
      assert op.Demand? ==> op.key in Demanded(ops);
      ApplyPlaced(p, keys, After(p, start, init), op);
    }
  }

  /** Either nothing that a kept verified request has read is removed, or identities tell the demanded
      requests apart. */
  ghost predicate Tidy<K(!new), V(!new)>(p: Program<K, V>, start: nat, ops: seq<Op<K>>, keys: set<K>) {
    Detaches(p, start, ops) || (Demanded(ops) <= keys && Identifies(p, keys))
  }

  lemma {:induction false} RunClear<K(!new), V(!new)>(p: Program<K, V>, start: nat, ops: seq<Op<K>>, keys: set<K>,
      values: set<V>)
    requires Tidy(p, start, ops, keys) && Stored(p, values, After(p, start, ops))
    ensures Clear(After(p, start, ops))
  {
    if Detaches(p, start, ops) {
      RunInvariant(p, start, ops);
      OrderedClear(p, values, After(p, start, ops));
    } else {
      RunPlaced(p, start, ops, keys);
      PlacedClear(p, keys, After(p, start, ops));
    }
  }

  lemma {:induction false} InitialGood<K(!new), V(!new)>(p: Program<K, V>, values: set<V>, start: nat)
    ensures Good(p, values, Initial<K, V>(start))
  {
    InitialCore<K, V>(p, start);
  }

  lemma {:induction false} RunGood<K(!new), V(!new)>(p: Program<K, V>, start: nat, ops: seq<Op<K>>, keys: set<K>,
      values: set<V>)
    requires Tidy(p, start, ops, keys) && Produced(p, start, ops) <= values && Distinguishes(p, values)
    ensures Good(p, values, After(p, start, ops))
    decreases |ops|
  {
    if ops == [] {
      InitialGood<K, V>(p, values, start);
    } else {
      var init, op := ops[..|ops| - 1], ops[|ops| - 1];
      assert Demanded(init) <= Demanded(ops) && Produced(p, start, init) <= Produced(p, start, ops);
      RunGood(p, start, init, keys, values);
      RunClear(p, start, init, keys, values);
      assert op.Continue? ==> NextValue(p, After(p, start, init)) <= values;
      ApplyFaithful(p, values, After(p, start, init), op);
    }
  }

  /** At every point of every run, a value that reads as current is the one and only result of
      recomputing its request from the inputs of the revision: if output fingerprints tell the
      produced values apart, and unless both a kept verified request loses what it has read and
      identities of demanded requests collide. */
  lemma {:induction false} IncrementalEqualsFromScratch<K(!new), V(!new)>(p: Program<K, V>, start: nat, ops: seq<Op<K>>,
      key: K)
    requires Distinguishes(p, Produced(p, start, ops))
    requires Detaches(p, start, ops) || Identifies(p, Demanded(ops))
    requires var read := CurrentValue(After(p, start, ops), key); read.Ok? && read.value.Some?
    ensures var db := After(p, start, ops);
            forall v :: FromScratch(p, db.graph.revision, key, v) <==> v == CurrentValue(db, key).value.value
  {
    RunGood(p, start, ops, Demanded(ops), Produced(p, start, ops));
    CurrentIsFromScratch(p, Produced(p, start, ops), After(p, start, ops), key);
  }
}
