/** What holds at every point of every run of a client, for every program, every fingerprint and every
    removal. */
module TableRuns {
  import opened Wrappers
  import opened RequestGraph
  import opened RequestTable
  import opened TableInvariant
  import EI = EvaluatorInvariant

  lemma {:induction false} InitialCore<K(!new), V>(p: Program<K, V>, start: nat)
    ensures Core(p, Initial<K, V>(start)) && EI.Ordered(Initial<K, V>(start).graph)
  {
    EI.EmptyInv(start);
  }

  /** The database after a client that started empty has made these requests. At every such point a
      node is computing exactly when it is on the stack at its index, dependencies and dependents are
      converse, memos are in order, identities name their nodes, the table names the nodes in use, and
      the live computations are the active nodes in order. */
  ghost function After<K(!new), V>(p: Program<K, V>, start: nat, ops: seq<Op<K>>): (r: Db<K, V>)
    ensures Core(p, r)
    decreases |ops|
  {
    if ops == [] then
      InitialCore<K, V>(p, start);
      Initial(start)
    else
      var db := After(p, start, ops[..|ops| - 1]);
      ApplyCore(p, db, ops[|ops| - 1]);
      Apply(p, db, ops[|ops| - 1])
  }

  /** No removal of the run takes away what a kept verified request has read. */
  ghost predicate Detaches<K(!new), V>(p: Program<K, V>, start: nat, ops: seq<Op<K>>)
    decreases |ops|
  {
    ops != [] ==>
      var init, op := ops[..|ops| - 1], ops[|ops| - 1];
      Detaches(p, start, init) && (op.Retain? ==> DetachedRetain(After(p, start, init), op.gone))
  }

  /** Without removals from under kept verified requests, verified requests are also closed under
      dependencies and the dependencies have no cycle. */
  lemma {:induction false} RunInvariant<K(!new), V>(p: Program<K, V>, start: nat, ops: seq<Op<K>>)
    requires Detaches(p, start, ops)
    ensures EI.Inv(After(p, start, ops).graph)
    decreases |ops|
  {
    if ops == [] {
      InitialCore<K, V>(p, start);
    } else {
      RunInvariant(p, start, ops[..|ops| - 1]);
      ApplyCore(p, After(p, start, ops[..|ops| - 1]), ops[|ops| - 1]);
    }
  }

  /** No chain of stored dependencies then leads back to its start. */
  lemma {:induction false} RunAcyclic<K(!new), V>(p: Program<K, V>, start: nat, ops: seq<Op<K>>, walk: seq<nat>)
    requires Detaches(p, start, ops) && EI.Walk(After(p, start, ops).graph.nodes, walk) && |walk| > 1
    ensures walk[0] != walk[|walk| - 1]
  {
    RunInvariant(p, start, ops);
    EI.NoCycle(After(p, start, ops).graph.nodes, walk);
  }

  /** At every point of every run, whatever a live computation has read is still current and still has
      the value that was read. */
  lemma {:induction false} CapturedStaysCurrent<K(!new), V>(p: Program<K, V>, start: nat, ops: seq<Op<K>>, f: nat,
      j: nat)
    requires var db := After(p, start, ops); f < |db.frames| && j < |db.frames[f].seen|
    ensures var db := After(p, start, ops);
            && db.frames[f].ticket.dependencies == NodesOf(db.frames[f].seen)
            && IsCurrent(db.graph, db.frames[f].seen[j].node) && Holds(db, db.frames[f].seen[j])
  {
    var db := After(p, start, ops);
    assert FrameAt(p, db, db.frames[f], f);
    assert Holds(db, db.frames[f].seen[j]);
    assert EI.MemoOk(db.graph.revision, db.graph.nodes[db.frames[f].seen[j].node]);
  }

  /** So the computation on top of the stack can always publish, whatever its result: no dependency
      has become stale and no error of the graph is reachable. */
  lemma {:induction false} LivePublishes<K(!new), V>(p: Program<K, V>, start: nat, ops: seq<Op<K>>, result: Fingerprint)
    requires After(p, start, ops).frames != []
    ensures CanPublish(After(p, start, ops), result)
  {
    TopPublishes(p, After(p, start, ops), result);
  }

  // ---------- Tickets ----------

  lemma {:induction false} ValidIsTop<K, V>(p: Program<K, V>, db: Db<K, V>, t: Ticket)
    requires Framed(p, db) && ValidTicket(db.graph, t)
    ensures db.frames != []
    ensures var top := db.frames[|db.frames| - 1].ticket;
            t.node == top.node && t.revision == top.revision && t.generation == top.generation &&
                t.stackIndex == top.stackIndex
  {
    assert FrameAt(p, db, db.frames[|db.frames| - 1], |db.frames| - 1);
  }

  /** The graph accepts no ticket but that of the computation on top of the stack. */
  lemma {:induction false} OnlyTopTicket<K(!new), V>(p: Program<K, V>, start: nat, ops: seq<Op<K>>, t: Ticket)
    requires ValidTicket(After(p, start, ops).graph, t)
    ensures After(p, start, ops).frames != []
    ensures var db := After(p, start, ops);
            var top := db.frames[|db.frames| - 1].ticket;
            t.node == top.node && t.revision == top.revision && t.generation == top.generation &&
                t.stackIndex == top.stackIndex
  {
    ValidIsTop(p, After(p, start, ops), t);
  }

  /** Generations never go back; a new revision starts a new one. */
  ghost predicate Later(a: Graph, b: Graph) {
    a.generation <= b.generation && a.revision <= b.revision &&
        (a.revision < b.revision ==> a.generation < b.generation)
  }

  lemma {:induction false} BeginLater<K(!new), V>(p: Program<K, V>, db: Db<K, V>, key: K, input: Fingerprint)
    requires WellFormed(db)
    ensures Later(db.graph, BeginKey(p, db, key, input).db.graph)
  {
    var e := EnsureNode(p, db, key);
    assert Later(db.graph, e.db.graph);
    if e.result.Ok? { assert Later(e.db.graph, BeginNode(e.db, key, e.result.value, input).db.graph); }
  }

  lemma {:induction false} ContinueLater<K(!new), V>(p: Program<K, V>, db: Db<K, V>)
    requires WellFormed(db) && db.frames != []
    ensures Later(db.graph, ContinueTop(p, db).graph)
  {
    ContinueIs(p, db);
    var f := db.frames[|db.frames| - 1];
    match p.eval(f.key, f.ticket.input, Values(f.seen))
    case Need(key) => assert RequireKey(db, key).db.graph == db.graph;
    case Done(value) => assert Later(db.graph, PublishKey(p, db, value).db.graph);
    case Fail =>
  }

  lemma {:induction false} ApplyLater<K(!new), V>(p: Program<K, V>, db: Db<K, V>, op: Op<K>)
    requires WellFormed(db)
    ensures Later(db.graph, Apply(p, db, op).graph)
  {
    ApplyIs(p, db, op);
    match op
    case Demand(key) => BeginLater(p, db, key, p.input(db.graph.revision, key));
    case Continue => if db.frames != [] { ContinueLater(p, db); }
    case Cancel(reason) => if db.frames != [] { assert Later(db.graph, AbortKey(db, reason).db.graph); }
    case NewRevision(revision) => assert Later(db.graph, Advance(db, revision).db.graph);
    case Retain(gone) => assert Later(db.graph, RetainOthers(db, gone).db.graph);
  }

  lemma {:induction false} RunLater<K(!new), V>(p: Program<K, V>, start: nat, ops: seq<Op<K>>, i: nat)
    requires i <= |ops|
    ensures Later(After(p, start, ops[..i]).graph, After(p, start, ops).graph)
    decreases |ops|
  {
    if i == |ops| {
      assert ops[..i] == ops;
    } else {
      var init := ops[..|ops| - 1];
      RunLater(p, start, init, i);
      assert init[..i] == ops[..i];
      CoreWellFormed(p, After(p, start, init));
      ApplyLater(p, After(p, start, init), ops[|ops| - 1]);
    }
  }

  lemma {:induction false} Superseded(a: Graph, b: Graph, t: Ticket, d: nat, result: Fingerprint, reason: AbortReason)
    requires ValidTicket(a, t) && Later(a, b) && a.revision < b.revision
    ensures Require(b, t, d).Err?
    ensures Publish(b, t, result).result.Err? && Publish(b, t, result).graph == b
    ensures Abort(b, t, reason).result.Err? && Abort(b, t, reason).graph == b
  {
  }

  /** A ticket that was live when the revision advanced is rejected ever after: it can neither read,
      publish nor abort. */
  lemma {:induction false} StaleTicket<K(!new), V>(p: Program<K, V>, start: nat, ops: seq<Op<K>>, i: nat, t: Ticket,
      d: nat,
      result: Fingerprint, reason: AbortReason)
    requires i <= |ops| && ValidTicket(After(p, start, ops[..i]).graph, t)
    requires After(p, start, ops[..i]).graph.revision < After(p, start, ops).graph.revision
    ensures var g := After(p, start, ops).graph;
            && Require(g, t, d).Err?
            && Publish(g, t, result).result.Err? && Publish(g, t, result).graph == g
            && Abort(g, t, reason).result.Err? && Abort(g, t, reason).graph == g
  {
    RunLater(p, start, ops, i);
    Superseded(After(p, start, ops[..i]).graph, After(p, start, ops).graph, t, d, result, reason);
  }
}
