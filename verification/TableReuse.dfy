/** When a request is reused instead of executed, in terms of its recorded execution, and that nothing is executed
    when nothing has changed. */
module TableReuse {
  import opened Wrappers
  import opened RequestGraph
  import opened RequestTable
  import opened TableInvariant
  import opened TableRuns
  import EI = EvaluatorInvariant

  // ---------- Recorded executions ----------

  /** What is stored at node `n` comes from the recorded execution: its input, and as dependencies what it read. What
      was verified in this revision has the input of this revision. */
  ghost predicate TracedAt<K, V>(p: Program<K, V>, revision: nat, node: Node, n: nat, keys: map<nat, K>,
      traces: map<nat, Trace<K, V>>) {
    node.memo.Some? ==>
      && n in keys && n in traces && traces[n].input == node.memo.value.input
      && (forall d: nat :: d in node.dependencies <==> d in NodesOf(traces[n].seen))
      && (node.memo.value.verifiedAt == revision ==> node.memo.value.input == p.input(revision, keys[n]))
  }

  ghost predicate Traced<K, V>(p: Program<K, V>, db: Db<K, V>) {
    forall n | 0 <= n < |db.graph.nodes| ::
      TracedAt(p, db.graph.revision, db.graph.nodes[n], n, db.keys, db.traces)
  }

  lemma {:induction false} RecordsTraced<K, V>(p: Program<K, V>, a: Db<K, V>, b: Db<K, V>)
    requires Traced(p, a) && SameRecords(a, b) && (SameTime(a, b) || EI.Unverified(b.graph))
    ensures Traced(p, b)
  {
    forall n | 0 <= n < |b.graph.nodes|
      ensures TracedAt(p, b.graph.revision, b.graph.nodes[n], n, b.keys, b.traces)
    {
      assert TracedAt(p, a.graph.revision, a.graph.nodes[n], n, a.keys, a.traces);
      assert EI.Unverified(b.graph) ==> !VerifiedNow(b.graph, n);
    }
  }

  lemma {:induction false} GreenTraced<K, V>(p: Program<K, V>, a: Db<K, V>, b: Db<K, V>, n: nat)
    requires Traced(p, a) && Reverified(a, b, n)
    requires n in a.keys && Green(a.graph, n, p.input(a.graph.revision, a.keys[n]))
    ensures Traced(p, b)
  {
    forall m | 0 <= m < |b.graph.nodes|
      ensures TracedAt(p, b.graph.revision, b.graph.nodes[m], m, b.keys, b.traces)
    {
      assert TracedAt(p, a.graph.revision, a.graph.nodes[m], m, a.keys, a.traces);
    }
  }

  lemma {:induction false} AddsTraced<K, V>(p: Program<K, V>, db: Db<K, V>, key: K, n: nat, r: Db<K, V>)
    requires Traced(p, db) && Adds(p, db, key, n, r)
    ensures Traced(p, r)
  {
    forall m | 0 <= m < |r.graph.nodes|
      ensures TracedAt(p, r.graph.revision, r.graph.nodes[m], m, r.keys, r.traces)
    {
      if m != n { assert TracedAt(p, db.graph.revision, db.graph.nodes[m], m, db.keys, db.traces); }
    }
  }

  lemma {:induction false} PostsTraced<K, V>(p: Program<K, V>, db: Db<K, V>, stored: V, memo: Memo, r: Db<K, V>)
    requires Traced(p, db) && Posts(db, stored, memo, r)
    requires FrameAt(p, db, db.frames[|db.frames| - 1], |db.frames| - 1)
    ensures Traced(p, r)
  {
    forall m | 0 <= m < |r.graph.nodes|
      ensures TracedAt(p, r.graph.revision, r.graph.nodes[m], m, r.keys, r.traces)
    {
      if m != TopNode(db) {
        assert TracedAt(p, db.graph.revision, db.graph.nodes[m], m, db.keys, db.traces);
        assert SameButDependents(db.graph.nodes[m], r.graph.nodes[m]);
      }
    }
  }

  lemma {:induction false} RetainTraced<K(!new), V>(p: Program<K, V>, db: Db<K, V>, gone: set<K>)
    requires Traced(p, db) && db.graph.active == [] && EI.Memos(RetainOthers(db, gone).db.graph)
    ensures Traced(p, RetainOthers(db, gone).db)
  {
    var r := RetainOthers(db, gone).db;
    forall m | 0 <= m < |r.graph.nodes|
      ensures TracedAt(p, r.graph.revision, r.graph.nodes[m], m, r.keys, r.traces)
    {
      if r.graph.nodes[m].memo.Some? {
        RetainKept(db, gone, m);
        assert TracedAt(p, db.graph.revision, db.graph.nodes[m], m, db.keys, db.traces);
      }
    }
  }

  lemma {:induction false} BeginNodeTraced<K(!new), V>(p: Program<K, V>, db: Db<K, V>, key: K)
    requires Core(p, db) && Traced(p, db) && key in db.cells
    ensures Traced(p, BeginNode(db, key, db.cells[key].node, p.input(db.graph.revision, key)).db)
  {
    var n := db.cells[key].node;
    var r := BeginNode(db, key, n, p.input(db.graph.revision, key)).db;
    assert CellAt(p, db.graph.nodes, db.keys, key, n);
    BeginNodeShape(p, db, key);
    if r == db {
    } else if Starts(p, db, key, r) {
      StartsShape(p, db, key, r);
      RecordsTraced(p, db, r);
    } else {
      GreenTraced(p, db, r, n);
    }
  }

  lemma {:induction false} BeginTraced<K(!new), V>(p: Program<K, V>, db: Db<K, V>, key: K)
    requires Core(p, db) && Traced(p, db)
    ensures WellFormed(db) && Traced(p, BeginKey(p, db, key, p.input(db.graph.revision, key)).db)
  {
    EnsureCore(p, db, key);
    EnsureShape(p, db, key);
    var e := EnsureNode(p, db, key);
    if e.result.Ok? {
      if key !in db.cells { AddsTraced(p, db, key, e.result.value, e.db); }
      BeginNodeTraced(p, e.db, key);
    }
  }

  lemma {:induction false} PublishTraced<K(!new), V>(p: Program<K, V>, db: Db<K, V>, value: V)
    requires Core(p, db) && Traced(p, db) && db.frames != []
    ensures WellFormed(db) && Traced(p, PublishKey(p, db, value).db)
  {
    CoreWellFormed(p, db);
    TopTicket(p, db);
    if p.output(value).Some? {
      var t, result := db.frames[|db.frames| - 1].ticket, p.output(value).value;
      TopPublishes(p, db, result);
      PublishPosts(p, db, value);
      PostsTraced(p, db, StoredBy(db, value, Publish(db.graph, t, result).result.value),
        PublishMemo(db.graph, t, result).value, PublishKey(p, db, value).db);
    } else {
      AbortShape(p, db, AbortFailed);
      RecordsTraced(p, db, AbortKey(db, AbortFailed).db);
    }
  }

  lemma {:induction false} ContinueTraced<K(!new), V>(p: Program<K, V>, db: Db<K, V>)
    requires Core(p, db) && Traced(p, db) && db.frames != []
    ensures WellFormed(db) && Traced(p, ContinueTop(p, db))
  {
    CoreWellFormed(p, db);
    ContinueIs(p, db);
    var f := db.frames[|db.frames| - 1];
    match p.eval(f.key, f.ticket.input, Values(f.seen))
    case Need(key) =>
      RequireCore(p, db, key);
      RecordsTraced(p, db, RequireKey(db, key).db);
    case Done(value) => PublishTraced(p, db, value);
    case Fail =>
  }

  lemma {:induction false} AdvanceTraced<K(!new), V>(p: Program<K, V>, db: Db<K, V>, revision: nat)
    requires Core(p, db) && Traced(p, db)
    ensures Traced(p, Advance(db, revision).db)
  {
    if revision > db.graph.revision {
      AdvanceCore(p, db, revision);
      AdvanceShape(db, revision);
      RecordsTraced(p, db, Advance(db, revision).db);
    }
  }

  lemma {:induction false} ApplyTraced<K(!new), V>(p: Program<K, V>, db: Db<K, V>, op: Op<K>)
    requires Core(p, db) && Traced(p, db)
    ensures WellFormed(db) && Traced(p, Apply(p, db, op))
  {
    CoreWellFormed(p, db);
    ApplyIs(p, db, op);
    match op
    case Demand(key) => BeginTraced(p, db, key);
    case Continue => if db.frames != [] { ContinueTraced(p, db); }
    case Cancel(reason) =>
      if db.frames != [] {
        AbortShape(p, db, reason);
        RecordsTraced(p, db, AbortKey(db, reason).db);
      }
    case NewRevision(revision) => AdvanceTraced(p, db, revision);
    case Retain(gone) =>
      if db.graph.active == [] {
        RetainCore(p, db, gone);
        RetainTraced(p, db, gone);
      }
  }

  /** At every point of every run, what is stored comes from the recorded executions. */
  lemma {:induction false} RunTraced<K(!new), V>(p: Program<K, V>, start: nat, ops: seq<Op<K>>)
    ensures Traced(p, After(p, start, ops))
    decreases |ops|
  {
    if ops != [] {
      RunTraced(p, start, ops[..|ops| - 1]);
      ApplyTraced(p, After(p, start, ops[..|ops| - 1]), ops[|ops| - 1]);
    }
  }

  // ---------- Reuse ----------

  /** What was read has been verified in this revision and has not changed since `since`. */
  ghost predicate StillAs<K, V>(g: Graph, read: Read<K, V>, since: nat) {
    && read.node < |g.nodes| && g.nodes[read.node].memo.Some?
    && g.nodes[read.node].memo.value.verifiedAt == g.revision && g.nodes[read.node].memo.value.changedAt <= since
  }

  /** The recorded execution of `n` had this input, and nothing it read has changed since `n` was last verified. */
  ghost predicate Reusable<K, V>(db: Db<K, V>, n: nat, input: Fingerprint)
    requires n < |db.graph.nodes|
  {
    && db.graph.nodes[n].memo.Some? && n in db.traces && db.traces[n].input == input
    && forall i | 0 <= i < |db.traces[n].seen| ::
         StillAs(db.graph, db.traces[n].seen[i], db.graph.nodes[n].memo.value.verifiedAt)
  }

  lemma {:induction false} GreenIsReusable<K(!new), V>(p: Program<K, V>, db: Db<K, V>, n: nat, input: Fingerprint)
    requires Traced(p, db) && n < |db.graph.nodes|
    ensures Green(db.graph, n, input) <==> Reusable(db, n, input)
  {
    assert TracedAt(p, db.graph.revision, db.graph.nodes[n], n, db.keys, db.traces);
    var node := db.graph.nodes[n];
    if node.memo.Some? {
      var seen := db.traces[n].seen;
      if Green(db.graph, n, input) {
        forall i | 0 <= i < |seen| ensures StillAs(db.graph, seen[i], node.memo.value.verifiedAt) {
          assert NodesOf(seen)[i] in node.dependencies;
        }
      }
      if Reusable(db, n, input) {
        forall i | 0 <= i < |node.dependencies| ensures Unchanged(db.graph, node.dependencies[i],
            node.memo.value.verifiedAt)
        {
          assert node.dependencies[i] in NodesOf(seen);
          var j :| 0 <= j < |seen| && NodesOf(seen)[j] == node.dependencies[i];
          assert StillAs(db.graph, seen[j], node.memo.value.verifiedAt);
        }
      }
    }
  }

  /** What demanding a request tells the client. */
  ghost function Answer<K(!new), V>(p: Program<K, V>, db: Db<K, V>, key: K): Result<Start>
    requires WellFormed(db)
  {
    BeginKey(p, db, key, p.input(db.graph.revision, key)).result
  }

  lemma {:induction false} BeginAnswers(g: Graph, n: nat, input: Fingerprint)
    requires n < |g.nodes| && g.nodes[n].state != Removed
    requires VerifiedNow(g, n) ==> g.nodes[n].memo.value.input == input
    ensures Begin(g, n, input).result.Err? <==> g.nodes[n].state.Computing?
    ensures Begin(g, n, input).result == Ok(Reused) <==>
        !g.nodes[n].state.Computing? && (VerifiedNow(g, n) || Green(g, n, input))
  {
  }

  lemma {:induction false} AnswerIs<K(!new), V>(p: Program<K, V>, db: Db<K, V>, key: K)
    requires WellFormed(db) && key in db.cells
    ensures var n, input := db.cells[key].node, p.input(db.graph.revision, key);
      && BeginKey(p, db, key, input) == BeginNode(db, key, n, input)
      && Answer(p, db, key) == Begin(db.graph, n, input).result
  {
    assert EnsureNode(p, db, key) == Step(db, Ok(db.cells[key].node));
  }

  lemma {:induction false} AnswerExactly<K(!new), V>(p: Program<K, V>, db: Db<K, V>, key: K)
    requires Core(p, db) && Traced(p, db) && key in db.cells && WellFormed(db)
    ensures var n, g := db.cells[key].node, db.graph;
      && n < |g.nodes|
      && (Answer(p, db, key).Err? <==> g.nodes[n].state.Computing?)
      && (Answer(p, db, key) == Ok(Reused) <==>
            && !g.nodes[n].state.Computing?
            && (VerifiedNow(g, n) || Reusable(db, n, p.input(g.revision, key))))
  {
    var n := db.cells[key].node;
    assert CellAt(p, db.graph.nodes, db.keys, key, n);
    assert TracedAt(p, db.graph.revision, db.graph.nodes[n], n, db.keys, db.traces);
    GreenIsReusable(p, db, n, p.input(db.graph.revision, key));
    AnswerIs(p, db, key);
    BeginAnswers(db.graph, n, p.input(db.graph.revision, key));
  }

  /** At every point of every run, a demand for a known request fails exactly when it is being computed; it is reused
      exactly when it was verified in this revision, or when its recorded execution had the present input and
      everything that it read has been verified in this revision and has not changed since; and it is executed
      otherwise. */
  lemma {:induction false} ReusedExactly<K(!new), V>(p: Program<K, V>, start: nat, ops: seq<Op<K>>, key: K)
    requires key in After(p, start, ops).cells
    ensures var db := After(p, start, ops);
      var n, g := db.cells[key].node, db.graph;
      && WellFormed(db) && n < |g.nodes|
      && (Answer(p, db, key).Err? <==> g.nodes[n].state.Computing?)
      && (Answer(p, db, key) == Ok(Reused) <==>
            && !g.nodes[n].state.Computing?
            && (VerifiedNow(g, n) || Reusable(db, n, p.input(g.revision, key))))
  {
    var db := After(p, start, ops);
    RunTraced(p, start, ops);
    CoreWellFormed(p, db);
    AnswerExactly(p, db, key);
  }

  /** A new request: its identity is taken by another request, or there is no room for one more. */
  predicate Turned<K, V>(p: Program<K, V>, db: Db<K, V>, key: K) {
    var g, identity := db.graph, p.identity(key);
    if identity in g.identities then g.identities[identity] in db.keys else |g.nodes| > U32_MAX
  }

  lemma {:induction false} RegisterExactly<K(!new), V>(p: Program<K, V>, db: Db<K, V>, key: K)
    requires Tables(p, db) && EI.Identified(db.graph) && WellFormed(db) && key !in db.cells
    ensures EnsureNode(p, db, key).result.Err? <==> Turned(p, db, key)
  {
    var g, identity := db.graph, p.identity(key);
    if identity in g.identities && g.identities[identity] in db.keys {
      assert KeyAt(db.cells, g.identities[identity], db.keys[g.identities[identity]]);
    }
  }

  lemma {:induction false} VacantExecutes(g: Graph, n: nat, input: Fingerprint)
    requires n < |g.nodes| && g.nodes[n].state == Vacant && g.nodes[n].memo.None?
    ensures Begin(g, n, input).result.Ok? && Begin(g, n, input).result.value.Execute?
  {
  }

  /** A demand for a request that is not known, or was dropped, fails exactly when the request cannot be registered, and
      is executed otherwise. */
  lemma {:induction false} UnknownExactly<K(!new), V>(p: Program<K, V>, start: nat, ops: seq<Op<K>>, key: K)
    requires key !in After(p, start, ops).cells
    ensures var db := After(p, start, ops);
      && WellFormed(db)
      && (Answer(p, db, key).Err? <==> Turned(p, db, key))
      && (Answer(p, db, key).Ok? ==> Answer(p, db, key).value.Execute?)
  {
    var db := After(p, start, ops);
    CoreWellFormed(p, db);
    RegisterExactly(p, db, key);
    EnsureShape(p, db, key);
    var e := EnsureNode(p, db, key);
    if e.result.Ok? { VacantExecutes(e.db.graph, e.result.value, p.input(db.graph.revision, key)); }
  }

  // ---------- Nothing changed ----------

  ghost predicate NodeOf<K, V>(db: Db<K, V>, key: K, n: nat) { key in db.cells && db.cells[key].node == n }

  /** What `key` read in its recorded execution belongs to requests before `i` in the list. */
  ghost predicate ReadsBefore<K, V>(db: Db<K, V>, keys: seq<K>, i: nat)
    requires i < |keys|
  {
    && keys[i] in db.cells && db.cells[keys[i]].node in db.traces
    && var seen := db.traces[db.cells[keys[i]].node].seen;
       forall k | 0 <= k < |seen| :: exists j | 0 <= j < i :: NodeOf(db, keys[j], seen[k].node)
  }

  /** All verified in this revision, dependencies first. */
  ghost predicate DependenciesFirst<K, V>(db: Db<K, V>, keys: seq<K>) {
    forall i {:trigger ReadsBefore(db, keys, i)} | 0 <= i < |keys| ::
      ReadsBefore(db, keys, i) && VerifiedNow(db.graph, db.cells[keys[i]].node)
  }

  ghost predicate SameInputs<K, V>(p: Program<K, V>, keys: seq<K>, a: nat, b: nat) {
    forall i | 0 <= i < |keys| :: p.input(b, keys[i]) == p.input(a, keys[i])
  }

  function Demands<K>(keys: seq<K>): (r: seq<Op<K>>)
    ensures |r| == |keys|
  {
    seq(|keys|, i requires 0 <= i < |keys| => Demand(keys[i]))
  }

  ghost predicate Among<K, V>(db: Db<K, V>, keys: seq<K>, n: nat) {
    exists j | 0 <= j < |keys| :: NodeOf(db, keys[j], n)
  }

  /** Node `n`: verified anew if its request is in the list, as before otherwise. */
  ghost predicate Renewed<K, V>(was: Db<K, V>, keys: seq<K>, db: Db<K, V>, n: nat)
    requires n < |was.graph.nodes| == |db.graph.nodes|
  {
    var a, b := was.graph.nodes[n].memo, db.graph.nodes[n].memo;
    if Among(was, keys, n) && a.Some?
    then b.Some? && b.value.changedAt == a.value.changedAt && b.value.verifiedAt == db.graph.revision
    else b == a
  }

  /** `db` is `was` in a later revision, with nothing being computed and these requests verified anew. */
  ghost predicate Idle<K, V>(was: Db<K, V>, keys: seq<K>, revision: nat, db: Db<K, V>) {
    && db.cells == was.cells && db.keys == was.keys && db.traces == was.traces
    && db.frames == [] && db.graph.active == [] && db.graph.revision == revision > was.graph.revision
    && |db.graph.nodes| == |was.graph.nodes|
    && forall n {:trigger Renewed(was, keys, db, n)} | 0 <= n < |was.graph.nodes| :: Renewed(was, keys, db, n)
  }

  lemma {:induction false} AdvanceIdle<K(!new), V>(p: Program<K, V>, was: Db<K, V>, revision: nat)
    requires Core(p, was) && revision > was.graph.revision
    ensures Idle(was, [], revision, Advance(was, revision).db)
  {
    AdvanceShape(was, revision);
    var db := Advance(was, revision).db;
    forall n | 0 <= n < |was.graph.nodes| ensures Renewed(was, [], db, n) { assert !Among(was, [], n); }
  }

  lemma {:induction false} NobodyComputes(g: Graph, n: nat)
    requires EI.Stacked(g) && g.active == [] && n < |g.nodes|
    ensures !g.nodes[n].state.Computing?
  {
  }

  lemma {:induction false} ReadsRenewed<K(!new), V>(p: Program<K, V>, was: Db<K, V>, keys: seq<K>, i: nat, db: Db<K, V>)
    requires Core(p, was) && DependenciesFirst(was, keys) && i < |keys| && ReadsBefore(was, keys, i)
    requires Idle(was, keys[..i], db.graph.revision, db)
    ensures var seen := was.traces[was.cells[keys[i]].node].seen;
      forall k | 0 <= k < |seen| :: StillAs(db.graph, seen[k], was.graph.revision)
  {
    var seen := was.traces[was.cells[keys[i]].node].seen;
    forall k | 0 <= k < |seen| ensures StillAs(db.graph, seen[k], was.graph.revision) {
      var j :| 0 <= j < i && NodeOf(was, keys[j], seen[k].node);
      ReadRenewed(p, was, keys, i, db, j);
    }
  }

  /** The next request of the list can be reused. */
  lemma {:induction false} NextReusable<K(!new), V>(p: Program<K, V>, was: Db<K, V>, keys: seq<K>, i: nat, db: Db<K, V>)
    requires Core(p, was) && Traced(p, was) && DependenciesFirst(was, keys) && i < |keys|
    requires SameInputs(p, keys, was.graph.revision, db.graph.revision)
    requires Idle(was, keys[..i], db.graph.revision, db)
    ensures keys[i] in db.cells
    ensures var n := db.cells[keys[i]].node;
      n < |db.graph.nodes| && (VerifiedNow(db.graph, n) || Reusable(db, n, p.input(db.graph.revision, keys[i])))
  {
    assert ReadsBefore(was, keys, i);
    var n := was.cells[keys[i]].node;
    assert CellAt(p, was.graph.nodes, was.keys, keys[i], n);
    assert TracedAt(p, was.graph.revision, was.graph.nodes[n], n, was.keys, was.traces);
    assert Renewed(was, keys[..i], db, n);
    if !Among(was, keys[..i], n) {
      assert db.graph.nodes[n].memo.value.verifiedAt == was.graph.revision;
      ReadsRenewed(p, was, keys, i, db);
    }
  }

  lemma {:induction false} ReadRenewed<K(!new), V>(p: Program<K, V>, was: Db<K, V>, keys: seq<K>, i: nat, db: Db<K, V>,
      j: nat)
    requires Core(p, was) && DependenciesFirst(was, keys) && j < i < |keys|
    requires Idle(was, keys[..i], db.graph.revision, db)
    ensures keys[j] in was.cells
    ensures var d := was.cells[keys[j]].node;
      && d < |db.graph.nodes| && db.graph.nodes[d].memo.Some?
      && db.graph.nodes[d].memo.value.verifiedAt == db.graph.revision
      && db.graph.nodes[d].memo.value.changedAt <= was.graph.revision
  {
    assert ReadsBefore(was, keys, j);
    var d := was.cells[keys[j]].node;
    assert keys[..i][j] == keys[j];
    assert NodeOf(was, keys[..i][j], d);
    assert Renewed(was, keys[..i], db, d);
    assert EI.MemoOk(was.graph.revision, was.graph.nodes[d]);
  }

  /** What a reuse does: it marks the request as verified, if it was not. */
  lemma {:induction false} ReuseShape<K(!new), V>(p: Program<K, V>, db: Db<K, V>, key: K, r: Db<K, V>)
    requires Core(p, db) && WellFormed(db) && key in db.cells && Answer(p, db, key) == Ok(Reused)
    requires r == BeginKey(p, db, key, p.input(db.graph.revision, key)).db
    ensures (r == db && VerifiedNow(db.graph, db.cells[key].node)) || Reverified(db, r, db.cells[key].node)
  {
    var n, input := db.cells[key].node, p.input(db.graph.revision, key);
    AnswerIs(p, db, key);
    BeginNodeShape(p, db, key);
    if r == db { ReusedIsVerified(db.graph, n, input); }
  }

  lemma {:induction false} ReusedIsVerified(g: Graph, n: nat, input: Fingerprint)
    requires Begin(g, n, input) == Outcome(g, Ok(Reused))
    ensures VerifiedNow(g, n)
  {
  }

  lemma {:induction false} AmongNext<K, V>(db: Db<K, V>, keys: seq<K>, i: nat, n: nat)
    requires i < |keys|
    ensures Among(db, keys[..i + 1], n) <==> Among(db, keys[..i], n) || NodeOf(db, keys[i], n)
  {
    assert forall j | 0 <= j < i :: keys[..i + 1][j] == keys[..i][j];
    assert keys[..i + 1][i] == keys[i];
  }

  lemma {:induction false} RenewedNext<K, V>(was: Db<K, V>, keys: seq<K>, i: nat, db: Db<K, V>, r: Db<K, V>, m: nat)
    requires i < |keys| && keys[i] in was.cells && |was.graph.nodes| == |db.graph.nodes| && m < |was.graph.nodes|
    requires var n := was.cells[keys[i]].node;
      (r == db && VerifiedNow(db.graph, n)) || Reverified(db, r, n)
    requires Renewed(was, keys[..i], db, m)
    ensures |r.graph.nodes| == |db.graph.nodes| && Renewed(was, keys[..i + 1], r, m)
  {
    AmongNext(was, keys, i, m);
  }

  /** Reusing the next request of the list changes nothing but when it was verified. */
  lemma {:induction false} ReuseIdle<K, V>(was: Db<K, V>, keys: seq<K>, i: nat, db: Db<K, V>, r: Db<K, V>)
    requires i < |keys| && keys[i] in was.cells && Idle(was, keys[..i], db.graph.revision, db)
    requires var n := was.cells[keys[i]].node;
      (r == db && VerifiedNow(db.graph, n)) || Reverified(db, r, n)
    ensures Idle(was, keys[..i + 1], db.graph.revision, r)
  {
    var next := keys[..i + 1];
    forall m {:trigger Renewed(was, next, r, m)} | 0 <= m < |was.graph.nodes| ensures Renewed(was, next, r, m) {
      assert Renewed(was, keys[..i], db, m);
      RenewedNext(was, keys, i, db, r, m);
    }
  }

  /** The point of the run after the new revision and the first `i` demands. */
  ghost function Then<K>(ops: seq<Op<K>>, revision: nat, keys: seq<K>, i: nat): seq<Op<K>>
    requires i <= |keys|
  {
    ops + [NewRevision(revision)] + Demands(keys)[..i]
  }

  lemma {:induction false} ThenStep<K(!new), V>(p: Program<K, V>, start: nat, ops: seq<Op<K>>, revision: nat,
      keys: seq<K>, i: nat)
    requires i < |keys|
    ensures var db := After(p, start, Then(ops, revision, keys, i));
      && WellFormed(db)
      && After(p, start, Then(ops, revision, keys, i + 1)) ==
           BeginKey(p, db, keys[i], p.input(db.graph.revision, keys[i])).db
  {
    var before, after := Then(ops, revision, keys, i), Then(ops, revision, keys, i + 1);
    assert after == before + [Demand(keys[i])];
    assert after[..|after| - 1] == before;
    var db := After(p, start, before);
    CoreWellFormed(p, db);
    ApplyIs(p, db, Demand(keys[i]));
  }

  lemma {:induction false} ThenAdvance<K(!new), V>(p: Program<K, V>, start: nat, ops: seq<Op<K>>, revision: nat,
      keys: seq<K>)
    ensures After(p, start, Then(ops, revision, keys, 0)) == Advance(After(p, start, ops), revision).db
  {
    var after := Then(ops, revision, keys, 0);
    assert after == ops + [NewRevision(revision)];
    assert after[..|after| - 1] == ops;
    CoreWellFormed(p, After(p, start, ops));
    ApplyIs(p, After(p, start, ops), NewRevision(revision));
  }

  lemma {:induction false} NextReused<K(!new), V>(p: Program<K, V>, start: nat, ops: seq<Op<K>>, revision: nat,
      keys: seq<K>, i: nat)
    requires revision > After(p, start, ops).graph.revision && i < |keys|
    requires DependenciesFirst(After(p, start, ops), keys)
    requires SameInputs(p, keys, After(p, start, ops).graph.revision, revision)
    requires Idle(After(p, start, ops), keys[..i], revision, After(p, start, Then(ops, revision, keys, i)))
    ensures var db := After(p, start, Then(ops, revision, keys, i));
      && WellFormed(db) && keys[i] in After(p, start, ops).cells && Answer(p, db, keys[i]) == Ok(Reused)
  {
    var was, db := After(p, start, ops), After(p, start, Then(ops, revision, keys, i));
    RunTraced(p, start, ops);
    assert ReadsBefore(was, keys, i);
    NextReusable(p, was, keys, i, db);
    NobodyComputes(db.graph, db.cells[keys[i]].node);
    ReusedExactly(p, start, Then(ops, revision, keys, i), keys[i]);
  }

  lemma {:induction false} IdleStep<K(!new), V>(p: Program<K, V>, start: nat, ops: seq<Op<K>>, revision: nat,
      keys: seq<K>, i: nat)
    requires revision > After(p, start, ops).graph.revision && i < |keys|
    requires DependenciesFirst(After(p, start, ops), keys)
    requires SameInputs(p, keys, After(p, start, ops).graph.revision, revision)
    requires Idle(After(p, start, ops), keys[..i], revision, After(p, start, Then(ops, revision, keys, i)))
    ensures Idle(After(p, start, ops), keys[..i + 1], revision, After(p, start, Then(ops, revision, keys, i + 1)))
  {
    var was, db := After(p, start, ops), After(p, start, Then(ops, revision, keys, i));
    NextReused(p, start, ops, revision, keys, i);
    ThenStep(p, start, ops, revision, keys, i);
    ReuseShape(p, db, keys[i], After(p, start, Then(ops, revision, keys, i + 1)));
    ReuseIdle(was, keys, i, db, After(p, start, Then(ops, revision, keys, i + 1)));
  }

  lemma {:induction false} IdleAtFirst<K(!new), V>(p: Program<K, V>, start: nat, ops: seq<Op<K>>, revision: nat,
      keys: seq<K>)
    requires revision > After(p, start, ops).graph.revision
    ensures Idle(After(p, start, ops), keys[..0], revision, After(p, start, Then(ops, revision, keys, 0)))
  {
    ThenAdvance(p, start, ops, revision, keys);
    AdvanceIdle(p, After(p, start, ops), revision);
    assert keys[..0] == [];
  }

  /** Idle after each of the first `i` demands. */
  ghost predicate IdleUpTo<K(!new), V>(p: Program<K, V>, start: nat, ops: seq<Op<K>>, revision: nat, keys: seq<K>,
      i: nat)
    requires i <= |keys|
  {
    && (i > 0 ==> IdleUpTo(p, start, ops, revision, keys, i - 1))
    && Idle(After(p, start, ops), keys[..i], revision, After(p, start, Then(ops, revision, keys, i)))
  }

  lemma {:induction false} StaysIdle<K(!new), V>(p: Program<K, V>, start: nat, ops: seq<Op<K>>, revision: nat,
      keys: seq<K>, i: nat)
    requires revision > After(p, start, ops).graph.revision && i <= |keys|
    requires DependenciesFirst(After(p, start, ops), keys)
    requires SameInputs(p, keys, After(p, start, ops).graph.revision, revision)
    ensures IdleUpTo(p, start, ops, revision, keys, i)
  {
    if i == 0 {
      IdleAtFirst(p, start, ops, revision, keys);
    } else {
      StaysIdle(p, start, ops, revision, keys, i - 1);
      IdleStep(p, start, ops, revision, keys, i - 1);
    }
  }

  lemma {:induction false} AllVerified<K, V>(was: Db<K, V>, keys: seq<K>, db: Db<K, V>, i: nat)
    requires DependenciesFirst(was, keys) && Idle(was, keys, db.graph.revision, db) && i < |keys|
    ensures keys[i] in db.cells && VerifiedNow(db.graph, db.cells[keys[i]].node)
  {
    assert ReadsBefore(was, keys, i) && NodeOf(was, keys[i], was.cells[keys[i]].node);
    assert Renewed(was, keys, db, was.cells[keys[i]].node);
  }

  /** Demand `i` of the list is answered by reuse, with nothing being computed. */
  ghost predicate ReusedAt<K(!new), V>(p: Program<K, V>, start: nat, ops: seq<Op<K>>, revision: nat, keys: seq<K>,
      i: nat)
    requires i < |keys|
  {
    var db := After(p, start, Then(ops, revision, keys, i));
    WellFormed(db) && db.frames == [] && Answer(p, db, keys[i]) == Ok(Reused)
  }

  lemma {:induction false} ReusedThere<K(!new), V>(p: Program<K, V>, start: nat, ops: seq<Op<K>>, revision: nat,
      keys: seq<K>, i: nat)
    requires revision > After(p, start, ops).graph.revision && i < |keys|
    requires DependenciesFirst(After(p, start, ops), keys)
    requires SameInputs(p, keys, After(p, start, ops).graph.revision, revision)
    ensures ReusedAt(p, start, ops, revision, keys, i)
  {
    StaysIdle(p, start, ops, revision, keys, i);
    NextReused(p, start, ops, revision, keys, i);
  }

  /** All requests of the list are verified, and every cell is as it was. */
  ghost predicate AllCurrent<K, V>(was: Db<K, V>, keys: seq<K>, db: Db<K, V>) {
    && db.frames == [] && db.cells == was.cells
    && forall i | 0 <= i < |keys| :: keys[i] in db.cells && VerifiedNow(db.graph, db.cells[keys[i]].node)
  }

  lemma {:induction false} IdleIsCurrent<K, V>(was: Db<K, V>, keys: seq<K>, db: Db<K, V>)
    requires DependenciesFirst(was, keys) && Idle(was, keys, db.graph.revision, db)
    ensures AllCurrent(was, keys, db)
  {
    forall i | 0 <= i < |keys| ensures keys[i] in db.cells && VerifiedNow(db.graph, db.cells[keys[i]].node) {
      AllVerified(was, keys, db, i);
    }
  }

  lemma {:induction false} EndsCurrent<K(!new), V>(p: Program<K, V>, start: nat, ops: seq<Op<K>>, revision: nat,
      keys: seq<K>)
    requires revision > After(p, start, ops).graph.revision
    requires DependenciesFirst(After(p, start, ops), keys)
    requires SameInputs(p, keys, After(p, start, ops).graph.revision, revision)
    ensures AllCurrent(After(p, start, ops), keys, After(p, start, Then(ops, revision, keys, |keys|)))
  {
    StaysIdle(p, start, ops, revision, keys, |keys|);
    assert keys[..|keys|] == keys;
    IdleIsCurrent(After(p, start, ops), keys, After(p, start, Then(ops, revision, keys, |keys|)));
  }

  /** In a new revision in which no input changed, demanding verified requests again, dependencies first, executes
      nothing: every demand is answered by reuse, nothing is computed, and every request keeps its value. */
  lemma {:induction false} NothingExecutes<K(!new), V>(p: Program<K, V>, start: nat, ops: seq<Op<K>>, revision: nat,
      keys: seq<K>)
    requires revision > After(p, start, ops).graph.revision
    requires DependenciesFirst(After(p, start, ops), keys)
    requires SameInputs(p, keys, After(p, start, ops).graph.revision, revision)
    ensures forall i | 0 <= i < |keys| :: ReusedAt(p, start, ops, revision, keys, i)
    ensures AllCurrent(After(p, start, ops), keys, After(p, start, Then(ops, revision, keys, |keys|)))
  {
    forall i | 0 <= i < |keys| ensures ReusedAt(p, start, ops, revision, keys, i) {
      ReusedThere(p, start, ops, revision, keys, i);
    }
    EndsCurrent(p, start, ops, revision, keys);
  }

  // ---------- Reading ----------

  /** What a client may read. */
  ghost predicate ReadsAs<K, V>(db: Db<K, V>, key: K) {
    && (CurrentValue(db, key).Err? <==> db.frames != [])
    && (db.frames == [] && key in db.cells && VerifiedNow(db.graph, db.cells[key].node) ==>
          db.cells[key].value.Some? && CurrentValue(db, key) == Ok(db.cells[key].value))
    && (db.frames == [] && !(key in db.cells && VerifiedNow(db.graph, db.cells[key].node)) ==>
          CurrentValue(db, key) == Ok(None))
  }

  lemma {:induction false} CoreReads<K(!new), V>(p: Program<K, V>, db: Db<K, V>, key: K)
    requires EI.Memos(db.graph) && Tables(p, db) && Valued(db) && |db.frames| == |db.graph.active|
    ensures ReadsAs(db, key)
  {
    if key in db.cells {
      var n := db.cells[key].node;
      assert CellAt(p, db.graph.nodes, db.keys, key, n);
      assert EI.MemoOk(db.graph.revision, db.graph.nodes[n]);
      assert ValuedAt(db.graph.nodes[n], n, db.cells, db.keys);
    }
  }

  /** At every point of every run, a client can read a value exactly when nothing is being computed and the request was
      verified in this revision, and then it is the stored one. */
  lemma {:induction false} ReadExactly<K(!new), V>(p: Program<K, V>, start: nat, ops: seq<Op<K>>, key: K)
    ensures ReadsAs(After(p, start, ops), key)
  {
    CoreReads(p, After(p, start, ops), key);
  }

  // ---------- Undoing a demand ----------

  /** The state in which a computation leaves its node when it ends without a result. */
  function LeftAs(node: Node, revision: nat, reason: AbortReason): State {
    if reason == AbortFailed then Failed(revision) else if node.memo.Some? then Published else Vacant
  }

  ghost predicate Executes<K(!new), V>(p: Program<K, V>, db: Db<K, V>, key: K) {
    && WellFormed(db) && key in db.cells && db.cells[key].node < |db.graph.nodes|
    && Answer(p, db, key).Ok? && Answer(p, db, key).value.Execute?
  }

  /** `db` with another state for the node of a request. */
  ghost function Restated<K, V>(db: Db<K, V>, key: K, state: State): Db<K, V>
    requires key in db.cells && db.cells[key].node < |db.graph.nodes|
  {
    var n := db.cells[key].node;
    db.(graph := db.graph.(nodes := db.graph.nodes[n := db.graph.nodes[n].(state := state)]))
  }

  lemma {:induction false} ExecutesStarts<K(!new), V>(p: Program<K, V>, db: Db<K, V>, key: K)
    requires Core(p, db) && Executes(p, db, key)
    ensures Starts(p, db, key, BeginKey(p, db, key, p.input(db.graph.revision, key)).db)
  {
    AnswerIs(p, db, key);
    assert CellAt(p, db.graph.nodes, db.keys, key, db.cells[key].node);
  }

  lemma {:induction false} AbortStarted<K, V>(p: Program<K, V>, db: Db<K, V>, key: K, started: Db<K, V>,
      reason: AbortReason)
    requires Starts(p, db, key, started) && |db.frames| == |db.graph.active|
    ensures AbortKey(started, reason).db ==
        Restated(db, key, LeftAs(db.graph.nodes[db.cells[key].node], db.graph.revision, reason))
  {
    var n, g, h := db.cells[key].node, db.graph, started.graph;
    assert started.frames[..|started.frames| - 1] == db.frames && h.active[..|h.active| - 1] == g.active;
    assert ValidTicket(h, started.frames[|started.frames| - 1].ticket);
    var state := LeftAs(g.nodes[n], g.revision, reason);
    assert h.nodes[n := h.nodes[n].(state := state)] == g.nodes[n := g.nodes[n].(state := state)];
  }

  lemma {:induction false} TwoMore<K(!new), V>(p: Program<K, V>, start: nat, ops: seq<Op<K>>, a: Op<K>, b: Op<K>)
    ensures var db := After(p, start, ops);
      && WellFormed(db) && Core(p, Apply(p, db, a)) && WellFormed(Apply(p, db, a))
      && After(p, start, ops + [a, b]) == Apply(p, Apply(p, db, a), b)
  {
    var one, two := ops + [a], ops + [a, b];
    assert one[..|one| - 1] == ops && two[..|two| - 1] == one;
    CoreWellFormed(p, After(p, start, ops));
    CoreWellFormed(p, After(p, start, one));
  }

  /** A demand that is cancelled leaves everything as it was but the state of its node; it is all as it was if the node
      was published or vacant before and the computation did not fail. */
  lemma {:induction false} DemandThenCancel<K(!new), V>(p: Program<K, V>, start: nat, ops: seq<Op<K>>, key: K,
      reason: AbortReason)
    requires Executes(p, After(p, start, ops), key)
    ensures var db := After(p, start, ops);
      After(p, start, ops + [Demand(key), Cancel(reason)]) ==
        Restated(db, key, LeftAs(db.graph.nodes[db.cells[key].node], db.graph.revision, reason))
  {
    var db := After(p, start, ops);
    TwoMore(p, start, ops, Demand(key), Cancel(reason));
    ApplyIs(p, db, Demand(key));
    ExecutesStarts(p, db, key);
    ApplyIs(p, Apply(p, db, Demand(key)), Cancel(reason));
    AbortStarted(p, db, key, Apply(p, db, Demand(key)), reason);
  }

  lemma {:induction false} AdvanceStarted<K, V>(p: Program<K, V>, db: Db<K, V>, key: K, started: Db<K, V>,
      revision: nat)
    requires Starts(p, db, key, started) && revision > db.graph.revision
    ensures Advance(started, revision).db ==
        Advance(Restated(db, key, LeftAs(db.graph.nodes[db.cells[key].node], 0, AbortCanceled)), revision).db
  {
    var n, g, h := db.cells[key].node, db.graph, started.graph;
    var settled := Restated(db, key, LeftAs(g.nodes[n], 0, AbortCanceled)).graph;
    forall m | 0 <= m < |g.nodes| ensures SettleAll(h.nodes, h.active)[m] == SettleAll(settled.nodes, settled.active)[m]
    {
      assert m in h.active <==> m in g.active || m == n;
    }
    assert SettleAll(h.nodes, h.active) == SettleAll(settled.nodes, settled.active);
  }

  /** A new revision supersedes a demand: it is as if the request had not been demanded, with its node published or
      vacant. */
  lemma {:induction false} DemandThenAdvance<K(!new), V>(p: Program<K, V>, start: nat, ops: seq<Op<K>>, key: K,
      revision: nat)
    requires Executes(p, After(p, start, ops), key) && revision > After(p, start, ops).graph.revision
    ensures var db := After(p, start, ops);
      After(p, start, ops + [Demand(key), NewRevision(revision)]) ==
        Advance(Restated(db, key, LeftAs(db.graph.nodes[db.cells[key].node], 0, AbortCanceled)), revision).db
  {
    var db := After(p, start, ops);
    TwoMore(p, start, ops, Demand(key), NewRevision(revision));
    ApplyIs(p, db, Demand(key));
    ExecutesStarts(p, db, key);
    ApplyIs(p, Apply(p, db, Demand(key)), NewRevision(revision));
    AdvanceStarted(p, db, key, Apply(p, db, Demand(key)), revision);
  }

  // ---------- Removal ----------

  /** Dropping requests, while nothing is computed, forgets exactly those: their cells are gone, and every other request
      keeps its node, its value and its memo. While something is computed it changes nothing. */
  lemma {:induction false} RetainExactly<K(!new), V>(p: Program<K, V>, start: nat, ops: seq<Op<K>>, gone: set<K>,
      key: K)
    requires key in After(p, start, ops).cells
    ensures var db, r := After(p, start, ops), After(p, start, ops + [Retain(gone)]);
      && (db.frames != [] ==> r == db)
      && (db.frames == [] ==> (key in r.cells <==> key !in gone))
      && (key in r.cells ==>
            && r.cells[key] == db.cells[key] && db.cells[key].node < |db.graph.nodes| == |r.graph.nodes|
            && r.graph.nodes[db.cells[key].node].memo == db.graph.nodes[db.cells[key].node].memo)
  {
    var db, more := After(p, start, ops), ops + [Retain(gone)];
    assert more[..|more| - 1] == ops;
    CoreWellFormed(p, db);
    ApplyIs(p, db, Retain(gone));
    RetainKeeps(p, db, gone, key);
  }

  lemma {:induction false} RetainKeeps<K(!new), V>(p: Program<K, V>, db: Db<K, V>, gone: set<K>, key: K)
    requires Tables(p, db) && |db.frames| == |db.graph.active| && key in db.cells
    ensures var r := RetainOthers(db, gone).db;
      && (db.frames != [] ==> r == db)
      && (db.frames == [] ==> (key in r.cells <==> key !in gone))
      && (key in r.cells ==>
            && r.cells[key] == db.cells[key] && db.cells[key].node < |db.graph.nodes| == |r.graph.nodes|
            && r.graph.nodes[db.cells[key].node].memo == db.graph.nodes[db.cells[key].node].memo)
  {
    var n := db.cells[key].node;
    assert CellAt(p, db.graph.nodes, db.keys, key, n);
    if db.frames == [] {
      NamedNodes(p, db, gone, n);
      RetainNode(db, gone, n);
    }
  }
}
