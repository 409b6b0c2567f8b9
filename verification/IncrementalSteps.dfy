/** Every request of a client keeps stored values, recorded reads and recomputed values in step. */
module IncrementalSteps {
  import opened Wrappers
  import opened RequestGraph
  import opened RequestTable
  import opened TableInvariant
  import opened Incremental
  import EI = EvaluatorInvariant

  // ---------- Changes of state only ----------

  lemma {:induction false} RecordsStored<K(!new), V(!new)>(p: Program<K, V>, values: set<V>, a: Db<K, V>, b: Db<K, V>)
    requires Stored(p, values, a) && SameRecords(a, b)
    ensures Stored(p, values, b)
  {
    forall n | 0 <= n < |b.graph.nodes|
      ensures StoredAt(p, values, b.graph.nodes[n], n, b.cells, b.keys, b.traces)
    {
      assert StoredAt(p, values, a.graph.nodes[n], n, a.cells, a.keys, a.traces);
    }
  }

  lemma {:induction false} RecordsRight<K, V>(a: Db<K, V>, b: Db<K, V>)
    requires Right(a) && SameRecords(a, b)
    ensures Right(b)
  {
    forall n | 0 <= n < |b.graph.nodes| && n in b.traces
      ensures RightAt(b.graph.nodes, b.cells, b.keys, b.graph.nodes[n], b.traces[n])
    {
      assert RightAt(a.graph.nodes, a.cells, a.keys, a.graph.nodes[n], a.traces[n]);
      forall i | 0 <= i < |b.traces[n].seen| && b.graph.nodes[n].memo.Some?
        ensures StillRight(b.graph.nodes, b.cells, b.keys, b.graph.nodes[n].memo.value.verifiedAt, b.traces[n].seen[i])
      {
        assert StillRight(a.graph.nodes, a.cells, a.keys, a.graph.nodes[n].memo.value.verifiedAt, a.traces[n].seen[i]);
      }
    }
  }

  lemma {:induction false} RecordsScratch<K(!new), V(!new)>(p: Program<K, V>, a: Db<K, V>, b: Db<K, V>)
    requires Scratch(p, a) && SameRecords(a, b) && (SameTime(a, b) || EI.Unverified(b.graph))
    ensures Scratch(p, b)
  {
    forall n | 0 <= n < |b.graph.nodes| ensures ScratchAt(p, b, n) {
      assert ScratchAt(p, a, n);
    }
  }

  lemma {:induction false} RecordsFaithful<K(!new), V(!new)>(p: Program<K, V>, values: set<V>, a: Db<K, V>, b: Db<K, V>)
    requires Faithful(p, values, a) && SameRecords(a, b) && (SameTime(a, b) || EI.Unverified(b.graph))
    ensures Faithful(p, values, b)
  {
    RecordsStored(p, values, a, b);
    RecordsRight(a, b);
    RecordsScratch(p, a, b);
  }

  /** Nothing about the value of `m` changed. */
  ghost predicate SameValue<K, V>(a: Db<K, V>, b: Db<K, V>, m: nat) {
    && b.graph.revision == a.graph.revision && (VerifiedNow(b.graph, m) ==> VerifiedNow(a.graph, m))
    && (m in a.keys && a.keys[m] in a.cells && m in a.traces ==>
          && m in b.keys && b.keys[m] == a.keys[m] && m in b.traces && b.traces[m] == a.traces[m]
          && a.keys[m] in b.cells && b.cells[a.keys[m]].value == a.cells[a.keys[m]].value)
  }

  lemma {:induction false} SameScratch<K(!new), V(!new)>(p: Program<K, V>, a: Db<K, V>, b: Db<K, V>, m: nat)
    requires ScratchAt(p, a, m) && SameValue(a, b, m)
    ensures ScratchAt(p, b, m)
  {
  }

  // ---------- Cancel, new revision, reading ----------

  lemma {:induction false} AbortFaithful<K(!new), V(!new)>(p: Program<K, V>, values: set<V>, db: Db<K, V>,
      reason: AbortReason)
    requires Good(p, values, db) && db.frames != []
    ensures Faithful(p, values, AbortKey(db, reason).db)
  {
    AbortShape(p, db, reason);
    RecordsFaithful(p, values, db, AbortKey(db, reason).db);
  }

  lemma {:induction false} AdvanceFaithful<K(!new), V(!new)>(p: Program<K, V>, values: set<V>, db: Db<K, V>,
      revision: nat)
    requires Good(p, values, db)
    ensures Faithful(p, values, Advance(db, revision).db)
  {
    if revision > db.graph.revision {
      AdvanceCore(p, db, revision);
      AdvanceShape(db, revision);
      RecordsFaithful(p, values, db, Advance(db, revision).db);
    }
  }

  lemma {:induction false} RequireFaithful<K(!new), V(!new)>(p: Program<K, V>, values: set<V>, db: Db<K, V>, key: K)
    requires Good(p, values, db) && db.frames != []
    requires var f := db.frames[|db.frames| - 1]; p.eval(f.key, f.ticket.input, Values(f.seen)) == Need(key)
    ensures Faithful(p, values, RequireKey(db, key).db)
  {
    RequireCore(p, db, key);
    RecordsFaithful(p, values, db, RequireKey(db, key).db);
  }

  // ---------- Green reuse ----------

  lemma {:induction false} GreenStored<K(!new), V(!new)>(p: Program<K, V>, values: set<V>, a: Db<K, V>, b: Db<K, V>,
      n: nat)
    requires Stored(p, values, a) && Reverified(a, b, n)
    ensures Stored(p, values, b)
  {
    forall m | 0 <= m < |b.graph.nodes|
      ensures StoredAt(p, values, b.graph.nodes[m], m, b.cells, b.keys, b.traces)
    {
      assert StoredAt(p, values, a.graph.nodes[m], m, a.cells, a.keys, a.traces);
    }
  }

  /** The dependencies of a green request have not changed since it was last verified, so its reads
      are still right now. */
  lemma {:induction false} GreenRight<K(!new), V(!new)>(p: Program<K, V>, values: set<V>, a: Db<K, V>, b: Db<K, V>,
      n: nat, input: Fingerprint)
    requires Stored(p, values, a) && Right(a) && Reverified(a, b, n) && Green(a.graph, n, input)
    ensures Right(b)
  {
    forall m | 0 <= m < |b.graph.nodes| && m in b.traces
      ensures RightAt(b.graph.nodes, b.cells, b.keys, b.graph.nodes[m], b.traces[m])
    {
      assert RightAt(a.graph.nodes, a.cells, a.keys, a.graph.nodes[m], a.traces[m]);
      forall i | 0 <= i < |b.traces[m].seen| && b.graph.nodes[m].memo.Some?
        ensures StillRight(b.graph.nodes, b.cells, b.keys, b.graph.nodes[m].memo.value.verifiedAt, b.traces[m].seen[i])
      {
        assert StillRight(a.graph.nodes, a.cells, a.keys, a.graph.nodes[m].memo.value.verifiedAt, a.traces[m].seen[i]);
        if m == n { GreenRead(p, values, a, n, input, i); }
      }
    }
  }

  lemma {:induction false} GreenRead<K(!new), V(!new)>(p: Program<K, V>, values: set<V>, a: Db<K, V>, n: nat,
      input: Fingerprint, i: nat)
    requires Stored(p, values, a) && n < |a.graph.nodes| && Green(a.graph, n, input) && n in a.traces &&
        i < |a.traces[n].seen|
    ensures Unchanged(a.graph, a.traces[n].seen[i].node, a.graph.nodes[n].memo.value.verifiedAt)
  {
    assert StoredAt(p, values, a.graph.nodes[n], n, a.cells, a.keys, a.traces);
    var d := NodesOf(a.traces[n].seen)[i];
    assert d in a.graph.nodes[n].dependencies;
    var j :| 0 <= j < |a.graph.nodes[n].dependencies| && a.graph.nodes[n].dependencies[j] == d;
    assert Unchanged(a.graph, a.graph.nodes[n].dependencies[j], a.graph.nodes[n].memo.value.verifiedAt);
  }

  /** A request that was found green would read the same values again. */
  lemma {:induction false} GreenRecomputed<K(!new), V(!new)>(p: Program<K, V>, values: set<V>, db: Db<K, V>, n: nat,
      input: Fingerprint, i: nat)
    requires Faithful(p, values, db) && n < |db.graph.nodes| && Green(db.graph, n, input) && n in db.traces &&
        i < |db.traces[n].seen|
    ensures Recomputed(p, db.graph.revision, db.traces[n].seen[i])
  {
    var read := db.traces[n].seen[i];
    GreenRead(p, values, db, n, input, i);
    assert RightAt(db.graph.nodes, db.cells, db.keys, db.graph.nodes[n], db.traces[n]);
    assert StillRight(db.graph.nodes, db.cells, db.keys, db.graph.nodes[n].memo.value.verifiedAt, read);
    assert ScratchAt(p, db, read.node);
  }

  /** The value of a green request is the recomputed one. */
  lemma {:induction false} GreenComposes<K(!new), V(!new)>(p: Program<K, V>, values: set<V>, db: Db<K, V>, key: K)
    requires Good(p, values, db) && key in db.cells
    requires var n := db.cells[key].node; n < |db.graph.nodes| && Green(db.graph, n, p.input(db.graph.revision, key))
    ensures var n := db.cells[key].node;
            && n in db.keys && db.keys[n] == key && db.cells[key].value.Some? && n in db.traces
            && db.traces[n].input == p.input(db.graph.revision, key)
            && FromScratch(p, db.graph.revision, key, db.cells[key].value.value)
            && forall i | 0 <= i < |db.traces[n].seen| :: Recomputed(p, db.graph.revision, db.traces[n].seen[i])
  {
    var n := db.cells[key].node;
    assert CellAt(p, db.graph.nodes, db.keys, key, n);
    assert StoredAt(p, values, db.graph.nodes[n], n, db.cells, db.keys, db.traces);
    forall i | 0 <= i < |db.traces[n].seen| ensures Recomputed(p, db.graph.revision, db.traces[n].seen[i]) {
      GreenRecomputed(p, values, db, n, p.input(db.graph.revision, key), i);
    }
    Composes(p, db.graph.revision, key, db.traces[n].seen, db.cells[key].value.value);
  }

  lemma {:induction false} GreenScratch<K(!new), V(!new)>(p: Program<K, V>, values: set<V>, db: Db<K, V>, key: K,
      r: Db<K, V>)
    requires Good(p, values, db) && key in db.cells
    requires var n := db.cells[key].node;
             n < |db.graph.nodes| && Green(db.graph, n, p.input(db.graph.revision, key)) && Reverified(db, r, n)
    ensures Scratch(p, r)
  {
    GreenComposes(p, values, db, key);
    forall m | 0 <= m < |r.graph.nodes| ensures ScratchAt(p, r, m) {
      if m != db.cells[key].node {
        assert ScratchAt(p, db, m);
        SameScratch(p, db, r, m);
      }
    }
  }

  // ---------- Registration ----------

  lemma {:induction false} AddsStored<K(!new), V(!new)>(p: Program<K, V>, values: set<V>, db: Db<K, V>, key: K, n: nat,
      r: Db<K, V>)
    requires Tables(p, db) && Stored(p, values, db) && Adds(p, db, key, n, r)
    ensures Stored(p, values, r)
  {
    forall m | 0 <= m < |r.graph.nodes| ensures StoredAt(p, values, r.graph.nodes[m], m, r.cells, r.keys, r.traces) {
      if m != n { assert StoredAt(p, values, db.graph.nodes[m], m, db.cells, db.keys, db.traces); }
    }
  }

  lemma {:induction false} AddsRight<K, V>(p: Program<K, V>, db: Db<K, V>, key: K, n: nat, r: Db<K, V>)
    requires Right(db) && Adds(p, db, key, n, r)
    ensures Right(r)
  {
    forall m | 0 <= m < |r.graph.nodes| && m in r.traces
      ensures RightAt(r.graph.nodes, r.cells, r.keys, r.graph.nodes[m], r.traces[m])
    {
      if m != n {
        assert RightAt(db.graph.nodes, db.cells, db.keys, db.graph.nodes[m], db.traces[m]);
        forall i | 0 <= i < |r.traces[m].seen| && r.graph.nodes[m].memo.Some?
          ensures StillRight(r.graph.nodes, r.cells, r.keys, r.graph.nodes[m].memo.value.verifiedAt,
              r.traces[m].seen[i])
        {
          assert StillRight(db.graph.nodes, db.cells, db.keys, db.graph.nodes[m].memo.value.verifiedAt,
              db.traces[m].seen[i]);
        }
      }
    }
  }

  lemma {:induction false} AddsScratch<K(!new), V(!new)>(p: Program<K, V>, db: Db<K, V>, key: K, n: nat, r: Db<K, V>)
    requires Scratch(p, db) && Adds(p, db, key, n, r)
    ensures Scratch(p, r)
  {
    forall m | 0 <= m < |r.graph.nodes| ensures ScratchAt(p, r, m) {
      if m != n { assert ScratchAt(p, db, m); }
    }
  }

  lemma {:induction false} EnsureFaithful<K(!new), V(!new)>(p: Program<K, V>, values: set<V>, db: Db<K, V>, key: K)
    requires Good(p, values, db)
    ensures WellFormed(db) && Faithful(p, values, EnsureNode(p, db, key).db)
  {
    CoreWellFormed(p, db);
    EnsureShape(p, db, key);
    var e := EnsureNode(p, db, key);
    if key !in db.cells && e.result.Ok? {
      AddsStored(p, values, db, key, e.result.value, e.db);
      AddsRight(p, db, key, e.result.value, e.db);
      AddsScratch(p, db, key, e.result.value, e.db);
    }
  }

  lemma {:induction false} BeginNodeFaithful<K(!new), V(!new)>(p: Program<K, V>, values: set<V>, db: Db<K, V>, key: K)
    requires Good(p, values, db) && key in db.cells
    ensures Faithful(p, values, BeginNode(db, key, db.cells[key].node, p.input(db.graph.revision, key)).db)
  {
    var n, input := db.cells[key].node, p.input(db.graph.revision, key);
    var r := BeginNode(db, key, n, input).db;
    BeginNodeShape(p, db, key);
    if r == db {
    } else if Starts(p, db, key, r) {
      StartsShape(p, db, key, r);
      RecordsFaithful(p, values, db, r);
    } else {
      GreenStored(p, values, db, r, n);
      GreenRight(p, values, db, r, n, input);
      GreenScratch(p, values, db, key, r);
    }
  }

  lemma {:induction false} BeginFaithful<K(!new), V(!new)>(p: Program<K, V>, values: set<V>, db: Db<K, V>, key: K)
    requires Good(p, values, db)
    ensures WellFormed(db) && Faithful(p, values, BeginKey(p, db, key, p.input(db.graph.revision, key)).db)
  {
    EnsureCore(p, db, key);
    EnsureFaithful(p, values, db, key);
    var e := EnsureNode(p, db, key);
    if e.result.Ok? { BeginNodeFaithful(p, values, e.db, key); }
  }

  // ---------- Publication ----------

  /** What verified requests have read either is verified still, or still belongs to the same request. */
  ghost predicate Clear<K, V>(db: Db<K, V>) {
    forall m: nat, i | VerifiedNow(db.graph, m) && m in db.traces && 0 <= i < |db.traces[m].seen| ::
      ClearRead(db, db.traces[m].seen[i])
  }

  ghost predicate ClearRead<K, V>(db: Db<K, V>, read: Read<K, V>) {
    VerifiedNow(db.graph, read.node) || (read.node in db.keys ==> db.keys[read.node] == read.key)
  }

  /** The computation on top of the stack returns `value`. */
  ghost predicate TopReturns<K, V>(p: Program<K, V>, db: Db<K, V>, value: V)
    requires db.frames != []
  {
    var f := db.frames[|db.frames| - 1];
    p.eval(f.key, f.ticket.input, Values(f.seen)) == Done(value)
  }

  lemma {:induction false} PostsStored<K(!new), V(!new)>(p: Program<K, V>, values: set<V>, db: Db<K, V>, value: V,
      memo: Memo, r: Db<K, V>)
    requires Tables(p, db) && Framed(p, db) && Stored(p, values, db) && Posts(db, value, memo, r)
    requires value in values && p.output(value) == Some(memo.result) && TopReturns(p, db, value)
    ensures Stored(p, values, r)
  {
    assert FrameAt(p, db, db.frames[|db.frames| - 1], |db.frames| - 1);
    forall m | 0 <= m < |r.graph.nodes| ensures StoredAt(p, values, r.graph.nodes[m], m, r.cells, r.keys, r.traces) {
      if m != TopNode(db) {
        assert StoredAt(p, values, db.graph.nodes[m], m, db.cells, db.keys, db.traces);
        if m in db.keys { assert KeyAt(db.cells, m, db.keys[m]); }
        assert KeyAt(db.cells, TopNode(db), db.keys[TopNode(db)]);
      }
    }
  }

  /** What the computation on top of the stack returns is the recomputed value, and so are its reads. */
  lemma {:induction false} TopRecomputed<K(!new), V(!new)>(p: Program<K, V>, db: Db<K, V>, value: V)
    requires Core(p, db) && Scratch(p, db) && db.frames != [] && TopReturns(p, db, value)
    ensures var f := db.frames[|db.frames| - 1];
            && f.ticket.input == p.input(db.graph.revision, f.key) && FromScratch(p, db.graph.revision, f.key, value)
            && forall i | 0 <= i < |f.seen| :: Recomputed(p, db.graph.revision, f.seen[i])
  {
    var f := db.frames[|db.frames| - 1];
    assert FrameAt(p, db, f, |db.frames| - 1);
    forall i | 0 <= i < |f.seen| ensures Recomputed(p, db.graph.revision, f.seen[i]) {
      assert Holds(db, f.seen[i]);
      assert ScratchAt(p, db, f.seen[i].node);
    }
    Composes(p, db.graph.revision, f.key, f.seen, value);
  }

  lemma {:induction false} PostsScratch<K(!new), V(!new)>(p: Program<K, V>, db: Db<K, V>, value: V, memo: Memo,
      r: Db<K, V>)
    requires Core(p, db) && Scratch(p, db) && Posts(db, value, memo, r) && TopReturns(p, db, value)
    ensures Scratch(p, r)
  {
    TopRecomputed(p, db, value);
    forall m | 0 <= m < |r.graph.nodes| ensures ScratchAt(p, r, m) {
      if m != TopNode(db) {
        assert ScratchAt(p, db, m);
        PostsSameValue(p, db, value, memo, r, m);
        SameScratch(p, db, r, m);
      }
    }
  }

  lemma {:induction false} PostsSameValue<K(!new), V>(p: Program<K, V>, db: Db<K, V>, value: V, memo: Memo, r: Db<K, V>,
      m: nat)
    requires Tables(p, db) && Posts(db, value, memo, r) && m < |db.graph.nodes| && m != TopNode(db)
    ensures SameValue(db, r, m)
  {
    PostsNode(db, value, memo, r, m);
    if m in db.keys { assert KeyAt(db.cells, m, db.keys[m]); }
    assert KeyAt(db.cells, TopNode(db), db.keys[TopNode(db)]);
  }

  /** A read by another request stays right: if it read the published request in this revision, it
      read the value that is published now. */
  lemma {:induction false} PostsStillRight<K(!new), V>(p: Program<K, V>, db: Db<K, V>, value: V, memo: Memo,
      r: Db<K, V>, m: nat, read: Read<K, V>)
    requires Tables(p, db) && Posts(db, value, memo, r) && EI.Memos(db.graph)
    requires m < |db.graph.nodes| && db.graph.nodes[m].memo.Some?
    requires VerifiedNow(db.graph, m) && read.node == TopNode(db) ==>
        Gives(r.cells, r.keys, read.node, read.key, read.value)
    requires StillRight(db.graph.nodes, db.cells, db.keys, db.graph.nodes[m].memo.value.verifiedAt, read)
    ensures StillRight(r.graph.nodes, r.cells, r.keys, db.graph.nodes[m].memo.value.verifiedAt, read)
  {
    assert EI.MemoOk(db.graph.revision, db.graph.nodes[m]);
    if read.node != TopNode(db) && Gives(db.cells, db.keys, read.node, read.key, read.value) {
      PostsGives(p, db, value, memo, r, read.node, read.key, read.value);
    }
  }

  /** A verified request that has read the published one has read the published value. */
  lemma {:induction false} VerifiedReader<K(!new), V(!new)>(p: Program<K, V>, db: Db<K, V>, value: V, memo: Memo,
      r: Db<K, V>, m: nat, i: nat)
    requires Core(p, db) && Scratch(p, db) && Clear(db) && Posts(db, value, memo, r) && TopReturns(p, db, value)
    requires !VerifiedNow(db.graph, TopNode(db)) && VerifiedNow(db.graph, m) && m in db.traces &&
        i < |db.traces[m].seen|
    requires db.traces[m].seen[i].node == TopNode(db)
    ensures Gives(r.cells, r.keys, TopNode(db), db.traces[m].seen[i].key, db.traces[m].seen[i].value)
  {
    var read := db.traces[m].seen[i];
    assert ClearRead(db, read);
    assert ScratchAt(p, db, m);
    assert Recomputed(p, db.graph.revision, read);
    TopRecomputed(p, db, value);
    FromScratchUnique(p, db.graph.revision, read.key, read.value, value);
  }

  lemma {:induction false} PostsRightOther<K(!new), V(!new)>(p: Program<K, V>, db: Db<K, V>, value: V, memo: Memo,
      r: Db<K, V>, m: nat)
    requires Core(p, db) && Right(db) && Scratch(p, db) && Clear(db) && Posts(db, value, memo, r) &&
        TopReturns(p, db, value)
    requires !VerifiedNow(db.graph, TopNode(db)) && m < |db.graph.nodes| && m in db.traces && m != TopNode(db)
    ensures RightAt(r.graph.nodes, r.cells, r.keys, r.graph.nodes[m], r.traces[m])
  {
    var seen := db.traces[m].seen;
    assert SameButDependents(db.graph.nodes[m], r.graph.nodes[m]);
    if db.graph.nodes[m].memo.Some? {
      assert RightAt(db.graph.nodes, db.cells, db.keys, db.graph.nodes[m], db.traces[m]);
      forall i | 0 <= i < |seen|
        ensures StillRight(r.graph.nodes, r.cells, r.keys, db.graph.nodes[m].memo.value.verifiedAt, seen[i])
      {
        assert StillRight(db.graph.nodes, db.cells, db.keys, db.graph.nodes[m].memo.value.verifiedAt, seen[i]);
        if VerifiedNow(db.graph, m) && seen[i].node == TopNode(db) { VerifiedReader(p, db, value, memo, r, m, i); }
        PostsStillRight(p, db, value, memo, r, m, seen[i]);
      }
    }
  }

  lemma {:induction false} PostsRightTop<K(!new), V>(p: Program<K, V>, db: Db<K, V>, value: V, memo: Memo, r: Db<K, V>)
    requires Tables(p, db) && Framed(p, db) && Posts(db, value, memo, r) && !VerifiedNow(db.graph, TopNode(db))
    ensures RightAt(r.graph.nodes, r.cells, r.keys, r.graph.nodes[TopNode(db)], r.traces[TopNode(db)])
  {
    var f := db.frames[|db.frames| - 1];
    assert FrameAt(p, db, f, |db.frames| - 1);
    forall i | 0 <= i < |f.seen| ensures StillRight(r.graph.nodes, r.cells, r.keys, memo.verifiedAt, f.seen[i]) {
      assert Holds(db, f.seen[i]);
      PostsGives(p, db, value, memo, r, f.seen[i].node, f.seen[i].key, f.seen[i].value);
    }
  }

  lemma {:induction false} PostsRight<K(!new), V(!new)>(p: Program<K, V>, db: Db<K, V>, value: V, memo: Memo,
      r: Db<K, V>)
    requires Core(p, db) && Right(db) && Scratch(p, db) && Clear(db) && Posts(db, value, memo, r) &&
        TopReturns(p, db, value)
    requires !VerifiedNow(db.graph, TopNode(db))
    ensures Right(r)
  {
    forall m | 0 <= m < |r.graph.nodes| && m in r.traces
      ensures RightAt(r.graph.nodes, r.cells, r.keys, r.graph.nodes[m], r.traces[m])
    {
      if m == TopNode(db) { PostsRightTop(p, db, value, memo, r); }
      else { PostsRightOther(p, db, value, memo, r, m); }
    }
  }

  /** An unchanged fingerprint means an unchanged value. */
  lemma {:induction false} KeptValue<K(!new), V(!new)>(p: Program<K, V>, values: set<V>, db: Db<K, V>, n: nat, value: V)
    requires Stored(p, values, db) && Distinguishes(p, values) && value in values && n < |db.graph.nodes|
    requires db.graph.nodes[n].memo.Some? && p.output(value) == Some(db.graph.nodes[n].memo.value.result)
    ensures n in db.keys && db.keys[n] in db.cells && db.cells[db.keys[n]].value == Some(value)
  {
    assert StoredAt(p, values, db.graph.nodes[n], n, db.cells, db.keys, db.traces);
  }

  /** So the cell holds the published value, backdated or not. */
  lemma {:induction false} PublishStores<K(!new), V(!new)>(p: Program<K, V>, values: set<V>, db: Db<K, V>, value: V)
    requires Good(p, values, db) && Distinguishes(p, values) && value in values && db.frames != [] &&
        p.output(value).Some?
    ensures WellFormed(db)
    ensures var t, result := db.frames[|db.frames| - 1].ticket, p.output(value).value;
            && PublishMemo(db.graph, t, result).Ok? && PublishMemo(db.graph, t, result).value.result == result
            && Posts(db, value, PublishMemo(db.graph, t, result).value, PublishKey(p, db, value).db)
  {
    CoreWellFormed(p, db);
    var f, result := db.frames[|db.frames| - 1], p.output(value).value;
    TopPublishes(p, db, result);
    TopTicket(p, db);
    PublishPosts(p, db, value);
    PublishShape(db.graph, f.ticket, result);
    if !Publish(db.graph, f.ticket, result).result.value { KeptValue(p, values, db, f.ticket.node, value); }
  }

  lemma {:induction false} PublishFaithful<K(!new), V(!new)>(p: Program<K, V>, values: set<V>, db: Db<K, V>, value: V)
    requires Good(p, values, db) && Distinguishes(p, values) && Clear(db) && value in values
    requires db.frames != [] && TopReturns(p, db, value)
    ensures WellFormed(db) && Faithful(p, values, PublishKey(p, db, value).db)
  {
    CoreWellFormed(p, db);
    TopUnverified(p, db);
    if p.output(value).None? {
      TopTicket(p, db);
      AbortFaithful(p, values, db, AbortFailed);
    } else {
      PublishStores(p, values, db, value);
      var memo, r := PublishMemo(db.graph, db.frames[|db.frames| - 1].ticket, p.output(value).value).value,
          PublishKey(p, db, value).db;
      PostsStored(p, values, db, value, memo, r);
      PostsRight(p, db, value, memo, r);
      PostsScratch(p, db, value, memo, r);
    }
  }

  // ---------- Removal ----------

  lemma {:induction false} RetainStored<K(!new), V(!new)>(p: Program<K, V>, values: set<V>, db: Db<K, V>, gone: set<K>)
    requires Tables(p, db) && Stored(p, values, db) && db.graph.active == [] &&
        EI.Memos(RetainOthers(db, gone).db.graph)
    ensures Stored(p, values, RetainOthers(db, gone).db)
  {
    var r := RetainOthers(db, gone).db;
    forall m | 0 <= m < |r.graph.nodes| ensures StoredAt(p, values, r.graph.nodes[m], m, r.cells, r.keys, r.traces) {
      if r.graph.nodes[m].memo.Some? {
        RetainKept(db, gone, m);
        assert StoredAt(p, values, db.graph.nodes[m], m, db.cells, db.keys, db.traces);
        NamedNodes(p, db, gone, m);
      }
    }
  }

  lemma {:induction false} RetainRight<K(!new), V(!new)>(p: Program<K, V>, db: Db<K, V>, gone: set<K>)
    requires Tables(p, db) && Right(db) && db.graph.active == [] && EI.Memos(RetainOthers(db, gone).db.graph)
    ensures Right(RetainOthers(db, gone).db)
  {
    var r := RetainOthers(db, gone).db;
    forall m | 0 <= m < |r.graph.nodes| && m in r.traces
      ensures RightAt(r.graph.nodes, r.cells, r.keys, r.graph.nodes[m], r.traces[m])
    {
      if r.graph.nodes[m].memo.Some? {
        RetainKept(db, gone, m);
        assert RightAt(db.graph.nodes, db.cells, db.keys, db.graph.nodes[m], db.traces[m]);
        forall i | 0 <= i < |r.traces[m].seen|
          ensures StillRight(r.graph.nodes, r.cells, r.keys, r.graph.nodes[m].memo.value.verifiedAt,
              r.traces[m].seen[i])
        {
          var read := r.traces[m].seen[i];
          assert StillRight(db.graph.nodes, db.cells, db.keys, db.graph.nodes[m].memo.value.verifiedAt, read);
          if read.node < |r.graph.nodes| && r.graph.nodes[read.node].memo.Some? {
            RetainKept(db, gone, read.node);
            if read.node in db.keys { NamedNodes(p, db, gone, read.node); }
          }
        }
      }
    }
  }

  lemma {:induction false} RetainScratch<K(!new), V(!new)>(p: Program<K, V>, db: Db<K, V>, gone: set<K>)
    requires Tables(p, db) && Scratch(p, db) && db.graph.active == [] && EI.Memos(RetainOthers(db, gone).db.graph)
    ensures Scratch(p, RetainOthers(db, gone).db)
  {
    var r := RetainOthers(db, gone).db;
    forall m | 0 <= m < |r.graph.nodes| ensures ScratchAt(p, r, m) {
      if VerifiedNow(r.graph, m) {
        RetainKept(db, gone, m);
        assert ScratchAt(p, db, m);
        NamedNodes(p, db, gone, m);
      }
    }
  }

  lemma {:induction false} RetainFaithful<K(!new), V(!new)>(p: Program<K, V>, values: set<V>, db: Db<K, V>,
      gone: set<K>)
    requires Good(p, values, db)
    ensures Faithful(p, values, RetainOthers(db, gone).db)
  {
    if db.graph.active == [] {
      RetainCore(p, db, gone);
      RetainStored(p, values, db, gone);
      RetainRight(p, db, gone);
      RetainScratch(p, db, gone);
    }
  }

  // ---------- One request of a client ----------

  /** The value that the computation on top of the stack is about to publish is among `values`. */
  ghost predicate Among<K, V>(p: Program<K, V>, values: set<V>, db: Db<K, V>) {
    db.frames != [] ==>
      var f := db.frames[|db.frames| - 1];
      var action := p.eval(f.key, f.ticket.input, Values(f.seen));
      action.Done? ==> action.value in values
  }

  lemma {:induction false} ContinueFaithful<K(!new), V(!new)>(p: Program<K, V>, values: set<V>, db: Db<K, V>)
    requires Good(p, values, db) && Distinguishes(p, values) && Clear(db) && Among(p, values, db) && db.frames != []
    ensures WellFormed(db) && Faithful(p, values, ContinueTop(p, db))
  {
    CoreWellFormed(p, db);
    ContinueIs(p, db);
    var f := db.frames[|db.frames| - 1];
    match p.eval(f.key, f.ticket.input, Values(f.seen))
    case Need(key) => RequireFaithful(p, values, db, key);
    case Done(value) => PublishFaithful(p, values, db, value);
    case Fail =>
  }

  /** Every request of a client keeps stored values, recorded reads and recomputed values in step. */
  lemma {:induction false} ApplyFaithful<K(!new), V(!new)>(p: Program<K, V>, values: set<V>, db: Db<K, V>, op: Op<K>)
    requires Good(p, values, db) && Distinguishes(p, values) && Clear(db) && (op.Continue? ==> Among(p, values, db))
    ensures WellFormed(db) && Faithful(p, values, Apply(p, db, op))
  {
    CoreWellFormed(p, db);
    ApplyIs(p, db, op);
    match op
    case Demand(key) => BeginFaithful(p, values, db, key);
    case Continue => if db.frames != [] { ContinueFaithful(p, values, db); }
    case Cancel(reason) => if db.frames != [] { AbortFaithful(p, values, db, reason); }
    case NewRevision(revision) => AdvanceFaithful(p, values, db, revision);
    case Retain(gone) => RetainFaithful(p, values, db, gone);
  }
}
