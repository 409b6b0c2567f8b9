/** What every request of a client keeps in the table, the graph and the live computations, whatever
    the fingerprints and whatever was removed. */
module TableInvariant {
  import opened Wrappers
  import opened RequestGraph
  import opened RequestTable
  import EI = EvaluatorInvariant

  // ---------- Invariant ----------

  /** Request `k` sits at node `n`, which is in use. */
  ghost predicate CellAt<K, V>(p: Program<K, V>, nodes: seq<Node>, keys: map<nat, K>, k: K, n: nat) {
    n < |nodes| && n in keys && keys[n] == k && nodes[n].identity == p.identity(k) && nodes[n].state != Removed
  }

  ghost predicate KeyAt<K, V>(cells: map<K, Cell<V>>, n: nat, k: K) { k in cells && cells[k].node == n }

  /** The table and the graph name the same requests. */
  ghost predicate Tables<K(!new), V>(p: Program<K, V>, db: Db<K, V>) {
    && (forall k | k in db.cells :: CellAt(p, db.graph.nodes, db.keys, k, db.cells[k].node))
    && (forall n | n in db.keys :: KeyAt(db.cells, n, db.keys[n]))
    && (forall n | 0 <= n < |db.graph.nodes| && n !in db.keys :: db.graph.nodes[n].state == Removed)
  }

  ghost predicate ValuedAt<K, V>(node: Node, n: nat, cells: map<K, Cell<V>>, keys: map<nat, K>) {
    node.memo.Some? ==> n in keys && keys[n] in cells && cells[keys[n]].value.Some?
  }

  /** What was published has a value. */
  ghost predicate Valued<K, V>(db: Db<K, V>) {
    forall n | 0 <= n < |db.graph.nodes| :: ValuedAt(db.graph.nodes[n], n, db.cells, db.keys)
  }

  /** Node `n` belongs to request `k`, whose stored value is `v`. */
  ghost predicate Gives<K, V>(cells: map<K, Cell<V>>, keys: map<nat, K>, n: nat, k: K, v: V) {
    n in keys && keys[n] == k && k in cells && cells[k].value == Some(v)
  }

  /** A read of a live computation: current, and with the value that is stored. */
  ghost predicate Holds<K, V>(db: Db<K, V>, r: Read<K, V>) {
    VerifiedNow(db.graph, r.node) && Gives(db.cells, db.keys, r.node, r.key, r.value)
  }

  /** The evaluator of `key` asks for exactly these reads, in this order. */
  ghost predicate Asks<K, V>(p: Program<K, V>, key: K, input: Fingerprint, seen: seq<Read<K, V>>) {
    forall i | 0 <= i < |seen| :: p.eval(key, input, Values(seen)[..i]) == Need(seen[i].key)
  }

  ghost predicate FrameAt<K, V>(p: Program<K, V>, db: Db<K, V>, f: Frame<K, V>, i: nat) {
    && i < |db.graph.active|
    && f.ticket.node == db.graph.active[i] && f.ticket.node < |db.graph.nodes|
    && f.ticket.revision == db.graph.revision && f.ticket.generation == db.graph.generation && f.ticket.stackIndex == i
    && f.ticket.hadPublication == db.graph.nodes[f.ticket.node].memo.Some?
    && f.ticket.input == p.input(db.graph.revision, f.key)
    && f.ticket.node in db.keys && db.keys[f.ticket.node] == f.key
    && f.ticket.dependencies == NodesOf(f.seen)
    && Asks(p, f.key, f.ticket.input, f.seen)
    && (forall j | 0 <= j < |f.seen| :: Holds(db, f.seen[j]))
  }

  /** The live computations are the active nodes, and whatever they have read is current. */
  ghost predicate Framed<K, V>(p: Program<K, V>, db: Db<K, V>) {
    && |db.frames| == |db.graph.active|
    && forall i | 0 <= i < |db.frames| :: FrameAt(p, db, db.frames[i], i)
  }

  ghost predicate Core<K(!new), V>(p: Program<K, V>, db: Db<K, V>) {
    EI.Core(db.graph) && Tables(p, db) && Valued(db) && Framed(p, db)
  }

  /** `r` has the core, and the order of the graph if `tidy` and it was there. */
  ghost predicate Keeps<K(!new), V>(p: Program<K, V>, db: Db<K, V>, r: Db<K, V>, tidy: bool) {
    Core(p, r) && (tidy && EI.Ordered(db.graph) ==> EI.Ordered(r.graph))
  }

  lemma {:induction false} CoreWellFormed<K(!new), V>(p: Program<K, V>, db: Db<K, V>)
    requires Core(p, db)
    ensures WellFormed(db)
  {
  }

  // ---------- Changes of state only ----------

  /** The two databases differ in revision, node states, stack and frames only. */
  ghost predicate SameRecords<K, V>(a: Db<K, V>, b: Db<K, V>) {
    && b.cells == a.cells && b.keys == a.keys && b.traces == a.traces
    && |b.graph.nodes| == |a.graph.nodes|
    && forall n | 0 <= n < |a.graph.nodes| ::
         && b.graph.nodes[n].memo == a.graph.nodes[n].memo && b.graph.nodes[n].identity == a.graph.nodes[n].identity
         && b.graph.nodes[n].dependencies == a.graph.nodes[n].dependencies
         && (b.graph.nodes[n].state == Removed <==> a.graph.nodes[n].state == Removed)
  }

  ghost predicate SameTime<K, V>(a: Db<K, V>, b: Db<K, V>) {
    b.graph.revision == a.graph.revision && b.graph.generation == a.graph.generation
  }

  lemma {:induction false} RecordsTables<K(!new), V>(p: Program<K, V>, a: Db<K, V>, b: Db<K, V>)
    requires Tables(p, a) && Valued(a) && SameRecords(a, b)
    ensures Tables(p, b) && Valued(b)
  {
    forall n | 0 <= n < |b.graph.nodes| ensures ValuedAt(b.graph.nodes[n], n, b.cells, b.keys) {
      assert ValuedAt(a.graph.nodes[n], n, a.cells, a.keys);
    }
  }

  lemma {:induction false} RecordsFrame<K, V>(p: Program<K, V>, a: Db<K, V>, b: Db<K, V>, f: Frame<K, V>, i: nat)
    requires FrameAt(p, a, f, i) && SameRecords(a, b) && SameTime(a, b) && i < |b.graph.active| &&
        b.graph.active[i] == a.graph.active[i]
    ensures FrameAt(p, b, f, i)
  {
    forall j | 0 <= j < |f.seen| ensures Holds(b, f.seen[j]) { assert Holds(a, f.seen[j]); }
  }

  // ---------- Cancel ----------

  lemma {:induction false} TopTicket<K, V>(p: Program<K, V>, db: Db<K, V>)
    requires EI.Stacked(db.graph) && Framed(p, db) && db.frames != []
    ensures ValidTicket(db.graph, db.frames[|db.frames| - 1].ticket)
    ensures FrameAt(p, db, db.frames[|db.frames| - 1], |db.frames| - 1)
  {
    var last := |db.frames| - 1;
    assert FrameAt(p, db, db.frames[last], last);
  }

  lemma {:induction false} AbortShape<K, V>(p: Program<K, V>, db: Db<K, V>, reason: AbortReason)
    requires EI.Stacked(db.graph) && Framed(p, db) && db.frames != []
    ensures var r := AbortKey(db, reason);
            && r.result.Ok? && SameRecords(db, r.db) && SameTime(db, r.db) &&
                 r.db.frames == db.frames[..|db.frames| - 1]
            && r.db.graph.active == db.graph.active[..|db.graph.active| - 1]
  {
    TopTicket(p, db);
  }

  lemma {:induction false} PopFramed<K, V>(p: Program<K, V>, a: Db<K, V>, b: Db<K, V>)
    requires Framed(p, a) && SameRecords(a, b) && SameTime(a, b) && a.frames != []
    requires b.frames == a.frames[..|a.frames| - 1] && b.graph.active == a.graph.active[..|a.graph.active| - 1]
    ensures Framed(p, b)
  {
    forall i | 0 <= i < |b.frames| ensures FrameAt(p, b, b.frames[i], i) {
      RecordsFrame(p, a, b, a.frames[i], i);
    }
  }

  lemma {:induction false} AbortGraph<K, V>(p: Program<K, V>, db: Db<K, V>, reason: AbortReason)
    requires EI.Core(db.graph) && Framed(p, db) && db.frames != []
    ensures var r := AbortKey(db, reason).db; EI.Core(r.graph) && (EI.Ordered(db.graph) ==> EI.Ordered(r.graph))
  {
    TopTicket(p, db);
    EI.AbortInv(db.graph, db.frames[|db.frames| - 1].ticket, reason);
  }

  lemma {:induction false} AbortCore<K(!new), V>(p: Program<K, V>, db: Db<K, V>, reason: AbortReason)
    requires Core(p, db) && db.frames != []
    ensures Keeps(p, db, AbortKey(db, reason).db, true) && AbortKey(db, reason).result.Ok?
  {
    AbortShape(p, db, reason);
    AbortGraph(p, db, reason);
    RecordsTables(p, db, AbortKey(db, reason).db);
    PopFramed(p, db, AbortKey(db, reason).db);
  }

  // ---------- New revision ----------

  lemma {:induction false} AdvanceShape<K, V>(db: Db<K, V>, revision: nat)
    requires EI.Stacked(db.graph) && revision > db.graph.revision
    ensures SameRecords(db, Advance(db, revision).db)
  {
  }

  lemma {:induction false} AdvanceCore<K(!new), V>(p: Program<K, V>, db: Db<K, V>, revision: nat)
    requires Core(p, db)
    ensures Keeps(p, db, Advance(db, revision).db, true)
    ensures revision > db.graph.revision ==> EI.Unverified(Advance(db, revision).db.graph)
  {
    EI.AdvanceInv(db.graph, revision);
    if revision > db.graph.revision {
      AdvanceShape(db, revision);
      RecordsTables(p, db, Advance(db, revision).db);
    }
  }

  // ---------- Require ----------

  /** Reading one more value extends the questions an evaluator has asked. */
  lemma {:induction false} AsksMore<K, V>(p: Program<K, V>, key: K, input: Fingerprint, seen: seq<Read<K, V>>,
      r: Read<K, V>)
    requires Asks(p, key, input, seen) && p.eval(key, input, Values(seen)) == Need(r.key)
    ensures Asks(p, key, input, seen + [r])
  {
    var more := seen + [r];
    forall i | 0 <= i < |more| ensures p.eval(key, input, Values(more)[..i]) == Need(more[i].key) {
      assert Values(more)[..i] == Values(seen)[..i];
      if i == |seen| { assert Values(seen)[..i] == Values(seen); }
    }
  }

  /** A current dependency always has a value. */
  lemma {:induction false} RequireHolds<K(!new), V>(p: Program<K, V>, db: Db<K, V>, key: K)
    requires Tables(p, db) && Valued(db) && Readable(db, key)
    ensures db.cells[key].value.Some?
    ensures Holds(db, Read(db.cells[key].node, key, db.cells[key].value.value))
  {
    var n := db.cells[key].node;
    assert ValuedAt(db.graph.nodes[n], n, db.cells, db.keys);
  }

  lemma {:induction false} ExtendFrame<K, V>(p: Program<K, V>, db: Db<K, V>, f: Frame<K, V>, i: nat, ticket: Ticket,
      r: Read<K, V>)
    requires FrameAt(p, db, f, i) && Holds(db, r) && p.eval(f.key, f.ticket.input, Values(f.seen)) == Need(r.key)
    requires ticket == f.ticket.(dependencies := f.ticket.dependencies + [r.node])
    ensures FrameAt(p, db, Frame(f.key, ticket, f.seen + [r]), i)
  {
    AsksMore(p, f.key, f.ticket.input, f.seen, r);
    assert NodesOf(f.seen + [r]) == NodesOf(f.seen) + [r.node];
  }

  /** A live ticket may read exactly the current requests. */
  lemma {:induction false} RequireAccepts(g: Graph, t: Ticket, d: nat)
    requires ValidTicket(g, t)
    ensures Require(g, t, d).Ok? <==> IsCurrent(g, d)
    ensures Require(g, t, d).Ok? ==> Require(g, t, d).value == t.(dependencies := t.dependencies + [d])
  {
  }

  predicate Readable<K(==), V>(db: Db<K, V>, key: K) {
    key in db.cells && IsCurrent(db.graph, db.cells[key].node)
  }

  function TopRead<K(==), V>(db: Db<K, V>, key: K): (r: Frame<K, V>)
    requires db.frames != [] && key in db.cells && db.cells[key].value.Some?
  {
    var f, cell := db.frames[|db.frames| - 1], db.cells[key];
    Frame(f.key, f.ticket.(dependencies := f.ticket.dependencies + [cell.node]),
          f.seen + [Read(cell.node, key, cell.value.value)])
  }

  /** Requiring a request reads its value if it is current, and changes nothing otherwise. */
  lemma {:induction false} RequireEffect<K, V>(db: Db<K, V>, key: K)
    requires db.frames != [] && ValidTicket(db.graph, db.frames[|db.frames| - 1].ticket)
    requires Readable(db, key) ==> db.cells[key].value.Some?
    ensures !Readable(db, key) ==> RequireKey(db, key).db == db && RequireKey(db, key).result.Err?
    ensures Readable(db, key) ==>
      RequireKey(db, key) == Step(db.(frames := db.frames[|db.frames| - 1 := TopRead(db, key)]),
          Ok(db.cells[key].value.value))
  {
    if key in db.cells {
      RequireAccepts(db.graph, db.frames[|db.frames| - 1].ticket, db.cells[key].node);
    }
  }

  lemma {:induction false} ReadFramed<K, V>(p: Program<K, V>, db: Db<K, V>, f: Frame<K, V>)
    requires Framed(p, db) && db.frames != [] && FrameAt(p, db, f, |db.frames| - 1)
    ensures Framed(p, db.(frames := db.frames[|db.frames| - 1 := f]))
  {
    var r := db.(frames := db.frames[|db.frames| - 1 := f]);
    forall i | 0 <= i < |r.frames| ensures FrameAt(p, r, r.frames[i], i) {
      RecordsFrame(p, db, r, r.frames[i], i);
    }
  }

  lemma {:induction false} ReadFrame<K(!new), V>(p: Program<K, V>, db: Db<K, V>, key: K)
    requires Core(p, db) && db.frames != [] && Readable(db, key)
    requires var f := db.frames[|db.frames| - 1]; p.eval(f.key, f.ticket.input, Values(f.seen)) == Need(key)
    ensures db.cells[key].value.Some? && FrameAt(p, db, TopRead(db, key), |db.frames| - 1)
  {
    var last := |db.frames| - 1;
    var f := db.frames[last];
    RequireHolds(p, db, key);
    TopTicket(p, db);
    var r := Read(db.cells[key].node, key, db.cells[key].value.value);
    ExtendFrame(p, db, f, last, f.ticket.(dependencies := f.ticket.dependencies + [r.node]), r);
  }

  /** A live computation can read exactly the current requests. */
  lemma {:induction false} RequireCore<K(!new), V>(p: Program<K, V>, db: Db<K, V>, key: K)
    requires Core(p, db) && db.frames != []
    requires var f := db.frames[|db.frames| - 1]; p.eval(f.key, f.ticket.input, Values(f.seen)) == Need(key)
    ensures Keeps(p, db, RequireKey(db, key).db, true) && RequireKey(db, key).db ==
        db.(frames := RequireKey(db, key).db.frames)
    ensures RequireKey(db, key).result.Ok? <==> Readable(db, key)
  {
    if Readable(db, key) { ReadFrame(p, db, key); }
    TopTicket(p, db);
    RequireEffect(db, key);
    if Readable(db, key) {
      ReadFramed(p, db, TopRead(db, key));
      RecordsTables(p, db, RequireKey(db, key).db);
    }
  }

  // ---------- Begin ----------

  /** `r` is `db` after request `key` started to compute. */
  ghost predicate Starts<K, V>(p: Program<K, V>, db: Db<K, V>, key: K, r: Db<K, V>) {
    && key in db.cells && db.cells[key].node < |db.graph.nodes|
    && var n, g := db.cells[key].node, db.graph;
       && !g.nodes[n].state.Computing? && g.nodes[n].state != Removed && n in db.keys && db.keys[n] == key
       && r == db.(
            graph := g.(nodes := g.nodes[n := g.nodes[n].(state := Computing(g.revision, g.generation, |g.active|))],
                        active := g.active + [n]),
            frames := db.frames + [Frame(key, Ticket(n, g.revision, g.generation, |g.active|,
                        p.input(g.revision, key), [], g.nodes[n].memo.Some?), [])])
  }

  lemma {:induction false} StartsShape<K, V>(p: Program<K, V>, db: Db<K, V>, key: K, r: Db<K, V>)
    requires Starts(p, db, key, r) && |db.frames| == |db.graph.active|
    ensures SameRecords(db, r) && SameTime(db, r)
    ensures FrameAt(p, r, r.frames[|db.frames|], |db.frames|)
  {
  }

  lemma {:induction false} PushFramed<K, V>(p: Program<K, V>, a: Db<K, V>, b: Db<K, V>)
    requires Framed(p, a) && SameRecords(a, b) && SameTime(a, b)
    requires |b.frames| == |a.frames| + 1 == |b.graph.active| && b.frames[..|a.frames|] == a.frames
    requires b.graph.active[..|a.frames|] == a.graph.active
    requires FrameAt(p, b, b.frames[|a.frames|], |a.frames|)
    ensures Framed(p, b)
  {
    forall i | 0 <= i < |b.frames| ensures FrameAt(p, b, b.frames[i], i) {
      if i < |a.frames| {
        assert b.frames[i] == b.frames[..|a.frames|][i];
        assert b.graph.active[i] == b.graph.active[..|a.frames|][i];
        RecordsFrame(p, a, b, a.frames[i], i);
      }
    }
  }

  lemma {:induction false} ExecuteCore<K(!new), V>(p: Program<K, V>, db: Db<K, V>, key: K, r: Db<K, V>)
    requires Core(p, db) && Starts(p, db, key, r) && EI.Core(r.graph)
    ensures Core(p, r)
  {
    StartsShape(p, db, key, r);
    RecordsTables(p, db, r);
    PushFramed(p, db, r);
  }

  /** Only node `n` was verified anew; nothing changed. */
  ghost predicate Reverified<K, V>(a: Db<K, V>, b: Db<K, V>, n: nat) {
    && n < |a.graph.nodes| && a.graph.nodes[n].memo.Some? && a.graph.nodes[n].state != Removed && SameTime(a, b)
    && b == a.(graph := b.graph) && b.graph.active == a.graph.active
    && b.graph.nodes == a.graph.nodes[n := a.graph.nodes[n].(state := Published,
         memo := Some(a.graph.nodes[n].memo.value.(verifiedAt := a.graph.revision,
             dependenciesVerifiedAt := a.graph.revision)))]
  }

  lemma {:induction false} GreenFramed<K, V>(p: Program<K, V>, a: Db<K, V>, b: Db<K, V>, n: nat)
    requires Framed(p, a) && Reverified(a, b, n)
    ensures Framed(p, b)
  {
    forall i | 0 <= i < |b.frames| ensures FrameAt(p, b, b.frames[i], i) {
      var f := a.frames[i];
      assert FrameAt(p, a, f, i);
      forall j | 0 <= j < |f.seen| ensures Holds(b, f.seen[j]) { assert Holds(a, f.seen[j]); }
    }
  }

  lemma {:induction false} GreenTables<K(!new), V>(p: Program<K, V>, a: Db<K, V>, b: Db<K, V>, n: nat)
    requires Tables(p, a) && Valued(a) && Reverified(a, b, n)
    ensures Tables(p, b) && Valued(b)
  {
    forall m | 0 <= m < |b.graph.nodes| ensures ValuedAt(b.graph.nodes[m], m, b.cells, b.keys) {
      assert ValuedAt(a.graph.nodes[m], m, a.cells, a.keys);
    }
  }

  /** What beginning a request that has a node does: nothing, a green reuse, or a new computation. */
  lemma {:induction false} BeginNodeShape<K(!new), V>(p: Program<K, V>, db: Db<K, V>, key: K)
    requires Tables(p, db) && key in db.cells
    ensures var n, input := db.cells[key].node, p.input(db.graph.revision, key);
            var r := BeginNode(db, key, n, input).db;
            || r == db
            || (Green(db.graph, n, input) && Reverified(db, r, n))
            || Starts(p, db, key, r)
  {
    assert CellAt(p, db.graph.nodes, db.keys, key, db.cells[key].node);
  }

  lemma {:induction false} BeginNodeCore<K(!new), V>(p: Program<K, V>, db: Db<K, V>, key: K)
    requires Core(p, db) && key in db.cells
    ensures Keeps(p, db, BeginNode(db, key, db.cells[key].node, p.input(db.graph.revision, key)).db, true)
  {
    var n, input := db.cells[key].node, p.input(db.graph.revision, key);
    var r := BeginNode(db, key, n, input).db;
    EI.BeginInv(db.graph, n, input);
    BeginNodeShape(p, db, key);
    if r == db {
    } else if Starts(p, db, key, r) {
      ExecuteCore(p, db, key, r);
    } else {
      GreenTables(p, db, r, n);
      GreenFramed(p, db, r, n);
    }
  }

  // ---------- Registration ----------

  /** `r` is `db` with the new request `key` at node `n`. */
  ghost predicate Adds<K, V>(p: Program<K, V>, db: Db<K, V>, key: K, n: nat, r: Db<K, V>) {
    && key !in db.cells && n !in db.keys && r.keys == db.keys[n := key] && r.cells == db.cells[key := Cell(n, None)]
    && r.frames == db.frames && r.traces == db.traces && SameTime(db, r) && r.graph.active == db.graph.active
    && n <= |db.graph.nodes| && |r.graph.nodes| == |db.graph.nodes| + (if n == |db.graph.nodes| then 1 else 0)
    && (forall m | 0 <= m < |db.graph.nodes| && m != n :: r.graph.nodes[m] == db.graph.nodes[m])
    && r.graph.nodes[n].memo.None? && r.graph.nodes[n].state == Vacant && r.graph.nodes[n].identity == p.identity(key)
    && (n < |db.graph.nodes| ==> db.graph.nodes[n].memo.None? && db.graph.nodes[n].identity == p.identity(key))
  }

  lemma {:induction false} AddsTables<K(!new), V>(p: Program<K, V>, db: Db<K, V>, key: K, n: nat, r: Db<K, V>)
    requires Tables(p, db) && Adds(p, db, key, n, r)
    ensures Tables(p, r)
  {
    forall k | k in r.cells ensures CellAt(p, r.graph.nodes, r.keys, k, r.cells[k].node) {
      if k != key { assert CellAt(p, db.graph.nodes, db.keys, k, db.cells[k].node); }
    }
    forall m | m in r.keys ensures KeyAt(r.cells, m, r.keys[m]) {
      if m != n { assert KeyAt(db.cells, m, db.keys[m]); }
    }
  }

  lemma {:induction false} AddsValued<K, V>(p: Program<K, V>, db: Db<K, V>, key: K, n: nat, r: Db<K, V>)
    requires Valued(db) && Adds(p, db, key, n, r)
    ensures Valued(r)
  {
    forall m | 0 <= m < |r.graph.nodes| ensures ValuedAt(r.graph.nodes[m], m, r.cells, r.keys) {
      if m != n { assert ValuedAt(db.graph.nodes[m], m, db.cells, db.keys); }
    }
  }

  lemma {:induction false} AddsFramed<K, V>(p: Program<K, V>, db: Db<K, V>, key: K, n: nat, r: Db<K, V>)
    requires Framed(p, db) && Adds(p, db, key, n, r)
    ensures Framed(p, r)
  {
    forall i | 0 <= i < |r.frames| ensures FrameAt(p, r, r.frames[i], i) {
      var f := db.frames[i];
      assert FrameAt(p, db, f, i);
      forall j | 0 <= j < |f.seen| ensures Holds(r, f.seen[j]) { assert Holds(db, f.seen[j]); }
    }
  }

  /** Registering returns the node of the identity, fresh when it was absent or removed. */
  lemma {:induction false} RegisterShape(g: Graph, identity: Identity)
    requires EI.Identified(g) && EI.Memos(g)
    ensures var out := Register(g, identity);
            && (out.result.Err? ==> out.graph == g)
            && (out.result.Ok? ==>
                  var n, r := out.result.value, out.graph;
                  && n < |r.nodes| && r.nodes[n].identity == identity && r.nodes[n].state != Removed
                  && (n < |g.nodes| && g.nodes[n].state != Removed ==> r == g)
                  && (n >= |g.nodes| || g.nodes[n].state == Removed ==>
                        && n <= |g.nodes| && |r.nodes| == |g.nodes| + (if n == |g.nodes| then 1 else 0)
                        && r == g.(nodes := r.nodes, identities := r.identities)
                        && r.nodes[n].memo.None? && r.nodes[n].state == Vacant
                        && (n < |g.nodes| ==> g.nodes[n].memo.None? && g.nodes[n].identity == identity)
                        && forall m | 0 <= m < |g.nodes| && m != n :: r.nodes[m] == g.nodes[m]))
  {
    var out := Register(g, identity);
    if out.result.Ok? && out.result.value < |g.nodes| { assert EI.MemoOk(g.revision, g.nodes[out.result.value]); }
  }

  /** Ensuring a node changes nothing, or adds the request under a node of its own. */
  lemma {:induction false} EnsureShape<K(!new), V>(p: Program<K, V>, db: Db<K, V>, key: K)
    requires Tables(p, db) && EI.Identified(db.graph) && EI.Memos(db.graph)
    ensures var e := EnsureNode(p, db, key);
            && (e.result.Err? ==> e.db == db)
            && (e.result.Ok? && key in db.cells ==> e.db == db && e.result.value == db.cells[key].node)
            && (e.result.Ok? && key !in db.cells ==> Adds(p, db, key, e.result.value, e.db))
  {
    RegisterShape(db.graph, p.identity(key));
    var out := Register(db.graph, p.identity(key));
    if key !in db.cells && out.result.Ok? && out.result.value in db.keys {
      var other := db.keys[out.result.value];
      assert KeyAt(db.cells, out.result.value, other);
      assert CellAt(p, db.graph.nodes, db.keys, other, db.cells[other].node);
      assert out.graph == db.graph;
    }
  }

  lemma {:induction false} EnsuredGraph<K(!new), V>(p: Program<K, V>, db: Db<K, V>, key: K)
    requires EI.Core(db.graph) && WellFormed(db)
    ensures var e := EnsureNode(p, db, key).db; EI.Core(e.graph) && (EI.Ordered(db.graph) ==> EI.Ordered(e.graph))
  {
    EI.RegisterInv(db.graph, p.identity(key));
  }

  lemma {:induction false} EnsureCore<K(!new), V>(p: Program<K, V>, db: Db<K, V>, key: K)
    requires Core(p, db)
    ensures WellFormed(db)
    ensures var e := EnsureNode(p, db, key);
            && Keeps(p, db, e.db, true) && e.db.graph.revision == db.graph.revision
            && (e.result.Ok? ==> key in e.db.cells && e.db.cells[key].node == e.result.value)
  {
    CoreWellFormed(p, db);
    EnsureShape(p, db, key);
    EnsuredGraph(p, db, key);
    var e := EnsureNode(p, db, key);
    if key !in db.cells && e.result.Ok? {
      AddsTables(p, db, key, e.result.value, e.db);
      AddsValued(p, db, key, e.result.value, e.db);
      AddsFramed(p, db, key, e.result.value, e.db);
    }
  }

  lemma {:induction false} BeginCore<K(!new), V>(p: Program<K, V>, db: Db<K, V>, key: K)
    requires Core(p, db)
    ensures WellFormed(db) && Keeps(p, db, BeginKey(p, db, key, p.input(db.graph.revision, key)).db, true)
  {
    EnsureCore(p, db, key);
    var e := EnsureNode(p, db, key);
    if e.result.Ok? { BeginNodeCore(p, e.db, key); }
  }

  // ---------- Publication ----------

  ghost predicate SameButDependents(a: Node, b: Node) {
    a.state == b.state && a.memo == b.memo && a.dependencies == b.dependencies && a.identity == b.identity
  }

  ghost function TopNode<K, V>(db: Db<K, V>): nat
    requires db.frames != []
  {
    db.frames[|db.frames| - 1].ticket.node
  }

  /** `r` is `db` after the computation on top of the stack published: its node got `memo`, and its
      cell holds `stored`, new or as it was. */
  ghost predicate Posts<K, V>(db: Db<K, V>, stored: V, memo: Memo, r: Db<K, V>) {
    && db.frames != []
    && var f := db.frames[|db.frames| - 1];
       var n := f.ticket.node;
       && n < |db.graph.nodes| && n in db.keys && db.keys[n] == f.key && f.key in db.cells
       && SameTime(db, r) && r.keys == db.keys
       && r.cells == db.cells[f.key := Cell(db.cells[f.key].node, Some(stored))]
       && r.frames == db.frames[..|db.frames| - 1] && r.traces == db.traces[n := Trace(f.ticket.input, f.seen)]
       && |db.graph.active| > 0 && r.graph.active == db.graph.active[..|db.graph.active| - 1]
       && |r.graph.nodes| == |db.graph.nodes|
       && (forall m | 0 <= m < |r.graph.nodes| && m != n :: SameButDependents(db.graph.nodes[m], r.graph.nodes[m]))
       && r.graph.nodes[n].state == Published && r.graph.nodes[n].memo == Some(memo)
       && r.graph.nodes[n].identity == db.graph.nodes[n].identity
       && (forall d: nat :: d in r.graph.nodes[n].dependencies <==> d in f.ticket.dependencies)
       && memo.input == f.ticket.input && memo.verifiedAt == db.graph.revision
       && (memo.changedAt == db.graph.revision
           || (db.graph.nodes[n].memo.Some? && memo.changedAt == db.graph.nodes[n].memo.value.changedAt
               && db.cells[f.key].value == Some(stored)))
  }

  lemma {:induction false} PostsNode<K, V>(db: Db<K, V>, stored: V, memo: Memo, r: Db<K, V>, m: nat)
    requires Posts(db, stored, memo, r) && m < |db.graph.nodes|
    ensures r.graph.nodes[m].identity == db.graph.nodes[m].identity
    ensures m != TopNode(db) ==>
        r.graph.nodes[m].state == db.graph.nodes[m].state && r.graph.nodes[m].memo == db.graph.nodes[m].memo
    ensures m == TopNode(db) ==> r.graph.nodes[m].state == Published && m in db.keys
  {
  }

  lemma {:induction false} PostsTables<K(!new), V>(p: Program<K, V>, db: Db<K, V>, stored: V, memo: Memo, r: Db<K, V>)
    requires Tables(p, db) && Posts(db, stored, memo, r)
    ensures Tables(p, r)
  {
    forall k | k in r.cells ensures CellAt(p, r.graph.nodes, r.keys, k, r.cells[k].node) {
      assert CellAt(p, db.graph.nodes, db.keys, k, db.cells[k].node);
      PostsNode(db, stored, memo, r, db.cells[k].node);
    }
    forall m | m in r.keys ensures KeyAt(r.cells, m, r.keys[m]) { assert KeyAt(db.cells, m, db.keys[m]); }
    forall m | 0 <= m < |r.graph.nodes| && m !in r.keys ensures r.graph.nodes[m].state == Removed {
      PostsNode(db, stored, memo, r, m);
    }
  }

  lemma {:induction false} PostsValued<K, V>(db: Db<K, V>, stored: V, memo: Memo, r: Db<K, V>)
    requires Valued(db) && Posts(db, stored, memo, r)
    ensures Valued(r)
  {
    forall m | 0 <= m < |r.graph.nodes| ensures ValuedAt(r.graph.nodes[m], m, r.cells, r.keys) {
      assert ValuedAt(db.graph.nodes[m], m, db.cells, db.keys);
      PostsNode(db, stored, memo, r, m);
    }
  }

  /** What another node gives is not touched by a publication. */
  lemma {:induction false} PostsGives<K(!new), V>(p: Program<K, V>, db: Db<K, V>, stored: V, memo: Memo, r: Db<K, V>,
      d: nat, k: K, v: V)
    requires Tables(p, db) && Posts(db, stored, memo, r) && d != TopNode(db) && Gives(db.cells, db.keys, d, k, v)
    ensures Gives(r.cells, r.keys, d, k, v)
  {
    assert KeyAt(db.cells, d, db.keys[d]) && KeyAt(db.cells, TopNode(db), db.keys[TopNode(db)]);
  }

  lemma {:induction false} PostsFramed<K(!new), V>(p: Program<K, V>, db: Db<K, V>, stored: V, memo: Memo, r: Db<K, V>)
    requires Tables(p, db) && Framed(p, db) && EI.Stacked(db.graph) && Posts(db, stored, memo, r)
    requires !VerifiedNow(db.graph, TopNode(db))
    ensures Framed(p, r)
  {
    forall i | 0 <= i < |r.frames| ensures FrameAt(p, r, r.frames[i], i) {
      var f := db.frames[i];
      assert FrameAt(p, db, f, i) && FrameAt(p, db, db.frames[|db.frames| - 1], |db.frames| - 1);
      assert f.ticket.node != TopNode(db);
      assert SameButDependents(db.graph.nodes[f.ticket.node], r.graph.nodes[f.ticket.node]);
      forall j | 0 <= j < |f.seen| ensures Holds(r, f.seen[j]) {
        assert Holds(db, f.seen[j]);
        assert SameButDependents(db.graph.nodes[f.seen[j].node], r.graph.nodes[f.seen[j].node]);
        PostsGives(p, db, stored, memo, r, f.seen[j].node, f.seen[j].key, f.seen[j].value);
      }
    }
  }

  lemma {:induction false} TopUnverified<K, V>(p: Program<K, V>, db: Db<K, V>)
    requires EI.Stacked(db.graph) && EI.Memos(db.graph) && Framed(p, db) && db.frames != []
    ensures ValidTicket(db.graph, db.frames[|db.frames| - 1].ticket) && !VerifiedNow(db.graph, TopNode(db))
  {
    TopTicket(p, db);
    assert EI.MemoOk(db.graph.revision, db.graph.nodes[TopNode(db)]);
  }

  lemma {:induction false} TopReads<K, V>(p: Program<K, V>, db: Db<K, V>)
    requires Framed(p, db) && db.frames != []
    ensures var f := db.frames[|db.frames| - 1];
            && FrameAt(p, db, f, |db.frames| - 1)
            && forall i | 0 <= i < |f.ticket.dependencies| :: VerifiedNow(db.graph, f.ticket.dependencies[i])
  {
    var f := db.frames[|db.frames| - 1];
    assert FrameAt(p, db, f, |db.frames| - 1);
    forall i | 0 <= i < |f.ticket.dependencies| ensures VerifiedNow(db.graph, f.ticket.dependencies[i]) {
      assert Holds(db, f.seen[i]);
    }
  }

  /** A live ticket whose captured dependencies are verified publishes: its dependencies have not
      become stale, it does not depend on itself and its memo is older than the revision. */
  lemma {:induction false} PublishAccepts(g: Graph, t: Ticket, result: Fingerprint)
    requires EI.Memos(g) && ValidTicket(g, t) && !VerifiedNow(g, t.node)
    requires forall i | 0 <= i < |t.dependencies| :: VerifiedNow(g, t.dependencies[i])
    ensures Publish(g, t, result).result.Ok?
  {
    var after := Normalized(t.dependencies);
    forall d | d in after ensures IsCurrent(g, d) {
      var i :| 0 <= i < |t.dependencies| && t.dependencies[i] == d;
      assert VerifiedNow(g, t.dependencies[i]);
      assert EI.MemoOk(g.revision, g.nodes[d]);
    }
    assert EI.MemoOk(g.revision, g.nodes[t.node]);
  }

  /** The computation on top of the stack can publish a result with this fingerprint. */
  ghost predicate CanPublish<K, V>(db: Db<K, V>, result: Fingerprint)
    requires db.frames != []
  {
    Publish(db.graph, db.frames[|db.frames| - 1].ticket, result).result.Ok?
  }

  lemma {:induction false} TopPublishes<K(!new), V>(p: Program<K, V>, db: Db<K, V>, result: Fingerprint)
    requires Core(p, db) && db.frames != []
    ensures CanPublish(db, result)
  {
    TopUnverified(p, db);
    TopReads(p, db);
    PublishAccepts(db.graph, db.frames[|db.frames| - 1].ticket, result);
  }

  /** What a successful publication does to the nodes. */
  lemma {:induction false} PublishShape(g: Graph, t: Ticket, result: Fingerprint)
    requires Publish(g, t, result).result.Ok?
    ensures ValidTicket(g, t)
    ensures var r, memo := Publish(g, t, result).graph, PublishMemo(g, t, result);
            && memo.Ok? && memo.value.result == result && memo.value.input == t.input &&
                 memo.value.verifiedAt == g.revision
            && r == g.(nodes := r.nodes, active := g.active[..|g.active| - 1]) && |r.nodes| == |g.nodes|
            && (forall m | 0 <= m < |g.nodes| && m != t.node :: SameButDependents(g.nodes[m], r.nodes[m]))
            && r.nodes[t.node].state == Published && r.nodes[t.node].memo == Some(memo.value)
            && r.nodes[t.node].identity == g.nodes[t.node].identity
            && r.nodes[t.node].dependencies == Normalized(t.dependencies)
            && (Publish(g, t, result).result.value ==> memo.value.changedAt == g.revision)
            && (!Publish(g, t, result).result.value ==>
                  && g.nodes[t.node].memo.Some? && g.nodes[t.node].memo.value.result == result
                  && memo.value.changedAt == g.nodes[t.node].memo.value.changedAt)
  {
  }

  /** What the cell holds after `value` was published. */
  function StoredBy<K(==), V>(db: Db<K, V>, value: V, changed: bool): V
    requires db.frames != []
  {
    var key := db.frames[|db.frames| - 1].key;
    if !changed && key in db.cells && db.cells[key].value.Some? then db.cells[key].value.value else value
  }

  lemma {:induction false} PublishPosts<K(!new), V>(p: Program<K, V>, db: Db<K, V>, value: V)
    requires Valued(db) && WellFormed(db) && p.output(value).Some? && db.frames != []
    requires FrameAt(p, db, db.frames[|db.frames| - 1], |db.frames| - 1) && CanPublish(db, p.output(value).value)
    ensures var t, result := db.frames[|db.frames| - 1].ticket, p.output(value).value;
            && PublishKey(p, db, value).result == Publish(db.graph, t, result).result &&
                 PublishMemo(db.graph, t, result).Ok?
            && Posts(db, StoredBy(db, value, Publish(db.graph, t, result).result.value),
                     PublishMemo(db.graph, t, result).value, PublishKey(p, db, value).db)
  {
    var t, result := db.frames[|db.frames| - 1].ticket, p.output(value).value;
    PublishShape(db.graph, t, result);
    assert ValuedAt(db.graph.nodes[t.node], t.node, db.cells, db.keys);
  }

  lemma {:induction false} PublishedGraph<K(!new), V>(p: Program<K, V>, db: Db<K, V>, value: V)
    requires EI.Core(db.graph) && WellFormed(db) && db.frames != [] && p.output(value).Some?
    ensures var r := PublishKey(p, db, value).db; EI.Core(r.graph) && (EI.Ordered(db.graph) ==> EI.Ordered(r.graph))
  {
    EI.PublishInv(db.graph, db.frames[|db.frames| - 1].ticket, p.output(value).value);
  }

  lemma {:induction false} PostedCore<K(!new), V>(p: Program<K, V>, db: Db<K, V>, value: V)
    requires Core(p, db) && db.frames != [] && p.output(value).Some?
    ensures WellFormed(db) && Keeps(p, db, PublishKey(p, db, value).db, true) && PublishKey(p, db, value).result.Ok?
  {
    CoreWellFormed(p, db);
    var t, result, r := db.frames[|db.frames| - 1].ticket, p.output(value).value, PublishKey(p, db, value).db;
    TopPublishes(p, db, result);
    TopTicket(p, db);
    PublishPosts(p, db, value);
    var stored, memo := StoredBy(db, value, Publish(db.graph, t, result).result.value),
        PublishMemo(db.graph, t, result).value;
    TopUnverified(p, db);
    PublishedGraph(p, db, value);
    PostsTables(p, db, stored, memo, r);
    PostsValued(db, stored, memo, r);
    PostsFramed(p, db, stored, memo, r);
  }

  /** Publishing the result of an evaluator always succeeds, as long as the result has a fingerprint. */
  lemma {:induction false} PublishCore<K(!new), V>(p: Program<K, V>, db: Db<K, V>, value: V)
    requires Core(p, db) && db.frames != []
    ensures WellFormed(db) && Keeps(p, db, PublishKey(p, db, value).db, true)
    ensures PublishKey(p, db, value).result.Ok? <==> p.output(value).Some?
  {
    CoreWellFormed(p, db);
    if p.output(value).Some? {
      PostedCore(p, db, value);
    } else {
      TopTicket(p, db);
      AbortCore(p, db, AbortFailed);
    }
  }

  // ---------- Removal ----------

  /** A node is removed exactly when its request is. */
  lemma {:induction false} NamedNodes<K(!new), V>(p: Program<K, V>, db: Db<K, V>, gone: set<K>, n: nat)
    requires Tables(p, db) && n in db.keys
    ensures n in NodesNamed(db, gone) <==> db.keys[n] in gone
  {
    assert KeyAt(db.cells, n, db.keys[n]);
    if n in NodesNamed(db, gone) {
      var k :| k in gone && k in db.cells && db.cells[k].node == n;
      assert CellAt(p, db.graph.nodes, db.keys, k, db.cells[k].node);
    }
  }

  lemma {:induction false} RetainNode<K(!new), V>(db: Db<K, V>, gone: set<K>, n: nat)
    requires n < |db.graph.nodes| && db.graph.active == []
    ensures var r := RetainOthers(db, gone).db;
            && |r.graph.nodes| == |db.graph.nodes| && r.graph.nodes[n].identity == db.graph.nodes[n].identity
            && (n in NodesNamed(db, gone) ==> r.graph.nodes[n].state == Removed)
            && (n !in NodesNamed(db, gone) ==> SameButDependents(db.graph.nodes[n], r.graph.nodes[n]))
  {
  }

  lemma {:induction false} RetainTables<K(!new), V>(p: Program<K, V>, db: Db<K, V>, gone: set<K>)
    requires Tables(p, db) && db.graph.active == []
    ensures Tables(p, RetainOthers(db, gone).db)
  {
    var r := RetainOthers(db, gone).db;
    forall k | k in r.cells ensures CellAt(p, r.graph.nodes, r.keys, k, r.cells[k].node) {
      var n := db.cells[k].node;
      assert CellAt(p, db.graph.nodes, db.keys, k, n);
      NamedNodes(p, db, gone, n);
      RetainNode(db, gone, n);
    }
    forall m | m in r.keys ensures KeyAt(r.cells, m, r.keys[m]) {
      assert KeyAt(db.cells, m, db.keys[m]);
      NamedNodes(p, db, gone, m);
    }
    forall m | 0 <= m < |r.graph.nodes| && m !in r.keys ensures r.graph.nodes[m].state == Removed {
      RetainNode(db, gone, m);
    }
  }

  /** A node that still has a memo was kept. */
  lemma {:induction false} RetainKept<K(!new), V>(db: Db<K, V>, gone: set<K>, n: nat)
    requires EI.Memos(RetainOthers(db, gone).db.graph) && n < |db.graph.nodes| && db.graph.active == []
    requires |RetainOthers(db, gone).db.graph.nodes| == |db.graph.nodes| &&
        RetainOthers(db, gone).db.graph.nodes[n].memo.Some?
    ensures n !in NodesNamed(db, gone) && SameButDependents(db.graph.nodes[n], RetainOthers(db, gone).db.graph.nodes[n])
  {
    RetainNode(db, gone, n);
    var r := RetainOthers(db, gone).db;
    assert EI.MemoOk(r.graph.revision, r.graph.nodes[n]);
  }

  lemma {:induction false} RetainValued<K(!new), V>(p: Program<K, V>, db: Db<K, V>, gone: set<K>)
    requires Tables(p, db) && Valued(db) && db.graph.active == [] && EI.Memos(RetainOthers(db, gone).db.graph)
    ensures Valued(RetainOthers(db, gone).db)
  {
    var r := RetainOthers(db, gone).db;
    forall m | 0 <= m < |r.graph.nodes| ensures ValuedAt(r.graph.nodes[m], m, r.cells, r.keys) {
      if r.graph.nodes[m].memo.Some? {
        RetainKept(db, gone, m);
        assert ValuedAt(db.graph.nodes[m], m, db.cells, db.keys);
        NamedNodes(p, db, gone, m);
      }
    }
  }

  ghost predicate DetachedRetain<K(!new), V>(db: Db<K, V>, gone: set<K>) {
    db.graph.active == [] ==> EI.Detached(db.graph, NodesNamed(db, gone))
  }

  /** Any removal keeps the core; it keeps the order if no kept verified request has read what goes. */
  lemma {:induction false} RetainCore<K(!new), V>(p: Program<K, V>, db: Db<K, V>, gone: set<K>)
    requires Core(p, db)
    ensures Keeps(p, db, RetainOthers(db, gone).db, DetachedRetain(db, gone))
  {
    if db.graph.active == [] {
      EI.RemoveInv(db.graph, NodesNamed(db, gone));
      RetainTables(p, db, gone);
      RetainValued(p, db, gone);
    }
  }

  // ---------- One request of a client ----------

  /** The next action of the computation on top of the stack, spelled out. */
  lemma {:induction false} ContinueIs<K(!new), V>(p: Program<K, V>, db: Db<K, V>)
    requires WellFormed(db) && db.frames != []
    ensures var f := db.frames[|db.frames| - 1];
            match p.eval(f.key, f.ticket.input, Values(f.seen))
            case Need(key) => ContinueTop(p, db) == RequireKey(db, key).db
            case Done(value) => ContinueTop(p, db) == PublishKey(p, db, value).db
            case Fail => ContinueTop(p, db) == db
  {
  }

  lemma {:induction false} ContinueCore<K(!new), V>(p: Program<K, V>, db: Db<K, V>)
    requires Core(p, db) && db.frames != []
    ensures WellFormed(db) && Keeps(p, db, ContinueTop(p, db), true)
  {
    CoreWellFormed(p, db);
    ContinueIs(p, db);
    var f := db.frames[|db.frames| - 1];
    match p.eval(f.key, f.ticket.input, Values(f.seen))
    case Need(key) => RequireCore(p, db, key);
    case Done(value) => PublishCore(p, db, value);
    case Fail =>
  }

  /** The request of a client, spelled out. */
  lemma {:induction false} ApplyIs<K(!new), V>(p: Program<K, V>, db: Db<K, V>, op: Op<K>)
    requires WellFormed(db)
    ensures var r := Apply(p, db, op);
            match op
            case Demand(key) => r == BeginKey(p, db, key, p.input(db.graph.revision, key)).db
            case Continue => if db.frames == [] then r == db else r == ContinueTop(p, db)
            case Cancel(reason) => if db.frames == [] then r == db else r == AbortKey(db, reason).db
            case NewRevision(revision) => r == Advance(db, revision).db
            case Retain(gone) => r == RetainOthers(db, gone).db
  {
  }

  /** Every request of a client keeps the core, and a removal is the only one that can disturb the
      order of the graph. */
  lemma {:induction false} ApplyCore<K(!new), V>(p: Program<K, V>, db: Db<K, V>, op: Op<K>)
    requires Core(p, db)
    ensures WellFormed(db) && Keeps(p, db, Apply(p, db, op), op.Retain? ==> DetachedRetain(db, op.gone))
  {
    CoreWellFormed(p, db);
    ApplyIs(p, db, op);
    match op
    case Demand(key) => BeginCore(p, db, key);
    case Continue => if db.frames != [] { ContinueCore(p, db); }
    case Cancel(reason) => if db.frames != [] { AbortCore(p, db, reason); }
    case NewRevision(revision) => AdvanceCore(p, db, revision);
    case Retain(gone) => RetainCore(p, db, gone);
  }
}
