/** The projection graph builder: registration, sealing and published digests. */
module Sealing {
  import opened Wrappers
  import opened Bytes
  import opened TarjanSteps
  import opened CanonicalGraph
  import Adjacency
  import ConeDigests
  import ConeTheorems
  import Graphs
  import Sorting
  import Tarjan

  const U32_MAX: nat := 0xFFFF_FFFF

  /** One registered projection; its local digest may arrive later. */
  datatype Pending = Pending(identity: Digest, local: Option<Digest>)

  datatype Sealed = Sealed(
    canonicalByRegistered: seq<nat>, registeredByCanonical: seq<nat>, graph: Canonical,
    edgeOffsets: seq<nat>, edgeArena: seq<nat>, reverseOffsets: seq<nat>, reverseArena: seq<nat>,
    componentByNode: seq<nat>, components: Components, digests: seq<Digest>, representatives: seq<nat>)

  type Dependencies = seq<(nat, nat)>

  // ---------- What a builder describes ----------

  ghost predicate DistinctIdentities(nodes: seq<Pending>) {
    forall i, j | 0 <= i < j < |nodes| :: nodes[i].identity != nodes[j].identity
  }

  ghost predicate AllLocal(nodes: seq<Pending>) {
    forall i | 0 <= i < |nodes| :: nodes[i].local.Some?
  }

  ghost predicate Registered(nodes: seq<Pending>, deps: Dependencies) {
    |nodes| <= U32_MAX + 1 && forall e | e in deps :: e.0 < |nodes| && e.1 < |nodes|
  }

  ghost predicate Sealable(nodes: seq<Pending>, deps: Dependencies) {
    DistinctIdentities(nodes) && AllLocal(nodes) && Registered(nodes, deps)
  }

  ghost function Identities(nodes: seq<Pending>): (r: set<Digest>) {
    set i | 0 <= i < |nodes| :: nodes[i].identity
  }

  ghost function IndexById(nodes: seq<Pending>, id: Digest): (i: nat)
    requires id in Identities(nodes)
    ensures i < |nodes| && nodes[i].identity == id
  {
    var i :| 0 <= i < |nodes| && nodes[i].identity == id;
    i
  }

  ghost function Targets(nodes: seq<Pending>, deps: Dependencies, id: Digest): (r: set<Digest>)
    requires Registered(nodes, deps)
  {
    set e | e in deps && nodes[e.0].identity == id :: nodes[e.1].identity
  }

  /** The abstract graph: local digest and dependency set per identity. */
  ghost function Describe(nodes: seq<Pending>, deps: Dependencies): (g: ConeDigests.Projections)
    requires Sealable(nodes, deps)
  {
    ConeDigests.Projections(
      map id | id in Identities(nodes) :: nodes[IndexById(nodes, id)].local.value,
      map id | id in Identities(nodes) :: Targets(nodes, deps, id))
  }

  lemma {:induction false} SameLocal(nodes: seq<Pending>, nodes': seq<Pending>, id: Digest)
    requires DistinctIdentities(nodes') && (forall p :: p in nodes ==> p in nodes')
    requires id in Identities(nodes) && id in Identities(nodes')
    ensures nodes[IndexById(nodes, id)].local == nodes'[IndexById(nodes', id)].local
  {
    var p := nodes[IndexById(nodes, id)];
    assert p in nodes';
    var j :| 0 <= j < |nodes'| && nodes'[j] == p;
    var i := IndexById(nodes', id);
    assert nodes'[i].identity == nodes'[j].identity;
  }

  lemma {:induction false} SameTargets(nodes: seq<Pending>, deps: Dependencies, nodes': seq<Pending>,
      deps': Dependencies, id: Digest)
    requires Registered(nodes, deps) && Registered(nodes', deps')
    requires forall x, y :: EdgeBetween(nodes, deps, x, y) <==> EdgeBetween(nodes', deps', x, y)
    ensures Targets(nodes, deps, id) == Targets(nodes', deps', id)
  {
    forall y ensures y in Targets(nodes, deps, id) <==> y in Targets(nodes', deps', id) {
      assert y in Targets(nodes, deps, id) <==> EdgeBetween(nodes, deps, id, y);
      assert y in Targets(nodes', deps', id) <==> EdgeBetween(nodes', deps', id, y);
    }
  }

  /** Registration order, edge order and repeated edges do not show in the description. */
  lemma {:induction false} DescribeCanonical(nodes: seq<Pending>, deps: Dependencies, nodes': seq<Pending>,
      deps': Dependencies)
    requires Sealable(nodes, deps) && Sealable(nodes', deps')
    requires forall p :: p in nodes <==> p in nodes'
    requires forall x, y :: EdgeBetween(nodes, deps, x, y) <==> EdgeBetween(nodes', deps', x, y)
    ensures Describe(nodes, deps) == Describe(nodes', deps')
  {
    var g, g' := Describe(nodes, deps), Describe(nodes', deps');
    forall id ensures id in Identities(nodes) <==> id in Identities(nodes') {
      if id in Identities(nodes) { SameIdentity(nodes, nodes', id); }
      if id in Identities(nodes') { SameIdentity(nodes', nodes, id); }
    }
    assert Identities(nodes) == Identities(nodes');
    forall id | id in Identities(nodes) ensures g.locals[id] == g'.locals[id] && g.links[id] == g'.links[id] {
      SameLocal(nodes, nodes', id);
      SameTargets(nodes, deps, nodes', deps', id);
    }
    assert g.locals == g'.locals && g.links == g'.links;
  }

  ghost predicate EdgeBetween(nodes: seq<Pending>, deps: Dependencies, x: Digest, y: Digest)
    requires Registered(nodes, deps)
  {
    exists e :: e in deps && nodes[e.0].identity == x && nodes[e.1].identity == y
  }

  lemma {:induction false} SameIdentity(nodes: seq<Pending>, nodes': seq<Pending>, id: Digest)
    requires (forall p :: p in nodes <==> p in nodes') && id in Identities(nodes)
    ensures id in Identities(nodes')
  {
    var i :| 0 <= i < |nodes| && nodes[i].identity == id;
    assert nodes[i] in nodes;
    var j :| 0 <= j < |nodes'| && nodes'[j] == nodes[i];
  }

  // ---------- Canonical numbering ----------

  predicate ByIdentity(a: (nat, Pending), b: (nat, Pending)) { DigestLeq(a.1.identity, b.1.identity) }

  lemma {:induction false} ByIdentityOrder()
    ensures Sorting.TotalPreorder(ByIdentity)
  {
    DigestOrder();
  }

  function Enumerate(nodes: seq<Pending>): (r: seq<(nat, Pending)>)
    ensures |r| == |nodes| && forall i | 0 <= i < |nodes| :: r[i] == (i, nodes[i])
  {
    seq(|nodes|, i requires 0 <= i < |nodes| => (i, nodes[i]))
  }

  /** `order` lists the registered positions by ascending identity and `canon` is its inverse. */
  ghost predicate Numbering(nodes: seq<Pending>, order: seq<nat>, canon: seq<nat>, ids: seq<Digest>,
      locals: seq<Digest>) {
    && |order| == |canon| == |ids| == |locals| == |nodes|
    && (forall c | 0 <= c < |order| :: order[c] < |nodes| && canon[order[c]] == c)
    && (forall i | 0 <= i < |canon| :: canon[i] < |nodes| && order[canon[i]] == i)
    && (forall c | 0 <= c < |order| :: nodes[order[c]] == Pending(ids[c], Some(locals[c])))
    && Sorting.StrictlySorted(ids, DigestLeq)
  }

  /** Sorting registered projections by identity keeps each exactly once. */
  lemma {:induction false} SortedRegistration(nodes: seq<Pending>, sorted: seq<(nat, Pending)>)
    requires sorted == Sorting.Sort(Enumerate(nodes), ByIdentity)
    ensures |sorted| == |nodes| && Sorting.Sorted(sorted, ByIdentity)
    ensures forall c | 0 <= c < |sorted| :: sorted[c].0 < |nodes| && sorted[c].1 == nodes[sorted[c].0]
    ensures forall c, d | 0 <= c < d < |sorted| :: sorted[c].0 != sorted[d].0
    ensures forall i: nat | i < |nodes| :: (i, nodes[i]) in sorted
  {
    var all := Enumerate(nodes);
    ByIdentityOrder();
    Sorting.SortSorted(all, ByIdentity);
    Sorting.SameElements(all, sorted);
    Sorting.DistinctArrangement(all, sorted);
    forall c | 0 <= c < |sorted| ensures sorted[c].0 < |nodes| && sorted[c].1 == nodes[sorted[c].0] {
      assert sorted[c] in all;
    }
    forall i: nat | i < |nodes| ensures (i, nodes[i]) in sorted { assert all[i] in all; }
  }

  /** In a sorted listing, equal identities are adjacent. */
  lemma {:induction false} AdjacentDuplicates(nodes: seq<Pending>, sorted: seq<(nat, Pending)>)
    requires sorted == Sorting.Sort(Enumerate(nodes), ByIdentity)
    requires NoAdjacentDuplicate(sorted)
    ensures DistinctIdentities(nodes)
    ensures forall c, d | 0 <= c < d < |sorted| ::
      DigestLeq(sorted[c].1.identity, sorted[d].1.identity) && sorted[c].1.identity != sorted[d].1.identity
  {
    SortedRegistration(nodes, sorted);
    DigestOrder();
    forall c, d | 0 <= c < d < |sorted|
      ensures DigestLeq(sorted[c].1.identity, sorted[d].1.identity) && sorted[c].1.identity != sorted[d].1.identity
    {
      var e := c + 1;
      assert ByIdentity(sorted[c], sorted[e]) && (e < d ==> ByIdentity(sorted[e], sorted[d]));
      assert sorted[e - 1].1.identity != sorted[e].1.identity;
    }
    forall i, j | 0 <= i < j < |nodes| ensures nodes[i].identity != nodes[j].identity {
      var c :| 0 <= c < |sorted| && sorted[c] == (i, nodes[i]);
      var d :| 0 <= d < |sorted| && sorted[d] == (j, nodes[j]);
    }
  }

  /** Whether two neighbours of a sorted listing share their identity. */
  method HasAdjacentDuplicate(sorted: seq<(nat, Pending)>) returns (found: bool)
    ensures found <==> !NoAdjacentDuplicate(sorted)
  {
    found := false;
    var c := 1;
    while c < |sorted|
      invariant 1 <= c && forall d | 0 < d < c && d < |sorted| :: sorted[d - 1].1.identity != sorted[d].1.identity
    {
      if sorted[c - 1].1.identity == sorted[c].1.identity { return true; }
      c := c + 1;
    }
  }

  ghost predicate NoAdjacentDuplicate(sorted: seq<(nat, Pending)>) {
    forall c | 0 < c < |sorted| :: sorted[c - 1].1.identity != sorted[c].1.identity
  }

  /** A duplicate among neighbours is a duplicate registration. */
  lemma {:induction false} DuplicateRegistration(nodes: seq<Pending>, sorted: seq<(nat, Pending)>)
    requires sorted == Sorting.Sort(Enumerate(nodes), ByIdentity) && !NoAdjacentDuplicate(sorted)
    ensures !DistinctIdentities(nodes)
  {
    SortedRegistration(nodes, sorted);
    var c :| 0 < c < |sorted| && sorted[c - 1].1.identity == sorted[c].1.identity;
    assert nodes[sorted[c - 1].0].identity == nodes[sorted[c].0].identity;
  }

  lemma {:induction false} NumberingInverse(nodes: seq<Pending>, sorted: seq<(nat, Pending)>, order: seq<nat>,
      canon: seq<nat>)
    requires |sorted| == |order| == |canon| == |nodes|
    requires forall i: nat | i < |nodes| :: (i, nodes[i]) in sorted
    requires forall d | 0 <= d < |order| :: order[d] == sorted[d].0 < |nodes| && canon[order[d]] == d
    ensures forall i: nat | i < |nodes| :: canon[i] < |nodes| && order[canon[i]] == i
  {
    forall i: nat | i < |nodes| ensures canon[i] < |nodes| && order[canon[i]] == i {
      var c :| 0 <= c < |sorted| && sorted[c] == (i, nodes[i]);
      assert order[c] == i;
    }
  }

  lemma {:induction false} RenumberDone(nodes: seq<Pending>, sorted: seq<(nat, Pending)>, order: seq<nat>,
      canon: seq<nat>,
                     ids: seq<Digest>, locals: seq<Digest>)
    requires |sorted| == |order| == |canon| == |ids| == |locals| == |nodes|
    requires forall c | 0 <= c < |sorted| :: sorted[c].0 < |nodes| && sorted[c].1 == nodes[sorted[c].0]
    requires forall i: nat | i < |nodes| :: (i, nodes[i]) in sorted
    requires forall c, d | 0 <= c < d < |sorted| ::
      DigestLeq(sorted[c].1.identity, sorted[d].1.identity) && sorted[c].1.identity != sorted[d].1.identity
    requires forall d | 0 <= d < |order| :: order[d] == sorted[d].0 && canon[order[d]] == d
    requires forall d | 0 <= d < |order| :: sorted[d].1 == Pending(ids[d], Some(locals[d]))
    ensures AllLocal(nodes) && Numbering(nodes, order, canon, ids, locals)
  {
    NumberingInverse(nodes, sorted, order, canon);
    assert forall c | 0 <= c < |order| :: nodes[order[c]] == sorted[c].1;
    forall i: nat | i < |nodes| ensures nodes[i].local.Some? { assert order[canon[i]] == i; }
    forall c, d | 0 <= c < d < |ids| ensures DigestLeq(ids[c], ids[d]) && ids[c] != ids[d] {
      assert ids[c] == sorted[c].1.identity && ids[d] == sorted[d].1.identity;
    }
  }

  /** Renumbers the registered projections by ascending identity. Duplicate identities and
      projections without a local digest are errors. */
  method Canonicalize(nodes: seq<Pending>)
    returns (r: Result<(seq<nat>, seq<nat>, seq<Digest>, seq<Digest>)>)
    ensures r.Ok? <==> DistinctIdentities(nodes) && AllLocal(nodes)
    ensures r.Ok? ==> Numbering(nodes, r.value.0, r.value.1, r.value.2, r.value.3)
  {
    var sorted := Sorting.Sort(Enumerate(nodes), ByIdentity);
    var duplicate := HasAdjacentDuplicate(sorted);
    if duplicate {
      DuplicateRegistration(nodes, sorted);
      return Err("compilation request graph contains duplicate stable identity fingerprints");
    }
    SortedRegistration(nodes, sorted);
    AdjacentDuplicates(nodes, sorted);
    r := Renumber(nodes, sorted);
  }

  method Renumber(nodes: seq<Pending>, sorted: seq<(nat, Pending)>)
    returns (r: Result<(seq<nat>, seq<nat>, seq<Digest>, seq<Digest>)>)
    requires |sorted| == |nodes|
    requires forall c | 0 <= c < |sorted| :: sorted[c].0 < |nodes| && sorted[c].1 == nodes[sorted[c].0]
    requires forall c, d | 0 <= c < d < |sorted| :: sorted[c].0 != sorted[d].0
    requires forall i: nat | i < |nodes| :: (i, nodes[i]) in sorted
    requires forall c, d | 0 <= c < d < |sorted| ::
      DigestLeq(sorted[c].1.identity, sorted[d].1.identity) && sorted[c].1.identity != sorted[d].1.identity
    ensures r.Ok? <==> AllLocal(nodes)
    ensures r.Ok? ==> Numbering(nodes, r.value.0, r.value.1, r.value.2, r.value.3)
  {
    var canon: seq<nat> := seq(|nodes|, _ => 0);
    var order: seq<nat>, ids: seq<Digest>, locals: seq<Digest> := [], [], [];
    for c := 0 to |sorted|
      invariant |canon| == |nodes| && |order| == |ids| == |locals| == c
      invariant forall d | 0 <= d < c :: order[d] == sorted[d].0 && canon[order[d]] == d
      invariant forall d | 0 <= d < c :: sorted[d].1 == Pending(ids[d], Some(locals[d]))
    {
      var registered, node := sorted[c].0, sorted[c].1;
      if node.local.None? {
        return Err("compilation request graph contains an unsealed pending request");
      }
      canon := canon[registered := c];
      order, ids, locals := order + [registered], ids + [node.identity], locals + [node.local.value];
    }
    RenumberDone(nodes, sorted, order, canon, ids, locals);
    r := Ok((order, canon, ids, locals));
  }

  // ---------- Dependency rows ----------

  ghost predicate RowsOf(rows: Graphs.Adjacency, n: nat, deps: Dependencies, canon: seq<nat>)
    requires forall e | e in deps :: e.0 < |canon| && e.1 < |canon|
  {
    && |rows| == n
    && (forall v: nat, w: nat | v < n :: w in rows[v] <==> HasDependency(deps, canon, v, w))
  }

  ghost predicate HasDependency(deps: Dependencies, canon: seq<nat>, v: nat, w: nat)
    requires forall e | e in deps :: e.0 < |canon| && e.1 < |canon|
  {
    exists e :: e in deps && canon[e.0] == v && canon[e.1] == w
  }

  method CollectRows(n: nat, deps: Dependencies, canon: seq<nat>) returns (rows: Graphs.Adjacency)
    requires (forall e | e in deps :: e.0 < |canon| && e.1 < |canon|) && forall i | 0 <= i < |canon| :: canon[i] < n
    ensures RowsOf(rows, n, deps, canon) && |Adjacency.Flatten(rows)| == |deps|
  {
    rows := seq(n, _ => []);
    EmptyRows(n);
    for i := 0 to |deps|
      invariant RowsOf(rows, n, deps[..i], canon)
      invariant |Adjacency.Flatten(rows)| == i
    {
      assert deps[i] in deps;
      var request, dependency := canon[deps[i].0], canon[deps[i].1];
      CollectStep(rows, n, deps, canon, i);
      LongerRow(rows, request, dependency);
      rows := rows[request := rows[request] + [dependency]];
    }
    assert deps[..|deps|] == deps;
  }

  lemma {:induction false} EmptyRows(n: nat)
    ensures |Adjacency.Flatten(seq(n, _ => []))| == 0
  {
    if n > 0 {
      EmptyRows(n - 1);
      assert seq<seq<nat>>(n, _ => [])[..n - 1] == seq<seq<nat>>(n - 1, _ => []);
    }
  }

  lemma {:induction false} LongerRow(rows: Graphs.Adjacency, v: nat, w: nat)
    requires v < |rows|
    ensures |Adjacency.Flatten(rows[v := rows[v] + [w]])| == |Adjacency.Flatten(rows)| + 1
  {
    var after, last := rows[v := rows[v] + [w]], |rows| - 1;
    if v < last {
      LongerRow(rows[..last], v, w);
      assert after[..last] == rows[..last][v := rows[..last][v] + [w]];
    } else {
      assert after[..last] == rows[..last];
    }
  }

  lemma {:induction false} ShorterRows(a: Graphs.Adjacency, b: Graphs.Adjacency)
    requires |a| == |b| && forall v | 0 <= v < |a| :: |a[v]| <= |b[v]|
    ensures |Adjacency.Flatten(a)| <= |Adjacency.Flatten(b)|
  {
    if a != [] { ShorterRows(a[..|a| - 1], b[..|b| - 1]); }
  }

  lemma {:induction false} CollectStep(rows: Graphs.Adjacency, n: nat, deps: Dependencies, canon: seq<nat>, i: nat)
    requires (forall e | e in deps :: e.0 < |canon| && e.1 < |canon|) && forall i | 0 <= i < |canon| :: canon[i] < n
    requires i < |deps| && RowsOf(rows, n, deps[..i], canon)
    ensures deps[i] in deps
    ensures var v, w := canon[deps[i].0], canon[deps[i].1];
            RowsOf(rows[v := rows[v] + [w]], n, deps[..i + 1], canon)
  {
    assert deps[i] in deps;
    var v, w := canon[deps[i].0], canon[deps[i].1];
    var after := rows[v := rows[v] + [w]];
    assert deps[..i + 1] == deps[..i] + [deps[i]];
    forall x: nat, y: nat | x < n ensures y in after[x] <==> HasDependency(deps[..i + 1], canon, x, y) {
      assert y in rows[x] <==> HasDependency(deps[..i], canon, x, y);
      if HasDependency(deps[..i], canon, x, y) {
        var e :| e in deps[..i] && canon[e.0] == x && canon[e.1] == y;
        assert e in deps[..i + 1];
      }
      if x == v && y == w { assert deps[i] in deps[..i + 1]; }
    }
  }

  /** Sorts every row and drops repeated targets. */
  method NormalizeRows(rows: Graphs.Adjacency) returns (r: Graphs.Adjacency)
    ensures |r| == |rows|
    ensures forall v | 0 <= v < |rows| :: Sorting.StrictlySorted(r[v], NatLeq)
    ensures forall v: nat, w: nat | v < |rows| :: w in r[v] <==> w in rows[v]
    ensures |Adjacency.Flatten(r)| <= |Adjacency.Flatten(rows)|
  {
    r := [];
    NatOrder();
    for v := 0 to |rows|
      invariant |r| == v
      invariant forall u | 0 <= u < v :: Sorting.StrictlySorted(r[u], NatLeq)
      invariant forall u: nat, w: nat | u < v :: w in r[u] <==> w in rows[u]
      invariant forall u | 0 <= u < v :: |r[u]| <= |rows[u]|
    {
      var sorted := Sorting.Sort(rows[v], NatLeq);
      Sorting.SortSorted(rows[v], NatLeq);
      Sorting.SameElements(rows[v], sorted);
      Sorting.DedupStrict(sorted, NatLeq);
      r := r + [Sorting.Dedup(sorted)];
    }
    ShorterRows(r, rows);
  }

  lemma {:induction false} IdentitiesCard(nodes: seq<Pending>)
    ensures |Identities(nodes)| <= |nodes|
  {
    if nodes == [] {
      assert Identities(nodes) == {};
    } else {
      var init, last := nodes[..|nodes| - 1], nodes[|nodes| - 1];
      IdentitiesCard(init);
      assert nodes == init + [last];
      assert Identities(nodes) == Identities(init) + {last.identity};
    }
  }

  lemma {:induction false} DescribeValid(nodes: seq<Pending>, deps: Dependencies)
    requires Sealable(nodes, deps)
    ensures ConeDigests.Valid(Describe(nodes, deps))
  {
    var g := Describe(nodes, deps);
    IdentitiesCard(nodes);
    assert g.links.Keys == Identities(nodes);
    forall v, w | v in g.links && w in g.links[v] ensures w in g.links {
      var e :| e in deps && nodes[e.0].identity == v && nodes[e.1].identity == w;
    }
  }

  /** The description read off by position. */
  lemma {:induction false} DescribeAt(nodes: seq<Pending>, deps: Dependencies, i: nat)
    requires Sealable(nodes, deps) && i < |nodes|
    ensures var g, id := Describe(nodes, deps), nodes[i].identity;
            id in g.links && g.locals[id] == nodes[i].local.value && g.links[id] == Targets(nodes, deps, id)
  {
    assert nodes[i].identity in Identities(nodes);
    var j := IndexById(nodes, nodes[i].identity);
    assert j == i;
  }

  lemma {:induction false} LinkMirror(nodes: seq<Pending>, deps: Dependencies, order: seq<nat>, canon: seq<nat>,
                   ids: seq<Digest>, locals: seq<Digest>, v: nat, w: nat)
    requires Sealable(nodes, deps) && Numbering(nodes, order, canon, ids, locals)
    requires v < |nodes| && w < |nodes|
    ensures ids[w] in Targets(nodes, deps, ids[v]) <==> HasDependency(deps, canon, v, w)
  {
    if ids[w] in Targets(nodes, deps, ids[v]) {
      var e :| e in deps && nodes[e.0].identity == ids[v] && nodes[e.1].identity == ids[w];
      assert nodes[order[v]].identity == ids[v] && nodes[order[w]].identity == ids[w];
      assert e.0 == order[v] && e.1 == order[w];
    }
    if HasDependency(deps, canon, v, w) {
      var e :| e in deps && canon[e.0] == v && canon[e.1] == w;
      assert order[canon[e.0]] == e.0 && order[canon[e.1]] == e.1;
    }
  }

  lemma {:induction false} KeyMirror(nodes: seq<Pending>, deps: Dependencies, order: seq<nat>, canon: seq<nat>,
                  ids: seq<Digest>, locals: seq<Digest>, id: Digest)
    requires Sealable(nodes, deps) && Numbering(nodes, order, canon, ids, locals)
    ensures id in Describe(nodes, deps).links <==> id in ids
  {
    if id in Describe(nodes, deps).links {
      assert ids[canon[IndexById(nodes, id)]] == id;
    }
    if id in ids {
      var c :| 0 <= c < |ids| && ids[c] == id;
      DescribeAt(nodes, deps, order[c]);
    }
  }

  /** The canonical form mirrors the described graph. */
  lemma {:induction false} CanonicalMirror(nodes: seq<Pending>, deps: Dependencies, order: seq<nat>, canon: seq<nat>,
                        ids: seq<Digest>, locals: seq<Digest>, rows: Graphs.Adjacency)
    requires Sealable(nodes, deps) && Numbering(nodes, order, canon, ids, locals)
    requires RowsOf(rows, |nodes|, deps, canon) && forall v | 0 <= v < |rows| :: Sorting.StrictlySorted(rows[v], NatLeq)
    ensures Mirror(Describe(nodes, deps), Canonical(ids, locals, rows))
  {
    var g := Describe(nodes, deps);
    DescribeValid(nodes, deps);
    RowsInRange(rows, |nodes|, deps, canon);
    forall id: Digest ensures id in g.links <==> id in ids { KeyMirror(nodes, deps, order, canon, ids, locals, id); }
    forall v: nat | v < |ids|
      ensures ids[v] in g.links && g.locals[ids[v]] == locals[v] && g.links[ids[v]] == Targets(nodes, deps, ids[v])
    {
      DescribeAt(nodes, deps, order[v]);
    }
    forall v: nat, w: nat | v < |ids| && w < |ids| ensures ids[w] in g.links[ids[v]] <==> w in rows[v] {
      LinkMirror(nodes, deps, order, canon, ids, locals, v, w);
    }
  }

  lemma {:induction false} RowsInRange(rows: Graphs.Adjacency, n: nat, deps: Dependencies, canon: seq<nat>)
    requires (forall e | e in deps :: e.0 < |canon| && e.1 < |canon|) && forall i | 0 <= i < |canon| :: canon[i] < n
    requires RowsOf(rows, n, deps, canon)
    ensures Graphs.InRange(rows)
  {
    forall v: nat, j: nat | v < |rows| && j < |rows[v]| ensures rows[v][j] < |rows| {
      assert rows[v][j] in rows[v];
      assert HasDependency(deps, canon, v, rows[v][j]);
    }
  }

  // ---------- Folding component digests ----------

  /** Appends the components of the targets of one row, except `c` itself. */
  method RowDependencies(row: seq<nat>, comp: seq<nat>, c: nat, found: seq<nat>) returns (r: seq<nat>)
    requires forall j | 0 <= j < |row| :: row[j] < |comp|
    ensures forall d: nat :: d in r <==> d in found || (d != c && exists j | 0 <= j < |row| :: comp[row[j]] == d)
  {
    r := found;
    for j := 0 to |row|
      invariant forall d: nat :: d in r <==> d in found || (d != c && exists i | 0 <= i < j :: comp[row[i]] == d)
    {
      if comp[row[j]] != c { r := r + [comp[row[j]]]; }
    }
  }

  lemma {:induction false} PointsToStep(rows: Graphs.Adjacency, comp: seq<nat>, members: seq<nat>, c: nat, i: nat,
      d: nat)
    requires |comp| == |rows| && Graphs.InRange(rows) && i < |members| && members[i] < |rows|
    ensures var row := rows[members[i]];
      PointsTo(rows, comp, members[..i + 1], c, d) <==>
        PointsTo(rows, comp, members[..i], c, d) || (d != c && exists j | 0 <= j < |row| :: comp[row[j]] == d)
  {
    var m := members[i];
    var row := rows[m];
    assert members[..i + 1] == members[..i] + [m];
    if PointsTo(rows, comp, members[..i + 1], c, d) && !PointsTo(rows, comp, members[..i], c, d) {
      var x: nat, t: nat :| x in members[..i + 1] && Graphs.Edge(rows, x, t) && comp[t] == d;
      assert x == m;
      var j :| 0 <= j < |row| && row[j] == t;
      assert comp[row[j]] == d;
    }
    if PointsTo(rows, comp, members[..i], c, d) {
      var x: nat, t: nat :| x in members[..i] && Graphs.Edge(rows, x, t) && comp[t] == d;
      assert x in members[..i + 1];
    }
    if d != c && exists j | 0 <= j < |row| :: comp[row[j]] == d {
      var j :| 0 <= j < |row| && comp[row[j]] == d;
      assert m in members[..i + 1] && Graphs.Edge(rows, m, row[j]);
    }
  }

  /** The other components that component `c` depends on directly, in any order. */
  method DirectDependencies(rows: Graphs.Adjacency, comp: seq<nat>, members: seq<nat>, c: nat) returns (r: seq<nat>)
    requires |comp| == |rows| && Graphs.InRange(rows) && forall i | 0 <= i < |members| :: members[i] < |rows|
    ensures forall d: nat :: d in r <==> PointsTo(rows, comp, members, c, d)
  {
    r := [];
    for i := 0 to |members|
      invariant forall d: nat :: d in r <==> PointsTo(rows, comp, members[..i], c, d)
    {
      ghost var before := r;
      r := RowDependencies(rows[members[i]], comp, c, r);
      forall d: nat ensures d in r <==> PointsTo(rows, comp, members[..i + 1], c, d) {
        PointsToStep(rows, comp, members, c, i, d);
        assert d in before <==> PointsTo(rows, comp, members[..i], c, d);
      }
    }
    assert members[..|members|] == members;
  }

  lemma {:induction false} KeyOrder(reps: seq<nat>, n: nat, leq: (nat, nat) -> bool)
    requires Sorting.Distinct(reps) && (forall i | 0 <= i < |reps| :: reps[i] < n)
    requires forall a: nat, b: nat :: leq(a, b) == (Key(reps, n, a) <= Key(reps, n, b))
    ensures Sorting.Total(leq)
  {
  }

  /** Orders components by their representative and drops repeats. */
  method OrderDependencies(raw: seq<nat>, reps: seq<nat>, n: nat) returns (below: seq<nat>)
    requires Sorting.Distinct(reps) && (forall i | 0 <= i < |reps| :: reps[i] < n)
    requires forall d | d in raw :: d < |reps|
    ensures forall d: nat :: d in below <==> d in raw
    ensures forall i | 0 <= i < |below| :: below[i] < |reps|
    ensures forall i, j | 0 <= i < j < |below| :: reps[below[i]] < reps[below[j]]
  {
    var leq := (a: nat, b: nat) => Key(reps, n, a) <= Key(reps, n, b);
    KeyOrder(reps, n, leq);
    var sorted := Sorting.Sort(raw, leq);
    Sorting.SortSorted(raw, leq);
    Sorting.SameElements(raw, sorted);
    Sorting.DedupStrict(sorted, leq);
    below := Sorting.Dedup(sorted);
    forall i | 0 <= i < |below| ensures below[i] < |reps| { assert below[i] in below; }
    forall i, j | 0 <= i < j < |below| ensures reps[below[i]] < reps[below[j]] {
      assert leq(below[i], below[j]) && below[i] != below[j];
    }
  }

  lemma {:induction false} PairBytesAppend(p: seq<(Digest, Digest)>, x: (Digest, Digest))
    ensures ConeDigests.PairBytes(p + [x]) == ConeDigests.PairBytes(p) + Raw(x.0) + x.1
  {
    if p == [] {
      assert p + [x] == [x];
    } else {
      PairBytesAppend(p[1..], x);
      assert (p + [x])[1..] == p[1..] + [x];
    }
  }

  /** Feeds a list of digest pairs to a message. */
  method FeedPairs(message: seq<Byte>, pairs: seq<(Digest, Digest)>) returns (r: seq<Byte>)
    ensures r == message + ConeDigests.PairBytes(pairs)
  {
    r := message;
    for i := 0 to |pairs|
      invariant r == message + ConeDigests.PairBytes(pairs[..i])
    {
      assert pairs[..i + 1] == pairs[..i] + [pairs[i]];
      PairBytesAppend(pairs[..i], pairs[i]);
      r := r + pairs[i].0 + pairs[i].1;
    }
    assert pairs[..|pairs|] == pairs;
  }

  /** The bytes hashed for one component. */
  method ComponentBytes(domain: seq<Byte>, members: seq<(Digest, Digest)>, below: seq<(Digest, Digest)>)
    returns (message: seq<Byte>)
    ensures message == ConeDigests.ComponentMessage(domain, members, below)
  {
    message := domain + Count64(|members|);
    message := FeedPairs(message, members);
    message := message + Count64(|below|);
    message := FeedPairs(message, below);
    assert message == domain + (ConeDigests.Counted(members) + ConeDigests.Counted(below));
  }

  lemma {:induction false} RepresentativesDistinct(k: Canonical, comp: seq<nat>, cs: Components, reps: seq<nat>)
    requires Dense(k) && Tarjan.IsComponents(k.rows, comp, cs) && Representatives(cs, reps)
    ensures Sorting.Distinct(reps)
    ensures forall c | 0 <= c < |reps| :: reps[c] < |k.ids| && comp[reps[c]] == c
  {
    forall c | 0 <= c < |reps| ensures reps[c] < |k.ids| && comp[reps[c]] == c {
      RepresentativeNode(k, comp, cs, reps, c);
    }
    forall c, d | 0 <= c < d < |reps| ensures reps[c] != reps[d] {
      assert comp[reps[c]] == c && comp[reps[d]] == d;
    }
  }

  /** Every representative is a projection of the described graph. */
  ghost predicate Known(g: ConeDigests.Projections, k: Canonical, reps: seq<nat>) {
    forall c | 0 <= c < |reps| :: reps[c] < |k.ids| && k.ids[reps[c]] in g.links
  }

  /** The reference digests of the representatives. */
  ghost function References(h: Hash, domain: seq<Byte>, g: ConeDigests.Projections, k: Canonical,
      reps: seq<nat>): (r: seq<Digest>)
    requires ConeDigests.Valid(g) && Known(g, k, reps)
    ensures |r| == |reps|
  {
    seq(|reps|, c requires 0 <= c < |reps| => ConeDigests.ComponentDigest(h, domain, g, k.ids[reps[c]]))
  }

  /** The first component digests are the reference digests of their representatives. */
  ghost predicate Folded(h: Hash, domain: seq<Byte>, g: ConeDigests.Projections, k: Canonical,
                         reps: seq<nat>, digests: seq<Digest>)
    requires ConeDigests.Valid(g)
  {
    Known(g, k, reps) && digests <= References(h, domain, g, k, reps)
  }

  lemma {:induction false} RepresentativesKnown(g: ConeDigests.Projections, k: Canonical, comp: seq<nat>,
      cs: Components, reps: seq<nat>)
    requires Mirror(g, k) && Tarjan.IsComponents(k.rows, comp, cs) && Representatives(cs, reps)
    ensures Known(g, k, reps)
  {
    RepresentativesDistinct(k, comp, cs, reps);
  }

  /** `below` lists the components directly below `c`, by representative; all of them come before it. */
  ghost predicate OrderedBelow(k: Canonical, comp: seq<nat>, cs: Components, reps: seq<nat>, c: nat, below: seq<nat>)
    requires |comp| == |k.rows| && Graphs.InRange(k.rows) && cs.Valid() && c < cs.Count()
  {
    && ListsBelow(k, comp, cs.Members(c), c, below)
    && (forall i | 0 <= i < |below| :: below[i] < c && below[i] < |reps| && reps[below[i]] < |k.ids|)
    && (forall i, j | 0 <= i < j < |below| :: reps[below[i]] < reps[below[j]])
  }

  /** The components directly below `c`. No dependency has a larger ordinal, so the dependency-first
      check never fails. */
  method ComponentsBelow(k: Canonical, comp: seq<nat>, cs: Components, reps: seq<nat>, c: nat,
      ghost g: ConeDigests.Projections)
    returns (below: seq<nat>)
    requires Mirror(g, k) && Tarjan.IsComponents(k.rows, comp, cs) && Representatives(cs, reps) && c < |reps|
    ensures OrderedBelow(k, comp, cs, reps, c, below)
  {
    MembersInRange(k.rows, comp, cs, c);
    RepresentativesDistinct(k, comp, cs, reps);
    var raw := DirectDependencies(k.rows, comp, cs.Members(c), c);
    forall d | d in raw ensures d < c { BelowMember(g, k, comp, cs, reps, c, d); }
    below := OrderDependencies(raw, reps, |k.ids|);
    forall i | 0 <= i < |below| ensures below[i] < c { assert below[i] in raw; }
  }

  /** The parts of a message are in range. */
  ghost predicate Spelled(k: Canonical, members: seq<nat>, reps: seq<nat>, digests: seq<Digest>, below: seq<nat>) {
    && |k.locals| == |k.ids| && (forall i | 0 <= i < |members| :: members[i] < |k.ids|)
    && (forall i | 0 <= i < |below| :: below[i] < |reps| && reps[below[i]] < |k.ids| && below[i] < |digests|)
  }

  ghost function SpelledMessage(domain: seq<Byte>, k: Canonical, members: seq<nat>, reps: seq<nat>,
      digests: seq<Digest>, below: seq<nat>): seq<Byte>
    requires Spelled(k, members, reps, digests, below)
  {
    ConeDigests.ComponentMessage(domain, MemberPairs(k, members), BelowPairs(k, reps, digests, below))
  }

  lemma {:induction false} BelowReferences(h: Hash, domain: seq<Byte>, g: ConeDigests.Projections, k: Canonical,
                      reps: seq<nat>, digests: seq<Digest>, c: nat)
    requires ConeDigests.Valid(g) && Folded(h, domain, g, k, reps, digests) && c < |digests|
    ensures c < |reps| && digests[c] == ConeDigests.ComponentDigest(h, domain, g, k.ids[reps[c]])
  {
    assert digests[c] == References(h, domain, g, k, reps)[c];
  }

  /** The message of these members and of the components below them hashes to the next reference digest. */
  ghost predicate Foldable(h: Hash, domain: seq<Byte>, g: ConeDigests.Projections, k: Canonical, reps: seq<nat>,
                           digests: seq<Digest>, members: seq<nat>, below: seq<nat>)
    requires ConeDigests.Valid(g)
  {
    && Known(g, k, reps) && |digests| < |reps| && Spelled(k, members, reps, digests, below)
    && h(SpelledMessage(domain, k, members, reps, digests, below)) == References(h, domain, g, k, reps)[|digests|]
  }

  lemma {:induction false} NextSpelled(k: Canonical, comp: seq<nat>, cs: Components, reps: seq<nat>,
      digests: seq<Digest>, below: seq<nat>)
    requires Dense(k) && Tarjan.IsComponents(k.rows, comp, cs) && |digests| < cs.Count()
    requires OrderedBelow(k, comp, cs, reps, |digests|, below)
    ensures Spelled(k, cs.Members(|digests|), reps, digests, below)
  {
    MembersInRange(k.rows, comp, cs, |digests|);
  }

  lemma {:induction false} NextDigest(h: Hash, domain: seq<Byte>, g: ConeDigests.Projections, k: Canonical,
      comp: seq<nat>,
                      cs: Components, reps: seq<nat>, digests: seq<Digest>, below: seq<nat>)
    requires Mirror(g, k) && Tarjan.IsComponents(k.rows, comp, cs) && Representatives(cs, reps)
    requires |digests| < |reps| && Folded(h, domain, g, k, reps, digests) &&
        OrderedBelow(k, comp, cs, reps, |digests|, below)
    requires Spelled(k, cs.Members(|digests|), reps, digests, below)
    ensures h(SpelledMessage(domain, k, cs.Members(|digests|), reps, digests, below))
         == ConeDigests.ComponentDigest(h, domain, g, k.ids[reps[|digests|]])
  {
    RepresentativeNode(k, comp, cs, reps, |digests|);
    forall i | 0 <= i < |below|
      ensures digests[below[i]] == ConeDigests.ComponentDigest(h, domain, g, k.ids[reps[below[i]]])
    {
      BelowReferences(h, domain, g, k, reps, digests, below[i]);
    }
    FoldStep(h, domain, g, k, comp, cs, reps, digests, |digests|, below);
  }

  lemma {:induction false} NextFoldable(h: Hash, domain: seq<Byte>, g: ConeDigests.Projections, k: Canonical,
      reps: seq<nat>,
                      digests: seq<Digest>, members: seq<nat>, below: seq<nat>)
    requires ConeDigests.Valid(g) && Known(g, k, reps) && |digests| < |reps| &&
        Spelled(k, members, reps, digests, below)
    requires h(SpelledMessage(domain, k, members, reps, digests, below)) ==
        ConeDigests.ComponentDigest(h, domain, g, k.ids[reps[|digests|]])
    ensures Foldable(h, domain, g, k, reps, digests, members, below)
  {
  }

  /** The components below the next one, ready to be hashed. */
  method FoldableBelow(ghost h: Hash, ghost domain: seq<Byte>, k: Canonical, comp: seq<nat>, cs: Components,
                       reps: seq<nat>, digests: seq<Digest>, ghost g: ConeDigests.Projections)
    returns (members: seq<nat>, below: seq<nat>)
    requires Mirror(g, k) && Tarjan.IsComponents(k.rows, comp, cs) && Representatives(cs, reps)
    requires |digests| < |reps| && Folded(h, domain, g, k, reps, digests)
    ensures Foldable(h, domain, g, k, reps, digests, members, below)
  {
    members := cs.Members(|digests|);
    below := ComponentsBelow(k, comp, cs, reps, |digests|, g);
    NextSpelled(k, comp, cs, reps, digests, below);
    NextDigest(h, domain, g, k, comp, cs, reps, digests, below);
    NextFoldable(h, domain, g, k, reps, digests, members, below);
  }

  /** Hashes one component, from its members and the components below it. */
  method HashComponent(h: Hash, domain: seq<Byte>, k: Canonical, members: seq<nat>, reps: seq<nat>,
      digests: seq<Digest>, below: seq<nat>,
                       ghost g: ConeDigests.Projections)
    returns (digest: Digest)
    requires ConeDigests.Valid(g) && Foldable(h, domain, g, k, reps, digests, members, below)
    ensures digest == References(h, domain, g, k, reps)[|digests|]
  {
    var message := ComponentBytes(domain, MemberPairs(k, members), BelowPairs(k, reps, digests, below));
    digest := h(message);
  }

  /** The digest of the next component, given the digests of all components before it. */
  method FoldComponent(h: Hash, domain: seq<Byte>, k: Canonical, comp: seq<nat>, cs: Components,
                       reps: seq<nat>, digests: seq<Digest>, ghost g: ConeDigests.Projections)
    returns (digest: Digest)
    requires Mirror(g, k) && Tarjan.IsComponents(k.rows, comp, cs) && Representatives(cs, reps)
    requires |digests| < |reps| && Folded(h, domain, g, k, reps, digests)
    ensures digest == References(h, domain, g, k, reps)[|digests|]
  {
    var members, below := FoldableBelow(h, domain, k, comp, cs, reps, digests, g);
    digest := HashComponent(h, domain, k, members, reps, digests, below, g);
  }

  /** Folds the component digests dependency-first. */
  method FoldComponents(h: Hash, domain: seq<Byte>, k: Canonical, comp: seq<nat>, cs: Components,
                        reps: seq<nat>, ghost g: ConeDigests.Projections)
    returns (digests: seq<Digest>)
    requires Mirror(g, k) && Tarjan.IsComponents(k.rows, comp, cs) && Representatives(cs, reps)
    ensures |digests| == |reps| && Folded(h, domain, g, k, reps, digests)
  {
    digests := [];
    RepresentativesKnown(g, k, comp, cs, reps);
    while |digests| < |reps|
      invariant |digests| <= |reps| && Folded(h, domain, g, k, reps, digests)
    {
      var digest := FoldComponent(h, domain, k, comp, cs, reps, digests, g);
      digests := digests + [digest];
    }
  }

  method FirstMembers(cs: Components) returns (reps: seq<nat>)
    requires cs.Valid()
    ensures Representatives(cs, reps)
  {
    reps := [];
    while |reps| < cs.Count()
      invariant |reps| <= cs.Count()
      invariant forall c: nat | c < |reps| :: cs.Members(c) != [] && reps[c] == cs.Members(c)[0]
    {
      reps := reps + [cs.Members(|reps|)[0]];
    }
  }

  // ---------- Sealing ----------

  /** `s` is the sealed form of the graph that the registrations describe. */
  ghost predicate SealedFor(h: Hash, domain: seq<Byte>, nodes: seq<Pending>, deps: Dependencies, s: Sealed)
    requires Sealable(nodes, deps)
  {
    var g := Describe(nodes, deps);
    && Numbering(nodes, s.registeredByCanonical, s.canonicalByRegistered, s.graph.ids, s.graph.locals)
    && Mirror(g, s.graph)
    && Tarjan.IsComponents(s.graph.rows, s.componentByNode, s.components)
    && Representatives(s.components, s.representatives)
    && |s.digests| == |s.representatives| && Folded(h, domain, g, s.graph, s.representatives, s.digests)
    && Adjacency.IsCsr(s.edgeOffsets, s.edgeArena, s.graph.rows)
    && Adjacency.IsCsr(s.reverseOffsets, s.reverseArena, Adjacency.Reversed(s.graph.rows))
  }

  /** Seals the registered projections: canonical order, components, digests, adjacency. The
      only errors are an empty domain, a duplicate identity and a missing local digest. */
  method Seal(h: Hash, domain: seq<Byte>, nodes: seq<Pending>, deps: Dependencies) returns (r: Result<Sealed>)
    requires Registered(nodes, deps) && |deps| <= Adjacency.USIZE_MAX
    ensures r.Ok? <==> domain != [] && DistinctIdentities(nodes) && AllLocal(nodes)
    ensures r.Ok? ==> SealedFor(h, domain, nodes, deps, r.value)
  {
    if domain == [] {
      return Err("compilation request graph component digest domain is empty");
    }
    var numbering := Canonicalize(nodes);
    if numbering.Err? { return Err(numbering.message); }
    var (order, canon, ids, locals) := numbering.value;
    var collected := CollectRows(|nodes|, deps, canon);
    var rows := NormalizeRows(collected);
    var k := Canonical(ids, locals, rows);
    CanonicalMirror(nodes, deps, order, canon, ids, locals, rows);
    r := SealCanonical(h, domain, k, order, canon, Describe(nodes, deps));
  }

  method SealCanonical(h: Hash, domain: seq<Byte>, k: Canonical, order: seq<nat>, canon: seq<nat>,
                       ghost g: ConeDigests.Projections)
    returns (r: Result<Sealed>)
    requires Mirror(g, k) && |k.ids| <= U32_MAX + 1 && |Adjacency.Flatten(k.rows)| <= Adjacency.USIZE_MAX
    ensures r.Ok? && r.value.graph == k
    ensures r.value.registeredByCanonical == order && r.value.canonicalByRegistered == canon
    ensures Tarjan.IsComponents(k.rows, r.value.componentByNode, r.value.components)
    ensures Representatives(r.value.components, r.value.representatives)
    ensures |r.value.digests| == |r.value.representatives|
    ensures Folded(h, domain, g, k, r.value.representatives, r.value.digests)
    ensures Adjacency.IsCsr(r.value.edgeOffsets, r.value.edgeArena, k.rows)
    ensures Adjacency.IsCsr(r.value.reverseOffsets, r.value.reverseArena, Adjacency.Reversed(k.rows))
  {
    var found := Tarjan.StronglyConnectedComponents(k.rows);
    var (comp, cs) := found.value;
    var reps := FirstMembers(cs);
    var digests := FoldComponents(h, domain, k, comp, cs, reps, g);
    var offsets := Adjacency.AdjacencyOffsets(k.rows);
    var arena := Adjacency.Flatten(k.rows);
    var reversed := Adjacency.ReverseAdjacency(|k.ids|, offsets.value, arena, k.rows);
    r := Ok(Sealed(canon, order, k, offsets.value, arena, reversed.value.0, reversed.value.1,
                   comp, cs, digests, reps));
  }

  // ---------- Published digests ----------

  ghost predicate Covers(s: Sealed, id: nat) {
    && id < |s.canonicalByRegistered| && s.canonicalByRegistered[id] < |s.componentByNode|
    && s.canonicalByRegistered[id] < |s.graph.ids|
    && var c := s.componentByNode[s.canonicalByRegistered[id]];
       c < |s.representatives| && c < |s.digests| && s.representatives[c] < |s.graph.ids|
  }

  function Published(h: Hash, s: Sealed, id: nat, domain: seq<Byte>): (r: Digest)
    requires Covers(s, id)
  {
    var node := s.canonicalByRegistered[id];
    var component := s.componentByNode[node];
    h(domain + s.graph.ids[node] + s.graph.ids[s.representatives[component]] + s.digests[component])
  }

  /** A published digest is the reference digest of the described graph. */
  lemma {:induction false} PublishedIsReference(h: Hash, component: seq<Byte>, domain: seq<Byte>, nodes: seq<Pending>,
                             deps: Dependencies, s: Sealed, id: nat)
    requires Sealable(nodes, deps) && SealedFor(h, component, nodes, deps, s) && id < |nodes|
    ensures Covers(s, id) && ConeDigests.Valid(Describe(nodes, deps))
    ensures nodes[id].identity in Describe(nodes, deps).links
    ensures Published(h, s, id, domain)
         == ConeDigests.ImplementationDigest(h, component, domain, Describe(nodes, deps), nodes[id].identity)
  {
    var g, node := Describe(nodes, deps), s.canonicalByRegistered[id];
    RepresentativeMirror(g, s.graph, s.componentByNode, s.components, node);
    BelowReferences(h, component, g, s.graph, s.representatives, s.digests, s.componentByNode[node]);
    assert nodes[s.registeredByCanonical[node]].identity == s.graph.ids[node];
  }

  /** Sealing is canonical: registration order, edge order and repeated edges change no digest. */
  lemma {:induction false} PublishedCanonical(h: Hash, component: seq<Byte>, domain: seq<Byte>,
                           nodes: seq<Pending>, deps: Dependencies, s: Sealed, id: nat,
                           nodes': seq<Pending>, deps': Dependencies, s': Sealed, id': nat)
    requires Sealable(nodes, deps) && SealedFor(h, component, nodes, deps, s) && id < |nodes|
    requires Sealable(nodes', deps') && SealedFor(h, component, nodes', deps', s') && id' < |nodes'|
    requires nodes[id].identity == nodes'[id'].identity
    requires forall p :: p in nodes <==> p in nodes'
    requires forall x, y :: EdgeBetween(nodes, deps, x, y) <==> EdgeBetween(nodes', deps', x, y)
    ensures Covers(s, id) && Covers(s', id') && Published(h, s, id, domain) == Published(h, s', id', domain)
  {
    DescribeCanonical(nodes, deps, nodes', deps');
    PublishedIsReference(h, component, domain, nodes, deps, s, id);
    PublishedIsReference(h, component, domain, nodes', deps', s', id');
  }

  /** Sealing is local: registrations and edges outside a projection's cone change no digest. */
  lemma {:induction false} PublishedLocal(h: Hash, component: seq<Byte>, domain: seq<Byte>,
                       nodes: seq<Pending>, deps: Dependencies, s: Sealed, id: nat,
                       nodes': seq<Pending>, deps': Dependencies, s': Sealed, id': nat)
    requires Sealable(nodes, deps) && SealedFor(h, component, nodes, deps, s) && id < |nodes|
    requires Sealable(nodes', deps') && SealedFor(h, component, nodes', deps', s') && id' < |nodes'|
    requires nodes[id].identity == nodes'[id'].identity
    requires ConeDigests.Valid(Describe(nodes, deps)) && ConeDigests.Valid(Describe(nodes', deps'))
    requires ConeTheorems.AgreeOn(Describe(nodes, deps), Describe(nodes', deps'), nodes[id].identity)
    ensures Covers(s, id) && Covers(s', id') && Published(h, s, id, domain) == Published(h, s', id', domain)
  {
    var g, g' := Describe(nodes, deps), Describe(nodes', deps');
    ConeTheorems.Local(h, component, domain, g, g', nodes[id].identity);
    PublishedIsReference(h, component, domain, nodes, deps, s, id);
    PublishedIsReference(h, component, domain, nodes', deps', s', id');
  }

  /** The hash does not collide on the messages that sealing the two graphs and publishing `v` hash. */
  ghost predicate NoCollision(h: Hash, component: seq<Byte>, domain: seq<Byte>, a: ConeDigests.Projections,
                              b: ConeDigests.Projections, v: Digest)
    requires ConeDigests.Valid(a) && ConeDigests.Valid(b) && v in a.links && v in b.links
  {
    && CollisionFree(h, ConeTheorems.Messages(h, component, a) + ConeTheorems.Messages(h, component, b))
    && CollisionFree(h, {ConeDigests.ImplementationMessage(h, component, domain, a, v),
                         ConeDigests.ImplementationMessage(h, component, domain, b, v)})
  }

  /** Sealing is exact: without a collision two sealed graphs publish the same digest for a projection
      if and only if the registrations describe the same condensed cone. */
  lemma {:induction false} PublishedExact(h: Hash, component: seq<Byte>, domain: seq<Byte>,
                       nodes: seq<Pending>, deps: Dependencies, s: Sealed, id: nat,
                       nodes': seq<Pending>, deps': Dependencies, s': Sealed, id': nat)
    requires Sealable(nodes, deps) && SealedFor(h, component, nodes, deps, s) && id < |nodes|
    requires Sealable(nodes', deps') && SealedFor(h, component, nodes', deps', s') && id' < |nodes'|
    requires nodes[id].identity == nodes'[id'].identity
    ensures var g, g', v := Describe(nodes, deps), Describe(nodes', deps'), nodes[id].identity;
            && Covers(s, id) && Covers(s', id')
            && ConeDigests.Valid(g) && ConeDigests.Valid(g') && v in g.links && v in g'.links
            && (NoCollision(h, component, domain, g, g', v) ==>
                  (Published(h, s, id, domain) == Published(h, s', id', domain) <==> ConeTheorems.SameCone(g, g', v)))
  {
    var g, g', v := Describe(nodes, deps), Describe(nodes', deps'), nodes[id].identity;
    PublishedIsReference(h, component, domain, nodes, deps, s, id);
    PublishedIsReference(h, component, domain, nodes', deps', s', id');
    if NoCollision(h, component, domain, g, g', v) { ConeTheorems.Exact(h, component, domain, g, g', v); }
  }

  /** In particular a changed local digest in the cone changes what is published. */
  lemma {:induction false} PublishedSensitive(h: Hash, component: seq<Byte>, domain: seq<Byte>,
                       nodes: seq<Pending>, deps: Dependencies, s: Sealed, id: nat,
                       nodes': seq<Pending>, deps': Dependencies, s': Sealed, id': nat, w: Digest)
    requires Sealable(nodes, deps) && SealedFor(h, component, nodes, deps, s) && id < |nodes|
    requires Sealable(nodes', deps') && SealedFor(h, component, nodes', deps', s') && id' < |nodes'|
    requires nodes[id].identity == nodes'[id'].identity
    requires var g, g' := Describe(nodes, deps), Describe(nodes', deps');
             w in ConeDigests.Cone(g.links, nodes[id].identity) && w in g.locals && w in g'.locals &&
                 g.locals[w] != g'.locals[w]
    ensures var g, g', v := Describe(nodes, deps), Describe(nodes', deps'), nodes[id].identity;
            && Covers(s, id) && Covers(s', id')
            && ConeDigests.Valid(g) && ConeDigests.Valid(g') && v in g.links && v in g'.links
            && (NoCollision(h, component, domain, g, g', v) ==>
                 Published(h, s, id, domain) != Published(h, s', id', domain))
  {
    var g, g', v := Describe(nodes, deps), Describe(nodes', deps'), nodes[id].identity;
    PublishedExact(h, component, domain, nodes, deps, s, id, nodes', deps', s', id');
    assert ConeTheorems.SameCone(g, g', v) ==> ConeTheorems.SameAt(g, g', w);
  }

  /** The digest of one projection, or the reason there is none. */
  method ImplementationDigest(h: Hash, s: Sealed, id: nat, domain: seq<Byte>,
                              ghost component: seq<Byte>, ghost nodes: seq<Pending>, ghost deps: Dependencies)
    returns (r: Result<Digest>)
    requires Sealable(nodes, deps) && SealedFor(h, component, nodes, deps, s)
    ensures r.Ok? <==> domain != [] && id < |nodes|
    ensures r.Ok? ==>
      && nodes[id].identity in Describe(nodes, deps).links && ConeDigests.Valid(Describe(nodes, deps))
      && r.value == ConeDigests.ImplementationDigest(h, component, domain, Describe(nodes, deps), nodes[id].identity)
  {
    if domain == [] {
      return Err("compilation request implementation digest domain is empty");
    }
    if id >= |s.canonicalByRegistered| {
      return Err("compilation request implementation key is absent");
    }
    PublishedIsReference(h, component, domain, nodes, deps, s, id);
    r := Ok(Published(h, s, id, domain));
  }

  /** The registered projections that depend directly on `id`, from the reversed rows. */
  method ReverseDependents(s: Sealed, id: nat, ghost h: Hash, ghost component: seq<Byte>,
                           ghost nodes: seq<Pending>, ghost deps: Dependencies)
    returns (r: Option<seq<nat>>)
    requires Sealable(nodes, deps) && SealedFor(h, component, nodes, deps, s)
    ensures r.Some? <==> id < |nodes|
    ensures r.Some? ==> forall j: nat :: j in r.value <==> (j, id) in deps
    ensures r.Some? ==> Sorting.Distinct(r.value)
  {
    if id >= |s.canonicalByRegistered| { return None; }
    var node := s.canonicalByRegistered[id];
    Adjacency.RowSlice(s.reverseOffsets, s.reverseArena, Adjacency.Reversed(s.graph.rows), node);
    var bucket := s.reverseArena[s.reverseOffsets[node]..s.reverseOffsets[node + 1]];
    BucketNodes(s, node, bucket);
    var listed := RegisteredAt(s, bucket);
    ReverseListed(s, id, h, component, nodes, deps, bucket, listed);
    r := Some(listed);
  }

  function RegisteredAt(s: Sealed, positions: seq<nat>): (r: seq<nat>)
    requires forall i | 0 <= i < |positions| :: positions[i] < |s.registeredByCanonical|
    ensures |r| == |positions| && forall i | 0 <= i < |r| :: r[i] == s.registeredByCanonical[positions[i]]
  {
    seq(|positions|, i requires 0 <= i < |positions| => s.registeredByCanonical[positions[i]])
  }

  lemma {:induction false} ReverseListed(s: Sealed, id: nat, h: Hash, component: seq<Byte>, nodes: seq<Pending>,
      deps: Dependencies,
                      bucket: seq<nat>, listed: seq<nat>)
    requires Sealable(nodes, deps) && SealedFor(h, component, nodes, deps, s) && id < |nodes|
    requires bucket == Adjacency.Sources(s.graph.rows, s.canonicalByRegistered[id]) && Sorting.Distinct(bucket)
    requires |listed| == |bucket| && forall i | 0 <= i < |bucket| ::
        bucket[i] < |nodes| && listed[i] == s.registeredByCanonical[bucket[i]]
    ensures forall j: nat :: j in listed <==> (j, id) in deps
    ensures Sorting.Distinct(listed)
  {
    forall j: nat ensures j in listed <==> (j, id) in deps {
      ReverseMember(s, id, h, component, nodes, deps, bucket, listed, j);
    }
    forall i, j | 0 <= i < j < |listed| ensures listed[i] != listed[j] {
      assert s.canonicalByRegistered[listed[i]] == bucket[i] && s.canonicalByRegistered[listed[j]] == bucket[j];
    }
  }

  lemma {:induction false} BucketNodes(s: Sealed, node: nat, bucket: seq<nat>)
    requires Dense(s.graph) && node < |s.graph.rows| && bucket == Adjacency.Sources(s.graph.rows, node)
    ensures forall i | 0 <= i < |bucket| :: bucket[i] < |s.graph.rows|
    ensures Sorting.Distinct(bucket)
  {
    Adjacency.SourcesMember(s.graph.rows, node);
    Adjacency.SourcesStrict(s.graph.rows, node);
    forall i | 0 <= i < |bucket| ensures bucket[i] < |s.graph.rows| { assert bucket[i] in bucket; }
  }

  lemma {:induction false} ReverseMember(s: Sealed, id: nat, h: Hash, component: seq<Byte>, nodes: seq<Pending>,
      deps: Dependencies,
                      bucket: seq<nat>, listed: seq<nat>, j: nat)
    requires Sealable(nodes, deps) && SealedFor(h, component, nodes, deps, s) && id < |nodes|
    requires bucket == Adjacency.Sources(s.graph.rows, s.canonicalByRegistered[id])
    requires |listed| == |bucket| && forall i | 0 <= i < |bucket| ::
        bucket[i] < |nodes| && listed[i] == s.registeredByCanonical[bucket[i]]
    ensures j in listed <==> (j, id) in deps
  {
    var canon, order, rows := s.canonicalByRegistered, s.registeredByCanonical, s.graph.rows;
    Adjacency.SourcesMember(rows, canon[id]);
    if j in listed {
      var i :| 0 <= i < |listed| && listed[i] == j;
      assert bucket[i] in bucket;
      DependencyRow(s, h, component, nodes, deps, bucket[i], canon[id]);
    }
    if (j, id) in deps {
      DependencyRow(s, h, component, nodes, deps, canon[j], canon[id]);
      assert canon[j] in bucket;
      var i :| 0 <= i < |bucket| && bucket[i] == canon[j];
      assert listed[i] == j;
    }
  }

  lemma {:induction false} DependencyRow(s: Sealed, h: Hash, component: seq<Byte>, nodes: seq<Pending>,
      deps: Dependencies, v: nat, w: nat)
    requires Sealable(nodes, deps) && SealedFor(h, component, nodes, deps, s) && v < |nodes| && w < |nodes|
    ensures w in s.graph.rows[v] <==> (s.registeredByCanonical[v], s.registeredByCanonical[w]) in deps
  {
    var canon, order, ids := s.canonicalByRegistered, s.registeredByCanonical, s.graph.ids;
    LinkMirror(nodes, deps, order, canon, ids, s.graph.locals, v, w);
    DescribeAt(nodes, deps, order[v]);
    if HasDependency(deps, canon, v, w) {
      var e :| e in deps && canon[e.0] == v && canon[e.1] == w;
      assert order[canon[e.0]] == e.0 && order[canon[e.1]] == e.1;
      assert e == (order[v], order[w]);
    }
    if (order[v], order[w]) in deps {
      assert canon[order[v]] == v && canon[order[w]] == w;
      assert HasDependency(deps, canon, v, w);
    }
  }

  // ---------- The builder ----------

  class DenseProjectionGraphBuilder {
    var nodes: seq<Pending>
    var dependencies: Dependencies

    ghost predicate Valid()
      reads this
    {
      Registered(nodes, dependencies)
    }

    constructor ()
      ensures Valid() && nodes == [] && dependencies == []
    {
      nodes, dependencies := [], [];
    }

    method RegisterPending(identity: Digest) returns (r: Result<nat>)
      requires Valid()
      modifies this
      ensures Valid() && dependencies == old(dependencies)
      ensures r.Ok? <==> old(|nodes|) <= U32_MAX
      ensures nodes == if r.Ok? then old(nodes) + [Pending(identity, None)] else old(nodes)
      ensures r.Ok? ==> r.value == old(|nodes|)
    {
      if |nodes| > U32_MAX {
        return Err("compilation projection graph exceeds u32 identities");
      }
      r := Ok(|nodes|);
      nodes := nodes + [Pending(identity, None)];
    }

    /** A second digest for one projection is reported as an error, yet it replaces the first. */
    method SetLocalDigest(id: nat, local: Digest) returns (r: Result<()>)
      requires Valid()
      modifies this
      ensures Valid() && dependencies == old(dependencies)
      ensures r.Ok? <==> id < |old(nodes)| && old(nodes)[id].local.None?
      ensures nodes == if id < |old(nodes)| then old(nodes)[id := old(nodes)[id].(local := Some(local))] else old(nodes)
    {
      if id >= |nodes| {
        return Err("compilation request receipt has an unregistered identity");
      }
      var previous := nodes[id].local;
      nodes := nodes[id := nodes[id].(local := Some(local))];
      if previous.Some? {
        return Err("compilation request receipt is published more than once");
      }
      r := Ok(());
    }

    method Register(identity: Digest, local: Digest) returns (r: Result<nat>)
      requires Valid()
      modifies this
      ensures Valid() && dependencies == old(dependencies)
      ensures r.Ok? <==> old(|nodes|) <= U32_MAX
      ensures nodes == if r.Ok? then old(nodes) + [Pending(identity, Some(local))] else old(nodes)
      ensures r.Ok? ==> r.value == old(|nodes|)
    {
      r := RegisterPending(identity);
      if r.Ok? {
        var set_ := SetLocalDigest(r.value, local);
      }
    }

    method AddDependency(request: nat, dependency: nat) returns (r: Result<()>)
      requires Valid()
      modifies this
      ensures Valid() && nodes == old(nodes)
      ensures r.Ok? <==> request < |nodes| && dependency < |nodes|
      ensures dependencies == if r.Ok? then old(dependencies) + [(request, dependency)] else old(dependencies)
    {
      if request >= |nodes| { return Err("compilation projection edge has an unregistered source"); }
      if dependency >= |nodes| { return Err("compilation projection edge has an unregistered target"); }
      dependencies := dependencies + [(request, dependency)];
      r := Ok(());
    }
  }

  lemma {:induction false} OneSealable(identity: Digest, local: Digest)
    ensures Sealable([Pending(identity, Some(local))], [])
  {
  }

  lemma {:induction false} OneSealed(h: Hash, domain: seq<Byte>, identity: Digest, local: Digest, s: Sealed)
    requires Sealable([Pending(identity, Some(local))], []) &&
        SealedFor(h, domain, [Pending(identity, Some(local))], [], s)
    ensures s.graph.ids == [identity] && s.graph.locals == [local]
  {
    assert s.registeredByCanonical[0] == 0;
  }

  /** A projection that is given two local digests can still be sealed, with the second one, if the
      error of the second call is ignored: sealing asks for at least one digest, not exactly one. */
  method SealsSecondDigest(h: Hash, domain: seq<Byte>, identity: Digest, first: Digest, second: Digest)
    returns (again: Result<()>, sealed: Result<Sealed>)
    requires domain != []
    ensures again.Err? && sealed.Ok? && sealed.value.graph.ids == [identity] && sealed.value.graph.locals == [second]
  {
    var builder := new DenseProjectionGraphBuilder();
    var id := builder.RegisterPending(identity);
    var once := builder.SetLocalDigest(id.value, first);
    again := builder.SetLocalDigest(id.value, second);
    assert builder.nodes == [Pending(identity, Some(second))] && builder.dependencies == [];
    OneSealable(identity, second);
    sealed := Seal(h, domain, builder.nodes, builder.dependencies);
    OneSealed(h, domain, identity, second, sealed.value);
  }
}
