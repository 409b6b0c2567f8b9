/** Publication of a checked image beside its ownership plan: atomic publishing, one freeze, and a
    receipt bound to the frozen plan. */
module CheckedPublication {
  import opened Wrappers
  import opened Bytes
  import opened OwnershipDigests
  import Sorting

  // ---------- What is published ----------

  datatype Row = Row(rows: nat, dependencyRows: nat)

  datatype Relocation = Relocation(source: nat, target: nat)

  /** Row counts per projection, dependency edges, and which routes were published. */
  datatype Ledger = Ledger(projections: seq<Row>, relocations: seq<Relocation>, coverage: seq<bool>)

  function NewLedger(projectionCount: nat, routeCount: nat): Ledger {
    Ledger(seq(projectionCount, _ => Row(0, 0)), [], seq(routeCount, _ => false))
  }

  ghost predicate HasEdge(relocations: seq<Relocation>, p: nat) {
    exists i | 0 <= i < |relocations| :: relocations[i].source == p
  }

  /** Rows fit 32 bits, dependency rows are rows, and there are some exactly when there is an edge. */
  ghost predicate RowOk(row: Row, relocations: seq<Relocation>, p: nat) {
    row.dependencyRows <= row.rows < U32_LIMIT && (row.dependencyRows > 0 <==> HasEdge(relocations, p))
  }

  ghost predicate EdgeOk(count: nat, edge: Relocation) {
    edge.source < count && edge.target < count && edge.source != edge.target
  }

  ghost predicate LedgerOk(l: Ledger) {
    && (forall i | 0 <= i < |l.relocations| :: EdgeOk(|l.projections|, l.relocations[i]))
    && (forall p | 0 <= p < |l.projections| :: RowOk(l.projections[p], l.relocations, p))
  }

  /** The edges of one dependency row: none to itself. */
  function Edges(p: nat, targets: seq<nat>): (r: seq<Relocation>)
    ensures forall i | 0 <= i < |r| :: r[i].source == p && r[i].target in targets && r[i].target != p
    ensures r == [] <==> forall i | 0 <= i < |targets| :: targets[i] == p
  {
    if targets == [] then []
    else (if targets[0] != p then [Relocation(p, targets[0])] else []) + Edges(p, targets[1..])
  }

  /** The edges from the target `i` on, one target at a time. */
  lemma {:induction false} EdgesFrom(done: seq<Relocation>, p: nat, targets: seq<nat>, i: nat)
    requires i < |targets|
    ensures done + Edges(p, targets[i..]) ==
        (if targets[i] != p then done + [Relocation(p, targets[i])] else done) + Edges(p, targets[i + 1..])
  {
    assert targets[i..][1..] == targets[i + 1..];
  }

  function PublishRows(l: Ledger, p: nat, count: nat): (r: Result<Ledger>) {
    if p >= |l.projections| then Err("publication references missing projection")
    else if l.projections[p].rows + count >= U32_LIMIT then Err("row count exceeds u32")
    else Ok(l.(projections := l.projections[p := l.projections[p].(rows := l.projections[p].rows + count)]))
  }

  function PublishDependencyRow(l: Ledger, p: nat, targets: seq<nat>): (r: Result<Ledger>) {
    if p >= |l.projections| then Err("dependency source is missing")
    else if exists i | 0 <= i < |targets| :: targets[i] >= |l.projections|
        then Err("dependency references a missing projection")
    else
      var row, edges := l.projections[p], Edges(p, targets);
      if row.rows + 1 >= U32_LIMIT then Err("row count exceeds u32")
      else if edges != [] && row.dependencyRows + 1 >= U32_LIMIT then Err("dependency count exceeds u32")
      else
        Ok(l.(relocations := l.relocations + edges,
              projections := l.projections[p := Row(row.rows + 1, row.dependencyRows + if edges != [] then 1 else 0)]))
  }

  predicate RouteFree(l: Ledger, route: nat) { route < |l.coverage| && !l.coverage[route] }

  /** A published route is claimed once. */
  function Claimed(l: Ledger, route: nat): Ledger
    requires route < |l.coverage|
  {
    l.(coverage := l.coverage[route := true])
  }

  /** Every route is published, and every projection has rows. */
  predicate Complete(l: Ledger) {
    && (forall route | 0 <= route < |l.coverage| :: l.coverage[route])
    && (forall p | 0 <= p < |l.projections| :: l.projections[p].rows != 0)
  }

  /** What is published: plain rows, or one dependency row. */
  datatype Content = Rows(count: nat) | Dependency(targets: seq<nat>)

  /** A publication for projection `p`, and the route it claims, if any. */
  datatype Call = Call(p: nat, content: Content, route: Option<nat>)

  function Publish(l: Ledger, call: Call): (r: Result<Ledger>) {
    if call.route.Some? && !RouteFree(l, call.route.value) then Err("route is missing or published twice")
    else if call.route.Some? && call.content == Rows(0) then Err("routed row count must be nonzero")
    else
      var next := match call.content
        case Rows(count) => PublishRows(l, call.p, count)
        case Dependency(targets) => PublishDependencyRow(l, call.p, targets);
      if next.Err? || call.route.None? then next else Ok(Claimed(next.value, call.route.value))
  }

  lemma {:induction false} NewLedgerOk(projectionCount: nat, routeCount: nat)
    ensures LedgerOk(NewLedger(projectionCount, routeCount))
  {
  }

  lemma {:induction false} PublishRowsOk(l: Ledger, p: nat, count: nat)
    requires LedgerOk(l) && PublishRows(l, p, count).Ok?
    ensures LedgerOk(PublishRows(l, p, count).value)
  {
  }

  lemma {:induction false} MoreEdges(relocations: seq<Relocation>, p: nat, targets: seq<nat>, q: nat)
    ensures HasEdge(relocations + Edges(p, targets), q) <==>
        HasEdge(relocations, q) || (q == p && Edges(p, targets) != [])
  {
    var edges := Edges(p, targets);
    var all := relocations + edges;
    if i :| 0 <= i < |relocations| && relocations[i].source == q { assert all[i].source == q; }
    if q == p && edges != [] { assert all[|relocations|] == edges[0]; }
    if i :| 0 <= i < |all| && all[i].source == q { assert i >= |relocations| ==> all[i] == edges[i - |relocations|]; }
  }

  /** Publishing a dependency row keeps the ledger sound: no self edges, none out of range, and
      dependency rows exactly where there are edges. */
  lemma {:induction false} PublishDependencyRowOk(l: Ledger, p: nat, targets: seq<nat>)
    requires LedgerOk(l) && PublishDependencyRow(l, p, targets).Ok?
    ensures LedgerOk(PublishDependencyRow(l, p, targets).value)
  {
    var r, edges := PublishDependencyRow(l, p, targets).value, Edges(p, targets);
    forall i | 0 <= i < |r.relocations| ensures EdgeOk(|r.projections|, r.relocations[i]) {
      if i >= |l.relocations| {
        var target := edges[i - |l.relocations|].target;
        var j :| 0 <= j < |targets| && targets[j] == target;
      }
    }
    forall q | 0 <= q < |r.projections| ensures RowOk(r.projections[q], r.relocations, q) {
      MoreEdges(l.relocations, p, targets, q);
      assert RowOk(l.projections[q], l.relocations, q);
    }
  }

  lemma {:induction false} ClaimedOk(l: Ledger, route: nat)
    requires LedgerOk(l) && route < |l.coverage|
    ensures LedgerOk(Claimed(l, route))
  {
  }

  // ---------- The identity shared by both sides ----------

  class Pairing {
    const h: Hash
    const domains: Domains
    /** Set at most once. */
    var seal: Option<Seal>
    /** The plan that was frozen. */
    ghost var plan: Option<Image>

    ghost predicate Valid()
      reads this
    {
      && (seal.Some? <==> plan.Some?)
      && (seal.Some? ==> PlanOk(plan.value) && seal.value == SealOf(h, domains, plan.value))
    }

    constructor (h: Hash, domains: Domains)
      ensures Valid() && seal.None? && this.h == h && this.domains == domains
    {
      this.h, this.domains, seal, plan := h, domains, None, None;
    }
  }

  /** What installing a plan has checked. */
  ghost predicate PlanOk(plan: Image) {
    Owned(plan) && Sized(plan) && Distinct(plan.digests) && RoutesSorted(plan.routes)
  }

  // ---------- Publication ----------

  class Publication {
    const source: Source
    const role: Role
    const pairing: Pairing
    var projections: seq<Row>
    var relocations: seq<Relocation>
    var coverage: seq<bool>

    function View(): Ledger
      reads this
    {
      Ledger(projections, relocations, coverage)
    }

    ghost predicate Valid()
      reads this
    {
      LedgerOk(View())
    }

    constructor (pairing: Pairing, source: Source, role: Role, projectionCount: nat, routeCount: nat)
      ensures Valid() && View() == NewLedger(projectionCount, routeCount)
      ensures this.pairing == pairing && this.source == source && this.role == role
    {
      this.pairing, this.source, this.role := pairing, source, role;
      projections, relocations, coverage := seq(projectionCount, _ => Row(0, 0)), [], seq(routeCount, _ => false);
      new;
      NewLedgerOk(projectionCount, routeCount);
    }

    /** Publishes plain rows. A refusal changes nothing; after the freeze everything is refused. */
    method AddRows(p: nat, count: nat) returns (r: Result<()>)
      requires Valid()
      modifies this
      ensures Valid()
      ensures var published := Publish(old(View()), Call(p, Rows(count), None));
        && (r.Ok? <==> pairing.seal.None? && published.Ok?)
        && View() == if r.Ok? then published.value else old(View())
    {
      if pairing.seal.Some? { return Err("publication is frozen"); }
      if p >= |projections| { return Err("publication references missing projection"); }
      var next := projections[p].rows + count;
      if next >= U32_LIMIT { return Err("row count exceeds u32"); }
      PublishRowsOk(View(), p, count);
      projections := projections[p := projections[p].(rows := next)];
      return Ok(());
    }

    /** Whether all targets exist, and whether one differs from the source. */
    method CheckTargets(p: nat, targets: seq<nat>) returns (exist: bool, relocated: bool)
      ensures exist <==> !exists i | 0 <= i < |targets| :: targets[i] >= |projections|
      ensures exist ==> (relocated <==> Edges(p, targets) != [])
    {
      relocated := false;
      for i := 0 to |targets|
        invariant forall j | 0 <= j < i :: targets[j] < |projections|
        invariant relocated <==> exists j | 0 <= j < i :: targets[j] != p
      {
        if targets[i] >= |projections| { return false, false; }
        relocated := relocated || targets[i] != p;
      }
      return true, relocated;
    }

    method AppendEdges(p: nat, targets: seq<nat>)
      modifies this`relocations
      ensures relocations == old(relocations) + Edges(p, targets)
    {
      assert targets[0..] == targets;
      for i := 0 to |targets|
        invariant relocations + Edges(p, targets[i..]) == old(relocations) + Edges(p, targets)
      {
        EdgesFrom(relocations, p, targets, i);
        if targets[i] != p {
          relocations := relocations + [Relocation(p, targets[i])];
        }
      }
      assert relocations + [] == relocations;
    }

    method AddDependencyRow(p: nat, targets: seq<nat>) returns (r: Result<()>)
      requires Valid()
      modifies this
      ensures Valid()
      ensures var published := Publish(old(View()), Call(p, Dependency(targets), None));
        && (r.Ok? <==> pairing.seal.None? && published.Ok?)
        && View() == if r.Ok? then published.value else old(View())
    {
      if pairing.seal.Some? { return Err("publication is frozen"); }
      if p >= |projections| { return Err("dependency source is missing"); }
      var exist, relocated := CheckTargets(p, targets);
      if !exist { return Err("dependency references a missing projection"); }
      var nextRows := projections[p].rows + 1;
      if nextRows >= U32_LIMIT { return Err("row count exceeds u32"); }
      var nextDependencies := projections[p].dependencyRows + if relocated then 1 else 0;
      if nextDependencies >= U32_LIMIT { return Err("dependency count exceeds u32"); }
      PublishDependencyRowOk(View(), p, targets);
      AppendEdges(p, targets);
      projections := projections[p := Row(nextRows, nextDependencies)];
      return Ok(());
    }

    method AddRoutedRows(route: nat, p: nat, count: nat) returns (r: Result<()>)
      requires Valid()
      modifies this
      ensures Valid()
      ensures var published := Publish(old(View()), Call(p, Rows(count), Some(route)));
        && (r.Ok? <==> pairing.seal.None? && published.Ok?)
        && View() == if r.Ok? then published.value else old(View())
    {
      if pairing.seal.Some? { return Err("publication is frozen"); }
      if route >= |coverage| { return Err("route coverage references a missing route"); }
      if coverage[route] { return Err("route is published twice"); }
      if count == 0 { return Err("routed row count must be nonzero"); }
      r := AddRows(p, count);
      if r.Ok? {
        ClaimedOk(View(), route);
        coverage := coverage[route := true];
      }
    }

    method AddRoutedDependencyRow(route: nat, p: nat, targets: seq<nat>) returns (r: Result<()>)
      requires Valid()
      modifies this
      ensures Valid()
      ensures var published := Publish(old(View()), Call(p, Dependency(targets), Some(route)));
        && (r.Ok? <==> pairing.seal.None? && published.Ok?)
        && View() == if r.Ok? then published.value else old(View())
    {
      if pairing.seal.Some? { return Err("publication is frozen"); }
      if route >= |coverage| { return Err("route coverage references a missing route"); }
      if coverage[route] { return Err("route is published twice"); }
      r := AddDependencyRow(p, targets);
      if r.Ok? {
        ClaimedOk(View(), route);
        coverage := coverage[route := true];
      }
    }
  }

  // ---------- The ownership plan ----------

  const DEFINITION_REGION: nat := 0

  /** A stable projection key: its owner and its region, ordered in that order. */
  datatype Key = Key(owner: nat, region: nat)

  predicate KeyLess(a: Key, b: Key) { a.owner < b.owner || (a.owner == b.owner && a.region < b.region) }

  datatype Planned = Planned(key: Key, digest: Digest, definition: Option<nat>)

  datatype Topology = Topology(projections: seq<Planned>, routes: seq<Route>)

  function DigestsOf(projections: seq<Planned>): (r: seq<Digest>)
    ensures |r| == |projections| && forall i | 0 <= i < |r| :: r[i] == projections[i].digest
  {
    seq(|projections|, i requires 0 <= i < |projections| => projections[i].digest)
  }

  function ImageOf(source: Source, role: Role, t: Topology): Image {
    Image(source, role, DigestsOf(t.projections), t.routes)
  }

  type KeyHash = Key -> Result<Digest>

  predicate KeysSorted(projections: seq<Planned>) {
    forall i | 0 < i < |projections| :: KeyLess(projections[i - 1].key, projections[i].key)
  }

  /** In a plan whose keys are sorted no two projections have the same key. */
  lemma {:induction false} KeysDistinct(projections: seq<Planned>, i: nat, j: nat)
    requires KeysSorted(projections) && i < j < |projections|
    ensures KeyLess(projections[i].key, projections[j].key) && projections[i].key != projections[j].key
    decreases j - i
  {
    assert KeyLess(projections[j - 1].key, projections[j].key);
    if i + 1 < j { KeysDistinct(projections, i, j - 1); }
  }

  /** In a plan whose routes are sorted every entity has one owner. */
  lemma {:induction false} OneOwner(routes: seq<Route>, i: nat, j: nat)
    requires RoutesSorted(routes) && i < j < |routes|
    ensures RouteLess(routes[i], routes[j])
    ensures routes[i].domain != routes[j].domain || routes[i].index != routes[j].index
    decreases j - i
  {
    assert RouteLess(routes[j - 1], routes[j]);
    if i + 1 < j { OneOwner(routes, i, j - 1); }
  }

  /** The digest is that of the key, and the definition sibling, if named, is one. */
  predicate PlannedOk(keyHash: KeyHash, projections: seq<Planned>, p: Planned) {
    && keyHash(p.key) == Ok(p.digest)
    && (p.definition.Some? ==>
          && p.definition.value < |projections|
          && var sibling := projections[p.definition.value].key;
             sibling.owner == p.key.owner && sibling.region == DEFINITION_REGION)
  }

  ghost predicate TopologyOk(keyHash: KeyHash, t: Topology) {
    && KeysSorted(t.projections) && Distinct(DigestsOf(t.projections))
    && (forall i | 0 <= i < |t.projections| :: PlannedOk(keyHash, t.projections, t.projections[i]))
    && RoutesSorted(t.routes)
    && (forall i | 0 <= i < |t.routes| :: t.routes[i].projection < |t.projections|)
  }

  predicate AdjacentDiffer(s: seq<Digest>) { forall i | 0 < i < |s| :: s[i - 1] != s[i] }

  lemma {:induction false} RepeatBetween(s: seq<Digest>, i: nat, j: nat)
    requires Sorting.Sorted(s, DigestLeq) && i < j < |s| && s[i] == s[j]
    ensures s[i + 1] == s[i]
  {
    DigestOrder();
    if i + 1 < j { assert DigestLeq(s[i], s[i + 1]) && DigestLeq(s[i + 1], s[j]); }
  }

  lemma {:induction false} SortedDiffer(s: seq<Digest>)
    requires Sorting.Sorted(s, DigestLeq)
    ensures AdjacentDiffer(s) <==> Sorting.Distinct(s)
  {
    if !Sorting.Distinct(s) {
      var i, j :| 0 <= i < j < |s| && s[i] == s[j];
      RepeatBetween(s, i, j);
      assert s[i + 1 - 1] == s[i + 1];
    }
  }

  /** No digest repeats exactly when no two neighbours are equal after sorting. */
  lemma {:induction false} SortedNeighbours(digests: seq<Digest>)
    ensures Distinct(digests) <==> AdjacentDiffer(Sorting.Sort(digests, DigestLeq))
  {
    DigestOrder();
    var s := Sorting.Sort(digests, DigestLeq);
    Sorting.SortSorted(digests, DigestLeq);
    SortedDiffer(s);
    assert Distinct(digests) <==> Sorting.Distinct(digests);
    if Sorting.Distinct(digests) { Sorting.DistinctArrangement(digests, s); }
    if Sorting.Distinct(s) { Sorting.DistinctArrangement(s, digests); }
  }

  method AllPlanned(keyHash: KeyHash, projections: seq<Planned>) returns (ok: bool)
    ensures ok <==> forall i | 0 <= i < |projections| :: PlannedOk(keyHash, projections, projections[i])
  {
    for i := 0 to |projections|
      invariant forall j | 0 <= j < i :: PlannedOk(keyHash, projections, projections[j])
    {
      if !PlannedOk(keyHash, projections, projections[i]) { return false; }
    }
    return true;
  }

  method RoutesKnown(routes: seq<Route>, count: nat) returns (ok: bool)
    ensures ok <==> forall i | 0 <= i < |routes| :: routes[i].projection < count
  {
    for i := 0 to |routes|
      invariant forall j | 0 <= j < i :: routes[j].projection < count
    {
      if routes[i].projection >= count { return false; }
    }
    return true;
  }

  class Expectation {
    const pairing: Pairing
    const source: Source
    const role: Role
    const keyHash: KeyHash
    var topology: Option<Topology>

    ghost predicate Valid()
      reads this
    {
      topology.Some? ==> TopologyOk(keyHash, topology.value)
    }

    constructor (pairing: Pairing, source: Source, role: Role, keyHash: KeyHash)
      ensures Valid() && topology.None? && this.pairing == pairing && this.source == source && this.role == role
      ensures this.keyHash == keyHash
    {
      this.pairing, this.source, this.role, this.keyHash, topology := pairing, source, role, keyHash, None;
    }

    /** Moves a finished plan in: once, and only if it is sound. */
    method Install(projections: seq<Planned>, routes: seq<Route>) returns (r: Result<()>)
      requires Valid()
      modifies this
      ensures Valid()
      ensures r.Ok? <==> pairing.seal.None? && old(topology).None? && TopologyOk(keyHash, Topology(projections, routes))
      ensures topology == if r.Ok? then Some(Topology(projections, routes)) else old(topology)
    {
      if pairing.seal.Some? || topology.Some? { return Err("ownership expectation is already frozen"); }
      if !KeysSorted(projections) { return Err("projection keys are not strict-sorted"); }
      SortedNeighbours(DigestsOf(projections));
      if !AdjacentDiffer(Sorting.Sort(DigestsOf(projections), DigestLeq)) {
        return Err("projection digests are not unique");
      }
      var planned := AllPlanned(keyHash, projections);
      if !planned { return Err("projection has a foreign digest or sibling"); }
      if !RoutesSorted(routes) { return Err("routes are not globally strict-sorted"); }
      var known := RoutesKnown(routes, |projections|);
      if !known { return Err("route references a foreign projection"); }
      topology := Some(Topology(projections, routes));
      return Ok(());
    }

    /** Whether the publication is of the same construction and covers the plan. */
    predicate Covers(publication: Publication)
      reads this, pairing, publication
    {
      && pairing == publication.pairing && source == publication.source && role == publication.role
      && pairing.seal.None? && topology.Some?
      && |topology.value.projections| == |publication.projections|
      && |topology.value.routes| == |publication.coverage| && Complete(publication.View())
    }

    /** Freezes the plan against a publication that covers it: once, and for good. */
    method FreezeAgainst(publication: Publication) returns (r: Result<()>)
      requires Valid() && pairing.Valid()
      requires topology.Some? ==> Sized(ImageOf(source, role, topology.value))
      modifies pairing
      ensures pairing.Valid()
      ensures r.Ok? <==> old(Covers(publication))
      ensures r.Ok? ==> pairing.plan == Some(ImageOf(source, role, topology.value))
      ensures r.Err? ==> pairing.seal == old(pairing.seal) && pairing.plan == old(pairing.plan)
    {
      if pairing != publication.pairing { return Err("different construction identities"); }
      if source != publication.source || role != publication.role { return Err("different source authority"); }
      if pairing.seal.Some? { return Err("ownership expectation is already frozen"); }
      if topology.None? { return Err("ownership expectation has no compact topology"); }
      if |topology.value.projections| != |publication.projections| { return Err("payload count differs"); }
      if |topology.value.routes| != |publication.coverage| { return Err("route count differs"); }
      if !forall route | 0 <= route < |publication.coverage| :: publication.coverage[route] {
        return Err("publication is missing a route");
      }
      if !forall p | 0 <= p < |publication.projections| :: publication.projections[p].rows != 0 {
        return Err("projection has no published rows");
      }
      var plan := ImageOf(source, role, topology.value);
      pairing.seal := Some(SealOf(pairing.h, pairing.domains, plan));
      pairing.plan := Some(plan);
      return Ok(());
    }

    /** Hands the plan over, once, and only after the freeze. */
    method TakeFrozenTopology() returns (r: Result<Topology>)
      requires Valid()
      modifies this
      ensures Valid()
      ensures r.Ok? <==> pairing.seal.Some? && old(topology).Some?
      ensures r.Ok? ==> r.value == old(topology).value && topology.None?
      ensures r.Err? ==> topology == old(topology)
    {
      if pairing.seal.None? { return Err("ownership expectation is not frozen"); }
      if topology.None? { return Err("ownership topology was already consumed"); }
      r := Ok(topology.value);
      topology := None;
    }
  }

  // ---------- Receipts ----------

  datatype Receipt = Receipt(pairing: Pairing, source: Source, role: Role, image: Digest, routeDigest: Digest,
      ownershipDigest: Digest)

  /** A receipt for a finished image. Unless the hash collides, there is one only if the image has the
      digests and routes of the frozen plan, ID for ID. */
  method NewReceipt(pairing: Pairing, handoff: Image, image: Digest, expectation: Expectation)
    returns (r: Result<Receipt>)
    requires pairing.Valid() && Sized(handoff)
    ensures r.Ok? <==>
      && pairing == expectation.pairing && pairing.seal.Some? && expectation.topology.None?
      && Check(pairing.h, pairing.domains, pairing.seal.value, handoff).Ok?
    ensures r.Ok? && CollisionFree(pairing.h, {OwnershipMessage(pairing.domains.ownership, pairing.plan.value),
                                               OwnershipMessage(pairing.domains.ownership, handoff)})
      ==> pairing.plan == Some(handoff)
    ensures r.Ok? ==>
      r.value == Receipt(pairing, handoff.source, handoff.role, image, pairing.seal.value.routeDigest,
                         pairing.seal.value.ownershipDigest)
  {
    if pairing != expectation.pairing { return Err("receipt received a foreign ownership expectation"); }
    if pairing.seal.None? { return Err("construction identity has no frozen ownership expectation"); }
    if expectation.topology.Some? { return Err("ownership topology was not consumed"); }
    var seal := pairing.seal.value;
    var checked := Check(pairing.h, pairing.domains, seal, handoff);
    if checked.Err? { return Err(checked.message); }
    if CollisionFree(pairing.h, {OwnershipMessage(pairing.domains.ownership, pairing.plan.value),
                                 OwnershipMessage(pairing.domains.ownership, handoff)}) {
      CheckIsExact(pairing.h, pairing.domains, pairing.plan.value, handoff);
    }
    return Ok(Receipt(pairing, handoff.source, handoff.role, image, seal.routeDigest, seal.ownershipDigest));
  }
}
