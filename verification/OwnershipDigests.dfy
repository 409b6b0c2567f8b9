/** The digests that bind a checked image to its ownership plan, and what they pin down. */
module OwnershipDigests {
  import opened Wrappers
  import opened Bytes

  const U32_LIMIT: nat := 0x1_0000_0000

  /** Programs have one of three roles, row domains one of 25 codes. */
  type Role = r: nat | r < 3

  type RowDomain = d: nat | d < 25

  type Source = Digest

  /** A routed entity: which row it is, and the projection that owns it. */
  datatype Route = Route(domain: RowDomain, index: nat, projection: nat)

  /** What identifies an image: source, role, projection digests in order, and routes in order. */
  datatype Image = Image(source: Source, role: Role, digests: seq<Digest>, routes: seq<Route>)

  predicate Sized(image: Image) {
    && |image.digests| < U64_LIMIT && |image.routes| < U64_LIMIT
    && forall i | 0 <= i < |image.routes| :: image.routes[i].index < U32_LIMIT
  }

  predicate Owned(image: Image) {
    forall i | 0 <= i < |image.routes| :: image.routes[i].projection < |image.digests|
  }

  predicate RouteLess(a: Route, b: Route) { a.domain < b.domain || (a.domain == b.domain && a.index < b.index) }

  predicate RoutesSorted(routes: seq<Route>) {
    forall i | 0 < i < |routes| :: RouteLess(routes[i - 1], routes[i])
  }

  // ---------- Messages ----------

  function DigestBytes(digests: seq<Digest>): (r: seq<Byte>)
    ensures |r| == 32 * |digests|
  {
    if digests == [] then [] else Raw(digests[0]) + DigestBytes(digests[1..])
  }

  function RouteRow(digests: seq<Digest>, route: Route): (r: seq<Byte>)
    requires route.projection < |digests|
    ensures |r| == 37
  {
    [route.domain] + (BigEndian(route.index, 4) + Raw(digests[route.projection]))
  }

  function RouteBytes(digests: seq<Digest>, routes: seq<Route>): (r: seq<Byte>)
    requires forall i | 0 <= i < |routes| :: routes[i].projection < |digests|
    ensures |r| == 37 * |routes|
  {
    if routes == [] then [] else RouteRow(digests, routes[0]) + RouteBytes(digests, routes[1..])
  }

  function RouteMessage(domain: seq<Byte>, image: Image): seq<Byte>
    requires Owned(image)
  {
    domain + (Count64(|image.routes|) + RouteBytes(image.digests, image.routes))
  }

  function OwnershipMessage(domain: seq<Byte>, image: Image): seq<Byte>
    requires Owned(image)
  {
    domain + (Raw(image.source) + ([image.role] + (Count64(|image.digests|) + (DigestBytes(image.digests)
      + (Count64(|image.routes|) + RouteBytes(image.digests, image.routes))))))
  }

  // ---------- Reading messages back ----------

  lemma {:induction false} DigestBytesInjective(a: seq<Digest>, b: seq<Digest>)
    requires DigestBytes(a) == DigestBytes(b) && |a| == |b|
    ensures a == b
  {
    if a != [] {
      CutAt(a[0], DigestBytes(a[1..]), b[0], DigestBytes(b[1..]));
      DigestBytesInjective(a[1..], b[1..]);
      assert a == [a[0]] + a[1..] && b == [b[0]] + b[1..];
    }
  }

  /** Digests without repeats identify the projection. */
  ghost predicate Distinct(digests: seq<Digest>) {
    forall i, j | 0 <= i < |digests| && 0 <= j < |digests| && digests[i] == digests[j] :: i == j
  }

  lemma {:induction false} RouteRowInjective(digests: seq<Digest>, a: Route, b: Route)
    requires Distinct(digests) && a.projection < |digests| && b.projection < |digests|
    requires a.index < U32_LIMIT && b.index < U32_LIMIT && RouteRow(digests, a) == RouteRow(digests, b)
    ensures a == b
  {
    var x, y := BigEndian(a.index, 4), BigEndian(b.index, 4);
    CutAt([a.domain], x + Raw(digests[a.projection]), [b.domain], y + Raw(digests[b.projection]));
    assert [a.domain][0] == [b.domain][0];
    CutAt(x, Raw(digests[a.projection]), y, Raw(digests[b.projection]));
    assert Pow256(4) == U32_LIMIT by { assert Pow256(2) == 0x1_0000; }
    BigEndianInjective(a.index, b.index, 4);
  }

  lemma {:induction false} RouteBytesInjective(digests: seq<Digest>, a: seq<Route>, b: seq<Route>)
    requires Distinct(digests) && |a| == |b|
    requires forall i | 0 <= i < |a| :: a[i].projection < |digests| && a[i].index < U32_LIMIT
    requires forall i | 0 <= i < |b| :: b[i].projection < |digests| && b[i].index < U32_LIMIT
    requires RouteBytes(digests, a) == RouteBytes(digests, b)
    ensures a == b
  {
    if a != [] {
      CutAt(RouteRow(digests, a[0]), RouteBytes(digests, a[1..]), RouteRow(digests, b[0]), RouteBytes(digests, b[1..]));
      RouteRowInjective(digests, a[0], b[0]);
      RouteBytesInjective(digests, a[1..], b[1..]);
      assert a == [a[0]] + a[1..] && b == [b[0]] + b[1..];
    }
  }

  /** The ownership message pins down the whole image: source, role, every digest and every route, ID
      for ID. */
  lemma {:induction false} OwnershipMessageInjective(domain: seq<Byte>, a: Image, b: Image)
    requires Owned(a) && Owned(b) && Sized(a) && Sized(b) && Distinct(a.digests)
    requires OwnershipMessage(domain, a) == OwnershipMessage(domain, b)
    ensures a == b
  {
    var ra, rb := RouteBytes(a.digests, a.routes), RouteBytes(b.digests, b.routes);
    var ta, tb := Count64(|a.routes|) + ra, Count64(|b.routes|) + rb;
    var da, db := DigestBytes(a.digests) + ta, DigestBytes(b.digests) + tb;
    var ca, cb := Count64(|a.digests|) + da, Count64(|b.digests|) + db;
    CutAt(domain, Raw(a.source) + ([a.role] + ca), domain, Raw(b.source) + ([b.role] + cb));
    CutAt(Raw(a.source), [a.role] + ca, Raw(b.source), [b.role] + cb);
    CutAt([a.role], ca, [b.role], cb);
    assert [a.role][0] == [b.role][0];
    CutAt(Count64(|a.digests|), da, Count64(|b.digests|), db);
    Count64Injective(|a.digests|, |b.digests|);
    CutAt(DigestBytes(a.digests), ta, DigestBytes(b.digests), tb);
    DigestBytesInjective(a.digests, b.digests);
    CutAt(Count64(|a.routes|), ra, Count64(|b.routes|), rb);
    Count64Injective(|a.routes|, |b.routes|);
    RouteBytesInjective(a.digests, a.routes, b.routes);
  }

  /** A route as it is written: the owner by its digest. */
  function Written(digests: seq<Digest>, route: Route): (RowDomain, nat, Digest)
    requires route.projection < |digests|
  {
    (route.domain, route.index, digests[route.projection])
  }

  lemma {:induction false} RouteRowExact(d: seq<Digest>, a: Route, e: seq<Digest>, b: Route)
    requires a.projection < |d| && b.projection < |e| && a.index < U32_LIMIT && b.index < U32_LIMIT
    requires RouteRow(d, a) == RouteRow(e, b)
    ensures Written(d, a) == Written(e, b)
  {
    var x, y := BigEndian(a.index, 4), BigEndian(b.index, 4);
    CutAt([a.domain], x + Raw(d[a.projection]), [b.domain], y + Raw(e[b.projection]));
    assert [a.domain][0] == [b.domain][0];
    CutAt(x, Raw(d[a.projection]), y, Raw(e[b.projection]));
    assert Pow256(4) == U32_LIMIT by { assert Pow256(2) == 0x1_0000; }
    BigEndianInjective(a.index, b.index, 4);
  }

  lemma {:induction false} RouteBytesExact(d: seq<Digest>, a: seq<Route>, e: seq<Digest>, b: seq<Route>, i: nat)
    requires |a| == |b| && i < |a|
    requires forall k | 0 <= k < |a| :: a[k].projection < |d| && a[k].index < U32_LIMIT
    requires forall k | 0 <= k < |b| :: b[k].projection < |e| && b[k].index < U32_LIMIT
    requires RouteBytes(d, a) == RouteBytes(e, b)
    ensures Written(d, a[i]) == Written(e, b[i])
  {
    CutAt(RouteRow(d, a[0]), RouteBytes(d, a[1..]), RouteRow(e, b[0]), RouteBytes(e, b[1..]));
    if i == 0 {
      RouteRowExact(d, a[0], e, b[0]);
    } else {
      RouteBytesExact(d, a[1..], e, b[1..], i - 1);
    }
  }

  /** The route message pins down, route by route, the entity and the digest of its owner. */
  lemma {:induction false} RouteMessageExact(domain: seq<Byte>, a: Image, b: Image)
    requires Owned(a) && Owned(b) && Sized(a) && Sized(b) && RouteMessage(domain, a) == RouteMessage(domain, b)
    ensures |a.routes| == |b.routes|
    ensures forall i | 0 <= i < |a.routes| :: Written(a.digests, a.routes[i]) == Written(b.digests, b.routes[i])
  {
    var x, y := RouteBytes(a.digests, a.routes), RouteBytes(b.digests, b.routes);
    CutAt(domain, Count64(|a.routes|) + x, domain, Count64(|b.routes|) + y);
    CutAt(Count64(|a.routes|), x, Count64(|b.routes|), y);
    Count64Injective(|a.routes|, |b.routes|);
    forall i | 0 <= i < |a.routes| ensures Written(a.digests, a.routes[i]) == Written(b.digests, b.routes[i]) {
      RouteBytesExact(a.digests, a.routes, b.digests, b.routes, i);
    }
  }

  // ---------- Seals and receipts ----------

  datatype Domains = Domains(routes: seq<Byte>, ownership: seq<Byte>)

  /** What stays of a frozen plan. */
  datatype Seal = Seal(source: Source, role: Role, routeDigest: Digest, ownershipDigest: Digest)

  function SealOf(h: Hash, domains: Domains, plan: Image): (r: Seal)
    requires Owned(plan)
  {
    Seal(plan.source, plan.role, h(RouteMessage(domains.routes, plan)), h(OwnershipMessage(domains.ownership, plan)))
  }

  /** Whether a finished image matches a seal. */
  function Check(h: Hash, domains: Domains, seal: Seal, image: Image): (r: Result<()>) {
    if image.source != seal.source || image.role != seal.role then Err("handoff differs from its frozen ownership plan")
    else if !RoutesSorted(image.routes) then Err("entity routes are not globally strict-sorted")
    else if !Owned(image) then Err("route references missing projection")
    else if h(RouteMessage(domains.routes, image)) != seal.routeDigest
         || h(OwnershipMessage(domains.ownership, image)) != seal.ownershipDigest
    then Err("handoff differs from its frozen ownership plan")
    else Ok(())
  }

  /** Without collisions between the two ownership messages, an image passes exactly when it is the
      frozen plan. */
  lemma {:induction false} CheckIsExact(h: Hash, domains: Domains, plan: Image, image: Image)
    requires Owned(plan) && Sized(plan) && Sized(image) && Distinct(plan.digests) && RoutesSorted(plan.routes)
    requires Owned(image) ==>
      CollisionFree(h, {OwnershipMessage(domains.ownership, plan), OwnershipMessage(domains.ownership, image)})
    ensures Check(h, domains, SealOf(h, domains, plan), image).Ok? <==> image == plan
  {
    if Check(h, domains, SealOf(h, domains, plan), image).Ok? {
      OwnershipMessageInjective(domains.ownership, plan, image);
    }
  }
}
