/** The reference meaning of projection digests: a function of the abstract dependency graph
    between stable identities, with no registration order, edge order or numbering in it. */
module ConeDigests {
  import opened Bytes
  import Sorting

  type Links = map<Digest, set<Digest>>

  /** What a builder describes: a local digest and a set of dependencies per stable identity. */
  datatype Projections = Projections(locals: map<Digest, Digest>, links: Links)

  ghost predicate Valid(g: Projections) {
    && g.links.Keys == g.locals.Keys
    && (forall v, w | v in g.links && w in g.links[v] :: w in g.links)
    && |g.links| < U64_LIMIT
  }

  // ---------- Reachability ----------

  ghost predicate Path(links: Links, p: seq<Digest>) {
    && p != []
    && (forall i | 0 <= i < |p| :: p[i] in links)
    && (forall i | 0 < i < |p| :: p[i] in links[p[i - 1]])
  }

  ghost predicate Reach(links: Links, x: Digest, y: Digest) {
    exists p: seq<Digest> :: Path(links, p) && p[0] == x && p[|p| - 1] == y
  }

  lemma {:induction false} ReachSelf(links: Links, x: Digest)
    requires x in links
    ensures Reach(links, x, x)
  {
    assert Path(links, [x]);
  }

  lemma {:induction false} ReachStep(links: Links, x: Digest, y: Digest, z: Digest)
    requires Reach(links, x, y) && z in links && z in links[y]
    ensures Reach(links, x, z)
  {
    var p: seq<Digest> :| Path(links, p) && p[0] == x && p[|p| - 1] == y;
    var r := p + [z];
    assert Path(links, r) && r[0] == x && r[|r| - 1] == z;
  }

  lemma {:induction false} ReachTrans(links: Links, x: Digest, y: Digest, z: Digest)
    requires Reach(links, x, y) && Reach(links, y, z)
    ensures Reach(links, x, z)
  {
    var p: seq<Digest> :| Path(links, p) && p[0] == x && p[|p| - 1] == y;
    var q: seq<Digest> :| Path(links, q) && q[0] == y && q[|q| - 1] == z;
    var r := p + q[1..];
    forall i | 0 < i < |r| ensures r[i] in links[r[i - 1]] {
      if i >= |p| {
        var k := i - |p| + 1;
        assert r[i] == q[k] && r[i - 1] == q[k - 1];
      }
    }
    assert Path(links, r) && r[0] == x && r[|r| - 1] == z;
  }

  lemma {:induction false} ReachStaysIn(links: Links, inside: set<Digest>, x: Digest, y: Digest)
    requires forall v, w | v in inside && v in links && w in links[v] && w in links :: w in inside
    requires x in inside && Reach(links, x, y)
    ensures y in inside
  {
    var p: seq<Digest> :| Path(links, p) && p[0] == x && p[|p| - 1] == y;
    var i := 0;
    while i < |p| - 1
      invariant 0 <= i < |p| && p[i] in inside
    {
      i := i + 1;
      assert p[i] in links[p[i - 1]];
    }
  }

  /** Everything a projection depends on, itself included. */
  ghost function Cone(links: Links, v: Digest): (r: set<Digest>) {
    set w | w in links && Reach(links, v, w)
  }

  /** The projections that depend on each other in a cycle with `v`, `v` included. */
  ghost function Component(links: Links, v: Digest): (r: set<Digest>) {
    set w | w in links && Reach(links, v, w) && Reach(links, w, v)
  }

  // ---------- Canonical listings ----------

  ghost function Ascending(s: set<Digest>): (r: seq<Digest>)
    ensures forall x: Digest :: x in r <==> x in s
    ensures |r| == |s|
  {
    DigestOrder();
    Sorting.Ascending(s, DigestLeq)
  }

  // ---------- Digests ----------

  /** The representative of a component: its least identity. */
  ghost function Representative(links: Links, v: Digest): (r: Digest)
    requires v in links
    ensures r in Component(links, v)
  {
    ReachSelf(links, v);
    DigestOrder();
    assert v in Component(links, v);
    Sorting.Least(Component(links, v), DigestLeq)
  }

  lemma {:induction false} RepresentativeLeast(links: Links, v: Digest, w: Digest)
    requires v in links && w in Component(links, v)
    ensures DigestLeq(Representative(links, v), w)
  {
    ReachSelf(links, v);
    DigestOrder();
  }

  /** Representatives of the other components that a component's projections depend on directly. */
  ghost function Below(links: Links, v: Digest): (r: set<Digest>)
    requires forall x, w | x in links && w in links[x] :: w in links
  {
    set x, w | x in Component(links, v) && w in links[x] && w !in Component(links, v) ::
      Representative(links, w)
  }

  /** Pairs of digests, each written as 64 bytes. */
  function PairBytes(pairs: seq<(Digest, Digest)>): (r: seq<Byte>)
    ensures |r| == 64 * |pairs|
  {
    if pairs == [] then [] else Raw(pairs[0].0) + pairs[0].1 + PairBytes(pairs[1..])
  }

  /** A list of pairs behind its length. */
  function Counted(pairs: seq<(Digest, Digest)>): (r: seq<Byte>) {
    Count64(|pairs|) + PairBytes(pairs)
  }

  /** The bytes hashed for one component: its members with their local digests, then the
      representatives and digests of the components below it. */
  function ComponentMessage(domain: seq<Byte>, members: seq<(Digest, Digest)>,
      below: seq<(Digest, Digest)>): (r: seq<Byte>) {
    domain + (Counted(members) + Counted(below))
  }

  function WithLocals(locals: map<Digest, Digest>, ids: seq<Digest>): (r: seq<(Digest, Digest)>)
    requires forall i | 0 <= i < |ids| :: ids[i] in locals
    ensures |r| == |ids| && forall i | 0 <= i < |ids| :: r[i] == (ids[i], locals[ids[i]])
  {
    seq(|ids|, i requires 0 <= i < |ids| => (ids[i], locals[ids[i]]))
  }

  /** The given identities in ascending order, each with its local digest. */
  ghost function Listed(locals: map<Digest, Digest>, s: set<Digest>): (r: seq<(Digest, Digest)>)
    requires s <= locals.Keys
    ensures |r| == |s|
  {
    var ids := Ascending(s);
    assert forall i | 0 <= i < |ids| :: ids[i] in ids;
    WithLocals(locals, ids)
  }

  ghost function Members(g: Projections, v: Digest): (r: seq<(Digest, Digest)>)
    requires Valid(g)
    ensures |r| == |Component(g.links, v)|
  {
    assert Component(g.links, v) <= g.links.Keys;
    Listed(g.locals, Component(g.links, v))
  }

  lemma {:induction false} ComponentClass(links: Links, v: Digest, w: Digest)
    requires w in Component(links, v)
    ensures Component(links, w) == Component(links, v)
  {
    forall x ensures x in Component(links, w) <==> x in Component(links, v) {
      if x in Component(links, w) {
        ReachTrans(links, v, w, x);
        ReachTrans(links, x, w, v);
      }
      if x in Component(links, v) {
        ReachTrans(links, w, v, x);
        ReachTrans(links, x, v, w);
      }
    }
  }

  /** A component below has a strictly smaller cone. */
  lemma {:induction false} BelowShrinks(g: Projections, v: Digest, r: Digest)
    requires Valid(g) && v in g.links && r in Below(g.links, v)
    ensures r in g.links && Cone(g.links, r) < Cone(g.links, v)
  {
    var links := g.links;
    var x, w :| x in Component(links, v) && w in links[x] && w !in Component(links, v)
                && r == Representative(links, w);
    ReachStep(links, v, x, w);
    ReachTrans(links, v, w, r);
    forall y | y in Cone(links, r) ensures y in Cone(links, v) { ReachTrans(links, v, r, y); }
    ReachSelf(links, v);
    assert v in Cone(links, v);
    if v in Cone(links, r) {
      ReachTrans(links, w, r, v);
      assert false;
    }
  }

  ghost function ComponentDigest(h: Hash, domain: seq<Byte>, g: Projections, v: Digest): (r: Digest)
    requires Valid(g) && v in g.links
    decreases |Cone(g.links, v)|, 1
  {
    h(MessageOf(h, domain, g, v))
  }

  ghost function MessageOf(h: Hash, domain: seq<Byte>, g: Projections, v: Digest): (r: seq<Byte>)
    requires Valid(g) && v in g.links
    decreases |Cone(g.links, v)|, 0
  {
    ComponentMessage(domain, Members(g, v), BelowDigests(h, domain, g, v, Ascending(Below(g.links, v))))
  }

  ghost function BelowDigests(h: Hash, domain: seq<Byte>, g: Projections, v: Digest,
      ids: seq<Digest>): (r: seq<(Digest, Digest)>)
    requires Valid(g) && v in g.links && forall x | x in ids :: x in Below(g.links, v)
    ensures |r| == |ids|
    decreases |Cone(g.links, v)|, -1, |ids|
  {
    if ids == [] then []
    else
      BelowShrinks(g, v, ids[0]);
      ShrinksCard(Cone(g.links, ids[0]), Cone(g.links, v));
      [(ids[0], ComponentDigest(h, domain, g, ids[0]))] + BelowDigests(h, domain, g, v, ids[1..])
  }

  lemma {:induction false} BelowDigestsAt(h: Hash, domain: seq<Byte>, g: Projections, v: Digest, ids: seq<Digest>,
      i: nat)
    requires Valid(g) && v in g.links && (forall x | x in ids :: x in Below(g.links, v)) && i < |ids|
    ensures ids[i] in g.links
    ensures BelowDigests(h, domain, g, v, ids)[i] == (ids[i], ComponentDigest(h, domain, g, ids[i]))
  {
    BelowShrinks(g, v, ids[i]);
    if i > 0 {
      BelowDigestsAt(h, domain, g, v, ids[1..], i - 1);
      BelowDigestsTail(h, domain, g, v, ids);
    }
  }

  lemma {:induction false} BelowDigestsTail(h: Hash, domain: seq<Byte>, g: Projections, v: Digest, ids: seq<Digest>)
    requires Valid(g) && v in g.links && (forall x | x in ids :: x in Below(g.links, v)) && ids != []
    ensures BelowDigests(h, domain, g, v, ids)[1..] == BelowDigests(h, domain, g, v, ids[1..])
  {
    BelowShrinks(g, v, ids[0]);
  }

  lemma {:induction false} ShrinksCard(a: set<Digest>, b: set<Digest>)
    requires a < b
    ensures |a| < |b|
  {
    var x :| x in b && x !in a;
    SubsetCard(a, b - {x});
  }

  lemma {:induction false} SubsetCard(a: set<Digest>, b: set<Digest>)
    requires a <= b
    ensures |a| <= |b|
  {
    if a != {} {
      var x :| x in a;
      SubsetCard(a - {x}, b - {x});
    }
  }

  /** The digest published for one projection. */
  ghost function ImplementationMessage(h: Hash, component: seq<Byte>, domain: seq<Byte>, g: Projections,
      v: Digest): (r: seq<Byte>)
    requires Valid(g) && v in g.links
  {
    domain + v + Representative(g.links, v) + ComponentDigest(h, component, g, Representative(g.links, v))
  }

  ghost function ImplementationDigest(h: Hash, component: seq<Byte>, domain: seq<Byte>, g: Projections,
      v: Digest): (r: Digest)
    requires Valid(g) && v in g.links
  {
    h(ImplementationMessage(h, component, domain, g, v))
  }
}
