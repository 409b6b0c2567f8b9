/** What projection digests depend on: exactly the condensed dependency cone. */
module ConeTheorems {
  import opened Bytes
  import opened ConeDigests

  /** The two graphs show the same condensed cone at `v`: the same projections with the same
      local digests, grouped into the same components, with the same components below each. */
  ghost predicate SameCone(a: Projections, b: Projections, v: Digest)
    requires Valid(a) && Valid(b)
  {
    && Cone(a.links, v) == Cone(b.links, v)
    && forall w | w in Cone(a.links, v) :: SameAt(a, b, w)
  }

  ghost predicate SameAt(a: Projections, b: Projections, w: Digest)
    requires Valid(a) && Valid(b)
  {
    && w in a.links && w in b.links && a.locals[w] == b.locals[w]
    && Cone(a.links, w) == Cone(b.links, w)
    && Component(a.links, w) == Component(b.links, w)
    && Below(a.links, w) == Below(b.links, w)
  }

  lemma {:induction false} ConeNested(links: Links, v: Digest, w: Digest)
    requires w in Cone(links, v)
    ensures Cone(links, w) <= Cone(links, v)
  {
    forall x | x in Cone(links, w) ensures x in Cone(links, v) { ReachTrans(links, v, w, x); }
  }

  lemma {:induction false} ComponentInCone(links: Links, v: Digest)
    ensures Component(links, v) <= Cone(links, v)
  {
  }

  /** The cone of a projection is its component and the cones of the components below. */
  lemma {:induction false} ConeSplit(g: Projections, v: Digest, w: Digest)
    requires Valid(g) && v in g.links && w in Cone(g.links, v)
    ensures w in Component(g.links, v) || exists r :: r in Below(g.links, v) && w in Cone(g.links, r)
  {
    var links := g.links;
    var inside := set y | y in links &&
      (y in Component(links, v) || exists r :: r in Below(links, v) && y in Cone(links, r));
    ReachSelf(links, v);
    forall x, y | x in inside && x in links && y in links[x] && y in links ensures y in inside {
      if x in Component(links, v) {
        if y !in Component(links, v) {
          var r := Representative(links, y);
          assert r in Below(links, v) && y in Cone(links, r);
        }
      } else {
        var r :| r in Below(links, v) && x in Cone(links, r);
        ReachStep(links, r, x, y);
        assert y in Cone(links, r);
      }
    }
    ReachStaysIn(links, inside, v, w);
  }

  lemma {:induction false} SameMembers(a: Projections, b: Projections, v: Digest)
    requires Valid(a) && Valid(b) && v in a.links && SameCone(a, b, v)
    requires Component(a.links, v) == Component(b.links, v)
    ensures Members(a, v) == Members(b, v)
  {
    var ids := Ascending(Component(a.links, v));
    forall i | 0 <= i < |ids| ensures ids[i] in a.locals && ids[i] in b.locals && a.locals[ids[i]] == b.locals[ids[i]] {
      assert ids[i] in ids;
      assert SameAt(a, b, ids[i]);
    }
  }

  /** Same condensed cone, same digest. */
  lemma {:induction false} SameDigest(h: Hash, domain: seq<Byte>, a: Projections, b: Projections, v: Digest)
    requires Valid(a) && Valid(b) && v in a.links && SameCone(a, b, v)
    ensures v in b.links && ComponentDigest(h, domain, a, v) == ComponentDigest(h, domain, b, v)
    decreases |Cone(a.links, v)|, 1, 0
  {
    ReachSelf(a.links, v);
    assert SameAt(a, b, v);
    SameMembers(a, b, v);
    SameBelow(h, domain, a, b, v, Ascending(Below(a.links, v)));
  }

  lemma {:induction false} SameBelow(h: Hash, domain: seq<Byte>, a: Projections, b: Projections, v: Digest,
      ids: seq<Digest>)
    requires Valid(a) && Valid(b) && v in a.links && v in b.links && SameCone(a, b, v)
    requires Below(a.links, v) == Below(b.links, v) && forall x | x in ids :: x in Below(a.links, v)
    ensures BelowDigests(h, domain, a, v, ids) == BelowDigests(h, domain, b, v, ids)
    decreases |Cone(a.links, v)|, 0, |ids|
  {
    if ids != [] {
      var r := ids[0];
      BelowShrinks(a, v, r);
      ShrinksCard(Cone(a.links, r), Cone(a.links, v));
      ReachSelf(a.links, r);
      assert SameAt(a, b, r);
      SameDigest(h, domain, a, b, r);
      SameBelow(h, domain, a, b, v, ids[1..]);
    }
  }

  lemma {:induction false} SameRepresentative(a: Projections, b: Projections, v: Digest)
    requires Valid(a) && Valid(b) && v in a.links && SameCone(a, b, v)
    ensures v in b.links && Representative(a.links, v) == Representative(b.links, v)
    ensures SameCone(a, b, Representative(a.links, v))
  {
    ReachSelf(a.links, v);
    assert SameAt(a, b, v);
    var r := Representative(a.links, v);
    assert r in Cone(a.links, v);
    ConeNested(a.links, v, r);
    assert SameAt(a, b, r);
  }

  /** Sealing is local: a digest does not change with anything outside the projection's cone. */
  lemma {:induction false} Local(h: Hash, component: seq<Byte>, domain: seq<Byte>, a: Projections, b: Projections,
      v: Digest)
    requires Valid(a) && Valid(b) && v in a.links
    requires forall w | w in Cone(a.links, v) ::
               w in b.links && a.links[w] == b.links[w] && a.locals[w] == b.locals[w]
    ensures v in b.links && SameCone(a, b, v)
    ensures ImplementationDigest(h, component, domain, a, v) == ImplementationDigest(h, component, domain, b, v)
  {
    ReachSelf(a.links, v);
    assert v in Cone(a.links, v);
    LocalCone(a, b, v, v);
    forall w | w in Cone(a.links, v) ensures SameAt(a, b, w) { LocalAt(a, b, v, w); }
    SameRepresentative(a, b, v);
    SameDigest(h, component, a, b, Representative(a.links, v));
  }

  ghost predicate AgreeOn(a: Projections, b: Projections, v: Digest)
    requires Valid(a) && Valid(b)
  {
    && v in a.links
    && forall w | w in Cone(a.links, v) ::
         w in b.links && a.links[w] == b.links[w] && a.locals[w] == b.locals[w]
  }

  lemma {:induction false} LocalPath(a: Projections, b: Projections, v: Digest, x: Digest, y: Digest)
    requires Valid(a) && Valid(b) && AgreeOn(a, b, v) && x in Cone(a.links, v)
    ensures Reach(a.links, x, y) <==> Reach(b.links, x, y)
  {
    if Reach(a.links, x, y) {
      var inside := set z | z in a.links && z in b.links && Reach(a.links, x, z) && Reach(b.links, x, z);
      ReachSelf(a.links, x);
      ReachSelf(b.links, x);
      forall p, q | p in inside && p in a.links && q in a.links[p] && q in a.links ensures q in inside {
        ReachTrans(a.links, v, x, p);
        ReachStep(a.links, x, p, q);
        ReachStep(b.links, x, p, q);
      }
      ReachStaysIn(a.links, inside, x, y);
    }
    if Reach(b.links, x, y) {
      var inside := set z | z in a.links && z in b.links && Reach(a.links, x, z) && Reach(b.links, x, z);
      ReachSelf(a.links, x);
      ReachSelf(b.links, x);
      forall p, q | p in inside && p in b.links && q in b.links[p] && q in b.links ensures q in inside {
        ReachTrans(a.links, v, x, p);
        ReachStep(b.links, x, p, q);
        ReachStep(a.links, x, p, q);
      }
      ReachStaysIn(b.links, inside, x, y);
    }
  }

  lemma {:induction false} LocalCone(a: Projections, b: Projections, v: Digest, w: Digest)
    requires Valid(a) && Valid(b) && AgreeOn(a, b, v) && w in Cone(a.links, v)
    ensures Cone(a.links, w) == Cone(b.links, w)
    ensures Component(a.links, w) == Component(b.links, w)
  {
    ConeNested(a.links, v, w);
    forall x ensures x in Cone(a.links, w) <==> x in Cone(b.links, w) {
      LocalPath(a, b, v, w, x);
      if x in Cone(b.links, w) { ReachInDomain(a.links, w, x); }
    }
    forall x ensures x in Component(a.links, w) <==> x in Component(b.links, w) {
      if x in Cone(a.links, w) { LocalPath(a, b, v, x, w); }
    }
  }

  lemma {:induction false} ReachInDomain(links: Links, x: Digest, y: Digest)
    requires Reach(links, x, y)
    ensures x in links && y in links
  {
  }

  lemma {:induction false} LocalAt(a: Projections, b: Projections, v: Digest, w: Digest)
    requires Valid(a) && Valid(b) && AgreeOn(a, b, v) && w in Cone(a.links, v)
    ensures SameAt(a, b, w)
  {
    LocalCone(a, b, v, w);
    ConeNested(a.links, v, w);
    ComponentInCone(a.links, w);
    forall r ensures r in Below(a.links, w) <==> r in Below(b.links, w) {
      if r in Below(a.links, w) {
        var x, y :| x in Component(a.links, w) && y in a.links[x] && y !in Component(a.links, w)
                    && r == Representative(a.links, y);
        LocalTarget(a, b, v, x, y);
      }
      if r in Below(b.links, w) {
        var x, y :| x in Component(b.links, w) && y in b.links[x] && y !in Component(b.links, w)
                    && r == Representative(b.links, y);
        LocalTarget(a, b, v, x, y);
      }
    }
  }

  lemma {:induction false} LocalTarget(a: Projections, b: Projections, v: Digest, x: Digest, y: Digest)
    requires Valid(a) && Valid(b) && AgreeOn(a, b, v) && x in Cone(a.links, v) && y in a.links[x]
    ensures y in b.links && Representative(a.links, y) == Representative(b.links, y)
  {
    ReachStep(a.links, v, x, y);
    LocalCone(a, b, v, y);
  }

  // ---------- The digest determines the condensed cone ----------

  lemma {:induction false} PairBytesInjective(p: seq<(Digest, Digest)>, q: seq<(Digest, Digest)>)
    requires PairBytes(p) == PairBytes(q)
    ensures p == q
  {
    assert |p| == |q|;
    if p != [] {
      var x, y := PairBytes(p), PairBytes(q);
      assert x[..32] == p[0].0 && y[..32] == q[0].0;
      assert x[32..64] == p[0].1 && y[32..64] == q[0].1;
      assert x[64..] == PairBytes(p[1..]) && y[64..] == PairBytes(q[1..]);
      PairBytesInjective(p[1..], q[1..]);
      assert p == [p[0]] + p[1..] && q == [q[0]] + q[1..];
    }
  }

  /** A counted list can be read back, whatever follows it. */
  lemma {:induction false} CountedInjective(p: seq<(Digest, Digest)>, q: seq<(Digest, Digest)>, x: seq<Byte>,
      y: seq<Byte>)
    requires |p| < U64_LIMIT && |q| < U64_LIMIT && Counted(p) + x == Counted(q) + y
    ensures p == q && x == y
  {
    var c, d := Count64(|p|), Count64(|q|);
    assert Counted(p) + x == c + (PairBytes(p) + x);
    assert Counted(q) + y == d + (PairBytes(q) + y);
    CutAt(c, PairBytes(p) + x, d, PairBytes(q) + y);
    Count64Injective(|p|, |q|);
    CutAt(PairBytes(p), x, PairBytes(q), y);
    PairBytesInjective(p, q);
  }

  /** The bytes hashed for a component can be read back. */
  lemma {:induction false} ComponentMessageInjective(domain: seq<Byte>, m1: seq<(Digest, Digest)>,
      b1: seq<(Digest, Digest)>,
                                  m2: seq<(Digest, Digest)>, b2: seq<(Digest, Digest)>)
    requires |m1| < U64_LIMIT && |m2| < U64_LIMIT && |b1| < U64_LIMIT && |b2| < U64_LIMIT
    requires ComponentMessage(domain, m1, b1) == ComponentMessage(domain, m2, b2)
    ensures m1 == m2 && b1 == b2
  {
    CutAt(domain, Counted(m1) + Counted(b1), domain, Counted(m2) + Counted(b2));
    CountedInjective(m1, m2, Counted(b1), Counted(b2));
    assert Counted(b1) + [] == Counted(b1) && Counted(b2) + [] == Counted(b2);
    CountedInjective(b1, b2, [], []);
  }

  /** Every component message hashed while sealing `g`. */
  ghost function Messages(h: Hash, domain: seq<Byte>, g: Projections): (r: set<seq<Byte>>)
    requires Valid(g)
  {
    set v | v in g.links :: MessageOf(h, domain, g, v)
  }

  lemma {:induction false} ComponentSmall(g: Projections, v: Digest)
    requires Valid(g)
    ensures |Component(g.links, v)| < U64_LIMIT
  {
    SubsetCard(Component(g.links, v), g.links.Keys);
  }

  lemma {:induction false} LocalsDetermine(a: map<Digest, Digest>, p: seq<Digest>, b: map<Digest, Digest>,
      q: seq<Digest>)
    requires forall i | 0 <= i < |p| :: p[i] in a
    requires forall i | 0 <= i < |q| :: q[i] in b
    requires WithLocals(a, p) == WithLocals(b, q)
    ensures p == q && forall i | 0 <= i < |p| :: a[p[i]] == b[p[i]]
  {
    assert |p| == |q|;
    forall i | 0 <= i < |p| ensures p[i] == q[i] && a[p[i]] == b[q[i]] {
      assert WithLocals(a, p)[i] == WithLocals(b, q)[i];
    }
  }

  lemma {:induction false} ListedDetermines(c: set<Digest>, a: map<Digest, Digest>, d: set<Digest>,
      b: map<Digest, Digest>)
    requires c <= a.Keys && d <= b.Keys && Listed(a, c) == Listed(b, d)
    ensures c == d && forall w | w in c :: a[w] == b[w]
  {
    var p, q := Ascending(c), Ascending(d);
    assert forall i | 0 <= i < |p| :: p[i] in p;
    assert forall i | 0 <= i < |q| :: q[i] in q;
    LocalsDetermine(a, p, b, q);
    AscendingEqual(c, d);
    forall w | w in c ensures a[w] == b[w] {
      assert w in p;
      var i :| 0 <= i < |p| && p[i] == w;
    }
  }

  /** Equal lists of members mean equal components with equal local digests. */
  lemma {:induction false} MembersDetermine(a: Projections, b: Projections, v: Digest)
    requires Valid(a) && Valid(b) && Members(a, v) == Members(b, v)
    ensures Component(a.links, v) == Component(b.links, v)
    ensures forall w | w in Component(a.links, v) :: w in b.locals && a.locals[w] == b.locals[w]
  {
    assert Component(a.links, v) <= a.links.Keys && Component(b.links, v) <= b.links.Keys;
    ListedDetermines(Component(a.links, v), a.locals, Component(b.links, v), b.locals);
  }

  lemma {:induction false} BelowDetermine(h: Hash, domain: seq<Byte>, a: Projections, b: Projections, v: Digest,
                       p: seq<Digest>, q: seq<Digest>)
    requires Valid(a) && Valid(b) && v in a.links && v in b.links
    requires (forall x | x in p :: x in Below(a.links, v)) && (forall x | x in q :: x in Below(b.links, v))
    requires BelowDigests(h, domain, a, v, p) == BelowDigests(h, domain, b, v, q)
    ensures p == q
    ensures forall x | x in p :: x in a.links && x in b.links
              && ComponentDigest(h, domain, a, x) == ComponentDigest(h, domain, b, x)
  {
    assert |p| == |q|;
    forall i: nat | i < |p|
      ensures p[i] == q[i] && p[i] in a.links && p[i] in b.links
      ensures ComponentDigest(h, domain, a, p[i]) == ComponentDigest(h, domain, b, p[i])
    {
      BelowDigestsAt(h, domain, a, v, p, i);
      BelowDigestsAt(h, domain, b, v, q, i);
    }
  }

  lemma {:induction false} BelowSmall(g: Projections, v: Digest)
    requires Valid(g) && v in g.links
    ensures |Below(g.links, v)| < U64_LIMIT
  {
    forall r | r in Below(g.links, v) ensures r in g.links { BelowShrinks(g, v, r); }
    SubsetCard(Below(g.links, v), g.links.Keys);
  }

  lemma {:induction false} PartsSmall(g: Projections, v: Digest)
    requires Valid(g) && v in g.links
    ensures |Members(g, v)| < U64_LIMIT && |Ascending(Below(g.links, v))| < U64_LIMIT
  {
    ComponentSmall(g, v);
    BelowSmall(g, v);
  }

  lemma {:induction false} EqualMessages(h: Hash, domain: seq<Byte>, a: Projections, b: Projections, v: Digest)
    requires Valid(a) && Valid(b) && v in a.links && v in b.links
    requires CollisionFree(h, Messages(h, domain, a) + Messages(h, domain, b))
    requires ComponentDigest(h, domain, a, v) == ComponentDigest(h, domain, b, v)
    ensures MessageOf(h, domain, a, v) == MessageOf(h, domain, b, v)
  {
    var x, y := MessageOf(h, domain, a, v), MessageOf(h, domain, b, v);
    assert x in Messages(h, domain, a) && y in Messages(h, domain, b);
  }

  lemma {:induction false} SameMessage(h: Hash, domain: seq<Byte>, a: Projections, b: Projections, v: Digest)
    requires Valid(a) && Valid(b) && v in a.links && v in b.links
    requires CollisionFree(h, Messages(h, domain, a) + Messages(h, domain, b))
    requires ComponentDigest(h, domain, a, v) == ComponentDigest(h, domain, b, v)
    ensures Members(a, v) == Members(b, v)
    ensures BelowDigests(h, domain, a, v, Ascending(Below(a.links, v)))
         == BelowDigests(h, domain, b, v, Ascending(Below(b.links, v)))
  {
    EqualMessages(h, domain, a, b, v);
    PartsSmall(a, v);
    PartsSmall(b, v);
    ComponentMessageInjective(domain,
      Members(a, v), BelowDigests(h, domain, a, v, Ascending(Below(a.links, v))),
      Members(b, v), BelowDigests(h, domain, b, v, Ascending(Below(b.links, v))));
  }

  lemma {:induction false} AscendingEqual(c: set<Digest>, d: set<Digest>)
    requires Ascending(c) == Ascending(d)
    ensures c == d
  {
    forall w: Digest ensures w in c <==> w in d {
      assert w in c <==> w in Ascending(c);
      assert w in d <==> w in Ascending(d);
    }
  }

  lemma {:induction false} BelowSetDetermine(h: Hash, domain: seq<Byte>, a: Projections, b: Projections, v: Digest)
    requires Valid(a) && Valid(b) && v in a.links && v in b.links
    requires BelowDigests(h, domain, a, v, Ascending(Below(a.links, v)))
          == BelowDigests(h, domain, b, v, Ascending(Below(b.links, v)))
    ensures Below(a.links, v) == Below(b.links, v)
    ensures forall r | r in Below(a.links, v) :: r in a.links && r in b.links
              && ComponentDigest(h, domain, a, r) == ComponentDigest(h, domain, b, r)
  {
    BelowDetermine(h, domain, a, b, v, Ascending(Below(a.links, v)), Ascending(Below(b.links, v)));
    AscendingEqual(Below(a.links, v), Below(b.links, v));
  }

  /** Without a collision, equal component digests mean equal components with equal local
      digests, and equal digests for the same components below. */
  lemma {:induction false} DigestDetermines(h: Hash, domain: seq<Byte>, a: Projections, b: Projections, v: Digest)
    requires Valid(a) && Valid(b) && v in a.links && v in b.links
    requires CollisionFree(h, Messages(h, domain, a) + Messages(h, domain, b))
    requires ComponentDigest(h, domain, a, v) == ComponentDigest(h, domain, b, v)
    ensures Component(a.links, v) == Component(b.links, v)
    ensures forall w | w in Component(a.links, v) :: w in b.locals && a.locals[w] == b.locals[w]
    ensures Below(a.links, v) == Below(b.links, v)
    ensures forall r | r in Below(a.links, v) :: r in a.links && r in b.links
              && ComponentDigest(h, domain, a, r) == ComponentDigest(h, domain, b, r)
  {
    SameMessage(h, domain, a, b, v);
    MembersDetermine(a, b, v);
    BelowSetDetermine(h, domain, a, b, v);
  }

  /** Without a collision, equal component digests mean equal condensed cones. */
  lemma {:induction false} DigestDeterminesCone(h: Hash, domain: seq<Byte>, a: Projections, b: Projections, v: Digest)
    requires Valid(a) && Valid(b) && v in a.links && v in b.links
    requires CollisionFree(h, Messages(h, domain, a) + Messages(h, domain, b))
    requires ComponentDigest(h, domain, a, v) == ComponentDigest(h, domain, b, v)
    ensures SameCone(a, b, v)
    decreases |Cone(a.links, v)|
  {
    DigestDetermines(h, domain, a, b, v);
    forall r | r in Below(a.links, v) ensures r in a.links && r in b.links && SameCone(a, b, r) {
      BelowShrinks(a, v, r);
      ShrinksCard(Cone(a.links, r), Cone(a.links, v));
      DigestDeterminesCone(h, domain, a, b, r);
    }
    SameConeFromBelow(a, b, v);
  }

  lemma {:induction false} ConeFromBelow(a: Projections, b: Projections, v: Digest, w: Digest)
    requires Valid(a) && Valid(b) && v in a.links && v in b.links
    requires Component(a.links, v) == Component(b.links, v) && Below(a.links, v) == Below(b.links, v)
    requires forall r | r in Below(a.links, v) :: Cone(a.links, r) == Cone(b.links, r)
    requires w in Cone(a.links, v)
    ensures w in Cone(b.links, v)
  {
    ConeSplit(a, v, w);
    if w !in Component(a.links, v) {
      var r :| r in Below(a.links, v) && w in Cone(a.links, r);
      BelowShrinks(b, v, r);
    }
  }

  /** Equal components below equal components make equal condensed cones. */
  lemma {:induction false} SameConeFromBelow(a: Projections, b: Projections, v: Digest)
    requires Valid(a) && Valid(b) && v in a.links && v in b.links
    requires Component(a.links, v) == Component(b.links, v) && Below(a.links, v) == Below(b.links, v)
    requires forall w | w in Component(a.links, v) :: w in b.locals && a.locals[w] == b.locals[w]
    requires forall r | r in Below(a.links, v) :: SameCone(a, b, r)
    ensures SameCone(a, b, v)
  {
    forall w | w in Cone(a.links, v) ensures w in Cone(b.links, v) { ConeFromBelow(a, b, v, w); }
    forall w | w in Cone(b.links, v) ensures w in Cone(a.links, v) { ConeFromBelow(b, a, v, w); }
    forall w | w in Cone(a.links, v) ensures SameAt(a, b, w) {
      ConeSplit(a, v, w);
      if w in Component(a.links, v) {
        SameAtMember(a, b, v, w);
      } else {
        var r :| r in Below(a.links, v) && w in Cone(a.links, r);
        assert SameCone(a, b, r);
      }
    }
  }

  lemma {:induction false} ConeOfMember(links: Links, v: Digest, w: Digest)
    requires w in Component(links, v)
    ensures Cone(links, w) == Cone(links, v)
  {
    ComponentClass(links, v, w);
    assert v in links by { ReachInDomain(links, v, w); }
    ConeNested(links, v, w);
    ConeNested(links, w, v);
  }

  lemma {:induction false} SameAtMember(a: Projections, b: Projections, v: Digest, w: Digest)
    requires Valid(a) && Valid(b) && v in a.links && v in b.links
    requires Component(a.links, v) == Component(b.links, v) && Below(a.links, v) == Below(b.links, v)
    requires Cone(a.links, v) == Cone(b.links, v)
    requires w in Component(a.links, v) && w in b.locals && a.locals[w] == b.locals[w]
    ensures SameAt(a, b, w)
  {
    ConeOfMember(a.links, v, w);
    ConeOfMember(b.links, v, w);
    ComponentClass(a.links, v, w);
    ComponentClass(b.links, v, w);
    BelowOfClass(a.links, v, w);
    BelowOfClass(b.links, v, w);
  }

  lemma {:induction false} BelowOfClass(links: Links, v: Digest, w: Digest)
    requires forall x, y | x in links && y in links[x] :: y in links
    requires Component(links, w) == Component(links, v)
    ensures Below(links, w) == Below(links, v)
  {
    forall r ensures r in Below(links, w) <==> r in Below(links, v) {
    }
  }

  // ---------- Main results ----------

  lemma {:induction false} ImplementationCut(domain: seq<Byte>, v: Digest, r1: Digest, d1: Digest, r2: Digest,
      d2: Digest)
    requires domain + v + r1 + d1 == domain + v + r2 + d2
    ensures r1 == r2 && d1 == d2
  {
    var x, y := domain + v + r1, domain + v + r2;
    CutAt(x, d1, y, d2);
    CutAt(domain + v, r1, domain + v, r2);
  }

  /** A digest is published for one domain and one projection: without a collision of the two messages, equal digests
      mean the same domain, the same projection, the same representative and the same component digest. */
  lemma {:induction false} DomainsSeparate(h: Hash, component: seq<Byte>, domain: seq<Byte>, a: Projections, v: Digest,
      other: seq<Byte>, b: Projections, w: Digest)
    requires Valid(a) && Valid(b) && v in a.links && w in b.links
    requires CollisionFree(h, {ImplementationMessage(h, component, domain, a, v),
        ImplementationMessage(h, component, other, b, w)})
    requires ImplementationDigest(h, component, domain, a, v) == ImplementationDigest(h, component, other, b, w)
    ensures domain == other && v == w && Representative(a.links, v) == Representative(b.links, w)
    ensures ComponentDigest(h, component, a, Representative(a.links, v)) ==
        ComponentDigest(h, component, b, Representative(b.links, w))
  {
    var ra, rb := Representative(a.links, v), Representative(b.links, w);
    var x, y := ComponentDigest(h, component, a, ra), ComponentDigest(h, component, b, rb);
    assert |domain + v + ra + x| == |domain| + 96 && |other + w + rb + y| == |other| + 96;
    CutAt(domain + v + ra, x, other + w + rb, y);
    CutAt(domain + v, ra, other + w, rb);
    CutAt(domain, v, other, w);
  }

  /** Under a hash without collisions among the messages hashed, two sealed graphs give a
      projection the same implementation digest if and only if they show the same condensed cone. */
  lemma {:induction false} Exact(h: Hash, component: seq<Byte>, domain: seq<Byte>, a: Projections, b: Projections,
      v: Digest)
    requires Valid(a) && Valid(b) && v in a.links && v in b.links
    requires CollisionFree(h, Messages(h, component, a) + Messages(h, component, b))
    requires CollisionFree(h, {ImplementationMessage(h, component, domain, a, v),
        ImplementationMessage(h, component, domain, b, v)})
    ensures ImplementationDigest(h, component, domain, a, v) == ImplementationDigest(h, component, domain, b, v)
       <==> SameCone(a, b, v)
  {
    var ra, rb := Representative(a.links, v), Representative(b.links, v);
    if SameCone(a, b, v) {
      SameRepresentative(a, b, v);
      SameDigest(h, component, a, b, ra);
    }
    if ImplementationDigest(h, component, domain, a, v) == ImplementationDigest(h, component, domain, b, v) {
      ImplementationCut(domain, v, ra, ComponentDigest(h, component, a, ra), rb, ComponentDigest(h, component, b, rb));
      DigestDeterminesCone(h, component, a, b, ra);
      SameConeOfMember(a, b, v, ra);
    }
  }

  lemma {:induction false} SameConeOfMember(a: Projections, b: Projections, v: Digest, r: Digest)
    requires Valid(a) && Valid(b) && r in Component(a.links, v) && r in Component(b.links, v)
    requires SameCone(a, b, r)
    ensures SameCone(a, b, v)
  {
    ConeOfMember(a.links, v, r);
    ConeOfMember(b.links, v, r);
  }

  /** In particular a digest changes with every local digest in the projection's cone. */
  lemma {:induction false} Sensitive(h: Hash, component: seq<Byte>, domain: seq<Byte>, a: Projections, b: Projections,
      v: Digest, w: Digest)
    requires Valid(a) && Valid(b) && v in a.links && v in b.links
    requires CollisionFree(h, Messages(h, component, a) + Messages(h, component, b))
    requires CollisionFree(h, {ImplementationMessage(h, component, domain, a, v),
        ImplementationMessage(h, component, domain, b, v)})
    requires w in Cone(a.links, v) && w in b.locals && a.locals[w] != b.locals[w]
    ensures ImplementationDigest(h, component, domain, a, v) != ImplementationDigest(h, component, domain, b, v)
  {
    Exact(h, component, domain, a, b, v);
    assert !SameAt(a, b, w);
  }

  ghost predicate Mutual(links: Links) { forall x, y | x in links && y in links :: Reach(links, x, y) }

  /** A graph in which all projections depend on each other is one component with nothing below. */
  lemma {:induction false} OneComponent(g: Projections, v: Digest)
    requires Valid(g) && v in g.links && Mutual(g.links)
    ensures Cone(g.links, v) == Component(g.links, v) == g.links.Keys && Below(g.links, v) == {}
  {
    forall x | x in Below(g.links, v) ensures false { BelowShrinks(g, v, x); }
  }

  lemma {:induction false} MutualPair(links: Links, v: Digest, w: Digest)
    requires links.Keys == {v, w} && w in links[v] && v in links[w]
    ensures Mutual(links)
  {
    ReachSelf(links, v);
    ReachSelf(links, w);
    ReachStep(links, v, v, w);
    ReachStep(links, w, w, v);
  }

  /** Inside one component a digest does not depend on the edges. */
  lemma {:induction false} OneComponentSame(h: Hash, component: seq<Byte>, domain: seq<Byte>, a: Projections,
      b: Projections, v: Digest)
    requires Valid(a) && Valid(b) && a.locals == b.locals && v in a.links && Mutual(a.links) && Mutual(b.links)
    ensures ImplementationDigest(h, component, domain, a, v) == ImplementationDigest(h, component, domain, b, v)
  {
    forall w | w in a.links ensures SameAt(a, b, w) {
      OneComponent(a, w);
      OneComponent(b, w);
    }
    OneComponent(a, v);
    OneComponent(b, v);
    SameRepresentative(a, b, v);
    SameDigest(h, component, a, b, Representative(a.links, v));
  }

  /** The condensed cone is all that a digest shows: edges inside a component are not told apart. Here
      one projection of a cycle of two also depends on itself, or not. */
  lemma {:induction false} InnerEdgesFree(h: Hash, component: seq<Byte>, domain: seq<Byte>, locals: map<Digest, Digest>,
      v: Digest, w: Digest)
    requires v != w && locals.Keys == {v, w}
    ensures var a, b := Projections(locals, map[v := {w}, w := {v}]), Projections(locals, map[v := {v, w}, w := {v}]);
            && Valid(a) && Valid(b) && a.links != b.links
            && ImplementationDigest(h, component, domain, a, v) == ImplementationDigest(h, component, domain, b, v)
  {
    var a, b := Projections(locals, map[v := {w}, w := {v}]), Projections(locals, map[v := {v, w}, w := {v}]);
    assert a.links.Keys == {v, w} && b.links.Keys == {v, w} && a.links[v] != b.links[v];
    assert |a.links| == |a.links.Keys| == 2 && |b.links| == |b.links.Keys| == 2;
    MutualPair(a.links, v, w);
    MutualPair(b.links, v, w);
    OneComponentSame(h, component, domain, a, b, v);
  }
}
