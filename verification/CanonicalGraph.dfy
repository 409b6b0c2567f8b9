/** The dense canonical form of a projection graph, and why folding its components
    dependency-first computes the reference digests. */
module CanonicalGraph {
  import opened Bytes
  import opened ConeDigests
  import opened TarjanSteps
  import Sorting
  import Graphs
  import Tarjan

  /** Identities in ascending order, with local digests and dependency rows by position. */
  datatype Canonical = Canonical(ids: seq<Digest>, locals: seq<Digest>, rows: Graphs.Adjacency)

  ghost predicate Dense(k: Canonical) {
    && |k.ids| == |k.locals| == |k.rows| && Graphs.InRange(k.rows)
    && Sorting.StrictlySorted(k.ids, DigestLeq)
    && (forall v | 0 <= v < |k.rows| :: Sorting.StrictlySorted(k.rows[v], NatLeq))
  }

  /** `k` is the dense form of `g`. */
  ghost predicate Mirror(g: Projections, k: Canonical) {
    && Valid(g) && Dense(k)
    && (forall id :: id in g.links <==> id in k.ids)
    && (forall v: nat | v < |k.ids| :: g.locals[k.ids[v]] == k.locals[v])
    && (forall v: nat, w: nat | v < |k.ids| && w < |k.ids| ::
          k.ids[w] in g.links[k.ids[v]] <==> w in k.rows[v])
  }

  lemma {:induction false} IdsDistinct(k: Canonical, v: nat, w: nat)
    requires Dense(k) && v < |k.ids| && w < |k.ids| && k.ids[v] == k.ids[w]
    ensures v == w
  {
  }

  /** The identities at the given positions. */
  ghost function IdsOf(k: Canonical, nodes: seq<nat>): (r: seq<Digest>)
    requires forall i | 0 <= i < |nodes| :: nodes[i] < |k.ids|
    ensures |r| == |nodes| && forall i | 0 <= i < |nodes| :: r[i] == k.ids[nodes[i]]
  {
    seq(|nodes|, i requires 0 <= i < |nodes| => k.ids[nodes[i]])
  }

  lemma {:induction false} MirrorForward(g: Projections, k: Canonical, v: nat, w: nat)
    requires Mirror(g, k) && Graphs.Reach(k.rows, v, w)
    ensures v < |k.ids| && w < |k.ids| && Reach(g.links, k.ids[v], k.ids[w])
  {
    var p: seq<nat> :| Graphs.Path(k.rows, p) && p[0] == v && p[|p| - 1] == w;
    PathForward(g, k, p);
    assert IdsOf(k, p)[0] == k.ids[v] && IdsOf(k, p)[|p| - 1] == k.ids[w];
  }

  lemma {:induction false} PathForward(g: Projections, k: Canonical, p: seq<nat>)
    requires Mirror(g, k) && Graphs.Path(k.rows, p)
    ensures (forall i | 0 <= i < |p| :: p[i] < |k.ids|) && Path(g.links, IdsOf(k, p))
  {
    var q := IdsOf(k, p);
    forall i | 0 < i < |q| ensures q[i] in g.links[q[i - 1]] {
      assert Graphs.Edge(k.rows, p[i - 1], p[i]);
    }
  }

  ghost function IndexOf(ids: seq<Digest>, id: Digest): (i: nat)
    requires id in ids
    ensures i < |ids| && ids[i] == id
  {
    var i :| 0 <= i < |ids| && ids[i] == id;
    i
  }

  lemma {:induction false} EdgeBackward(g: Projections, k: Canonical, x: Digest, y: Digest)
    requires Mirror(g, k) && x in g.links && y in g.links[x]
    ensures x in k.ids && y in k.ids && Graphs.Edge(k.rows, IndexOf(k.ids, x), IndexOf(k.ids, y))
  {
  }

  lemma {:induction false} PathBackward(g: Projections, k: Canonical, q: seq<Digest>) returns (p: seq<nat>)
    requires Mirror(g, k) && Path(g.links, q)
    ensures Graphs.Path(k.rows, p) && |p| == |q|
    ensures forall i | 0 <= i < |q| :: p[i] < |k.ids| && k.ids[p[i]] == q[i]
  {
    assert forall i | 0 <= i < |q| :: q[i] in k.ids;
    p := seq(|q|, i requires 0 <= i < |q| => IndexOf(k.ids, q[i]));
    forall i | 0 < i < |p| ensures Graphs.Edge(k.rows, p[i - 1], p[i]) {
      EdgeBackward(g, k, q[i - 1], q[i]);
    }
  }

  lemma {:induction false} MirrorBackward(g: Projections, k: Canonical, v: nat, w: nat)
    requires Mirror(g, k) && v < |k.ids| && w < |k.ids| && Reach(g.links, k.ids[v], k.ids[w])
    ensures Graphs.Reach(k.rows, v, w)
  {
    var q: seq<Digest> :| Path(g.links, q) && q[0] == k.ids[v] && q[|q| - 1] == k.ids[w];
    var p := PathBackward(g, k, q);
    IdsDistinct(k, p[0], v);
    IdsDistinct(k, p[|p| - 1], w);
  }

  lemma {:induction false} IdsOfSorted(k: Canonical, nodes: seq<nat>)
    requires Dense(k) && (forall i | 0 <= i < |nodes| :: nodes[i] < |k.ids|)
    requires Sorting.StrictlySorted(nodes, NatLeq)
    ensures Sorting.StrictlySorted(IdsOf(k, nodes), DigestLeq)
  {
  }

  lemma {:induction false} MembersInRange(rows: Graphs.Adjacency, comp: seq<nat>, cs: Components, c: nat)
    requires Tarjan.IsComponents(rows, comp, cs) && c < cs.Count()
    ensures var m := cs.Members(c);
            Sorting.StrictlySorted(m, NatLeq) && forall i | 0 <= i < |m| :: m[i] < |rows| && comp[m[i]] == c
  {
    var m := cs.Members(c);
    forall i | 0 <= i < |m| ensures m[i] < |rows| && comp[m[i]] == c {
      assert cs.Members(c)[i] in cs.Members(c);
    }
  }

  lemma {:induction false} MutualMirror(g: Projections, k: Canonical, comp: seq<nat>, cs: Components, v: nat, w: nat)
    requires Mirror(g, k) && Tarjan.IsComponents(k.rows, comp, cs) && v < |k.ids| && w < |k.ids|
    ensures comp[v] == comp[w] <==> k.ids[w] in Component(g.links, k.ids[v])
  {
    if comp[v] == comp[w] {
      MirrorForward(g, k, v, w);
      MirrorForward(g, k, w, v);
    }
    if k.ids[w] in Component(g.links, k.ids[v]) {
      MirrorBackward(g, k, v, w);
      MirrorBackward(g, k, w, v);
    }
  }

  /** A dense component is a component of the described graph, in canonical order. */
  lemma {:induction false} ComponentMirror(g: Projections, k: Canonical, comp: seq<nat>, cs: Components, v: nat)
    requires Mirror(g, k) && Tarjan.IsComponents(k.rows, comp, cs) && v < |k.ids|
    ensures var m := cs.Members(comp[v]);
      && (forall i | 0 <= i < |m| :: m[i] < |k.ids|)
      && IdsOf(k, m) == Ascending(Component(g.links, k.ids[v]))
  {
    var m := cs.Members(comp[v]);
    MembersInRange(k.rows, comp, cs, comp[v]);
    IdsOfSorted(k, m);
    forall x: Digest ensures x in IdsOf(k, m) <==> x in Component(g.links, k.ids[v]) {
      ComponentMember(g, k, comp, cs, v, x);
    }
    DigestOrder();
    Sorting.AscendingUnique(Component(g.links, k.ids[v]), IdsOf(k, m), DigestLeq);
  }

  lemma {:induction false} ComponentMember(g: Projections, k: Canonical, comp: seq<nat>, cs: Components, v: nat,
      x: Digest)
    requires Mirror(g, k) && Tarjan.IsComponents(k.rows, comp, cs) && v < |k.ids|
    requires forall i | 0 <= i < |cs.Members(comp[v])| :: cs.Members(comp[v])[i] < |k.ids|
    ensures x in IdsOf(k, cs.Members(comp[v])) <==> x in Component(g.links, k.ids[v])
  {
    var m := cs.Members(comp[v]);
    var ids := IdsOf(k, m);
    if x in ids {
      var i :| 0 <= i < |ids| && ids[i] == x;
      assert m[i] in m;
      MutualMirror(g, k, comp, cs, v, m[i]);
    }
    if x in Component(g.links, k.ids[v]) {
      var j := IndexOf(k.ids, x);
      MutualMirror(g, k, comp, cs, v, j);
      assert j in m;
      var i :| 0 <= i < |m| && m[i] == j;
      assert ids[i] == x;
    }
  }

  lemma {:induction false} AscendingHead(s: set<Digest>)
    requires s != {}
    ensures Ascending(s) != []
    ensures (DigestOrder(); Ascending(s)[0] == Sorting.Least(s, DigestLeq))
  {
  }

  /** The first member of a dense component is its representative. */
  lemma {:induction false} RepresentativeMirror(g: Projections, k: Canonical, comp: seq<nat>, cs: Components, v: nat)
    requires Mirror(g, k) && Tarjan.IsComponents(k.rows, comp, cs) && v < |k.ids|
    ensures var m := cs.Members(comp[v]);
      && m != [] && m[0] < |k.ids| && comp[m[0]] == comp[v]
      && Representative(g.links, k.ids[v]) == k.ids[m[0]]
  {
    var m := cs.Members(comp[v]);
    assert v in m;
    ComponentMirror(g, k, comp, cs, v);
    ReachSelf(g.links, k.ids[v]);
    AscendingHead(Component(g.links, k.ids[v]));
    assert m[0] in m;
  }

  // ---------- Folding the components dependency-first ----------

  ghost predicate Representatives(cs: Components, reps: seq<nat>)
    requires cs.Valid()
  {
    && |reps| == cs.Count()
    && forall c: nat | c < |reps| :: cs.Members(c) != [] && reps[c] == cs.Members(c)[0]
  }

  lemma {:induction false} RepresentativeNode(k: Canonical, comp: seq<nat>, cs: Components, reps: seq<nat>, c: nat)
    requires Dense(k) && Tarjan.IsComponents(k.rows, comp, cs) && Representatives(cs, reps) && c < |reps|
    ensures reps[c] < |k.ids| && comp[reps[c]] == c
  {
    MembersInRange(k.rows, comp, cs, c);
  }

  /** Sort key of a component: the position of its representative, and a distinct position
      beyond all of them for a number that is no component. */
  function Key(reps: seq<nat>, n: nat, c: nat): nat { if c < |reps| then reps[c] else n + c }

  /** `below` lists the other components that component `c` depends on directly. */
  ghost predicate ListsBelow(k: Canonical, comp: seq<nat>, members: seq<nat>, c: nat, below: seq<nat>)
    requires |comp| == |k.rows| && Graphs.InRange(k.rows)
  {
    forall d: nat :: d in below <==> PointsTo(k.rows, comp, members, c, d)
  }

  ghost predicate PointsTo(rows: Graphs.Adjacency, comp: seq<nat>, members: seq<nat>, c: nat, d: nat)
    requires |comp| == |rows| && Graphs.InRange(rows)
  {
    d != c && exists m: nat, t: nat :: m in members && Graphs.Edge(rows, m, t) && comp[t] == d
  }

  /** An edge out of a component leads to a component below. */
  lemma {:induction false} BelowIntro(links: Links, x: Digest, y: Digest, w: Digest)
    requires forall a, b | a in links && b in links[a] :: b in links
    requires y in Component(links, x) && w in links[y] && w !in Component(links, x)
    ensures w in links && Representative(links, w) in Below(links, x)
  {
  }

  lemma {:induction false} EdgeBelow(g: Projections, k: Canonical, comp: seq<nat>, cs: Components, v: nat, m: nat,
      t: nat)
    requires Mirror(g, k) && Tarjan.IsComponents(k.rows, comp, cs) && v < |k.ids| && Graphs.Edge(k.rows, m, t)
    requires comp[m] == comp[v] && comp[t] != comp[v]
    ensures Representative(g.links, k.ids[t]) in Below(g.links, k.ids[v])
  {
    MutualMirror(g, k, comp, cs, v, m);
    MutualMirror(g, k, comp, cs, v, t);
    assert k.ids[t] in g.links[k.ids[m]];
    BelowIntro(g.links, k.ids[v], k.ids[m], k.ids[t]);
  }

  /** Dependencies of a component have smaller numbers. */
  lemma {:induction false} PointsDown(k: Canonical, comp: seq<nat>, cs: Components, reps: seq<nat>, c: nat, m: nat,
      t: nat)
    requires Dense(k) && Tarjan.IsComponents(k.rows, comp, cs) && Representatives(cs, reps)
    requires c < |reps| && m in cs.Members(c) && Graphs.Edge(k.rows, m, t) && comp[t] != c
    ensures comp[m] == c && comp[t] < c && comp[t] < |reps|
  {
  }

  lemma {:induction false} BelowMember(g: Projections, k: Canonical, comp: seq<nat>, cs: Components, reps: seq<nat>,
      c: nat, d: nat)
    requires Mirror(g, k) && Tarjan.IsComponents(k.rows, comp, cs) && Representatives(cs, reps)
    requires c < |reps| && reps[c] < |k.ids| && PointsTo(k.rows, comp, cs.Members(c), c, d)
    ensures d < c && d < |reps| && reps[d] < |k.ids| && k.ids[reps[d]] in Below(g.links, k.ids[reps[c]])
  {
    var m: nat, t: nat :| m in cs.Members(c) && Graphs.Edge(k.rows, m, t) && comp[t] == d;
    PointsDown(k, comp, cs, reps, c, m, t);
    RepresentativeNode(k, comp, cs, reps, c);
    RepresentativeNode(k, comp, cs, reps, d);
    RepresentativeMirror(g, k, comp, cs, t);
    EdgeBelow(g, k, comp, cs, reps[c], m, t);
  }

  /** A component below is entered by an edge that leaves the component. */
  lemma {:induction false} BelowEdge(g: Projections, k: Canonical, comp: seq<nat>, cs: Components, v: nat, x: Digest)
    returns (m: nat, t: nat)
    requires Mirror(g, k) && Tarjan.IsComponents(k.rows, comp, cs) && v < |k.ids|
    requires x in Below(g.links, k.ids[v])
    ensures Graphs.Edge(k.rows, m, t) && comp[m] == comp[v] && comp[t] != comp[v]
    ensures x == Representative(g.links, k.ids[t])
  {
    var y, w :| y in Component(g.links, k.ids[v]) && w in g.links[y] && w !in Component(g.links, k.ids[v])
                && x == Representative(g.links, w);
    m, t := IndexOf(k.ids, y), IndexOf(k.ids, w);
    EdgeBackward(g, k, y, w);
    MutualMirror(g, k, comp, cs, v, m);
    MutualMirror(g, k, comp, cs, v, t);
  }

  ghost function RepIds(k: Canonical, reps: seq<nat>, below: seq<nat>): (r: seq<Digest>)
    requires forall i | 0 <= i < |below| :: below[i] < |reps| && reps[below[i]] < |k.ids|
    ensures |r| == |below| && forall i | 0 <= i < |below| :: r[i] == k.ids[reps[below[i]]]
  {
    seq(|below|, i requires 0 <= i < |below| => k.ids[reps[below[i]]])
  }

  lemma {:induction false} RepIdsSorted(k: Canonical, reps: seq<nat>, below: seq<nat>)
    requires Dense(k) && forall i | 0 <= i < |below| :: below[i] < |reps| && reps[below[i]] < |k.ids|
    requires forall i, j | 0 <= i < j < |below| :: reps[below[i]] < reps[below[j]]
    ensures Sorting.StrictlySorted(RepIds(k, reps, below), DigestLeq)
  {
  }

  lemma {:induction false} BelowListed(g: Projections, k: Canonical, comp: seq<nat>, cs: Components, reps: seq<nat>,
      c: nat,
                    below: seq<nat>, x: Digest)
    requires Mirror(g, k) && Tarjan.IsComponents(k.rows, comp, cs) && Representatives(cs, reps)
    requires c < |reps| && reps[c] < |k.ids| && ListsBelow(k, comp, cs.Members(c), c, below)
    requires forall i | 0 <= i < |below| :: below[i] < |reps| && reps[below[i]] < |k.ids|
    requires x in Below(g.links, k.ids[reps[c]])
    ensures x in RepIds(k, reps, below)
  {
    RepresentativeNode(k, comp, cs, reps, c);
    var m, t := BelowEdge(g, k, comp, cs, reps[c], x);
    RepresentativeMirror(g, k, comp, cs, t);
    ListedByEdge(k, comp, cs, c, below, m, t);
    ListedId(k, reps, below, comp[t]);
  }

  lemma {:induction false} ListedByEdge(k: Canonical, comp: seq<nat>, cs: Components, c: nat, below: seq<nat>, m: nat,
      t: nat)
    requires Dense(k) && Tarjan.IsComponents(k.rows, comp, cs) && c < cs.Count() &&
        ListsBelow(k, comp, cs.Members(c), c, below)
    requires Graphs.Edge(k.rows, m, t) && comp[m] == c && comp[t] != c
    ensures comp[t] in below
  {
    assert m in cs.Members(c);
    ListedTarget(k, comp, cs.Members(c), c, below, m, t);
  }

  lemma {:induction false} ListedTarget(k: Canonical, comp: seq<nat>, members: seq<nat>, c: nat, below: seq<nat>,
      m: nat, t: nat)
    requires |comp| == |k.rows| && Graphs.InRange(k.rows) && ListsBelow(k, comp, members, c, below)
    requires m in members && Graphs.Edge(k.rows, m, t) && comp[t] != c
    ensures comp[t] in below
  {
    assert PointsTo(k.rows, comp, members, c, comp[t]);
  }

  lemma {:induction false} ListedId(k: Canonical, reps: seq<nat>, below: seq<nat>, d: nat)
    requires forall i | 0 <= i < |below| :: below[i] < |reps| && reps[below[i]] < |k.ids|
    requires d in below
    ensures d < |reps| && reps[d] < |k.ids| && k.ids[reps[d]] in RepIds(k, reps, below)
  {
    var i :| 0 <= i < |below| && below[i] == d;
    assert RepIds(k, reps, below)[i] == k.ids[reps[d]];
  }

  /** The dependencies of a dense component, ordered by representative, are the canonical list
      of components below. */
  lemma {:induction false} BelowMirror(g: Projections, k: Canonical, comp: seq<nat>, cs: Components, reps: seq<nat>,
      c: nat, below: seq<nat>)
    requires Mirror(g, k) && Tarjan.IsComponents(k.rows, comp, cs) && Representatives(cs, reps)
    requires c < |reps| && reps[c] < |k.ids| && ListsBelow(k, comp, cs.Members(c), c, below)
    requires forall i | 0 <= i < |below| :: below[i] < |reps| && reps[below[i]] < |k.ids|
    requires forall i, j | 0 <= i < j < |below| :: reps[below[i]] < reps[below[j]]
    ensures RepIds(k, reps, below) == Ascending(Below(g.links, k.ids[reps[c]]))
  {
    var ids, target := RepIds(k, reps, below), Below(g.links, k.ids[reps[c]]);
    RepIdsSorted(k, reps, below);
    forall x: Digest ensures x in ids <==> x in target {
      if x in ids {
        var i :| 0 <= i < |ids| && ids[i] == x;
        assert below[i] in below;
        BelowMember(g, k, comp, cs, reps, c, below[i]);
      }
      if x in target { BelowListed(g, k, comp, cs, reps, c, below, x); }
    }
    DigestOrder();
    Sorting.AscendingUnique(target, ids, DigestLeq);
  }

  function MemberPairs(k: Canonical, members: seq<nat>): (r: seq<(Digest, Digest)>)
    requires forall i | 0 <= i < |members| :: members[i] < |k.ids| && members[i] < |k.locals|
    ensures |r| == |members|
  {
    seq(|members|, i requires 0 <= i < |members| => (k.ids[members[i]], k.locals[members[i]]))
  }

  function BelowPairs(k: Canonical, reps: seq<nat>, digests: seq<Digest>, below: seq<nat>): (r: seq<(Digest, Digest)>)
    requires forall i | 0 <= i < |below| :: below[i] < |reps| && reps[below[i]] < |k.ids| && below[i] < |digests|
    ensures |r| == |below|
  {
    seq(|below|, i requires 0 <= i < |below| => (k.ids[reps[below[i]]], digests[below[i]]))
  }

  lemma {:induction false} MembersMirror(g: Projections, k: Canonical, comp: seq<nat>, cs: Components, v: nat)
    requires Mirror(g, k) && Tarjan.IsComponents(k.rows, comp, cs) && v < |k.ids|
    ensures var m := cs.Members(comp[v]);
      (forall i | 0 <= i < |m| :: m[i] < |k.ids|) && MemberPairs(k, m) == Members(g, k.ids[v])
  {
    var m := cs.Members(comp[v]);
    MembersInRange(k.rows, comp, cs, comp[v]);
    ComponentMirror(g, k, comp, cs, v);
    PairsOfIds(g, k, m);
  }

  lemma {:induction false} PairsOfIds(g: Projections, k: Canonical, m: seq<nat>)
    requires Mirror(g, k) && forall i | 0 <= i < |m| :: m[i] < |k.ids|
    ensures (forall i | 0 <= i < |m| :: IdsOf(k, m)[i] in g.locals) &&
        MemberPairs(k, m) == WithLocals(g.locals, IdsOf(k, m))
  {
  }

  /** The digest of a component, computed from the digests of the components before it. */
  lemma {:induction false} FoldStep(h: Hash, domain: seq<Byte>, g: Projections, k: Canonical, comp: seq<nat>,
      cs: Components,
                 reps: seq<nat>, digests: seq<Digest>, c: nat, below: seq<nat>)
    requires Mirror(g, k) && Tarjan.IsComponents(k.rows, comp, cs) && Representatives(cs, reps)
    requires c < |reps| && reps[c] < |k.ids| && comp[reps[c]] == c
    requires ListsBelow(k, comp, cs.Members(c), c, below)
    requires forall i | 0 <= i < |below| :: below[i] < |reps| && reps[below[i]] < |k.ids| && below[i] < |digests|
    requires forall i, j | 0 <= i < j < |below| :: reps[below[i]] < reps[below[j]]
    requires forall i | 0 <= i < |below| :: digests[below[i]] == ComponentDigest(h, domain, g, k.ids[reps[below[i]]])
    requires forall i | 0 <= i < |cs.Members(c)| :: cs.Members(c)[i] < |k.ids|
    ensures h(ComponentMessage(domain, MemberPairs(k, cs.Members(c)), BelowPairs(k, reps, digests, below)))
         == ComponentDigest(h, domain, g, k.ids[reps[c]])
  {
    var v := k.ids[reps[c]];
    MembersMirror(g, k, comp, cs, reps[c]);
    BelowMirror(g, k, comp, cs, reps, c, below);
    BelowPairsMirror(h, domain, g, k, reps, digests, below, v);
  }

  lemma {:induction false} BelowPairsMirror(h: Hash, domain: seq<Byte>, g: Projections, k: Canonical, reps: seq<nat>,
                         digests: seq<Digest>, below: seq<nat>, v: Digest)
    requires Mirror(g, k) && v in g.links
    requires forall i | 0 <= i < |below| :: below[i] < |reps| && reps[below[i]] < |k.ids| && below[i] < |digests|
    requires forall i | 0 <= i < |below| :: digests[below[i]] == ComponentDigest(h, domain, g, k.ids[reps[below[i]]])
    requires RepIds(k, reps, below) == Ascending(Below(g.links, v))
    ensures BelowPairs(k, reps, digests, below) == BelowDigests(h, domain, g, v, Ascending(Below(g.links, v)))
  {
    var ids := Ascending(Below(g.links, v));
    var pairs, digested := BelowPairs(k, reps, digests, below), BelowDigests(h, domain, g, v, ids);
    forall i: nat | i < |ids| ensures pairs[i] == digested[i] {
      BelowDigestsAt(h, domain, g, v, ids, i);
    }
  }
}
