/** Finite directed graphs given by adjacency lists, and reachability in them. */
module Graphs {

  type Adjacency = seq<seq<nat>>

  ghost predicate InRange(edges: Adjacency) {
    forall v, j | 0 <= v < |edges| && 0 <= j < |edges[v]| :: edges[v][j] < |edges|
  }

  ghost predicate Edge(edges: Adjacency, x: nat, y: nat) {
    x < |edges| && y < |edges| && y in edges[x]
  }

  ghost predicate Path(edges: Adjacency, p: seq<nat>) {
    && p != []
    && (forall i | 0 <= i < |p| :: p[i] < |edges|)
    && (forall i | 0 < i < |p| :: Edge(edges, p[i - 1], p[i]))
  }

  /** `y` can be reached from `x` along zero or more edges. */
  ghost predicate Reach(edges: Adjacency, x: nat, y: nat) {
    exists p: seq<nat> :: Path(edges, p) && p[0] == x && p[|p| - 1] == y
  }

  lemma {:induction false} ReachSelf(edges: Adjacency, x: nat)
    requires x < |edges|
    ensures Reach(edges, x, x)
  {
    assert Path(edges, [x]);
  }

  lemma {:induction false} ReachEdge(edges: Adjacency, x: nat, y: nat)
    requires Edge(edges, x, y)
    ensures Reach(edges, x, y)
  {
    var p := [x, y];
    assert Path(edges, p) && p[0] == x && p[|p| - 1] == y;
  }

  lemma {:induction false} ReachTrans(edges: Adjacency, x: nat, y: nat, z: nat)
    requires Reach(edges, x, y) && Reach(edges, y, z)
    ensures Reach(edges, x, z)
  {
    var p: seq<nat> :| Path(edges, p) && p[0] == x && p[|p| - 1] == y;
    var q: seq<nat> :| Path(edges, q) && q[0] == y && q[|q| - 1] == z;
    var r := p + q[1..];
    forall i | 0 < i < |r| ensures Edge(edges, r[i - 1], r[i]) {
      if i >= |p| {
        var k := i - |p| + 1;
        assert r[i] == q[k] && r[i - 1] == q[k - 1];
      }
    }
    assert Path(edges, r) && r[0] == x && r[|r| - 1] == z;
  }

  /** A set closed under edges is closed under reachability. */
  lemma {:induction false} ReachStaysIn(edges: Adjacency, inside: set<nat>, x: nat, y: nat)
    requires forall v, w | v in inside && Edge(edges, v, w) :: w in inside
    requires x in inside && Reach(edges, x, y)
    ensures y in inside
  {
    var p: seq<nat> :| Path(edges, p) && p[0] == x && p[|p| - 1] == y;
    var i := 0;
    while i < |p| - 1
      invariant 0 <= i < |p| && p[i] in inside
    {
      assert Edge(edges, p[i], p[i + 1]);
      i := i + 1;
    }
  }
}
