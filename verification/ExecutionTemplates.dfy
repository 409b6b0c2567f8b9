/** The depth-first search that lists the expressions of a callable, dependencies first. */
module ExecutionTemplates {
  import opened Wrappers
  import opened Graphs

  datatype Color = White | Gray | Black

  datatype Entry = Entry(expression: nat, exiting: bool)

  datatype Search = Search(color: seq<Color>, pending: seq<Entry>, nodes: seq<nat>)

  // ---------- What the search is for ----------

  /** Everything reachable from the result has only dependencies that exist. */
  ghost predicate Complete(edges: Adjacency, result: nat) {
    && result < |edges|
    && forall u: nat, v: nat | Reach(edges, result, u) && u < |edges| && v in edges[u] :: v < |edges|
  }

  /** Dependency `v` of `u` comes earlier, or leads back to `u`. */
  ghost predicate Before(edges: Adjacency, nodes: seq<nat>, i: nat, v: nat)
    requires i < |nodes|
  {
    v in nodes[..i] || Reach(edges, v, nodes[i])
  }

  /** Exactly the expressions reachable from the result, each once, the result last, every dependency
      before its user unless both lie on a cycle. */
  ghost predicate IsTemplate(edges: Adjacency, result: nat, nodes: seq<nat>) {
    && (forall i, j | 0 <= i < j < |nodes| :: nodes[i] != nodes[j])
    && (forall e: nat :: e in nodes <==> Reach(edges, result, e))
    && nodes != [] && nodes[|nodes| - 1] == result
    && (forall i, v: nat | 0 <= i < |nodes| && nodes[i] < |edges| && v in edges[nodes[i]] :: Before(edges, nodes, i, v))
  }

  // ---------- Invariant ----------

  /** The expressions being visited, outermost first. */
  function Grays(pending: seq<Entry>): (r: seq<nat>)
  {
    if pending == [] then []
    else
      var last := pending[|pending| - 1];
      Grays(pending[..|pending| - 1]) + (if last.exiting then [last.expression] else [])
  }

  ghost predicate Colored(edges: Adjacency, s: Search) {
    && |s.color| == |edges|
    && (forall e: nat | e < |edges| :: s.color[e] == Gray <==> e in Grays(s.pending))
    && (forall e: nat | e < |edges| :: s.color[e] == Black <==> e in s.nodes)
    && (forall i | 0 <= i < |s.nodes| :: s.nodes[i] < |edges|)
    && (forall i, j | 0 <= i < j < |s.nodes| :: s.nodes[i] != s.nodes[j])
  }

  ghost predicate GrayPath(edges: Adjacency, grays: seq<nat>) {
    && (forall i | 0 <= i < |grays| :: grays[i] < |edges|)
    && (forall i, j | 0 <= i < j < |grays| :: grays[i] != grays[j])
    && (forall i | 0 < i < |grays| :: Edge(edges, grays[i - 1], grays[i]))
  }

  /** A pending visit is the result, or a dependency of the innermost expression below it. */
  ghost predicate VisitAt(edges: Adjacency, result: nat, pending: seq<Entry>, p: nat)
    requires p < |pending|
  {
    !pending[p].exiting ==>
      var grays := Grays(pending[..p]);
      if grays == [] then p == 0 && pending[p].expression == result
      else grays[|grays| - 1] < |edges| && pending[p].expression in edges[grays[|grays| - 1]]
  }

  ghost predicate Visits(edges: Adjacency, result: nat, pending: seq<Entry>) {
    forall p {:trigger VisitAt(edges, result, pending, p)} | 0 <= p < |pending| :: VisitAt(edges, result, pending, p)
  }

  /** Every dependency of an expression being visited was met, or waits above it. */
  ghost predicate Met(color: seq<Color>, pending: seq<Entry>, q: nat, v: nat) {
    (v < |color| && color[v] != White) || exists p | q < p < |pending| :: pending[p] == Entry(v, false)
  }

  ghost predicate Waiting(edges: Adjacency, color: seq<Color>, pending: seq<Entry>) {
    forall q, v: nat | 0 <= q < |pending| && pending[q].exiting && pending[q].expression < |edges| &&
        v in edges[pending[q].expression] ::
      Met(color, pending, q, v)
  }

  /** The dependencies of finished expressions. */
  ghost predicate Finished(edges: Adjacency, s: Search) {
    forall i, v: nat | 0 <= i < |s.nodes| && s.nodes[i] < |edges| && v in edges[s.nodes[i]] ::
      Before(edges, s.nodes, i, v) && v < |s.color| && s.color[v] != White
  }

  ghost predicate Reached(edges: Adjacency, result: nat, s: Search) {
    forall e: nat | e in s.nodes || e in Grays(s.pending) :: Reach(edges, result, e)
  }

  ghost predicate Rooted(result: nat, s: Search) {
    if s.pending == [] then s.nodes != [] && s.nodes[|s.nodes| - 1] == result
    else s.pending[0].expression == result && (!s.pending[0].exiting ==> |s.pending| == 1 && s.nodes == [])
  }

  ghost predicate Inv(edges: Adjacency, result: nat, s: Search) {
    && Colored(edges, s) && GrayPath(edges, Grays(s.pending)) && Visits(edges, result, s.pending)
    && Waiting(edges, s.color, s.pending) && Finished(edges, s) && Reached(edges, result, s) && Rooted(result, s)
  }

  /** The path of expressions being visited connects them. */
  lemma {:induction false} GraysReach(edges: Adjacency, grays: seq<nat>, i: nat, j: nat)
    requires GrayPath(edges, grays) && i <= j < |grays|
    ensures Reach(edges, grays[i], grays[j])
    decreases j - i
  {
    if i == j {
      ReachSelf(edges, grays[i]);
    } else {
      GraysReach(edges, grays, i, j - 1);
      ReachEdge(edges, grays[j - 1], grays[j]);
      ReachTrans(edges, grays[i], grays[j - 1], grays[j]);
    }
  }

  // ---------- Steps ----------

  function Visit(dependencies: seq<nat>): (r: seq<Entry>)
    ensures |r| == |dependencies| && forall i | 0 <= i < |r| :: !r[i].exiting
    ensures forall v | v in dependencies :: Entry(v, false) in r
    ensures forall i | 0 <= i < |r| :: r[i].expression in dependencies
  {
    var r := seq(|dependencies|, i requires 0 <= i <
        |dependencies| => Entry(dependencies[|dependencies| - 1 - i], false));
    assert forall i | 0 <= i < |dependencies| :: r[|dependencies| - 1 - i] == Entry(dependencies[i], false);
    r
  }

  function Start(edges: Adjacency, result: nat): Search {
    Search(seq(|edges|, _ => White), [Entry(result, false)], [])
  }

  function Skip(s: Search): Search
    requires s.pending != []
  {
    s.(pending := s.pending[..|s.pending| - 1])
  }

  function Enter(edges: Adjacency, s: Search, e: nat): Search
    requires s.pending != [] && e < |edges| && e < |s.color|
  {
    s.(color := s.color[e := Gray], pending := s.pending[..|s.pending| - 1] + [Entry(e, true)] + Visit(edges[e]))
  }

  function Exit(s: Search, e: nat): Search
    requires s.pending != [] && e < |s.color|
  {
    Search(s.color[e := Black], s.pending[..|s.pending| - 1], s.nodes + [e])
  }

  lemma {:induction false} StartInv(edges: Adjacency, result: nat)
    ensures Inv(edges, result, Start(edges, result))
  {
    var s := Start(edges, result);
    assert s.pending[..0] == [];
    assert Grays(s.pending) == [];
    forall p {:trigger VisitAt(edges, result, s.pending, p)} | 0 <= p < |s.pending|
      ensures VisitAt(edges, result, s.pending, p) {}
  }

  /** What lies below an entry does not depend on what lies above it. */
  lemma {:induction false} PrefixVisits(edges: Adjacency, result: nat, a: seq<Entry>, b: seq<Entry>, p: nat)
    requires p < |a| && p < |b| && a[..p + 1] == b[..p + 1] && VisitAt(edges, result, a, p)
    ensures VisitAt(edges, result, b, p)
  {
    assert a[..p] == a[..p + 1][..p] && b[..p] == b[..p + 1][..p];
    assert a[p] == a[..p + 1][p] && b[p] == b[..p + 1][p];
  }

  lemma {:induction false} PopVisits(edges: Adjacency, result: nat, pending: seq<Entry>)
    requires pending != [] && Visits(edges, result, pending)
    ensures Visits(edges, result, pending[..|pending| - 1])
  {
    var r := pending[..|pending| - 1];
    forall p {:trigger VisitAt(edges, result, r, p)} | 0 <= p < |r| ensures VisitAt(edges, result, r, p) {
      assert r[..p + 1] == pending[..p + 1];
      assert VisitAt(edges, result, pending, p);
      PrefixVisits(edges, result, pending, r, p);
    }
  }

  /** A visit whose expression was met can be dropped. */
  lemma {:induction false} SkipWaiting(edges: Adjacency, color: seq<Color>, pending: seq<Entry>)
    requires pending != [] && Waiting(edges, color, pending)
    requires var last := pending[|pending| - 1];
             !last.exiting ==> last.expression < |color| && color[last.expression] != White
    ensures Waiting(edges, color, pending[..|pending| - 1])
  {
    var r := pending[..|pending| - 1];
    forall q, v: nat | 0 <= q < |r| && r[q].exiting && r[q].expression < |edges| && v in edges[r[q].expression]
      ensures Met(color, r, q, v)
    {
      assert Met(color, pending, q, v);
      if !(v < |color| && color[v] != White) {
        var p :| q < p < |pending| && pending[p] == Entry(v, false);
        assert r[p] == Entry(v, false);
      }
    }
  }

  lemma {:induction false} SkipInv(edges: Adjacency, result: nat, s: Search)
    requires Inv(edges, result, s) && s.pending != []
    requires var last := s.pending[|s.pending| - 1];
             !last.exiting && last.expression < |s.color| && s.color[last.expression] != White
    ensures Inv(edges, result, Skip(s))
  {
    var last := s.pending[|s.pending| - 1];
    assert Grays(s.pending) == Grays(Skip(s).pending);
    PopVisits(edges, result, s.pending);
    SkipWaiting(edges, s.color, s.pending);
    assert |s.pending| > 1;
  }

  lemma {:induction false} GraysOfVisits(pending: seq<Entry>, more: seq<Entry>)
    requires forall i | 0 <= i < |more| :: !more[i].exiting
    ensures Grays(pending + more) == Grays(pending)
    decreases |more|
  {
    if more == [] {
      assert pending + more == pending;
    } else {
      var init := more[..|more| - 1];
      assert (pending + more)[..|pending + more| - 1] == pending + init;
      GraysOfVisits(pending, init);
    }
  }

  lemma {:induction false} EnterGrays(edges: Adjacency, s: Search, e: nat)
    requires s.pending != [] && e < |edges| && e < |s.color| && !s.pending[|s.pending| - 1].exiting
    ensures Grays(Enter(edges, s, e).pending) == Grays(s.pending) + [e]
  {
    var base := s.pending[..|s.pending| - 1];
    assert (base + [Entry(e, true)])[..|base|] == base;
    GraysOfVisits(base + [Entry(e, true)], Visit(edges[e]));
    assert Grays(s.pending) == Grays(base);
  }

  lemma {:induction false} EnterVisits(edges: Adjacency, result: nat, s: Search, e: nat)
    requires s.pending != [] && e < |edges| && e < |s.color| && Visits(edges, result, s.pending)
    ensures Visits(edges, result, Enter(edges, s, e).pending)
  {
    var base, r := s.pending[..|s.pending| - 1], Enter(edges, s, e).pending;
    var entered := base + [Entry(e, true)];
    forall p {:trigger VisitAt(edges, result, r, p)} | 0 <= p < |r| ensures VisitAt(edges, result, r, p) {
      if p < |base| {
        assert r[..p + 1] == s.pending[..p + 1];
        assert VisitAt(edges, result, s.pending, p);
        PrefixVisits(edges, result, s.pending, r, p);
      } else if p > |base| {
        var more := Visit(edges[e])[..p - |entered|];
        assert r[..p] == entered + more;
        GraysOfVisits(entered, more);
        assert entered[..|base|] == base;
        assert r[p] == Visit(edges[e])[p - |entered|];
      }
    }
  }

  lemma {:induction false} EnterWaiting(edges: Adjacency, s: Search, e: nat)
    requires s.pending != [] && e < |edges| == |s.color| && Waiting(edges, s.color, s.pending)
    requires s.pending[|s.pending| - 1] == Entry(e, false)
    ensures Waiting(edges, Enter(edges, s, e).color, Enter(edges, s, e).pending)
  {
    var base, t := s.pending[..|s.pending| - 1], Enter(edges, s, e);
    forall q, v: nat | 0 <= q < |t.pending| && t.pending[q].exiting && t.pending[q].expression < |edges| &&
        v in edges[t.pending[q].expression]
      ensures Met(t.color, t.pending, q, v)
    {
      if q < |base| {
        assert Met(s.color, s.pending, q, v);
        if !(v < |t.color| && t.color[v] != White) {
          var p :| q < p < |s.pending| && s.pending[p] == Entry(v, false);
          assert t.pending[p] == Entry(v, false);
        }
      } else {
        assert t.pending[q] == Entry(e, true) && q == |base|;
        var k :| 0 <= k < |Visit(edges[e])| && Visit(edges[e])[k] == Entry(v, false);
        assert t.pending[|base| + 1 + k] == Entry(v, false);
      }
    }
  }

  lemma {:induction false} PathExtends(edges: Adjacency, grays: seq<nat>, e: nat)
    requires GrayPath(edges, grays) && e < |edges| && e !in grays &&
        (grays != [] ==> Edge(edges, grays[|grays| - 1], e))
    ensures GrayPath(edges, grays + [e])
  {
  }

  lemma {:induction false} ReachExtends(edges: Adjacency, result: nat, u: nat, e: nat)
    requires Reach(edges, result, u) && Edge(edges, u, e)
    ensures Reach(edges, result, e)
  {
    ReachEdge(edges, u, e);
    ReachTrans(edges, result, u, e);
  }

  /** The expression entered hangs on the path. */
  lemma {:induction false} EnterPath(edges: Adjacency, result: nat, s: Search, e: nat)
    requires GrayPath(edges, Grays(s.pending)) && Visits(edges, result, s.pending) && Reached(edges, result, s)
    requires s.pending != [] && s.pending[|s.pending| - 1] == Entry(e, false) && e < |edges| && e !in Grays(s.pending)
    ensures GrayPath(edges, Grays(s.pending) + [e]) && Reach(edges, result, e)
  {
    var grays := Grays(s.pending);
    assert grays == Grays(s.pending[..|s.pending| - 1]);
    assert VisitAt(edges, result, s.pending, |s.pending| - 1);
    PathExtends(edges, grays, e);
    if grays == [] {
      ReachSelf(edges, e);
    } else {
      assert grays[|grays| - 1] in grays;
      ReachExtends(edges, result, grays[|grays| - 1], e);
    }
  }

  lemma {:induction false} EnterColored(edges: Adjacency, s: Search, t: Search, e: nat)
    requires Colored(edges, s) && e < |edges| && s.color[e] == White && t.color == s.color[e := Gray] &&
        t.nodes == s.nodes
    requires Grays(t.pending) == Grays(s.pending) + [e]
    ensures Colored(edges, t)
  {
  }

  lemma {:induction false} EnterFinished(edges: Adjacency, s: Search, t: Search, e: nat)
    requires Finished(edges, s) && e < |s.color| && t.color == s.color[e := Gray] && t.nodes == s.nodes
    ensures Finished(edges, t)
  {
    forall i, v: nat | 0 <= i < |t.nodes| && t.nodes[i] < |edges| && v in edges[t.nodes[i]]
      ensures Before(edges, t.nodes, i, v) && v < |t.color| && t.color[v] != White
    {
      assert Before(edges, s.nodes, i, v);
    }
  }

  lemma {:induction false} EnterReached(edges: Adjacency, result: nat, s: Search, t: Search, e: nat)
    requires Reached(edges, result, s) && Reach(edges, result, e) && t.nodes == s.nodes
    requires Grays(t.pending) == Grays(s.pending) + [e]
    ensures Reached(edges, result, t)
  {
  }

  lemma {:induction false} EnterInv(edges: Adjacency, result: nat, s: Search)
    requires Inv(edges, result, s) && s.pending != []
    requires var last := s.pending[|s.pending| - 1];
             !last.exiting && last.expression < |edges| && s.color[last.expression] == White
    ensures Inv(edges, result, Enter(edges, s, s.pending[|s.pending| - 1].expression))
  {
    var e := s.pending[|s.pending| - 1].expression;
    var t := Enter(edges, s, e);
    EnterGrays(edges, s, e);
    EnterVisits(edges, result, s, e);
    EnterWaiting(edges, s, e);
    EnterPath(edges, result, s, e);
    EnterColored(edges, s, t, e);
    EnterFinished(edges, s, t, e);
    EnterReached(edges, result, s, t, e);
    assert Rooted(result, t);
  }

  /** The expression that exits is the innermost one. */
  lemma {:induction false} ExitGrays(s: Search)
    requires s.pending != [] && s.pending[|s.pending| - 1].exiting
    ensures var g := Grays(s.pending);
            g != [] && g[|g| - 1] == s.pending[|s.pending| - 1].expression &&
                Grays(s.pending[..|s.pending| - 1]) == g[..|g| - 1]
  {
  }

  /** All dependencies of the expression that exits are finished or being visited. */
  lemma {:induction false} ExitFinished(edges: Adjacency, s: Search, e: nat)
    requires Colored(edges, s) && GrayPath(edges, Grays(s.pending)) && Waiting(edges, s.color, s.pending) &&
        Finished(edges, s)
    requires s.pending != [] && s.pending[|s.pending| - 1] == Entry(e, true) && e < |edges|
    ensures Finished(edges, Exit(s, e))
  {
    var t := Exit(s, e);
    forall i, v: nat | 0 <= i < |t.nodes| && t.nodes[i] < |edges| && v in edges[t.nodes[i]]
      ensures Before(edges, t.nodes, i, v) && v < |t.color| && t.color[v] != White
    {
      if i < |s.nodes| {
        assert t.nodes[i] == s.nodes[i] && t.nodes[..i] == s.nodes[..i];
        assert Before(edges, s.nodes, i, v);
      } else {
        ExitDependency(edges, s, e, v);
        assert t.nodes[i] == e && t.nodes[..i] == s.nodes;
      }
    }
  }

  /** A dependency of the expression that exits. */
  lemma {:induction false} ExitDependency(edges: Adjacency, s: Search, e: nat, v: nat)
    requires Colored(edges, s) && GrayPath(edges, Grays(s.pending)) && Waiting(edges, s.color, s.pending)
    requires s.pending != [] && s.pending[|s.pending| - 1] == Entry(e, true) && e < |edges| && v in edges[e]
    ensures v < |s.color| && s.color[v] != White && (v in s.nodes || Reach(edges, v, e))
  {
    assert Met(s.color, s.pending, |s.pending| - 1, v);
    if s.color[v] == Gray { ExitBack(edges, s, e, v); }
  }

  lemma {:induction false} ExitBack(edges: Adjacency, s: Search, e: nat, v: nat)
    requires GrayPath(edges, Grays(s.pending)) && v in Grays(s.pending)
    requires s.pending != [] && s.pending[|s.pending| - 1] == Entry(e, true)
    ensures Reach(edges, v, e)
  {
    var g := Grays(s.pending);
    ExitGrays(s);
    var i :| 0 <= i < |g| && g[i] == v;
    GraysReach(edges, g, i, |g| - 1);
  }

  lemma {:induction false} ExitColored(edges: Adjacency, s: Search, e: nat)
    requires Colored(edges, s) && GrayPath(edges, Grays(s.pending))
    requires s.pending != [] && s.pending[|s.pending| - 1] == Entry(e, true)
    ensures e < |edges| && s.color[e] == Gray && Colored(edges, Exit(s, e))
  {
    var g := Grays(s.pending);
    ExitGrays(s);
    assert e in g;
    assert forall x | x in g :: x == e || x in g[..|g| - 1];
  }

  lemma {:induction false} ExitWaiting(edges: Adjacency, s: Search, e: nat)
    requires s.pending != [] && s.pending[|s.pending| - 1].exiting && e < |s.color| &&
        Waiting(edges, s.color, s.pending)
    ensures Waiting(edges, Exit(s, e).color, Exit(s, e).pending)
  {
    var t := Exit(s, e);
    SkipWaiting(edges, s.color, s.pending);
    forall q, v: nat | 0 <= q < |t.pending| && t.pending[q].exiting && t.pending[q].expression < |edges| &&
        v in edges[t.pending[q].expression]
      ensures Met(t.color, t.pending, q, v)
    {
      assert Met(s.color, t.pending, q, v);
    }
  }

  lemma {:induction false} ExitInv(edges: Adjacency, result: nat, s: Search)
    requires Inv(edges, result, s) && s.pending != [] && s.pending[|s.pending| - 1].exiting
    ensures var e := s.pending[|s.pending| - 1].expression;
            e < |edges| && s.color[e] == Gray && Inv(edges, result, Exit(s, e))
  {
    var e := s.pending[|s.pending| - 1].expression;
    ExitGrays(s);
    ExitColored(edges, s, e);
    PopVisits(edges, result, s.pending);
    ExitWaiting(edges, s, e);
    ExitFinished(edges, s, e);
    assert e in Grays(s.pending);
  }

  // ---------- The search ----------

  /** When nothing is pending the list is a template, and no dependency was missing. */
  lemma {:induction false} Done(edges: Adjacency, result: nat, s: Search)
    requires Inv(edges, result, s) && s.pending == []
    ensures IsTemplate(edges, result, s.nodes) && Complete(edges, result)
  {
    var inside: set<nat> := set e | e in s.nodes;
    forall v: nat, w: nat | v in inside && Edge(edges, v, w) ensures w in inside {
      var i :| 0 <= i < |s.nodes| && s.nodes[i] == v;
      assert Before(edges, s.nodes, i, w);
    }
    forall e: nat | Reach(edges, result, e) ensures e in s.nodes { ReachStaysIn(edges, inside, result, e); }
    forall u: nat, v: nat | Reach(edges, result, u) && u < |edges| && v in edges[u] ensures v < |edges| {
      var i :| 0 <= i < |s.nodes| && s.nodes[i] == u;
      assert Before(edges, s.nodes, i, v);
    }
  }

  /** A pending visit to an expression that does not exist. */
  lemma {:induction false} Missing(edges: Adjacency, result: nat, s: Search)
    requires Inv(edges, result, s) && s.pending != [] && s.pending[|s.pending| - 1].expression >= |edges|
    ensures !Complete(edges, result)
  {
    var last := s.pending[|s.pending| - 1];
    if last.exiting { ExitInv(edges, result, s); }
    assert VisitAt(edges, result, s.pending, |s.pending| - 1);
    var g := Grays(s.pending);
    assert g == Grays(s.pending[..|s.pending| - 1]);
    if g != [] {
      assert g[|g| - 1] in g;
      assert Reach(edges, result, g[|g| - 1]);
    }
  }

  ghost function Whites(color: seq<Color>): set<nat> { set e: nat | e < |color| && color[e] == White }

  /** One round of the search. */
  function Next(edges: Adjacency, s: Search): Search
    requires s.pending != [] && |s.color| == |edges| && s.pending[|s.pending| - 1].expression < |edges|
  {
    var last := s.pending[|s.pending| - 1];
    if last.exiting then Exit(s, last.expression)
    else if s.color[last.expression] != White then Skip(s)
    else Enter(edges, s, last.expression)
  }

  lemma {:induction false} NextInv(edges: Adjacency, result: nat, s: Search)
    requires Inv(edges, result, s) && s.pending != [] && s.pending[|s.pending| - 1].expression < |edges|
    ensures Inv(edges, result, Next(edges, s))
    ensures var t := Next(edges, s);
            Whites(t.color) < Whites(s.color) || (Whites(t.color) == Whites(s.color) && |t.pending| < |s.pending|)
  {
    var last, t := s.pending[|s.pending| - 1], Next(edges, s);
    if last.exiting {
      ExitInv(edges, result, s);
      assert Whites(t.color) == Whites(s.color);
    } else if s.color[last.expression] != White {
      SkipInv(edges, result, s);
    } else {
      EnterInv(edges, result, s);
      assert last.expression in Whites(s.color) && last.expression !in Whites(t.color) &&
          Whites(t.color) <= Whites(s.color);
    }
  }

  /** The expressions of a callable in execution order, or an error if one does not exist. */
  method Derive(edges: Adjacency, result: nat) returns (r: Result<seq<nat>>)
    ensures r.Ok? <==> Complete(edges, result)
    ensures r.Ok? ==> IsTemplate(edges, result, r.value)
  {
    var s := Start(edges, result);
    StartInv(edges, result);
    while s.pending != []
      invariant Inv(edges, result, s)
      decreases Whites(s.color), |s.pending|
    {
      if s.pending[|s.pending| - 1].expression >= |edges| {
        Missing(edges, result, s);
        return Err("callable references missing expression");
      }
      NextInv(edges, result, s);
      s := Next(edges, s);
    }
    Done(edges, result, s);
    return Ok(s.nodes);
  }
}
