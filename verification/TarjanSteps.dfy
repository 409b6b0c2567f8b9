/** The state of the iterative strongly-connected-component traversal, its invariant, and the
    proof that each step of the traversal keeps the invariant. */
module TarjanSteps {
  import opened Graphs
  import Sorting

  /** `usize::MAX`, the "not assigned yet" mark of the three per-node tables. */
  const UNSET: nat := 0xFFFF_FFFF_FFFF_FFFF

  datatype Components = Components(offsets: seq<nat>, members: seq<nat>) {
    ghost predicate Valid() {
      && offsets != [] && offsets[0] == 0 && offsets[|offsets| - 1] == |members|
      && (forall i, j | 0 <= i < j < |offsets| :: offsets[i] < offsets[j])
    }

    function Count(): nat
      requires offsets != []
    {
      |offsets| - 1
    }

    function Members(c: nat): (r: seq<nat>)
      requires c + 1 < |offsets| && offsets[c] <= offsets[c + 1] <= |members|
    {
      members[offsets[c]..offsets[c + 1]]
    }
  }

  datatype Frame = Frame(node: nat, nextEdge: nat)

  /** The local variables of the traversal. */
  datatype Search = Search(
    disc: seq<nat>, low: seq<nat>, comp: seq<nat>, components: Components,
    active: seq<nat>, pending: seq<Frame>, next: nat)

  predicate NatLeq(a: nat, b: nat) { a <= b }

  lemma {:induction false} NatOrder()
    ensures Sorting.TotalPreorder(NatLeq) && Sorting.Antisymmetric(NatLeq)
  {
  }

  function Unset(s: seq<nat>): (r: nat)
    ensures r <= |s|
  {
    if s == [] then 0 else (if s[0] == UNSET then 1 else 0) + Unset(s[1..])
  }

  lemma {:induction false} UnsetUpdate(s: seq<nat>, i: nat, v: nat)
    requires i < |s| && s[i] == UNSET && v != UNSET
    ensures Unset(s[i := v]) == Unset(s) - 1
  {
    if i > 0 {
      UnsetUpdate(s[1..], i - 1, v);
      assert s[i := v][1..] == s[1..][i - 1 := v];
    } else {
      assert s[i := v][1..] == s[1..];
    }
  }

  lemma {:induction false} UnsetNone(s: seq<nat>)
    requires Unset(s) == |s|
    ensures forall i | 0 <= i < |s| :: s[i] == UNSET
  {
    if s != [] { UnsetNone(s[1..]); }
  }

  lemma {:induction false} UnsetAll(n: nat)
    ensures Unset(seq(n, _ => UNSET)) == n
  {
    if n > 0 {
      UnsetAll(n - 1);
      assert seq(n, _ => UNSET)[1..] == seq(n - 1, _ => UNSET);
    }
  }

  // ---------- Invariant of the traversal ----------

  /** A table of the nodes each node reaches. */
  type Reaches = seq<set<nat>>

  ghost predicate Closed(edges: Adjacency, to: Reaches) {
    && |to| == |edges|
    && (forall v | 0 <= v < |edges| :: v in to[v])
    && (forall v, w, x | 0 <= v < |edges| && 0 <= w < |edges| && w in to[v] && x in to[w] ::
          x in to[v])
  }

  /** Proof bookkeeping: the discovered nodes not yet in a component, the number of edges
      taken from each node, and the frame of each node that has one. */
  datatype Marks = Marks(live: set<nat>, taken: seq<nat>, open: map<nat, nat>)

  ghost predicate Within(n: nat, nodes: set<nat>) { forall v | v in nodes :: v < n }

  ghost predicate Sized(edges: Adjacency, s: Search, m: Marks) {
    && InRange(edges) && |edges| < UNSET
    && |s.disc| == |s.low| == |s.comp| == |m.taken| == |edges|
    && Within(|edges|, m.live)
  }

  ghost predicate Counts(s: Search) {
    && s.next + Unset(s.disc) == |s.disc|
    && |s.components.members| + |s.active| == s.next
  }

  ghost predicate Indices(disc: seq<nat>, next: nat) {
    && (forall v | 0 <= v < |disc| && disc[v] != UNSET :: disc[v] < next)
    && (forall v, w | 0 <= v < |disc| && 0 <= w < |disc| && disc[v] == disc[w] != UNSET :: v == w)
  }

  ghost predicate Phases(disc: seq<nat>, comp: seq<nat>, live: set<nat>, taken: seq<nat>)
    requires |disc| == |comp| == |taken|
  {
    && (forall v: nat | v < |disc| :: v in live <==> disc[v] != UNSET && comp[v] == UNSET)
    && (forall v | 0 <= v < |disc| && disc[v] == UNSET :: comp[v] == UNSET && taken[v] == 0)
  }

  /** The component stack holds the live nodes in discovery order. */
  ghost predicate Active(disc: seq<nat>, live: set<nat>, active: seq<nat>)
    requires Within(|disc|, live)
  {
    && (forall i | 0 <= i < |active| :: active[i] in live)
    && (forall i, j | 0 <= i < j < |active| :: disc[active[i]] < disc[active[j]])
    && (forall v | v in live :: v in active)
  }

  /** The open frames are live and indexed by `open`. */
  ghost predicate FrameNodes(live: set<nat>, pending: seq<Frame>, taken: seq<nat>, open: map<nat, nat>)
    requires Within(|taken|, live)
  {
    && (forall i | 0 <= i < |pending| ::
          pending[i].node in live && pending[i].node in open && open[pending[i].node] == i)
    && (forall i | 0 <= i < |pending| :: pending[i].nextEdge == taken[pending[i].node])
    && (forall v | v in open :: open[v] < |pending| && pending[open[v]].node == v)
  }

  ghost predicate FramesIn(n: nat, pending: seq<Frame>) {
    forall i | 0 <= i < |pending| :: pending[i].node < n
  }

  /** The open frames are in discovery order, starting at the oldest live node. */
  ghost predicate FrameOrder(disc: seq<nat>, live: set<nat>, pending: seq<Frame>)
    requires Within(|disc|, live) && FramesIn(|disc|, pending)
  {
    && (forall i, j | 0 <= i < j < |pending| :: disc[pending[i].node] < disc[pending[j].node])
    && (forall v | v in live && pending != [] :: disc[pending[0].node] <= disc[v])
  }

  /** Edges taken lead to discovered nodes, and a node without a frame has taken all of its. */
  ghost predicate Explored(edges: Adjacency, disc: seq<nat>, live: set<nat>, taken: seq<nat>, open: map<nat, nat>)
    requires InRange(edges) && |edges| == |disc| == |taken|
  {
    && (forall v: nat | v < |edges| :: taken[v] <= |edges[v]|)
    && (forall v: nat, j: nat | v < |edges| && j < taken[v] :: disc[edges[v][j]] != UNSET)
    && (forall v: nat | v < |edges| && v in live && v !in open :: taken[v] == |edges[v]|)
  }

  /** Low links name a live node that can be reached; finished nodes lie below themselves. */
  ghost predicate Lowlinks(to: Reaches, disc: seq<nat>, low: seq<nat>, live: set<nat>, open: map<nat, nat>)
    requires |to| == |disc| == |low| && Within(|disc|, live)
  {
    && (forall v | v in live :: low[v] <= disc[v])
    && (forall v {:trigger LowWitness(to, disc, low, live, v)} | v in live :: LowWitness(to, disc, low, live, v))
    && (forall v | v in live && v !in open :: low[v] < disc[v])
  }

  ghost predicate LowWitness(to: Reaches, disc: seq<nat>, low: seq<nat>, live: set<nat>, v: nat)
    requires |to| == |disc| == |low| && Within(|disc|, live) && v in live
  {
    exists w | w in live :: disc[w] == low[v] && w in to[v]
  }

  /** An earlier live node reaches every later one. */
  ghost predicate Chained(to: Reaches, disc: seq<nat>, live: set<nat>)
    requires |to| == |disc| && Within(|disc|, live)
  {
    forall v, w | v in live && w in live && disc[v] <= disc[w] :: w in to[v]
  }

  /** `pending[i]` is the innermost open frame discovered no later than `v`. */
  ghost predicate Owns(disc: seq<nat>, pending: seq<Frame>, i: nat, v: nat)
    requires FramesIn(|disc|, pending) && i < |pending| && v < |disc|
  {
    && disc[pending[i].node] <= disc[v]
    && (i + 1 < |pending| ==> disc[v] < disc[pending[i + 1].node])
  }

  /** If frame `i` owns `v`, its low link bounds the live target of the taken edge `j` of `v`. */
  ghost predicate BoundAt(edges: Adjacency, disc: seq<nat>, low: seq<nat>, live: set<nat>,
                          taken: seq<nat>, pending: seq<Frame>, i: nat, v: nat, j: nat)
    requires |edges| == |disc| == |low| == |taken| && FramesIn(|disc|, pending)
    requires Within(|edges|, live) && i < |pending| && v < |edges| && j < |edges[v]|
  {
    Owns(disc, pending, i, v) && j < taken[v] && edges[v][j] in live ==>
      low[pending[i].node] <= disc[edges[v][j]]
  }

  ghost predicate Bounded(edges: Adjacency, disc: seq<nat>, low: seq<nat>, live: set<nat>,
                          taken: seq<nat>, pending: seq<Frame>)
    requires |edges| == |disc| == |low| == |taken| && FramesIn(|disc|, pending)
    requires Within(|edges|, live)
  {
    forall i: nat, v: nat, j: nat {:trigger BoundAt(edges, disc, low, live, taken, pending, i, v, j)}
      | i < |pending| && v in live && j < |edges[v]| ::
      BoundAt(edges, disc, low, live, taken, pending, i, v, j)
  }

  /** Emitted components: exact, sorted, mutually reachable, and closed downwards. */
  ghost predicate Emitted(edges: Adjacency, to: Reaches, comp: seq<nat>, cs: Components)
    requires InRange(edges) && |to| == |edges| == |comp|
  {
    && cs.Valid()
    && (forall c: nat | c < cs.Count() :: Sorting.StrictlySorted(cs.Members(c), NatLeq))
    && (forall c: nat, v: nat {:trigger v in cs.Members(c)} | c < cs.Count() :: v in cs.Members(c) <==>
         v < |edges| && comp[v] == c)
    && (forall v: nat | v < |edges| && comp[v] != UNSET :: comp[v] < cs.Count())
    && (forall v: nat, w: nat | v < |edges| && w < |edges| && comp[v] == comp[w] != UNSET :: w in to[v])
    && (forall v: nat, j: nat | v < |edges| && comp[v] != UNSET && j < |edges[v]| ::
          comp[edges[v][j]] <= comp[v])
  }

  ghost predicate Inv(edges: Adjacency, to: Reaches, s: Search, m: Marks) {
    && Sized(edges, s, m) && |to| == |edges| && Counts(s)
    && Indices(s.disc, s.next) && Phases(s.disc, s.comp, m.live, m.taken)
    && Active(s.disc, m.live, s.active)
    && FrameNodes(m.live, s.pending, m.taken, m.open) && FramesIn(|edges|, s.pending)
    && FrameOrder(s.disc, m.live, s.pending)
    && Explored(edges, s.disc, m.live, m.taken, m.open)
    && Lowlinks(to, s.disc, s.low, m.live, m.open)
    && Chained(to, s.disc, m.live)
    && Bounded(edges, s.disc, s.low, m.live, m.taken, s.pending)
    && Emitted(edges, to, s.comp, s.components)
  }

  // ---------- Steps ----------

  function Start(n: nat): (s: Search) {
    var blank := seq(n, _ => UNSET);
    Search(blank, blank, blank, Components([0], []), [], [], 0)
  }

  function Discover(s: Search, t: nat): (r: Search)
    requires t < |s.disc| && t < |s.low|
  {
    s.(disc := s.disc[t := s.next], low := s.low[t := s.next], next := s.next + 1,
       active := s.active + [t], pending := s.pending + [Frame(t, 0)])
  }

  function Advance(s: Search, u: nat, e: nat): (r: Search)
    requires s.pending != []
  {
    s.(pending := s.pending[|s.pending| - 1 := Frame(u, e + 1)])
  }

  function Min(a: nat, b: nat): nat { if a < b then a else b }

  function Lower(s: Search, v: nat, bound: nat): (r: Search)
    requires v < |s.low|
  {
    s.(low := s.low[v := Min(s.low[v], bound)])
  }

  ghost function Enter(m: Marks, s: Search, t: nat): Marks {
    m.(live := m.live + {t}, open := m.open[t := |s.pending|])
  }

  ghost function Take(m: Marks, u: nat): Marks
    requires u < |m.taken|
  {
    m.(taken := m.taken[u := m.taken[u] + 1])
  }

  ghost function Leave(m: Marks, u: nat): Marks {
    m.(open := map v | v in m.open && v != u :: m.open[v])
  }

  lemma {:induction false} StartEmitted(edges: Adjacency, to: Reaches)
    requires InRange(edges) && |to| == |edges|
    ensures Emitted(edges, to, seq(|edges|, _ => UNSET), Components([0], []))
  {
    assert Components([0], []).Count() == 0;
  }

  lemma {:induction false} StartInv(edges: Adjacency, to: Reaches)
    requires InRange(edges) && |edges| < UNSET && |to| == |edges|
    ensures Inv(edges, to, Start(|edges|), Marks({}, seq(|edges|, _ => 0), map[]))
  {
    UnsetAll(|edges|);
    StartEmitted(edges, to);
  }

  /** The component stack is non-empty only while a frame is open. */
  lemma {:induction false} ActiveHasFrame(edges: Adjacency, to: Reaches, s: Search, m: Marks)
    requires Inv(edges, to, s, m)
    ensures s.active != [] ==> s.pending != []
  {
    if s.active != [] {
      var v := s.active[0];
      assert LowWitness(to, s.disc, s.low, m.live, v);
      var w :| w in m.live && s.disc[w] == s.low[v];
      assert v in m.open;
    }
  }

  /** A live node reaches the frame that owns it. */
  lemma {:induction false} ReachesOwner(to: Reaches, disc: seq<nat>, low: seq<nat>, m: Marks,
                                        pending: seq<Frame>, i: nat, v: nat)
    requires |to| == |disc| == |low| == |m.taken| && Within(|disc|, m.live) && FramesIn(|disc|, pending)
    requires forall x, y, z | 0 <= x < |disc| && 0 <= y < |disc| && y in to[x] && z in to[y] :: z in to[x]
    requires forall x, y | x in m.live && y in m.live && disc[x] == disc[y] :: x == y
    requires FrameNodes(m.live, pending, m.taken, m.open) && FrameOrder(disc, m.live, pending)
    requires Lowlinks(to, disc, low, m.live, m.open) && Chained(to, disc, m.live)
    requires i < |pending| && v in m.live && Owns(disc, pending, i, v)
    ensures pending[i].node in to[v]
    decreases disc[v]
  {
    var u := pending[i].node;
    if v != u {
      assert v !in m.open;
      assert LowWitness(to, disc, low, m.live, v);
      var w :| w in m.live && disc[w] == low[v] && w in to[v];
      if disc[u] < disc[w] { ReachesOwner(to, disc, low, m, pending, i, w); }
    }
  }

  /** Every live node reaches the innermost frame. */
  lemma {:induction false} ReachesTop(edges: Adjacency, to: Reaches, s: Search, m: Marks, v: nat)
    requires Inv(edges, to, s, m) && Closed(edges, to) && s.pending != [] && v in m.live
    ensures s.pending[|s.pending| - 1].node in to[v]
  {
    var top := |s.pending| - 1;
    if s.disc[s.pending[top].node] <= s.disc[v] { ReachesOwner(to, s.disc, s.low, m, s.pending, top, v); }
  }

  // ---------- Discovering a node ----------

  /** `t` is undiscovered and can be given the next index. */
  ghost predicate Fresh(disc: seq<nat>, next: nat, live: set<nat>, t: nat) {
    t < |disc| && disc[t] == UNSET && next < UNSET && t !in live
  }

  lemma {:induction false} DiscoverCounts(s: Search, t: nat)
    requires Counts(s) && t < |s.disc| && t < |s.low| && s.disc[t] == UNSET && |s.disc| < UNSET
    ensures s.next < |s.disc| && Counts(Discover(s, t))
  {
    UnsetUpdate(s.disc, t, s.next);
  }

  lemma {:induction false} DiscoverIndices(disc: seq<nat>, next: nat, t: nat)
    requires Indices(disc, next) && t < |disc| && disc[t] == UNSET && next < UNSET
    ensures Indices(disc[t := next], next + 1)
  {
  }

  lemma {:induction false} DiscoverPhases(disc: seq<nat>, comp: seq<nat>, live: set<nat>, taken: seq<nat>, next: nat,
      t: nat)
    requires |disc| == |comp| == |taken| && Phases(disc, comp, live, taken)
    requires t < |disc| && disc[t] == UNSET && next < UNSET
    ensures Phases(disc[t := next], comp, live + {t}, taken) && t !in live
  {
  }

  lemma {:induction false} DiscoverActive(disc: seq<nat>, next: nat, live: set<nat>, active: seq<nat>, t: nat)
    requires Within(|disc|, live) && Active(disc, live, active) && Indices(disc, next)
    requires Fresh(disc, next, live, t) && (forall v | v in live :: disc[v] != UNSET)
    ensures Within(|disc|, live + {t}) && Active(disc[t := next], live + {t}, active + [t])
  {
    assert (active + [t])[|active|] == t;
  }

  lemma {:induction false} DiscoverFrameNodes(live: set<nat>, pending: seq<Frame>, taken: seq<nat>, open: map<nat, nat>,
      t: nat)
    requires Within(|taken|, live) && FrameNodes(live, pending, taken, open)
    requires t !in live && t < |taken| && taken[t] == 0
    ensures FrameNodes(live + {t}, pending + [Frame(t, 0)], taken, open[t := |pending|])
  {
  }

  lemma {:induction false} DiscoverFrameOrder(disc: seq<nat>, next: nat, live: set<nat>, pending: seq<Frame>, t: nat)
    requires Within(|disc|, live) && FramesIn(|disc|, pending) && FrameOrder(disc, live, pending)
    requires Indices(disc, next) && Fresh(disc, next, live, t)
    requires forall i | 0 <= i < |pending| :: pending[i].node in live
    requires forall v | v in live :: disc[v] != UNSET
    requires pending == [] ==> live == {}
    ensures FramesIn(|disc|, pending + [Frame(t, 0)])
    ensures Within(|disc|, live + {t}) && FrameOrder(disc[t := next], live + {t}, pending + [Frame(t, 0)])
  {
  }

  lemma {:induction false} DiscoverWitness(to: Reaches, disc: seq<nat>, low: seq<nat>, live: set<nat>, next: nat,
      t: nat, v: nat)
    requires |to| == |disc| == |low| && Within(|disc|, live) && Fresh(disc, next, live, t) && t in to[t]
    requires v == t || (v in live && LowWitness(to, disc, low, live, v))
    ensures Within(|disc|, live + {t})
    ensures LowWitness(to, disc[t := next], low[t := next], live + {t}, v)
  {
    var w := t;
    if v != t { w :| w in live && disc[w] == low[v] && w in to[v]; }
    assert w in live + {t} && disc[t := next][w] == low[t := next][v] && w in to[v];
  }

  lemma {:induction false} DiscoverLowlinks(to: Reaches, disc: seq<nat>, low: seq<nat>, live: set<nat>,
      open: map<nat, nat>,
                         next: nat, t: nat, at: nat)
    requires |to| == |disc| == |low| && Within(|disc|, live) && Lowlinks(to, disc, low, live, open)
    requires Fresh(disc, next, live, t) && t in to[t]
    ensures Within(|disc|, live + {t})
    ensures Lowlinks(to, disc[t := next], low[t := next], live + {t}, open[t := at])
  {
    forall v {:trigger LowWitness(to, disc[t := next], low[t := next], live + {t}, v)} | v in live + {t}
      ensures Within(|disc|, live + {t}) && LowWitness(to, disc[t := next], low[t := next], live + {t}, v)
    {
      DiscoverWitness(to, disc, low, live, next, t, v);
    }
  }

  lemma {:induction false} DiscoverChained(to: Reaches, disc: seq<nat>, next: nat, live: set<nat>, t: nat)
    requires |to| == |disc| && Within(|disc|, live) && Chained(to, disc, live) && Indices(disc, next)
    requires Fresh(disc, next, live, t) && t in to[t]
    requires forall v | v in live :: t in to[v] && disc[v] != UNSET
    ensures Within(|disc|, live + {t}) && Chained(to, disc[t := next], live + {t})
  {
  }

  /** All of the invariant but the two clauses about edges survives a discovery. */
  lemma {:induction false} DiscoverRest(edges: Adjacency, to: Reaches, s: Search, m: Marks, t: nat)
    requires Sized(edges, s, m) && |to| == |edges| && Counts(s)
    requires Indices(s.disc, s.next) && Phases(s.disc, s.comp, m.live, m.taken)
    requires Active(s.disc, m.live, s.active)
    requires FrameNodes(m.live, s.pending, m.taken, m.open) && FramesIn(|edges|, s.pending)
    requires FrameOrder(s.disc, m.live, s.pending)
    requires Lowlinks(to, s.disc, s.low, m.live, m.open) && Chained(to, s.disc, m.live)
    requires s.pending == [] ==> m.live == {}
    requires t < |edges| && s.disc[t] == UNSET && t in to[t] && (forall v | v in m.live :: t in to[v])
    ensures s.next < UNSET && t !in m.live
    ensures var r, k := Discover(s, t), Enter(m, s, t);
      && Sized(edges, r, k) && Counts(r)
      && Indices(r.disc, r.next) && Phases(r.disc, r.comp, k.live, k.taken)
      && Active(r.disc, k.live, r.active)
      && FrameNodes(k.live, r.pending, k.taken, k.open) && FramesIn(|edges|, r.pending)
      && FrameOrder(r.disc, k.live, r.pending)
      && Lowlinks(to, r.disc, r.low, k.live, k.open) && Chained(to, r.disc, k.live)
  {
    DiscoverTables(edges, s, m, t);
    DiscoverFrames(edges, s, m, t);
    DiscoverLowlinks(to, s.disc, s.low, m.live, m.open, s.next, t, |s.pending|);
    DiscoverChained(to, s.disc, s.next, m.live, t);
  }

  lemma {:induction false} DiscoverTables(edges: Adjacency, s: Search, m: Marks, t: nat)
    requires Sized(edges, s, m) && Counts(s) && Indices(s.disc, s.next) && Phases(s.disc, s.comp, m.live, m.taken)
    requires Active(s.disc, m.live, s.active) && t < |edges| && s.disc[t] == UNSET
    ensures s.next < UNSET && t !in m.live
    ensures var r, k := Discover(s, t), Enter(m, s, t);
      && Sized(edges, r, k) && Counts(r)
      && Indices(r.disc, r.next) && Phases(r.disc, r.comp, k.live, k.taken) && Active(r.disc, k.live, r.active)
  {
    DiscoverCounts(s, t);
    DiscoverIndices(s.disc, s.next, t);
    DiscoverPhases(s.disc, s.comp, m.live, m.taken, s.next, t);
    DiscoverActive(s.disc, s.next, m.live, s.active, t);
  }

  lemma {:induction false} DiscoverFrames(edges: Adjacency, s: Search, m: Marks, t: nat)
    requires Sized(edges, s, m) && Indices(s.disc, s.next) && Phases(s.disc, s.comp, m.live, m.taken)
    requires FrameNodes(m.live, s.pending, m.taken, m.open) && FramesIn(|edges|, s.pending)
    requires FrameOrder(s.disc, m.live, s.pending) && (s.pending == [] ==> m.live == {})
    requires t < |edges| && s.disc[t] == UNSET && t !in m.live && s.next < UNSET
    ensures var r, k := Discover(s, t), Enter(m, s, t);
      && Within(|edges|, k.live) && |k.taken| == |edges|
      && FrameNodes(k.live, r.pending, k.taken, k.open) && FramesIn(|edges|, r.pending)
      && FrameOrder(r.disc, k.live, r.pending)
  {
    DiscoverFrameNodes(m.live, s.pending, m.taken, m.open, t);
    DiscoverFrameOrder(s.disc, s.next, m.live, s.pending, t);
  }

  lemma {:induction false} DiscoverExplored(edges: Adjacency, disc: seq<nat>, live: set<nat>, taken: seq<nat>,
                         open: map<nat, nat>, next: nat, t: nat, at: nat)
    requires InRange(edges) && |edges| == |disc| == |taken| && Explored(edges, disc, live, taken, open)
    requires t < |disc| && next < UNSET
    ensures Explored(edges, disc[t := next], live + {t}, taken, open[t := at])
  {
  }

  lemma {:induction false} StartDiscover(edges: Adjacency, to: Reaches, s: Search, m: Marks, t: nat)
    requires Inv(edges, to, s, m) && Closed(edges, to) && s.pending == []
    requires t < |edges| && s.disc[t] == UNSET
    ensures Inv(edges, to, Discover(s, t), Enter(m, s, t))
  {
    var r, k := Discover(s, t), Enter(m, s, t);
    ActiveHasFrame(edges, to, s, m);
    assert m.live == {};
    DiscoverRest(edges, to, s, m, t);
    DiscoverExplored(edges, s.disc, m.live, m.taken, m.open, s.next, t, 0);
    assert k.live == {t} && k.taken[t] == 0;
  }

  // ---------- Taking one edge ----------

  /** `t` is the target of the edge that the innermost frame, of node `u`, takes next. */
  ghost predicate Takes(edges: Adjacency, pending: seq<Frame>, u: nat, e: nat, t: nat) {
    && pending != [] && pending[|pending| - 1] == Frame(u, e)
    && u < |edges| && e < |edges[u]| && edges[u][e] == t
  }

  ghost predicate SameNodes(p: seq<Frame>, q: seq<Frame>) {
    |p| == |q| && forall i | 0 <= i < |p| :: p[i].node == q[i].node
  }

  lemma {:induction false} AdvanceFrames(disc: seq<nat>, m: Marks, pending: seq<Frame>, u: nat, e: nat)
    requires |disc| == |m.taken| && Within(|disc|, m.live) && FramesIn(|disc|, pending)
    requires FrameNodes(m.live, pending, m.taken, m.open) && FrameOrder(disc, m.live, pending)
    requires pending != [] && pending[|pending| - 1] == Frame(u, e)
    ensures u in m.live && m.taken[u] == e
    ensures var p := pending[|pending| - 1 := Frame(u, e + 1)];
            && FramesIn(|disc|, p) && SameNodes(p, pending)
            && FrameNodes(m.live, p, Take(m, u).taken, m.open) && FrameOrder(disc, m.live, p)
  {
  }

  /** The edges taken are those taken before and this one, whose target is now discovered. */
  lemma {:induction false} TakeExplored(edges: Adjacency, disc: seq<nat>, m: Marks, u: nat, t: nat)
    requires InRange(edges) && |edges| == |disc| == |m.taken|
    requires Explored(edges, disc, m.live, m.taken, m.open)
    requires u in m.open && u < |edges| && m.taken[u] < |edges[u]| && edges[u][m.taken[u]] == t
    requires disc[t] != UNSET
    ensures Explored(edges, disc, m.live, Take(m, u).taken, m.open)
  {
  }

  lemma {:induction false} TakePhases(disc: seq<nat>, comp: seq<nat>, m: Marks, u: nat)
    requires |disc| == |comp| == |m.taken| && Phases(disc, comp, m.live, m.taken)
    requires u in m.live && u < |disc|
    ensures Phases(disc, comp, m.live, Take(m, u).taken)
  {
  }

  lemma {:induction false} OwnsSame(disc: seq<nat>, p: seq<Frame>, q: seq<Frame>, i: nat, v: nat)
    requires FramesIn(|disc|, p) && FramesIn(|disc|, q) && SameNodes(p, q) && i < |p| && v < |disc|
    ensures Owns(disc, p, i, v) <==> Owns(disc, q, i, v)
  {
  }

  /** A taken edge respects the bound when the frame's low link is at most its target's index. */
  lemma {:induction false} TakeBounded(edges: Adjacency, disc: seq<nat>, low: seq<nat>, m: Marks, pending: seq<Frame>,
                    u: nat, e: nat, t: nat)
    requires |edges| == |disc| == |low| == |m.taken| && FramesIn(|disc|, pending)
    requires Within(|edges|, m.live) && Bounded(edges, disc, low, m.live, m.taken, pending)
    requires Takes(edges, pending, u, e, t) && m.taken[u] == e && u in m.live
    requires forall i, j | 0 <= i < j < |pending| :: disc[pending[i].node] < disc[pending[j].node]
    requires t in m.live ==> low[u] <= disc[t]
    ensures FramesIn(|disc|, pending[|pending| - 1 := Frame(u, e + 1)])
    ensures Bounded(edges, disc, low, m.live, Take(m, u).taken, pending[|pending| - 1 := Frame(u, e + 1)])
  {
    var p, taken := pending[|pending| - 1 := Frame(u, e + 1)], Take(m, u).taken;
    forall i: nat, v: nat, j: nat {:trigger BoundAt(edges, disc, low, m.live, taken, p, i, v, j)}
      | i < |p| && v in m.live && j < |edges[v]|
      ensures BoundAt(edges, disc, low, m.live, taken, p, i, v, j)
    {
      OwnsSame(disc, p, pending, i, v);
      assert BoundAt(edges, disc, low, m.live, m.taken, pending, i, v, j);
      assert v == u && Owns(disc, p, i, v) ==> i == |pending| - 1;
    }
  }

  lemma {:induction false} DiscoverBounded(edges: Adjacency, disc: seq<nat>, low: seq<nat>, live: set<nat>,
      taken: seq<nat>,
                        pending: seq<Frame>, next: nat, t: nat)
    requires |edges| == |disc| == |low| == |taken| && FramesIn(|disc|, pending)
    requires Within(|edges|, live) && Bounded(edges, disc, low, live, taken, pending)
    requires Indices(disc, next) && Fresh(disc, next, live, t) && taken[t] == 0
    requires forall v | v in live :: low[v] <= disc[v] < next
    requires forall i | 0 <= i < |pending| :: pending[i].node in live
    ensures FramesIn(|disc|, pending + [Frame(t, 0)]) && Within(|edges|, live + {t})
    ensures Bounded(edges, disc[t := next], low[t := next], live + {t}, taken, pending + [Frame(t, 0)])
  {
    var d, l, p := disc[t := next], low[t := next], pending + [Frame(t, 0)];
    forall i: nat, v: nat, j: nat {:trigger BoundAt(edges, d, l, live + {t}, taken, p, i, v, j)}
      | i < |p| && v in live + {t} && j < |edges[v]|
      ensures BoundAt(edges, d, l, live + {t}, taken, p, i, v, j)
    {
      if v != t && i < |pending| {
        assert BoundAt(edges, disc, low, live, taken, pending, i, v, j);
      }
    }
  }

  /** Live nodes have an index below the next one, and their low link does not exceed it. */
  lemma {:induction false} LiveIndices(edges: Adjacency, to: Reaches, s: Search, m: Marks)
    requires Inv(edges, to, s, m)
    ensures forall v | v in m.live :: s.low[v] <= s.disc[v] < s.next
    ensures forall i | 0 <= i < |s.pending| :: s.pending[i].node in m.live
  {
  }

  lemma {:induction false} TakeNewExplored(edges: Adjacency, to: Reaches, s: Search, m: Marks, u: nat, e: nat, t: nat)
    requires Inv(edges, to, s, m) && Takes(edges, s.pending, u, e, t)
    requires s.disc[t] == UNSET && s.next < UNSET
    ensures var a := Advance(s, u, e); var r, k := Discover(a, t), Enter(Take(m, u), a, t);
      Explored(edges, r.disc, k.live, k.taken, k.open)
  {
    LiveIndices(edges, to, s, m);
    DiscoverExplored(edges, s.disc, m.live, m.taken, m.open, s.next, t, |s.pending|);
    TakeExplored(edges, s.disc[t := s.next], Enter(m, s, t), u, t);
  }

  lemma {:induction false} TakeNewBounded(edges: Adjacency, to: Reaches, s: Search, m: Marks, u: nat, e: nat, t: nat)
    requires Inv(edges, to, s, m) && Takes(edges, s.pending, u, e, t)
    requires s.disc[t] == UNSET && s.next < UNSET
    ensures var a := Advance(s, u, e); var r, k := Discover(a, t), Enter(Take(m, u), a, t);
      FramesIn(|edges|, r.pending) && Within(|edges|, k.live) &&
          Bounded(edges, r.disc, r.low, k.live, k.taken, r.pending)
  {
    var a, k := Advance(s, u, e), Take(m, u);
    LiveIndices(edges, to, s, m);
    AdvanceFrames(s.disc, m, s.pending, u, e);
    TakeBounded(edges, s.disc, s.low, m, s.pending, u, e, t);
    DiscoverBounded(edges, s.disc, s.low, k.live, k.taken, a.pending, s.next, t);
  }

  /** The innermost frame takes an edge to an undiscovered node, which is discovered and entered. */
  lemma {:induction false} TakeNew(edges: Adjacency, to: Reaches, s: Search, m: Marks, u: nat, e: nat, t: nat)
    requires Inv(edges, to, s, m) && Closed(edges, to) && Takes(edges, s.pending, u, e, t)
    requires s.disc[t] == UNSET && t in to[u]
    ensures Inv(edges, to, Discover(Advance(s, u, e), t), Enter(Take(m, u), Advance(s, u, e), t))
  {
    AdvanceFrames(s.disc, m, s.pending, u, e);
    TakePhases(s.disc, s.comp, m, u);
    forall v | v in m.live ensures t in to[v] { ReachesTop(edges, to, s, m, v); }
    DiscoverRest(edges, to, Advance(s, u, e), Take(m, u), t);
    TakeNewExplored(edges, to, s, m, u, e, t);
    TakeNewBounded(edges, to, s, m, u, e, t);
  }

  // ---------- An edge to a discovered node ----------

  function TakeKnown(s: Search, u: nat, e: nat, t: nat): (r: Search)
    requires s.pending != [] && u < |s.low| && t < |s.comp| && t < |s.disc|
  {
    if s.comp[t] == UNSET then Lower(Advance(s, u, e), u, s.disc[t]) else Advance(s, u, e)
  }

  /** Lowering to the index of a reachable live node keeps the low-link invariant. */
  lemma {:induction false} LowerLowlinks(to: Reaches, disc: seq<nat>, low: seq<nat>, after: seq<nat>, live: set<nat>,
                      open: map<nat, nat>, u: nat, w: nat)
    requires |to| == |disc| == |low| && Within(|disc|, live) && Lowlinks(to, disc, low, live, open)
    requires u in live && w in live && w in to[u] && after == low[u := Min(low[u], disc[w])]
    ensures Lowlinks(to, disc, after, live, open)
  {
    forall v {:trigger LowWitness(to, disc, after, live, v)} | v in live
      ensures LowWitness(to, disc, after, live, v)
    {
      assert LowWitness(to, disc, low, live, v);
      var x :| x in live && disc[x] == low[v] && x in to[v];
      assert disc[x] == after[v] || disc[w] == after[v];
    }
  }

  lemma {:induction false} LowerBounded(edges: Adjacency, disc: seq<nat>, low: seq<nat>, live: set<nat>,
      taken: seq<nat>,
                     pending: seq<Frame>, u: nat, b: nat)
    requires |edges| == |disc| == |low| == |taken| && FramesIn(|disc|, pending) && u < |low|
    requires Within(|edges|, live) && Bounded(edges, disc, low, live, taken, pending)
    ensures Bounded(edges, disc, low[u := Min(low[u], b)], live, taken, pending)
  {
    forall i: nat, v: nat, j: nat
      {:trigger BoundAt(edges, disc, low[u := Min(low[u], b)], live, taken, pending, i, v, j)}
      | i < |pending| && v in live && j < |edges[v]|
      ensures BoundAt(edges, disc, low[u := Min(low[u], b)], live, taken, pending, i, v, j)
    {
      assert BoundAt(edges, disc, low, live, taken, pending, i, v, j);
    }
  }

  /** The new low links of a frame that takes an edge to a discovered node. */
  lemma {:induction false} TakeOldLow(edges: Adjacency, to: Reaches, s: Search, m: Marks, u: nat, t: nat, low: seq<nat>)
    requires Inv(edges, to, s, m) && u in m.live && t < |edges| && t in to[u] && s.disc[t] != UNSET
    requires low == if s.comp[t] == UNSET then s.low[u := Min(s.low[u], s.disc[t])] else s.low
    ensures |low| == |edges| && Lowlinks(to, s.disc, low, m.live, m.open)
    ensures Bounded(edges, s.disc, low, m.live, m.taken, s.pending)
    ensures t in m.live ==> low[u] <= s.disc[t]
  {
    if s.comp[t] == UNSET {
      LowerLowlinks(to, s.disc, s.low, low, m.live, m.open, u, t);
      LowerBounded(edges, s.disc, s.low, m.live, m.taken, s.pending, u, s.disc[t]);
    }
  }

  /** A step that leaves the indices, components and component stack alone keeps the invariant
      once the clauses about frames, edges and low links are re-established. */
  lemma {:induction false} Reassemble(edges: Adjacency, to: Reaches, s: Search, m: Marks, r: Search, k: Marks)
    requires Inv(edges, to, s, m)
    requires r.disc == s.disc && r.comp == s.comp && r.components == s.components
    requires r.active == s.active && r.next == s.next && k.live == m.live
    requires |r.low| == |edges| == |k.taken| && Phases(r.disc, r.comp, k.live, k.taken)
    requires FrameNodes(k.live, r.pending, k.taken, k.open) && FramesIn(|edges|, r.pending)
    requires FrameOrder(r.disc, k.live, r.pending)
    requires Explored(edges, r.disc, k.live, k.taken, k.open)
    requires Lowlinks(to, r.disc, r.low, k.live, k.open)
    requires Bounded(edges, r.disc, r.low, k.live, k.taken, r.pending)
    ensures Inv(edges, to, r, k)
  {
  }

  lemma {:induction false} TakeOldFrames(edges: Adjacency, to: Reaches, s: Search, m: Marks, u: nat, e: nat, t: nat)
    requires Inv(edges, to, s, m) && Takes(edges, s.pending, u, e, t)
    ensures u in m.live && m.taken[u] == e && |Take(m, u).taken| == |edges|
    ensures var p := Advance(s, u, e).pending;
      && Phases(s.disc, s.comp, m.live, Take(m, u).taken) && FramesIn(|edges|, p)
      && FrameNodes(m.live, p, Take(m, u).taken, m.open) && FrameOrder(s.disc, m.live, p)
  {
    AdvanceFrames(s.disc, m, s.pending, u, e);
    TakePhases(s.disc, s.comp, m, u);
  }

  lemma {:induction false} TakeOld(edges: Adjacency, to: Reaches, s: Search, m: Marks, u: nat, e: nat, t: nat)
    requires Inv(edges, to, s, m) && Takes(edges, s.pending, u, e, t) && s.disc[t] != UNSET && t in to[u]
    ensures Inv(edges, to, TakeKnown(s, u, e, t), Take(m, u))
  {
    var r := TakeKnown(s, u, e, t);
    TakeOldFrames(edges, to, s, m, u, e, t);
    TakeOldExplored(edges, to, s, m, u, e, t);
    TakeOldLow(edges, to, s, m, u, t, r.low);
    TakeBounded(edges, s.disc, r.low, m, s.pending, u, e, t);
    assert r.pending == s.pending[|s.pending| - 1 := Frame(u, e + 1)] && r.disc == s.disc;
    Reassemble(edges, to, s, m, r, Take(m, u));
  }

  lemma {:induction false} TakeOldExplored(edges: Adjacency, to: Reaches, s: Search, m: Marks, u: nat, e: nat, t: nat)
    requires Inv(edges, to, s, m) && Takes(edges, s.pending, u, e, t) && s.disc[t] != UNSET
    ensures Explored(edges, s.disc, Take(m, u).live, Take(m, u).taken, Take(m, u).open)
  {
    TakeExplored(edges, s.disc, m, u, t);
  }

  // ---------- Leaving a node ----------

  /** The innermost frame, of node `u`, has no edge left. */
  ghost predicate Exhausted(edges: Adjacency, pending: seq<Frame>, u: nat) {
    && pending != [] && u < |edges| && pending[|pending| - 1] == Frame(u, |edges[u]|)
  }

  /** Drop the innermost frame and propagate its low link to its parent. */
  function Return(s: Search, u: nat): (r: Search)
    requires s.pending != [] && u < |s.low|
    requires |s.pending| >= 2 ==> s.pending[|s.pending| - 2].node < |s.low|
  {
    var q := s.(pending := s.pending[..|s.pending| - 1]);
    if q.pending == [] then q else Lower(q, q.pending[|q.pending| - 1].node, s.low[u])
  }

  lemma {:induction false} LeaveFrames(disc: seq<nat>, m: Marks, pending: seq<Frame>)
    requires |disc| == |m.taken| && Within(|disc|, m.live) && FramesIn(|disc|, pending)
    requires FrameNodes(m.live, pending, m.taken, m.open) && FrameOrder(disc, m.live, pending)
    requires pending != []
    ensures var p, u := pending[..|pending| - 1], pending[|pending| - 1].node;
            && FramesIn(|disc|, p) && FrameNodes(m.live, p, m.taken, Leave(m, u).open)
            && FrameOrder(disc, m.live, p)
  {
    var p, u := pending[..|pending| - 1], pending[|pending| - 1].node;
    forall v | v in Leave(m, u).open ensures m.open[v] < |p| {
      assert m.open[v] == |pending| - 1 ==> v == u;
    }
  }

  /** The parent frame inherits the nodes its child owned; its lowered link bounds their edges. */
  lemma {:induction false} LeaveBounded(edges: Adjacency, disc: seq<nat>, low: seq<nat>, live: set<nat>,
      taken: seq<nat>,
                     pending: seq<Frame>, after: seq<nat>)
    requires |edges| == |disc| == |low| == |taken| == |after| && FramesIn(|disc|, pending)
    requires Within(|edges|, live) && Bounded(edges, disc, low, live, taken, pending) && pending != []
    requires forall v | 0 <= v < |low| :: after[v] <= low[v]
    requires |pending| >= 2 ==> after[pending[|pending| - 2].node] <= low[pending[|pending| - 1].node]
    ensures FramesIn(|disc|, pending[..|pending| - 1])
    ensures Bounded(edges, disc, after, live, taken, pending[..|pending| - 1])
  {
    var p := pending[..|pending| - 1];
    forall i: nat, v: nat, j: nat {:trigger BoundAt(edges, disc, after, live, taken, p, i, v, j)}
      | i < |p| && v in live && j < |edges[v]|
      ensures BoundAt(edges, disc, after, live, taken, p, i, v, j)
    {
      assert BoundAt(edges, disc, low, live, taken, pending, i, v, j);
      assert BoundAt(edges, disc, low, live, taken, pending, i + 1, v, j);
    }
  }

  lemma {:induction false} LeaveLowlinks(to: Reaches, disc: seq<nat>, low: seq<nat>, m: Marks, u: nat)
    requires |to| == |disc| == |low| && Within(|disc|, m.live) && Lowlinks(to, disc, low, m.live, m.open)
    requires u in m.live && low[u] < disc[u]
    ensures Lowlinks(to, disc, low, m.live, Leave(m, u).open)
  {
  }

  lemma {:induction false} LeaveExplored(edges: Adjacency, disc: seq<nat>, m: Marks, u: nat)
    requires InRange(edges) && |edges| == |disc| == |m.taken|
    requires Explored(edges, disc, m.live, m.taken, m.open)
    requires u < |edges| && m.taken[u] == |edges[u]|
    ensures Explored(edges, disc, m.live, m.taken, Leave(m, u).open)
  {
  }

  /** The parent's lowered link still names a live node it reaches, through its child. */
  lemma {:induction false} LeaveLow(edges: Adjacency, to: Reaches, s: Search, m: Marks, u: nat)
    requires Inv(edges, to, s, m) && Closed(edges, to) && Exhausted(edges, s.pending, u)
    requires s.low[u] < s.disc[u]
    ensures var r := Return(s, u); |r.low| == |edges| && Lowlinks(to, s.disc, r.low, m.live, Leave(m, u).open)
  {
    var r, last := Return(s, u), |s.pending| - 1;
    LeaveLowlinks(to, s.disc, s.low, m, u);
    if last > 0 {
      var parent := s.pending[last - 1].node;
      assert LowWitness(to, s.disc, s.low, m.live, u);
      var w :| w in m.live && s.disc[w] == s.low[u] && w in to[u];
      assert u in to[parent] && w in to[parent];
      LowerLowlinks(to, s.disc, s.low, r.low, m.live, Leave(m, u).open, parent, w);
    }
  }

  lemma {:induction false} ReturnLowers(s: Search, u: nat)
    requires s.pending != [] && u < |s.low| && s.pending[|s.pending| - 1].node == u
    requires |s.pending| >= 2 ==> s.pending[|s.pending| - 2].node < |s.low|
    ensures var r := Return(s, u);
      && r == s.(pending := s.pending[..|s.pending| - 1], low := r.low) && |r.low| == |s.low|
      && (forall v | 0 <= v < |s.low| :: r.low[v] <= s.low[v])
      && (|s.pending| >= 2 ==> r.low[s.pending[|s.pending| - 2].node] <= s.low[u])
  {
  }

  /** A finished node that is not the root of its component is left on the component stack. */
  lemma {:induction false} LeaveInner(edges: Adjacency, to: Reaches, s: Search, m: Marks, u: nat)
    requires Inv(edges, to, s, m) && Closed(edges, to) && Exhausted(edges, s.pending, u)
    requires s.low[u] != s.disc[u]
    ensures Inv(edges, to, Return(s, u), Leave(m, u))
  {
    var r, k := Return(s, u), Leave(m, u);
    LeaveFrames(s.disc, m, s.pending);
    LeaveExplored(edges, s.disc, m, u);
    LeaveLow(edges, to, s, m, u);
    ReturnLowers(s, u);
    LeaveBounded(edges, s.disc, s.low, m.live, m.taken, s.pending, r.low);
    Reassemble(edges, to, s, m, r, k);
  }

  // ---------- Emitting a component ----------

  /** The nodes from `u` upwards on the component stack. */
  ghost function Block(disc: seq<nat>, live: set<nat>, u: nat): (r: set<nat>)
    requires Within(|disc|, live) && u < |disc|
  {
    set v | v in live && disc[v] >= disc[u]
  }

  /** The block of a root is mutually reachable. */
  lemma {:induction false} BlockMutual(edges: Adjacency, to: Reaches, s: Search, m: Marks, u: nat)
    requires Inv(edges, to, s, m) && Closed(edges, to) && Exhausted(edges, s.pending, u)
    ensures forall v, w | v in Block(s.disc, m.live, u) && w in Block(s.disc, m.live, u) :: w in to[v]
  {
    var block := Block(s.disc, m.live, u);
    forall v, w | v in block && w in block ensures w in to[v] {
      ReachesTop(edges, to, s, m, v);
      assert w in to[u];
    }
  }

  /** Every edge out of the block of a root leads into it or to an emitted component. */
  lemma {:induction false} BlockClosed(edges: Adjacency, to: Reaches, s: Search, m: Marks, u: nat, v: nat, j: nat)
    requires Inv(edges, to, s, m) && Exhausted(edges, s.pending, u) && s.low[u] == s.disc[u]
    requires v in Block(s.disc, m.live, u) && j < |edges[v]|
    ensures edges[v][j] in Block(s.disc, m.live, u) || s.comp[edges[v][j]] != UNSET
  {
    assert v == u || v !in m.open;
    assert m.taken[v] == |edges[v]|;
    assert BoundAt(edges, s.disc, s.low, m.live, m.taken, s.pending, |s.pending| - 1, v, j);
  }

  lemma {:induction false} BlockExits(edges: Adjacency, to: Reaches, s: Search, m: Marks, u: nat)
    requires Inv(edges, to, s, m) && Exhausted(edges, s.pending, u) && s.low[u] == s.disc[u]
    ensures forall v, j: nat | v in Block(s.disc, m.live, u) && j < |edges[v]| ::
      edges[v][j] in Block(s.disc, m.live, u) || s.comp[edges[v][j]] != UNSET
  {
    forall v, j: nat | v in Block(s.disc, m.live, u) && j < |edges[v]|
      ensures edges[v][j] in Block(s.disc, m.live, u) || s.comp[edges[v][j]] != UNSET
    {
      BlockClosed(edges, to, s, m, u, v, j);
    }
  }

  lemma {:induction false} EmitActive(disc: seq<nat>, live: set<nat>, active: seq<nat>, cut: nat, u: nat)
    requires Within(|disc|, live) && Active(disc, live, active) && cut < |active| && active[cut] == u
    ensures var block := Block(disc, live, u);
            Within(|disc|, live - block) && Active(disc, live - block, active[..cut])
    ensures forall v: nat :: v in active[cut..] <==> v in Block(disc, live, u)
  {
    var block := Block(disc, live, u);
    forall v | v in live - block ensures v in active[..cut] {
      var i :| 0 <= i < |active| && active[i] == v;
      assert active[..cut][i] == v;
    }
    forall v: nat ensures v in active[cut..] <==> v in block {
      if v in block {
        var i :| 0 <= i < |active| && active[i] == v;
        assert active[cut..][i - cut] == v;
      }
    }
  }

  lemma {:induction false} EmitFrames(disc: seq<nat>, m: Marks, pending: seq<Frame>, block: set<nat>)
    requires |disc| == |m.taken| && Within(|disc|, m.live) && FramesIn(|disc|, pending) && pending != []
    requires FrameNodes(m.live, pending, m.taken, m.open) && FrameOrder(disc, m.live, pending)
    requires block == Block(disc, m.live, pending[|pending| - 1].node)
    ensures var p, u := pending[..|pending| - 1], pending[|pending| - 1].node;
            && Within(|disc|, m.live - block) && FramesIn(|disc|, p)
            && FrameNodes(m.live - block, p, m.taken, Leave(m, u).open)
            && FrameOrder(disc, m.live - block, p)
  {
    LeaveFrames(disc, m, pending);
  }

  lemma {:induction false} EmitLowlinks(to: Reaches, disc: seq<nat>, low: seq<nat>, m: Marks, u: nat, block: set<nat>)
    requires |to| == |disc| == |low| && Within(|disc|, m.live) && Lowlinks(to, disc, low, m.live, m.open)
    requires u < |disc| && u in m.live && block == Block(disc, m.live, u)
    ensures Within(|disc|, m.live - block)
    ensures Lowlinks(to, disc, low, m.live - block, Leave(m, u).open)
  {
    forall v {:trigger LowWitness(to, disc, low, m.live - block, v)} | v in m.live - block
      ensures LowWitness(to, disc, low, m.live - block, v)
    {
      assert LowWitness(to, disc, low, m.live, v);
      var w :| w in m.live && disc[w] == low[v] && w in to[v];
      assert w in m.live - block;
    }
  }

  lemma {:induction false} EmitBounded(edges: Adjacency, disc: seq<nat>, low: seq<nat>, live: set<nat>, taken: seq<nat>,
                    pending: seq<Frame>, rest: set<nat>)
    requires |edges| == |disc| == |low| == |taken| && FramesIn(|disc|, pending) && pending != []
    requires Within(|edges|, live) && Bounded(edges, disc, low, live, taken, pending)
    requires rest <= live && forall v | v in rest :: disc[v] < disc[pending[|pending| - 1].node]
    ensures FramesIn(|disc|, pending[..|pending| - 1])
    ensures Bounded(edges, disc, low, rest, taken, pending[..|pending| - 1])
  {
    var p := pending[..|pending| - 1];
    forall i: nat, v: nat, j: nat {:trigger BoundAt(edges, disc, low, rest, taken, p, i, v, j)}
      | i < |p| && v in rest && j < |edges[v]|
      ensures BoundAt(edges, disc, low, rest, taken, p, i, v, j)
    {
      assert BoundAt(edges, disc, low, live, taken, pending, i, v, j);
    }
  }

  lemma {:induction false} EmitPhases(disc: seq<nat>, comp: seq<nat>, after: seq<nat>, live: set<nat>, taken: seq<nat>,
                   block: set<nat>, c: nat)
    requires |disc| == |comp| == |taken| == |after| && Phases(disc, comp, live, taken)
    requires block <= live && c < UNSET
    requires forall v | 0 <= v < |after| :: after[v] == if v in block then c else comp[v]
    ensures Phases(disc, after, live - block, taken)
  {
  }

  function Append(cs: Components, slice: seq<nat>): (r: Components) {
    Components(cs.offsets + [|cs.members| + |slice|], cs.members + slice)
  }

  lemma {:induction false} AppendMembers(cs: Components, slice: seq<nat>)
    requires cs.Valid() && slice != []
    ensures var r := Append(cs, slice);
            && r.Valid() && r.Count() == cs.Count() + 1 && r.Members(cs.Count()) == slice
            && forall c: nat | c < cs.Count() :: r.Members(c) == cs.Members(c)
  {
    var r := Append(cs, slice);
    forall c: nat | c < cs.Count() ensures r.Members(c) == cs.Members(c) {
      assert cs.offsets[c + 1] <= |cs.members|;
    }
  }

  lemma {:induction false} EmitEmitted(edges: Adjacency, to: Reaches, comp: seq<nat>, cs: Components, after: seq<nat>,
                    slice: seq<nat>, block: set<nat>)
    requires InRange(edges) && |to| == |edges| == |comp| == |after| && Emitted(edges, to, comp, cs)
    requires cs.Count() < UNSET && slice != []
    requires Sorting.StrictlySorted(slice, NatLeq) && forall v: nat :: v in slice <==> v in block
    requires forall v | v in block :: v < |edges| && comp[v] == UNSET
    requires forall v | 0 <= v < |after| :: after[v] == if v in block then cs.Count() else comp[v]
    requires forall v, w | v in block && w in block :: w in to[v]
    requires forall v, j: nat | v in block && j < |edges[v]| :: edges[v][j] in block || comp[edges[v][j]] != UNSET
    ensures Emitted(edges, to, after, Append(cs, slice))
  {
    AppendMembers(cs, slice);
  }

  lemma {:induction false} CountBound(offsets: seq<nat>, i: nat)
    requires forall a, b | 0 <= a < b < |offsets| :: offsets[a] < offsets[b]
    requires i < |offsets|
    ensures i <= offsets[i]
  {
    if i > 0 { CountBound(offsets, i - 1); }
  }

  /** A parent's low link is below the index of its child. */
  lemma {:induction false} ParentBelow(edges: Adjacency, to: Reaches, s: Search, m: Marks, u: nat)
    requires Inv(edges, to, s, m) && Exhausted(edges, s.pending, u) && |s.pending| >= 2
    ensures var parent := s.pending[|s.pending| - 2].node; parent < |s.low| && s.low[parent] < s.disc[u]
  {
    var parent := s.pending[|s.pending| - 2].node;
    assert s.low[parent] <= s.disc[parent] < s.disc[u];
  }

  lemma {:induction false} ReturnKeeps(s: Search, u: nat)
    requires s.pending != [] && u < |s.low|
    requires |s.pending| >= 2 ==>
      var parent := s.pending[|s.pending| - 2].node; parent < |s.low| && s.low[parent] <= s.low[u]
    ensures Return(s, u) == s.(pending := s.pending[..|s.pending| - 1])
  {
    if |s.pending| >= 2 { assert Return(s, u).low == s.low; }
  }

  /** Leaving a root changes no low link: its parent's is already smaller. */
  lemma {:induction false} RootReturn(edges: Adjacency, to: Reaches, s: Search, m: Marks, u: nat)
    requires Inv(edges, to, s, m) && Exhausted(edges, s.pending, u) && s.low[u] == s.disc[u]
    ensures Return(s, u) == s.(pending := s.pending[..|s.pending| - 1])
  {
    if |s.pending| >= 2 { ParentBelow(edges, to, s, m, u); }
    ReturnKeeps(s, u);
  }

  /** `r` is `s` after the block of the root `u`, at `cut` on the stack, became a component. */
  ghost predicate Emits(s: Search, u: nat, cut: nat, slice: seq<nat>, r: Search) {
    && cut < |s.active| && s.active[cut] == u && s.components.offsets != [] && s.pending != []
    && Sorting.StrictlySorted(slice, NatLeq) && |slice| == |s.active| - cut
    && (forall v: nat :: v in slice <==> v in s.active[cut..])
    && r == s.(pending := s.pending[..|s.pending| - 1], active := s.active[..cut],
               comp := r.comp, components := Append(s.components, slice))
    && |r.comp| == |s.comp|
    && (forall v | 0 <= v < |r.comp| ::
          r.comp[v] == if v in slice then s.components.Count() else s.comp[v])
  }

  /** What is emitted is the block, and there is room for one more component. */
  lemma {:induction false} EmitsBlock(edges: Adjacency, to: Reaches, s: Search, m: Marks, u: nat, cut: nat,
      slice: seq<nat>, r: Search)
    requires Inv(edges, to, s, m) && Emits(s, u, cut, slice, r)
    ensures s.components.Count() < UNSET && slice != []
    ensures forall v: nat :: v in slice <==> v in Block(s.disc, m.live, u)
    ensures forall v | v in Block(s.disc, m.live, u) :: v < |edges| && s.comp[v] == UNSET
  {
    EmitActive(s.disc, m.live, s.active, cut, u);
    CountBound(s.components.offsets, s.components.Count());
  }

  lemma {:induction false} EmitComponents(edges: Adjacency, to: Reaches, s: Search, m: Marks, u: nat, cut: nat,
      slice: seq<nat>, r: Search)
    requires Inv(edges, to, s, m) && Closed(edges, to) && Exhausted(edges, s.pending, u)
    requires s.low[u] == s.disc[u] && Emits(s, u, cut, slice, r)
    ensures s.components.Count() < UNSET && Emitted(edges, to, r.comp, r.components)
  {
    EmitsBlock(edges, to, s, m, u, cut, slice, r);
    BlockMutual(edges, to, s, m, u);
    BlockExits(edges, to, s, m, u);
    EmitEmitted(edges, to, s.comp, s.components, r.comp, slice, Block(s.disc, m.live, u));
  }

  lemma {:induction false} EmitTables(edges: Adjacency, to: Reaches, s: Search, m: Marks, u: nat, cut: nat,
      slice: seq<nat>, r: Search)
    requires Inv(edges, to, s, m) && u in m.live && Emits(s, u, cut, slice, r) && s.components.Count() < UNSET
    ensures Counts(r) && Phases(r.disc, r.comp, m.live - Block(s.disc, m.live, u), m.taken)
  {
    EmitActive(s.disc, m.live, s.active, cut, u);
    EmitPhases(s.disc, s.comp, r.comp, m.live, m.taken, Block(s.disc, m.live, u), s.components.Count());
  }

  ghost function Emptied(s: Search, m: Marks, u: nat): (r: Marks)
    requires Within(|s.disc|, m.live) && u < |s.disc|
  {
    Marks(m.live - Block(s.disc, m.live, u), m.taken, Leave(m, u).open)
  }

  lemma {:induction false} EmitStack(edges: Adjacency, to: Reaches, s: Search, m: Marks, u: nat, cut: nat,
      slice: seq<nat>, r: Search)
    requires Inv(edges, to, s, m) && Exhausted(edges, s.pending, u) && Emits(s, u, cut, slice, r)
    ensures var k := Emptied(s, m, u);
            && Within(|edges|, k.live) && Active(r.disc, k.live, r.active)
            && FrameNodes(k.live, r.pending, k.taken, k.open) && FramesIn(|edges|, r.pending)
            && FrameOrder(r.disc, k.live, r.pending)
  {
    EmitActive(s.disc, m.live, s.active, cut, u);
    EmitFrames(s.disc, m, s.pending, Block(s.disc, m.live, u));
  }

  lemma {:induction false} EmitLinks(edges: Adjacency, to: Reaches, s: Search, m: Marks, u: nat, cut: nat,
      slice: seq<nat>, r: Search)
    requires Inv(edges, to, s, m) && Exhausted(edges, s.pending, u) && u in m.live && Emits(s, u, cut, slice, r)
    requires Within(|edges|, Emptied(s, m, u).live) && FramesIn(|edges|, r.pending)
    ensures var k := Emptied(s, m, u);
            && Explored(edges, r.disc, k.live, k.taken, k.open) && Lowlinks(to, r.disc, r.low, k.live, k.open)
            && Chained(to, r.disc, k.live) && Bounded(edges, r.disc, r.low, k.live, k.taken, r.pending)
  {
    var block := Block(s.disc, m.live, u);
    LeaveExplored(edges, s.disc, m, u);
    EmitLowlinks(to, s.disc, s.low, m, u, block);
    EmitBounded(edges, s.disc, s.low, m.live, m.taken, s.pending, m.live - block);
  }

  lemma {:induction false} EmitInv(edges: Adjacency, to: Reaches, s: Search, m: Marks, u: nat, cut: nat,
      slice: seq<nat>, r: Search)
    requires Inv(edges, to, s, m) && Closed(edges, to) && Exhausted(edges, s.pending, u)
    requires s.low[u] == s.disc[u] && Emits(s, u, cut, slice, r)
    ensures Within(|s.disc|, m.live) && u < |s.disc| && Inv(edges, to, r, Emptied(s, m, u))
  {
    EmitComponents(edges, to, s, m, u, cut, slice, r);
    EmitTables(edges, to, s, m, u, cut, slice, r);
    EmitStack(edges, to, s, m, u, cut, slice, r);
    EmitLinks(edges, to, s, m, u, cut, slice, r);
  }
}
