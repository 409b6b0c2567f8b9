/** Iterative strongly connected components over an explicit frame stack. */
module Tarjan {
  import opened Wrappers
  import opened Graphs
  import opened TarjanSteps
  import Sorting

  /** What the traversal promises: components are exactly the classes of mutual reachability,
      listed in ascending order, and every edge leads to the same or an earlier component. */
  ghost predicate IsComponents(edges: Adjacency, comp: seq<nat>, cs: Components) {
    && |comp| == |edges| && cs.Valid()
    && (forall v: nat | v < |edges| :: comp[v] < cs.Count())
    && (forall c: nat | c < cs.Count() :: Sorting.StrictlySorted(cs.Members(c), NatLeq))
    && (forall c: nat, v: nat {:trigger v in cs.Members(c)} | c < cs.Count() :: v in cs.Members(c) <==>
         v < |edges| && comp[v] == c)
    && (forall v: nat, w: nat | v < |edges| && w < |edges| ::
          comp[v] == comp[w] <==> Reach(edges, v, w) && Reach(edges, w, v))
    && (forall v: nat, w: nat | Edge(edges, v, w) :: comp[w] <= comp[v])
  }

  ghost function ReachTable(edges: Adjacency): (to: Reaches)
    ensures |to| == |edges|
  {
    seq(|edges|, v requires 0 <= v < |edges| => set w: nat | w < |edges| && Reach(edges, v, w))
  }

  lemma {:induction false} ReachTableClosed(edges: Adjacency)
    requires InRange(edges)
    ensures Closed(edges, ReachTable(edges))
    ensures forall v: nat, j: nat | v < |edges| && j < |edges[v]| :: edges[v][j] in ReachTable(edges)[v]
  {
    var to := ReachTable(edges);
    forall v | 0 <= v < |edges| ensures v in to[v] { ReachSelf(edges, v); }
    forall v, w, x | 0 <= v < |edges| && 0 <= w < |edges| && w in to[v] && x in to[w]
      ensures x in to[v]
    {
      ReachTrans(edges, v, w, x);
    }
    forall v: nat, j: nat | v < |edges| && j < |edges[v]| ensures edges[v][j] in to[v] {
      ReachEdge(edges, v, edges[v][j]);
    }
  }

  /** The adjacency lists up to their first missing target. */
  ghost function Clip(n: nat, targets: seq<nat>): (r: seq<nat>)
    ensures r <= targets && (forall j | 0 <= j < |r| :: r[j] < n)
    ensures |r| < |targets| ==> targets[|r|] >= n
  {
    if targets == [] || targets[0] >= n then []
    else
      var rest := Clip(n, targets[1..]);
      assert [targets[0]] + rest <= targets;
      [targets[0]] + rest
  }

  ghost function ClipAll(edges: Adjacency): (r: Adjacency)
    ensures |r| == |edges| && InRange(r)
    ensures forall v | 0 <= v < |edges| :: r[v] == Clip(|edges|, edges[v])
  {
    seq(|edges|, v requires 0 <= v < |edges| => Clip(|edges|, edges[v]))
  }

  /** Edges the open frames have yet to take, counting one more for each frame. */
  ghost function Remaining(edges: Adjacency, pending: seq<Frame>): nat
    requires FramesIn(|edges|, pending)
  {
    if pending == [] then 0
    else
      var top := pending[|pending| - 1];
      var left := if top.nextEdge < |edges[top.node]| then |edges[top.node]| - top.nextEdge else 0;
      Remaining(edges, pending[..|pending| - 1]) + left + 1
  }

  /** Pops the component stack down to and including `root` into a new sorted component. */
  method PushFromActiveUntil(cs: Components, active: seq<nat>, root: nat)
    returns (r: Result<Components>, rest: seq<nat>, ghost slice: seq<nat>)
    ensures r.Ok? <==> root in active
    ensures r.Ok? ==>
      && |rest| < |active| && rest == active[..|rest|] && active[|rest|] == root
      && root !in active[|rest| + 1..]
      && r.value == Append(cs, slice)
      && Sorting.Sorted(slice, NatLeq) && multiset(slice) == multiset(active[|rest|..])
  {
    rest := active;
    var popped: seq<nat> := [];
    slice := [];
    assert active[|rest|..] == [];
    while true
      invariant rest <= active && root !in active[|rest|..]
      invariant multiset(popped) == multiset(active[|rest|..])
      decreases |rest|
    {
      if rest == [] {
        return Err("compilation request component stack underflow"), rest, [];
      }
      var member := rest[|rest| - 1];
      assert active[|rest| - 1..] == [member] + active[|rest|..];
      rest := rest[..|rest| - 1];
      popped := popped + [member];
      if member == root { break; }
    }
    NatOrder();
    Sorting.SortSorted(popped, NatLeq);
    var sorted := Sorting.Sort(popped, NatLeq);
    slice := sorted;
    r := Ok(Components(cs.offsets + [|cs.members| + |sorted|], cs.members + sorted));
  }

  /** Assigns `component` to every listed node. */
  method MarkMembers(comp: seq<nat>, members: seq<nat>, component: nat) returns (r: seq<nat>)
    requires forall v | v in members :: v < |comp|
    ensures |r| == |comp|
    ensures forall v | 0 <= v < |comp| :: r[v] == if v in members then component else comp[v]
  {
    r := comp;
    for i := 0 to |members|
      invariant |r| == |comp|
      invariant forall v | 0 <= v < |comp| :: r[v] == if v in members[..i] then component else comp[v]
    {
      assert members[..i + 1] == members[..i] + [members[i]] && members[i] in members;
      r := r[members[i] := component];
    }
    assert members[..|members|] == members;
  }

  /** Nodes without a frame were left only after all their targets were found in range. */
  ghost predicate Whole(edges: Adjacency, clip: Adjacency, s: Search, m: Marks) {
    && |clip| == |edges| == |s.disc|
    && forall v: nat | v < |edges| && s.disc[v] != UNSET && v !in m.open :: |clip[v]| == |edges[v]|
  }

  lemma {:induction false} SliceOfStack(disc: seq<nat>, live: set<nat>, active: seq<nat>, cut: nat, slice: seq<nat>)
    requires Within(|disc|, live) && Active(disc, live, active) && cut < |active|
    requires Sorting.Sorted(slice, NatLeq) && multiset(slice) == multiset(active[cut..])
    ensures Sorting.StrictlySorted(slice, NatLeq) && |slice| == |active| - cut
    ensures forall v: nat :: v in slice <==> v in active[cut..]
  {
    var block := active[cut..];
    Sorting.SameElements(slice, block);
    Sorting.DistinctArrangement(block, slice);
  }

  /** The step from `s` to `r` loses no discovery and makes progress. */
  ghost predicate Progress(edges: Adjacency, clip: Adjacency, s: Search, r: Search, k: Marks) {
    && Whole(edges, clip, r, k) && |s.disc| == |edges|
    && FramesIn(|clip|, s.pending) && FramesIn(|clip|, r.pending)
    && (forall v | 0 <= v < |edges| && s.disc[v] != UNSET :: r.disc[v] != UNSET)
    && (s.next < r.next
        || (s.next == r.next && Remaining(clip, r.pending) < Remaining(clip, s.pending)))
  }

  lemma {:induction false} ProgressNew(edges: Adjacency, clip: Adjacency, s: Search, m: Marks, u: nat, e: nat, t: nat)
    requires Whole(edges, clip, s, m) && FramesIn(|clip|, s.pending)
    requires Takes(clip, s.pending, u, e, t) && |s.low| == |s.disc|
    requires t < |clip| && u < |m.taken| && s.next < UNSET
    ensures Progress(edges, clip, s, Discover(Advance(s, u, e), t), Enter(Take(m, u), Advance(s, u, e), t))
  {
  }

  lemma {:induction false} ProgressOld(edges: Adjacency, clip: Adjacency, s: Search, m: Marks, u: nat, e: nat, t: nat)
    requires Whole(edges, clip, s, m) && FramesIn(|clip|, s.pending)
    requires Takes(clip, s.pending, u, e, t) && |s.low| == |s.comp| == |s.disc|
    requires t < |clip| && u < |m.taken|
    ensures Progress(edges, clip, s, TakeKnown(s, u, e, t), Take(m, u))
  {
    var r, top := TakeKnown(s, u, e, t), |s.pending| - 1;
    assert r.pending[..top] == s.pending[..top];
  }

  /** The innermost frame takes its next edge. */
  method TakeEdge(edges: Adjacency, s: Search, ghost to: Reaches, ghost m: Marks)
    returns (r: Result<Search>, ghost k: Marks)
    requires var clip := ClipAll(edges); Inv(clip, to, s, m) && Whole(edges, clip, s, m) && Closed(clip, to)
    requires forall v: nat, j: nat | v < |edges| && j < |ClipAll(edges)[v]| :: ClipAll(edges)[v][j] in to[v]
    requires s.pending != []
    requires var top := s.pending[|s.pending| - 1]; top.nextEdge < |edges[top.node]|
    ensures r.Err? ==> !InRange(edges)
    ensures r.Ok? ==> Inv(ClipAll(edges), to, r.value, k)
    ensures r.Ok? ==> Progress(edges, ClipAll(edges), s, r.value, k)
  {
    ghost var clip := ClipAll(edges);
    k := m;
    var node, nextEdge := s.pending[|s.pending| - 1].node, s.pending[|s.pending| - 1].nextEdge;
    var target := edges[node][nextEdge];
    if target >= |edges| {
      return Err("compilation request graph references missing target"), m;
    }
    assert Takes(clip, s.pending, node, nextEdge, target);
    if s.disc[target] == UNSET {
      TakeNew(clip, to, s, m, node, nextEdge, target);
      ProgressNew(edges, clip, s, m, node, nextEdge, target);
      k := Enter(Take(m, node), Advance(s, node, nextEdge), target);
      r := Ok(Discover(Advance(s, node, nextEdge), target));
    } else {
      TakeOld(clip, to, s, m, node, nextEdge, target);
      ProgressOld(edges, clip, s, m, node, nextEdge, target);
      k := Take(m, node);
      r := Ok(TakeKnown(s, node, nextEdge, target));
    }
  }

  /** Moves a finished root and everything above it from the component stack into a component. */
  method CloseComponent(s: Search, back: Search, node: nat, ghost edges: Adjacency, ghost to: Reaches, ghost m: Marks)
    returns (r: Search)
    requires Inv(edges, to, s, m) && Closed(edges, to) && Exhausted(edges, s.pending, node)
    requires s.low[node] == s.disc[node] && back == s.(pending := s.pending[..|s.pending| - 1])
    requires node in s.active
    ensures exists cut, slice :: Emits(s, node, cut, slice, r)
  {
    var components, rest, slice := PushFromActiveUntil(back.components, back.active, node);
    SliceOfStack(s.disc, m.live, s.active, |rest|, slice);
    var members := components.value.members[|back.components.members|..];
    assert members == slice;
    var comp := MarkMembers(back.comp, members, back.components.Count());
    r := back.(active := rest, comp := comp, components := components.value);
    assert Emits(s, node, |rest|, slice, r);
  }

  lemma {:induction false} TopActive(edges: Adjacency, to: Reaches, s: Search, m: Marks, node: nat)
    requires Inv(edges, to, s, m) && Exhausted(edges, s.pending, node)
    ensures node in m.live && node in s.active
  {
    LiveIndices(edges, to, s, m);
  }

  /** What finishing the innermost frame, of `node`, comes to. */
  ghost predicate Finished(edges: Adjacency, to: Reaches, s: Search, m: Marks, node: nat, r: Search, k: Marks) {
    && Inv(edges, to, r, k) && r.disc == s.disc && r.next == s.next && k.open == Leave(m, node).open
    && s.pending != [] && r.pending == s.pending[..|s.pending| - 1]
  }

  lemma {:induction false} RootFinished(edges: Adjacency, to: Reaches, s: Search, m: Marks, node: nat, r: Search)
    requires Inv(edges, to, s, m) && Closed(edges, to) && Exhausted(edges, s.pending, node) &&
        s.low[node] == s.disc[node]
    requires exists cut, slice :: Emits(s, node, cut, slice, r)
    ensures Within(|s.disc|, m.live) && Finished(edges, to, s, m, node, r, Emptied(s, m, node))
  {
    var cut, slice :| Emits(s, node, cut, slice, r);
    EmitInv(edges, to, s, m, node, cut, slice, r);
  }

  /** The innermost frame has no edge left: return to its parent and close a finished component. */
  method Finish(s: Search, node: nat, ghost edges: Adjacency, ghost to: Reaches, ghost m: Marks)
    returns (r: Search, ghost k: Marks)
    requires Inv(edges, to, s, m) && Closed(edges, to) && Exhausted(edges, s.pending, node)
    ensures Finished(edges, to, s, m, node, r, k)
  {
    TopActive(edges, to, s, m, node);
    ReturnDefined(edges, to, s, m, node);
    r := Return(s, node);
    if r.low[node] != r.disc[node] {
      LeaveInner(edges, to, s, m, node);
      k := Leave(m, node);
    } else {
      RootReturn(edges, to, s, m, node);
      r := CloseComponent(s, r, node, edges, to, m);
      RootFinished(edges, to, s, m, node, r);
      k := Emptied(s, m, node);
    }
  }

  lemma {:induction false} ReturnDefined(edges: Adjacency, to: Reaches, s: Search, m: Marks, node: nat)
    requires Inv(edges, to, s, m) && Exhausted(edges, s.pending, node)
    ensures node < |s.low| && (|s.pending| >= 2 ==> s.pending[|s.pending| - 2].node < |s.low|)
    ensures Return(s, node).disc == s.disc && Return(s, node).next == s.next
    ensures Return(s, node).pending == s.pending[..|s.pending| - 1]
    ensures |Return(s, node).low| == |s.low| && Return(s, node).low[node] == s.low[node] && node < |s.disc|
  {
  }

  /** Once every node is discovered and no frame is open, the components are the answer. */
  lemma {:induction false} Complete(edges: Adjacency, s: Search, m: Marks)
    requires InRange(edges) && Inv(edges, ReachTable(edges), s, m)
    requires s.active == [] && forall v | 0 <= v < |edges| :: s.disc[v] != UNSET
    ensures IsComponents(edges, s.comp, s.components)
  {
    var to := ReachTable(edges);
    assert forall v: nat | v < |edges| :: v !in m.live;
    assert forall v: nat | v < |edges| :: s.comp[v] != UNSET;
    forall v: nat, w: nat | Edge(edges, v, w) ensures s.comp[w] <= s.comp[v] {
      var j :| 0 <= j < |edges[v]| && edges[v][j] == w;
    }
    forall v: nat, w: nat | v < |edges| && w < |edges|
      ensures s.comp[v] == s.comp[w] <==> Reach(edges, v, w) && Reach(edges, w, v)
    {
      if s.comp[v] == s.comp[w] {
        assert w in to[v] && v in to[w];
      } else if Reach(edges, v, w) && Reach(edges, w, v) {
        ReachDescends(edges, s.comp, v, w);
        ReachDescends(edges, s.comp, w, v);
      }
    }
  }

  lemma {:induction false} ReachDescends(edges: Adjacency, comp: seq<nat>, v: nat, w: nat)
    requires |comp| == |edges| && Reach(edges, v, w)
    requires forall x: nat, y: nat | Edge(edges, x, y) :: comp[y] <= comp[x]
    ensures v < |edges| && w < |edges| && comp[w] <= comp[v]
  {
    var below := set x: nat | x < |edges| && comp[x] <= comp[v];
    ReachStaysIn(edges, below, v, w);
  }

  lemma {:induction false} ProgressFinish(edges: Adjacency, clip: Adjacency, s: Search, m: Marks, node: nat, r: Search,
      k: Marks)
    requires Whole(edges, clip, s, m) && FramesIn(|clip|, s.pending) && Exhausted(clip, s.pending, node)
    requires |clip[node]| == |edges[node]| && r.disc == s.disc && r.next == s.next && k.open == Leave(m, node).open
    requires r.pending == s.pending[..|s.pending| - 1]
    ensures Progress(edges, clip, s, r, k)
  {
  }

  /** One turn of the traversal: take the next edge of the innermost frame, or finish it. */
  method Turn(edges: Adjacency, s: Search, ghost to: Reaches, ghost m: Marks)
    returns (r: Result<Search>, ghost k: Marks)
    requires Inv(ClipAll(edges), to, s, m) && Whole(edges, ClipAll(edges), s, m)
    requires to == ReachTable(ClipAll(edges)) && s.pending != []
    ensures r.Err? ==> !InRange(edges)
    ensures r.Ok? ==> Inv(ClipAll(edges), to, r.value, k) && Progress(edges, ClipAll(edges), s, r.value, k)
  {
    ghost var clip := ClipAll(edges);
    ReachTableClosed(clip);
    var top := s.pending[|s.pending| - 1];
    if top.nextEdge < |edges[top.node]| {
      r, k := TakeEdge(edges, s, to, m);
    } else {
      assert Exhausted(clip, s.pending, top.node);
      var finished;
      finished, k := Finish(s, top.node, clip, to, m);
      ProgressFinish(edges, clip, s, m, top.node, finished, k);
      r := Ok(finished);
    }
  }

  /** Runs the traversal until every node reached from the open frames is finished. */
  method Drain(edges: Adjacency, s0: Search, ghost to: Reaches, ghost m0: Marks)
    returns (r: Result<Search>, ghost m: Marks)
    requires Inv(ClipAll(edges), to, s0, m0) && Whole(edges, ClipAll(edges), s0, m0)
    requires to == ReachTable(ClipAll(edges))
    ensures r.Err? ==> !InRange(edges)
    ensures r.Ok? ==> Inv(ClipAll(edges), to, r.value, m)
    ensures r.Ok? ==> Whole(edges, ClipAll(edges), r.value, m) && r.value.pending == []
    ensures r.Ok? ==> forall v | 0 <= v < |edges| && s0.disc[v] != UNSET :: r.value.disc[v] != UNSET
  {
    ghost var clip := ClipAll(edges);
    var s := s0;
    m := m0;
    while s.pending != []
      invariant Inv(clip, to, s, m)
      invariant Whole(edges, clip, s, m)
      invariant forall v | 0 <= v < |edges| && s0.disc[v] != UNSET :: s.disc[v] != UNSET
      decreases |edges| - s.next, Remaining(clip, s.pending)
    {
      var step, k := Turn(edges, s, to, m);
      if step.Err? { return step, m; }
      s, m := step.value, k;
    }
    r := Ok(s);
  }

  /** Discovers an undiscovered node and everything it reaches. */
  method Explore(edges: Adjacency, s: Search, start: nat, ghost to: Reaches, ghost m: Marks)
    returns (r: Result<Search>, ghost k: Marks)
    requires Inv(ClipAll(edges), to, s, m) && Whole(edges, ClipAll(edges), s, m)
    requires to == ReachTable(ClipAll(edges)) && s.pending == [] && start < |edges| && s.disc[start] == UNSET
    ensures r.Err? ==> !InRange(edges)
    ensures r.Ok? ==> Inv(ClipAll(edges), to, r.value, k)
    ensures r.Ok? ==> Whole(edges, ClipAll(edges), r.value, k) && r.value.pending == []
    ensures r.Ok? ==> r.value.disc[start] != UNSET
    ensures r.Ok? ==> forall v | 0 <= v < |edges| && s.disc[v] != UNSET :: r.value.disc[v] != UNSET
  {
    ghost var clip := ClipAll(edges);
    ReachTableClosed(clip);
    StartDiscover(clip, to, s, m, start);
    DiscoverCounts(s, start);
    r, k := Drain(edges, Discover(s, start), to, Enter(m, s, start));
  }

  lemma {:induction false} NothingClipped(edges: Adjacency, s: Search, m: Marks)
    requires Whole(edges, ClipAll(edges), s, m) && s.pending == []
    requires Within(|m.taken|, m.live) && FrameNodes(m.live, s.pending, m.taken, m.open)
    requires forall v | 0 <= v < |edges| :: s.disc[v] != UNSET
    ensures ClipAll(edges) == edges && InRange(edges)
  {
    var clip := ClipAll(edges);
    forall v | 0 <= v < |edges| ensures clip[v] == edges[v] {
      assert v !in m.open;
      assert clip[v] <= edges[v];
    }
  }

  lemma {:induction false} Conclusion(edges: Adjacency, s: Search, m: Marks)
    requires Inv(ClipAll(edges), ReachTable(ClipAll(edges)), s, m) && Whole(edges, ClipAll(edges), s, m)
    requires s.pending == [] && forall v | 0 <= v < |edges| :: s.disc[v] != UNSET
    ensures InRange(edges) && IsComponents(edges, s.comp, s.components)
  {
    ActiveHasFrame(ClipAll(edges), ReachTable(ClipAll(edges)), s, m);
    NothingClipped(edges, s, m);
    Complete(edges, s, m);
  }

  /** Strongly connected components in dependency-first order. A missing target is the only
      error; the stack errors of the traversal cannot occur. */
  method StronglyConnectedComponents(edges: Adjacency) returns (r: Result<(seq<nat>, Components)>)
    requires |edges| < UNSET
    ensures r.Ok? <==> InRange(edges)
    ensures r.Ok? ==> IsComponents(edges, r.value.0, r.value.1)
  {
    ghost var clip := ClipAll(edges);
    ghost var to := ReachTable(clip);
    StartInv(clip, to);
    var s := Start(|edges|);
    ghost var m := Marks({}, seq(|edges|, _ => 0), map[]);
    for start := 0 to |edges|
      invariant Inv(clip, to, s, m)
      invariant s.pending == [] && Whole(edges, clip, s, m)
      invariant forall v | 0 <= v < start :: s.disc[v] != UNSET
    {
      if s.disc[start] == UNSET {
        var explored, k := Explore(edges, s, start, to, m);
        if explored.Err? { return Err(explored.message); }
        s, m := explored.value, k;
      }
    }
    Conclusion(edges, s, m);
    r := Ok((s.comp, s.components));
  }
}
