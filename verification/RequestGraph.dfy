/** The currentness graph of the request evaluator: revisions, tickets, the stack of active
    computations, captured dependencies and backdating. */
module RequestGraph {
  import opened Wrappers
  import Bytes
  import Sorting
  import TarjanSteps

  type Fingerprint = Bytes.Digest

  datatype Identity = Identity(family: string, key: Fingerprint)

  datatype Memo = Memo(
    changedAt: nat, verifiedAt: nat, dependenciesVerifiedAt: nat, input: Fingerprint, result: Fingerprint)

  datatype State =
    | Vacant
    | Published
    | Computing(revision: nat, generation: nat, stackIndex: nat)
    | Failed(failedAt: nat)
    | Removed

  datatype Node = Node(
    identity: Identity, state: State, memo: Option<Memo>, dependencies: seq<nat>, dependents: set<nat>)

  datatype Ticket = Ticket(
    node: nat, revision: nat, generation: nat, stackIndex: nat, input: Fingerprint,
    dependencies: seq<nat>, hadPublication: bool)

  datatype Start = Execute(ticket: Ticket) | Reused

  datatype AbortReason = AbortFailed | AbortCanceled

  /** The fields of the graph object. */
  datatype Graph = Graph(
    revision: nat, generation: nat, identities: map<Identity, nat>, nodes: seq<Node>, active: seq<nat>)

  /** A new graph and what the caller is told. */
  datatype Outcome<+T> = Outcome(graph: Graph, result: Result<T>)

  const U32_MAX: nat := 0xFFFF_FFFF

  // ---------- Memos ----------

  function NewMemo(revision: nat, input: Fingerprint, result: Fingerprint): Memo {
    Memo(revision, revision, revision, input, result)
  }

  /** Publishing an unchanged result keeps the revision it last changed at. */
  function Republished(memo: Memo, revision: nat, dependenciesVerifiedAt: nat, input: Fingerprint,
      result: Fingerprint): (r: Result<Memo>)
  {
    if revision <= memo.verifiedAt then Err("publication revision is not newer than verified revision")
    else if dependenciesVerifiedAt != revision then Err("dependencies are verified at another revision")
    else Ok(Memo(if memo.result != result
        then revision else memo.changedAt, revision, dependenciesVerifiedAt, input, result))
  }

  // ---------- Reading ----------

  predicate VerifiedNow(g: Graph, n: nat) {
    n < |g.nodes| && g.nodes[n].memo.Some? && g.nodes[n].memo.value.verifiedAt == g.revision
  }

  predicate IsCurrent(g: Graph, n: nat) {
    n < |g.nodes| && g.nodes[n].state == Published && VerifiedNow(g, n)
  }

  predicate ValidTicket(g: Graph, t: Ticket) {
    && t.revision == g.revision && t.generation == g.generation
    && t.stackIndex < |g.active| && g.active[t.stackIndex] == t.node && |g.active| == t.stackIndex + 1
    && t.node < |g.nodes| && g.nodes[t.node].state == Computing(t.revision, t.generation, t.stackIndex)
  }

  /** A dependency that was verified in this revision and has not changed since `since`. */
  predicate Unchanged(g: Graph, d: nat, since: nat) {
    VerifiedNow(g, d) && g.nodes[d].memo.value.changedAt <= since
  }

  /** The request can be reused without executing. */
  predicate Green(g: Graph, n: nat, input: Fingerprint)
    requires n < |g.nodes|
  {
    && g.nodes[n].memo.Some? && g.nodes[n].memo.value.input == input
    && forall i | 0 <= i < |g.nodes[n].dependencies| ::
         Unchanged(g, g.nodes[n].dependencies[i], g.nodes[n].memo.value.verifiedAt)
  }

  // ---------- Operations ----------

  function Empty(revision: nat): Graph { Graph(revision, 0, map[], [], []) }

  function Register(g: Graph, identity: Identity): (r: Outcome<nat>)
    requires forall id | id in g.identities :: g.identities[id] < |g.nodes|
    ensures r.graph.revision == g.revision && r.graph.generation == g.generation
  {
    if identity in g.identities then
      var n := g.identities[identity];
      if g.nodes[n].state == Removed
      then Outcome(g.(nodes := g.nodes[n := g.nodes[n].(state := Vacant)]), Ok(n))
      else Outcome(g, Ok(n))
    else if |g.nodes| > U32_MAX
        then Outcome<nat>.Outcome(g, Result<nat>.Err("compilation request graph exceeds u32 nodes"))
    else
      Outcome(g.(identities := g.identities[identity := |g.nodes|],
                 nodes := g.nodes + [Node(identity, Vacant, None, [], {})]), Ok(|g.nodes|))
  }

  /** Superseding every active computation. */
  function Settled(node: Node): Node {
    node.(state := if node.memo.Some? then Published else Vacant)
  }

  function SettleAll(nodes: seq<Node>, active: seq<nat>): (r: seq<Node>)
    ensures |r| == |nodes|
  {
    seq(|nodes|, n requires 0 <= n < |nodes| => if n in active then Settled(nodes[n]) else nodes[n])
  }

  function AdvanceTo(g: Graph, revision: nat): (r: Outcome<()>) {
    if revision <= g.revision then Outcome(g, Err("compilation evaluator revision is not newer"))
    else
      Outcome(g.(revision := revision, generation := g.generation + 1,
                 nodes := SettleAll(g.nodes, g.active), active := []), Ok(()))
  }

  function Begin(g: Graph, n: nat, input: Fingerprint): (r: Outcome<Start>)
    ensures r.graph.revision == g.revision && r.graph.generation == g.generation
    ensures |r.graph.nodes| == |g.nodes| && r.graph.identities == g.identities
  {
    if n >= |g.nodes| then Outcome(g, Err("compilation request node is missing"))
    else
      var node := g.nodes[n];
      if node.state.Computing? then Outcome(g, Err("compilation request cycle"))
      else if node.state == Removed then Outcome(g, Err("removed compilation request was not re-registered"))
      else if VerifiedNow(g, n) then
        if node.memo.value.input != input
        then Outcome(g, Err("compilation request input changed after publication in one revision"))
        else Outcome(g, Ok(Reused))
      else if Green(g, n, input) then
        var memo := node.memo.value.(verifiedAt := g.revision, dependenciesVerifiedAt := g.revision);
        Outcome(g.(nodes := g.nodes[n := node.(memo := Some(memo), state := Published)]), Ok(Reused))
      else
        var at := |g.active|;
        Outcome(
          g.(nodes := g.nodes[n := node.(state := Computing(g.revision, g.generation, at))], active := g.active + [n]),
          Ok(Execute(Ticket(n, g.revision, g.generation, at, input, [], node.memo.Some?))))
  }

  function Require(g: Graph, t: Ticket, d: nat): (r: Result<Ticket>) {
    if !ValidTicket(g, t) then Err("compilation evaluator rejected the ticket")
    else if d == t.node then Err("compilation request cycle")
    else if d >= |g.nodes| then Err("compilation evaluator dependency node is missing")
    else if g.nodes[d].state.Computing? then Err("compilation request cycle")
    else if !IsCurrent(g, d) then Err("compilation evaluator dependency is not current")
    else Ok(t.(dependencies := t.dependencies + [d]))
  }

  /** Sorted and without repeats, as dependencies are stored. */
  function Normalized(dependencies: seq<nat>): (r: seq<nat>)
    ensures forall d: nat :: d in r <==> d in dependencies
  {
    Sorting.SameElements(dependencies, Sorting.Sort(dependencies, TarjanSteps.NatLeq));
    Sorting.Dedup(Sorting.Sort(dependencies, TarjanSteps.NatLeq))
  }

  /** Node `d` after `n`'s dependencies changed from `before` to `after`. */
  function Relinked(node: Node, d: nat, n: nat, before: seq<nat>, after: seq<nat>): Node {
    var dependents := (if d in before then node.dependents - {n} else node.dependents)
                    + (if d in after then {n} else {});
    node.(dependents := dependents, dependencies := if d == n then after else node.dependencies)
  }

  function ReplaceDependencies(nodes: seq<Node>, n: nat, after: seq<nat>): (r: seq<Node>)
    requires n < |nodes|
    ensures |r| == |nodes|
  {
    seq(|nodes|, d requires 0 <= d < |nodes| => Relinked(nodes[d], d, n, nodes[n].dependencies, after))
  }

  function PublishMemo(g: Graph, t: Ticket, result: Fingerprint): (r: Result<Memo>)
    requires t.node < |g.nodes|
  {
    match g.nodes[t.node].memo
    case Some(memo) => Republished(memo, g.revision, g.revision, t.input, result)
    case None => Ok(NewMemo(g.revision, t.input, result))
  }

  /** The memo a publication would store, or why it is refused. */
  function PublishCheck(g: Graph, t: Ticket, result: Fingerprint): (r: Result<Memo>)
    ensures r.Ok? ==> ValidTicket(g, t)
  {
    if !ValidTicket(g, t) then Err("compilation evaluator rejected the ticket")
    else
      var after := Normalized(t.dependencies);
      if t.node in after then Err("compilation evaluator request directly depends on itself")
      else if exists d | d in after :: !IsCurrent(g, d)
      then Err("compilation request dependency became stale before publication")
      else PublishMemo(g, t, result)
  }

  function Publish(g: Graph, t: Ticket, result: Fingerprint): (r: Outcome<bool>)
    ensures r.graph.revision == g.revision && r.graph.generation == g.generation
  {
    match PublishCheck(g, t, result)
    case Err(e) => Outcome(g, Err(e))
    case Ok(memo) =>
      var relinked := ReplaceDependencies(g.nodes, t.node, Normalized(t.dependencies));
      var node := relinked[t.node].(memo := Some(memo), state := Published);
      var changed := g.nodes[t.node].memo.None? || g.nodes[t.node].memo.value.result != result;
      Outcome(g.(nodes := relinked[t.node := node], active := g.active[..|g.active| - 1]), Ok(changed))
  }

  function AbortState(g: Graph, t: Ticket, reason: AbortReason): State {
    if reason == AbortFailed then Failed(g.revision)
    else if t.hadPublication then Published
    else Vacant
  }

  function Abort(g: Graph, t: Ticket, reason: AbortReason): (r: Outcome<()>)
    ensures r.graph.revision == g.revision && r.graph.generation == g.generation
  {
    if !ValidTicket(g, t) then Outcome(g, Err("compilation evaluator rejected the ticket"))
    else
      Outcome(g.(active := g.active[..|g.active| - 1],
                 nodes := g.nodes[t.node := g.nodes[t.node].(state := AbortState(g, t, reason))]), Ok(()))
  }

  function WithoutAll(nodes: seq<Node>, gone: set<nat>): (r: seq<Node>)
    ensures |r| == |nodes|
  {
    seq(|nodes|, m requires 0 <= m < |nodes| => Without(nodes, gone, m))
  }

  /** Node `m` after the nodes in `gone` were removed. */
  function Without(nodes: seq<Node>, gone: set<nat>, m: nat): Node
    requires m < |nodes|
  {
    var kept := set n | n in nodes[m].dependents && !(n in gone && n < |nodes| && m in nodes[n].dependencies);
    var node := nodes[m].(dependents := kept);
    if m !in gone then node
    else if node.state == Removed then node.(dependencies := [])
    else node.(state := Removed, memo := None, dependencies := [])
  }

  function RemoveNodes(g: Graph, gone: set<nat>): (r: Outcome<()>)
    ensures r.graph.revision == g.revision && r.graph.generation == g.generation
  {
    if g.active != [] then Outcome(g, Err("cannot remove compilation requests while evaluation is active"))
    else Outcome(g.(nodes := WithoutAll(g.nodes, gone)), Ok(()))
  }
}
