/** The typed request table object over the evaluator graph object. */
module TypedTable {
  import opened Wrappers
  import opened RequestGraph
  import opened RequestTable
  import opened EvaluatorGraph

  /** What publication does to graph and cells, case by case. */
  lemma {:induction false} PublishKeyIs<K, V>(p: Program<K, V>, db: Db<K, V>, value: V)
    requires WellFormed(db) && db.frames != []
    ensures var t, step := db.frames[|db.frames| - 1].ticket, PublishKey(p, db, value);
            && step.db.keys == db.keys
            && (t.node !in db.keys ==>
                  step.result == Err("ticket has no typed key") && step.db.graph == db.graph &&
                      step.db.cells == db.cells)
            && (t.node in db.keys && p.output(value).None? ==>
                  && step.result == Err("output fingerprint failed") && step.db.cells == db.cells
                  && step.db.graph == Abort(db.graph, t, AbortFailed).graph)
            && (t.node in db.keys && p.output(value).Some? ==>
                  var out, key := Publish(db.graph, t, p.output(value).value), db.keys[t.node];
                  && step.result == out.result && step.db.graph == out.graph
                  && step.db.cells == if out.result.Ok?
                       then db.cells[key := Store(db.cells[key], out.result.value, value)] else db.cells)
  {
  }

  function KeysOutside<K>(keys: map<nat, K>, nodes: seq<nat>): (r: map<nat, K>)
    ensures r == keys - Elements(nodes)
  {
    map n | n in keys && n !in nodes :: keys[n]
  }

  class TypedRequestTable<K(==,!new), V> {
    const p: Program<K, V>
    var cells: map<K, Cell<V>>
    var keysByNode: map<nat, K>

    /** The table and its graph as one value, with the given live computations. */
    ghost function View(graph: RequestEvaluatorGraph, frames: seq<Frame<K, V>>): Db<K, V>
      reads this, graph
    {
      Db(graph.View(), cells, keysByNode, frames, map[])
    }

    ghost predicate Valid(graph: RequestEvaluatorGraph)
      reads this, graph
    {
      && graph.Valid()
      && (forall k | k in cells :: cells[k].node < |graph.nodes|)
      && (forall n | n in keysByNode :: keysByNode[n] in cells && cells[keysByNode[n]].node == n)
    }

    constructor (p: Program<K, V>, ghost graph: RequestEvaluatorGraph)
      requires graph.Valid()
      ensures Valid(graph) && this.p == p && cells == map[] && keysByNode == map[]
    {
      this.p, cells, keysByNode := p, map[], map[];
    }

    method EnsureNode(graph: RequestEvaluatorGraph, key: K) returns (r: Result<nat>)
      requires Valid(graph)
      modifies this, graph
      ensures Valid(graph)
      ensures View(graph, []) == RequestTable.EnsureNode(p, old(View(graph, [])), key).db
      ensures r == RequestTable.EnsureNode(p, old(View(graph, [])), key).result
    {
      if key in cells {
        return Ok(cells[key].node);
      }
      r := RegisterNode(graph, key);
      if r.Err? {
        return;
      }
      if r.value in keysByNode && keysByNode[r.value] != key {
        return Err("key fingerprint collision");
      }
      AddKey(graph, key, r.value);
    }

    method RegisterNode(graph: RequestEvaluatorGraph, key: K) returns (r: Result<nat>)
      requires Valid(graph)
      modifies graph
      ensures Valid(graph) && (r.Ok? ==> r.value < |graph.nodes|)
      ensures var out := RequestGraph.Register(old(graph.View()), p.identity(key));
              r == out.result && graph.View() == out.graph
    {
      r := graph.Register(p.identity(key));
    }

    /** Enters a key that is not in the table under a node of its own. */
    method AddKey(graph: RequestEvaluatorGraph, key: K, n: nat)
      requires Valid(graph) && key !in cells && n < |graph.nodes|
      modifies this
      ensures Valid(graph) && keysByNode == old(keysByNode)[n := key] && cells == old(cells)[key := Cell(n, None)]
    {
      keysByNode := keysByNode[n := key];
      cells := cells[key := Cell(n, None)];
    }

    method Begin(graph: RequestEvaluatorGraph, key: K, input: Fingerprint) returns (r: Result<Start>)
      requires Valid(graph)
      modifies this, graph
      ensures Valid(graph)
      ensures var step := BeginKey(p, old(View(graph, [])), key, input);
              r == step.result && View(graph, step.db.frames) == step.db
    {
      var node := EnsureNode(graph, key);
      if node.Err? {
        return Err(node.message);
      }
      r := BeginEnsured(graph, key, node.value, input);
    }

    method BeginEnsured(graph: RequestEvaluatorGraph, key: K, n: nat, input: Fingerprint) returns (r: Result<Start>)
      requires Valid(graph)
      modifies graph
      ensures Valid(graph)
      ensures var step := BeginNode(old(View(graph, [])), key, n, input);
              r == step.result && View(graph, step.db.frames) == step.db
    {
      r := graph.Begin(n, input);
    }

    /** The value of a dependency, and the ticket that has captured it. */
    method Require(graph: RequestEvaluatorGraph, ticket: Ticket, key: K, ghost frame: Frame<K, V>)
      returns (r: Result<V>, captured: Ticket)
      requires frame.ticket == ticket
      ensures var step := RequireKey(View(graph, [frame]), key);
              r == step.result && captured == step.db.frames[0].ticket
      ensures var current := key in cells && ValidTicket(graph.View(), ticket) &&
          IsCurrent(graph.View(), cells[key].node);
              && (r.Ok? <==> current && cells[key].value.Some?) && (r.Ok? ==> cells[key].value == Some(r.value))
              && captured == if current then ticket.(dependencies := ticket.dependencies + [cells[key].node])
                   else ticket
    {
      captured := ticket;
      if key !in cells {
        return Err("dependency key is absent"), captured;
      }
      var required := graph.Require(ticket, cells[key].node);
      if required.Err? {
        return Err(required.message), captured;
      }
      captured := required.value;
      if cells[key].value.None? {
        return Err("dependency has no typed value"), captured;
      }
      return Ok(cells[key].value.value), captured;
    }

    /** Stores the result of a computation; a result without fingerprint fails the computation. */
    method Publish(graph: RequestEvaluatorGraph, value: V, frame: Frame<K, V>) returns (r: Result<bool>)
      requires Valid(graph)
      requires ValidTicket(graph.View(), frame.ticket) ==>
        frame.ticket.hadPublication == graph.nodes[frame.ticket.node].memo.Some?
      modifies this`cells, graph
      ensures Valid(graph)
      ensures var step := PublishKey(p, old(View(graph, [frame])), value);
              step.db.keys == keysByNode && Published(graph, step, r)
    {
      ghost var step := PublishKey(p, View(graph, [frame]), value);
      PublishKeyIs(p, View(graph, [frame]), value);
      if frame.ticket.node !in keysByNode {
        return Err("ticket has no typed key");
      }
      if p.output(value).None? {
        FailComputation(graph, frame.ticket);
        assert Published(graph, step, Err("output fingerprint failed"));
        return Err("output fingerprint failed");
      }
      r := PublishResult(graph, value, frame.ticket, p.output(value).value);
      assert Published(graph, step, r);
    }

    /** Graph, cells and result are those of the step. */
    ghost predicate Published(graph: RequestEvaluatorGraph, step: Step<K, V, bool>, r: Result<bool>)
      reads this, graph
    {
      r == step.result && graph.View() == step.db.graph && cells == step.db.cells
    }

    method FailComputation(graph: RequestEvaluatorGraph, ticket: Ticket)
      requires Valid(graph)
      requires ValidTicket(graph.View(), ticket) ==> ticket.hadPublication == graph.nodes[ticket.node].memo.Some?
      modifies graph
      ensures Valid(graph) && graph.View() == Abort(old(graph.View()), ticket, AbortFailed).graph
    {
      var aborted := graph.Abort(ticket, AbortFailed);
    }

    /** Stores a value under its fingerprint. */
    method PublishResult(graph: RequestEvaluatorGraph, value: V, ticket: Ticket, result: Fingerprint)
      returns (r: Result<bool>)
      requires Valid(graph) && ticket.node in keysByNode
      modifies this`cells, graph
      ensures Valid(graph)
      ensures var out, key := RequestGraph.Publish(old(graph.View()), ticket, result), keysByNode[ticket.node];
              && r == out.result && graph.View() == out.graph
              && cells == if r.Ok? then old(cells)[key := Store(old(cells)[key], r.value, value)] else old(cells)
    {
      var key := keysByNode[ticket.node];
      r := graph.Publish(ticket, result);
      if r.Ok? {
        StoreValue(key, r.value, value);
      }
    }

    /** Replaces the value when it changed, or when there was none. */
    method StoreValue(key: K, changed: bool, value: V)
      requires key in cells
      modifies this`cells
      ensures cells == old(cells)[key := Store(old(cells)[key], changed, value)]
    {
      if changed || cells[key].value.None? {
        cells := cells[key := cells[key].(value := Some(value))];
      }
    }

    method CurrentValue(graph: RequestEvaluatorGraph, key: K) returns (r: Result<Option<V>>)
      ensures r == RequestTable.CurrentValue(View(graph, []), key)
      ensures r.Ok? <==> graph.active == []
      ensures forall v :: r == Ok(Some(v)) <==>
        graph.active == [] && key in cells && cells[key].value == Some(v) && IsCurrent(graph.View(), cells[key].node)
    {
      if graph.active != [] {
        return Err("cannot read a current value during evaluation");
      }
      if key !in cells || !IsCurrent(graph.View(), cells[key].node) {
        return Ok(None);
      }
      return Ok(cells[key].value);
    }

    /** The nodes of the requests that go. */
    method NodesToRemove(gone: set<K>, ghost bound: nat) returns (nodes: seq<nat>)
      requires forall k | k in cells :: cells[k].node < bound
      ensures forall i | 0 <= i < |nodes| :: nodes[i] < bound
      ensures forall n: nat :: n in nodes <==> exists k | k in gone :: k in cells && cells[k].node == n
    {
      nodes := [];
      var rest := gone;
      while rest != {}
        invariant rest <= gone && forall i | 0 <= i < |nodes| :: nodes[i] < bound
        invariant forall n: nat :: n in nodes <==> exists k | k in gone - rest :: k in cells && cells[k].node == n
      {
        var k :| k in rest;
        ghost var before, done := nodes, gone - rest;
        rest := rest - {k};
        assert gone - rest == done + {k};
        if k in cells {
          nodes := nodes + [cells[k].node];
        }
      }
      assert gone - rest == gone;
    }

    method Retain(graph: RequestEvaluatorGraph, gone: set<K>) returns (r: Result<()>)
      requires Valid(graph)
      modifies this, graph
      ensures Valid(graph)
      ensures var step := RetainOthers(old(View(graph, [])), gone);
              r == step.result && graph.View() == step.db.graph && cells == step.db.cells && keysByNode == step.db.keys
    {
      var nodes := NodesToRemove(gone, |graph.nodes|);
      assert Elements(nodes) == NodesNamed(View(graph, []), gone);
      r := graph.RemoveNodes(nodes);
      if r.Ok? {
        cells := cells - gone;
        keysByNode := KeysOutside(keysByNode, nodes);
      }
    }
  }
}
