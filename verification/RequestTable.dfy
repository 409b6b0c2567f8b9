/** Typed request values over the evaluator graph, driven by deterministic evaluators. One table
    stands for all request families: a key names its family through its identity. */
module RequestTable {
  import opened Wrappers
  import opened RequestGraph

  /** What an evaluator does next, given its input and the values it has read so far. */
  datatype Action<K, V> = Need(key: K) | Done(value: V) | Fail

  /** The language side: deterministic evaluators, output fingerprints, request identities and the
      input of each request at each revision. */
  datatype Program<!K, !V> = Program(
    eval: (K, Fingerprint, seq<V>) -> Action<K, V>,
    output: V -> Option<Fingerprint>,
    identity: K -> Identity,
    input: (nat, K) -> Fingerprint)

  /** One captured read: which request was read and what it gave. */
  datatype Read<K, V> = Read(node: nat, key: K, value: V)

  datatype Cell<V> = Cell(node: nat, value: Option<V>)

  /** A live computation: its ticket and what it has read. */
  datatype Frame<K, V> = Frame(key: K, ticket: Ticket, seen: seq<Read<K, V>>)

  /** The execution that produced the stored value of a node. */
  datatype Trace<K, V> = Trace(input: Fingerprint, seen: seq<Read<K, V>>)

  /** The graph, the table, the live computations and, as history, the last execution of each node. */
  datatype Db<K, V> = Db(
    graph: Graph, cells: map<K, Cell<V>>, keys: map<nat, K>, frames: seq<Frame<K, V>>,
    traces: map<nat, Trace<K, V>>)

  datatype Step<K, V, T> = Step(db: Db<K, V>, result: Result<T>)

  /** What a client may ask for. `Continue` lets the evaluator on top of the stack take its next
      action. */
  datatype Op<K> =
    | Demand(key: K)
    | Continue
    | Cancel(reason: AbortReason)
    | NewRevision(revision: nat)
    | Retain(gone: set<K>)

  function Initial<K, V>(revision: nat): Db<K, V> { Db(RequestGraph.Empty(revision), map[], map[], [], map[]) }

  function Values<K, V>(seen: seq<Read<K, V>>): (r: seq<V>)
    ensures |r| == |seen|
  {
    seq(|seen|, i requires 0 <= i < |seen| => seen[i].value)
  }

  function NodesOf<K, V>(seen: seq<Read<K, V>>): (r: seq<nat>)
    ensures |r| == |seen|
  {
    seq(|seen|, i requires 0 <= i < |seen| => seen[i].node)
  }

  /** Indices stored in the table and the graph are in range. */
  ghost predicate WellFormed<K, V>(db: Db<K, V>) {
    && (forall id | id in db.graph.identities :: db.graph.identities[id] < |db.graph.nodes|)
    && (forall n | n in db.keys :: db.keys[n] in db.cells)
  }

  function EnsureNode<K(==), V>(p: Program<K, V>, db: Db<K, V>, key: K): (r: Step<K, V, nat>)
    requires WellFormed(db)
  {
    if key in db.cells then Step(db, Ok(db.cells[key].node))
    else
      var out := Register(db.graph, p.identity(key));
      var db1 := db.(graph := out.graph);
      match out.result
      case Err(e) => Step(db1, Err(e))
      case Ok(n) =>
        if n in db.keys && db.keys[n] != key then Step(db1, Err("key fingerprint collision"))
        else Step(db1.(keys := db.keys[n := key], cells := db.cells[key := Cell(n, None)]), Ok(n))
  }

  function BeginKey<K(==), V>(p: Program<K, V>, db: Db<K, V>, key: K, input: Fingerprint): (r: Step<K, V, Start>)
    requires WellFormed(db)
  {
    var ensured := EnsureNode(p, db, key);
    match ensured.result
    case Err(e) => Step(ensured.db, Err(e))
    case Ok(n) => BeginNode(ensured.db, key, n, input)
  }

  function BeginNode<K, V>(db: Db<K, V>, key: K, n: nat, input: Fingerprint): (r: Step<K, V, Start>) {
    var out := Begin(db.graph, n, input);
    var db1 := db.(graph := out.graph);
    match out.result
    case Ok(Execute(ticket)) => Step(db1.(frames := db.frames + [Frame(key, ticket, [])]), out.result)
    case _ => Step(db1, out.result)
  }

  function RequireKey<K(==), V>(db: Db<K, V>, key: K): (r: Step<K, V, V>)
    requires db.frames != []
  {
    if key !in db.cells then Step(db, Err("dependency key is absent"))
    else
      var last := |db.frames| - 1;
      var frame := db.frames[last];
      var cell := db.cells[key];
      match Require(db.graph, frame.ticket, cell.node)
      case Err(e) => Step(db, Err(e))
      case Ok(ticket) =>
        match cell.value
        case None => Step(db.(frames := db.frames[last := frame.(ticket := ticket)]),
            Err("dependency has no typed value"))
        case Some(v) =>
          Step(db.(frames := db.frames[last := Frame(frame.key, ticket, frame.seen + [Read(cell.node, key, v)])]),
              Ok(v))
  }

  /** A value is stored when it changed, or when none was stored. */
  function Store<V>(cell: Cell<V>, changed: bool, value: V): Cell<V> {
    if changed || cell.value.None? then cell.(value := Some(value)) else cell
  }

  function PublishKey<K(==), V>(p: Program<K, V>, db: Db<K, V>, value: V): (r: Step<K, V, bool>)
    requires WellFormed(db) && db.frames != []
  {
    var frame := db.frames[|db.frames| - 1];
    var t := frame.ticket;
    if t.node !in db.keys then Step(db, Err("ticket has no typed key"))
    else
      match p.output(value)
      case None =>
        var out := Abort(db.graph, t, AbortFailed);
        Step(if out.result.Ok? then db.(graph := out.graph, frames := db.frames[..|db.frames| - 1]) else db,
             Err("output fingerprint failed"))
      case Some(result) =>
        var out := Publish(db.graph, t, result);
        match out.result
        case Err(e) => Step(db, Err(e))
        case Ok(changed) =>
          var key := db.keys[t.node];
          Step(Db(out.graph, db.cells[key := Store(db.cells[key], changed, value)], db.keys,
                  db.frames[..|db.frames| - 1], db.traces[t.node := Trace(t.input, frame.seen)]), Ok(changed))
  }

  function AbortKey<K, V>(db: Db<K, V>, reason: AbortReason): (r: Step<K, V, ()>)
    requires db.frames != []
  {
    var out := Abort(db.graph, db.frames[|db.frames| - 1].ticket, reason);
    Step(if out.result.Ok? then db.(graph := out.graph, frames := db.frames[..|db.frames| - 1]) else db, out.result)
  }

  function Advance<K, V>(db: Db<K, V>, revision: nat): (r: Step<K, V, ()>) {
    var out := AdvanceTo(db.graph, revision);
    Step(if out.result.Ok? then db.(graph := out.graph, frames := []) else db, out.result)
  }

  ghost function NodesNamed<K, V>(db: Db<K, V>, gone: set<K>): set<nat> {
    set k | k in gone && k in db.cells :: db.cells[k].node
  }

  ghost function RetainOthers<K(!new), V>(db: Db<K, V>, gone: set<K>): (r: Step<K, V, ()>) {
    var nodes := NodesNamed(db, gone);
    var out := RemoveNodes(db.graph, nodes);
    if out.result.Err? then Step(db, out.result)
    else
      Step(Db(out.graph, db.cells - gone, db.keys - nodes, db.frames, db.traces - nodes), Ok(()))
  }

  /** The value a client may read: none while anything is being evaluated. */
  function CurrentValue<K(==), V>(db: Db<K, V>, key: K): (r: Result<Option<V>>) {
    if db.graph.active != [] then Err("cannot read a current value during evaluation")
    else if key !in db.cells then Ok(None)
    else if IsCurrent(db.graph, db.cells[key].node) then Ok(db.cells[key].value)
    else Ok(None)
  }

  /** The next action of the evaluator on top of the stack. */
  function ContinueTop<K(==), V>(p: Program<K, V>, db: Db<K, V>): Db<K, V>
    requires WellFormed(db) && db.frames != []
  {
    var f := db.frames[|db.frames| - 1];
    match p.eval(f.key, f.ticket.input, Values(f.seen))
    case Need(key) => RequireKey(db, key).db
    case Done(value) => PublishKey(p, db, value).db
    case Fail => db
  }

  /** The database after one request of the client. */
  ghost function Apply<K(!new), V>(p: Program<K, V>, db: Db<K, V>, op: Op<K>): Db<K, V>
    requires WellFormed(db)
  {
    match op
    case Demand(key) => BeginKey(p, db, key, p.input(db.graph.revision, key)).db
    case Continue => if db.frames == [] then db else ContinueTop(p, db)
    case Cancel(reason) => if db.frames == [] then db else AbortKey(db, reason).db
    case NewRevision(revision) => Advance(db, revision).db
    case Retain(gone) => RetainOthers(db, gone).db
  }
}
