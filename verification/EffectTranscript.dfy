/** Recording and replaying transient effects: the two state machines as functions. */
module EffectTranscript {
  import opened Wrappers

  const U64_MAX: nat := 0xFFFF_FFFF_FFFF_FFFF

  datatype Credit<C> = Credit(call: C, amount: nat)

  /** An invocation: its call identity, and everything else about it. */
  datatype Invocation<C, P> = Invocation(call: C, body: P)

  datatype Turn<C, P> = Turn(
    sequence: nat, source: Option<nat>, cancelled: seq<C>, credits: seq<Credit<C>>, effects: seq<Invocation<C, P>>)

  datatype CompletionKind = Single | Stream(resultSequence: nat)

  /** What the host reports in a recording, and what a runtime is told. */
  datatype HostCompletion<C, V> = HostCompletion(call: C, kind: CompletionKind, outcome: V, terminal: bool)

  datatype Completion<C, V> = Completion(call: C, kind: CompletionKind, outcome: V)

  /** A recorded turn; calls appear by logical number. */
  datatype Route<P> = Route(
    sequence: nat, source: Option<nat>, cancellations: seq<nat>, credits: seq<Credit<nat>>,
        invocations: seq<Invocation<nat, P>>)

  datatype Event<P, V> =
    | Routed(route: Route<P>)
    | Completed(logical: nat, kind: CompletionKind, outcome: V, terminal: bool)

  datatype Recording<C, P, V> = Recording(transcript: seq<Event<P, V>>, calls: map<C, nat>, next: nat)

  datatype Replay<C, P, V> = Replay(transcript: seq<Event<P, V>>, cursor: nat, calls: map<C, nat>,
      logicals: map<nat, C>)

  function StartRecording<C, P, V>(): Recording<C, P, V> { Recording([], map[], 1) }

  function StartReplay<C, P, V>(transcript: seq<Event<P, V>>): Replay<C, P, V> { Replay(transcript, 0, map[], map[]) }

  predicate EmptyTurn<C, P>(turn: Turn<C, P>) { turn.cancelled == [] && turn.credits == [] && turn.effects == [] }

  // ---------- Recording ----------

  datatype Cancelled<C> = Cancelled(calls: map<C, nat>, logicals: seq<nat>)

  function CancelAll<C(==)>(calls: map<C, nat>, cancelled: seq<C>): (r: Result<Cancelled<C>>)
    decreases |cancelled|
  {
    if cancelled == [] then Ok(Cancelled(calls, []))
    else if cancelled[0] !in calls then Err("cancellation for unknown call")
    else
      match CancelAll(calls - {cancelled[0]}, cancelled[1..])
      case Err(e) => Err(e)
      case Ok(rest) => Ok(Cancelled(rest.calls, [calls[cancelled[0]]] + rest.logicals))
  }

  function CreditAll<C(==)>(calls: map<C, nat>, credits: seq<Credit<C>>): (r: Result<seq<Credit<nat>>>)
    decreases |credits|
  {
    if credits == [] then Ok([])
    else if credits[0].call !in calls then Err("credit for unknown call")
    else
      match CreditAll(calls, credits[1..])
      case Err(e) => Err(e)
      case Ok(rest) => Ok([Credit(calls[credits[0].call], credits[0].amount)] + rest)
  }

  datatype Invoked<C, P> = Invoked(calls: map<C, nat>, next: nat, invocations: seq<Invocation<nat, P>>)

  function InvokeAll<C(==), P>(calls: map<C, nat>, next: nat,
      effects: seq<Invocation<C, P>>): (r: Result<Invoked<C, P>>)
    decreases |effects|
  {
    if effects == [] then Ok(Invoked(calls, next, []))
    else if effects[0].call in calls then Err("repeated active call")
    else if next >= U64_MAX then Err("logical call identity overflow")
    else
      match InvokeAll(calls[effects[0].call := next], next + 1, effects[1..])
      case Err(e) => Err(e)
      case Ok(rest) => Ok(Invoked(rest.calls, rest.next, [Invocation(next, effects[0].body)] + rest.invocations))
  }

  /** A turn in a recording; the host has accepted it. */
  function RecordTurn<C(==), P, V>(s: Recording<C, P, V>, turn: Turn<C, P>): (r: Result<Recording<C, P, V>>) {
    match CancelAll(s.calls, turn.cancelled)
    case Err(e) => Err(e)
    case Ok(cancelled) =>
      match CreditAll(cancelled.calls, turn.credits)
      case Err(e) => Err(e)
      case Ok(credits) =>
        match InvokeAll(cancelled.calls, s.next, turn.effects)
        case Err(e) => Err(e)
        case Ok(invoked) =>
          var route := Route(turn.sequence, turn.source, cancelled.logicals, credits, invoked.invocations);
          var event := if cancelled.logicals == [] && credits == [] && invoked.invocations == [] then []
              else [Routed(route)];
          Ok(Recording(s.transcript + event, invoked.calls, invoked.next))
  }

  function RecordCompletion<C(==), P, V>(s: Recording<C, P, V>,
      c: HostCompletion<C, V>): (r: Result<Recording<C, P, V>>) {
    if c.call !in s.calls then Err("completed unknown call")
    else
      Ok(Recording(s.transcript + [Completed(s.calls[c.call], c.kind, c.outcome, c.terminal)],
                   if c.terminal then s.calls - {c.call} else s.calls, s.next))
  }

  // ---------- Replaying ----------

  datatype Dropped<C> = Dropped(calls: map<C, nat>, byLogical: map<nat, C>, logicals: seq<nat>)

  function DropAll<C(==)>(calls: map<C, nat>, byLogical: map<nat, C>, cancelled: seq<C>): (r: Result<Dropped<C>>)
    decreases |cancelled|
  {
    if cancelled == [] then Ok(Dropped(calls, byLogical, []))
    else if cancelled[0] !in calls then Err("cancelled unknown call")
    else
      match DropAll(calls - {cancelled[0]}, byLogical - {calls[cancelled[0]]}, cancelled[1..])
      case Err(e) => Err(e)
      case Ok(rest) => Ok(Dropped(rest.calls, rest.byLogical, [calls[cancelled[0]]] + rest.logicals))
  }

  datatype Bound<C, P> = Bound(calls: map<C, nat>, byLogical: map<nat, C>, invocations: seq<Invocation<nat, P>>)

  function BindAll<C(==), P>(calls: map<C, nat>, byLogical: map<nat, C>, effects: seq<Invocation<C, P>>,
      expected: seq<Invocation<nat, P>>): (r: Result<Bound<C, P>>)
    requires |effects| == |expected|
    decreases |effects|
  {
    if effects == [] then Ok(Bound(calls, byLogical, []))
    else
      var call, logical := effects[0].call, expected[0].call;
      if call in calls || logical in byLogical then Err("repeated logical call")
      else
        match BindAll(calls[call := logical], byLogical[logical := call], effects[1..], expected[1..])
        case Err(e) => Err(e)
        case Ok(rest) => Ok(Bound(rest.calls, rest.byLogical,
            [Invocation(logical, effects[0].body)] + rest.invocations))
  }

  /** What a replayed turn does, given the recorded turn it must match. */
  function MatchTurn<C(==), P(==), V>(s: Replay<C, P, V>, turn: Turn<C, P>,
      expected: Route<P>): (r: Result<Replay<C, P, V>>) {
    if expected.sequence != turn.sequence || expected.source != turn.source then Err("turn identity differs")
    else
      match DropAll(s.calls, s.logicals, turn.cancelled)
      case Err(e) => Err(e)
      case Ok(dropped) =>
        match CreditAll(dropped.calls, turn.credits)
        case Err(e) => Err(e)
        case Ok(credits) =>
          if |turn.effects| != |expected.invocations| then Err("invocation count differs")
          else
            match BindAll(dropped.calls, dropped.byLogical, turn.effects, expected.invocations)
            case Err(e) => Err(e)
            case Ok(bound) =>
              if Route(turn.sequence, turn.source, dropped.logicals, credits, bound.invocations) != expected
              then Err("route differs")
              else Ok(Replay(s.transcript, s.cursor + 1, bound.calls, bound.byLogical))
  }

  function ReplayTurn<C(==), P(==), V>(s: Replay<C, P, V>, turn: Turn<C, P>): (r: Result<Replay<C, P, V>>) {
    if EmptyTurn(turn) then Ok(s)
    else if s.cursor >= |s.transcript| then Err("unexpected turn after transcript end")
    else
      match s.transcript[s.cursor]
      case Completed(_, _, _, _) => Err("expected completion before turn")
      case Routed(expected) => MatchTurn(s, turn, expected)
  }

  datatype Polled<C, P, V> = Polled(replay: Replay<C, P, V>, completion: Option<Completion<C, V>>)

  /** The next completion of the transcript, if that is what comes next. */
  function ReplayCompletion<C(==), P, V>(s: Replay<C, P, V>): (r: Result<Polled<C, P, V>>) {
    if s.cursor >= |s.transcript| || s.transcript[s.cursor].Routed? then Ok(Polled(s, None))
    else
      var event := s.transcript[s.cursor];
      if event.logical !in s.logicals then Err("completed inactive logical call")
      else
        var call := s.logicals[event.logical];
        var next := if event.terminal
                    then Replay(s.transcript, s.cursor + 1, s.calls - {call}, s.logicals - {event.logical})
                    else s.(cursor := s.cursor + 1);
        Ok(Polled(next, Some(Completion(call, event.kind, event.outcome))))
  }

  predicate Consumed<C, P, V>(s: Replay<C, P, V>) { s.cursor == |s.transcript| && s.calls == map[] }
}
