/** The recording and the replaying host, updated in place. */
module EffectHosts {
  import opened Wrappers
  import opened EffectTranscript

  // ---------- Loops over the lists of a turn ----------

  function AfterCancel<C>(done: seq<nat>, rest: Result<Cancelled<C>>): Result<Cancelled<C>> {
    match rest case Err(e) => Err(e) case Ok(r) => Ok(Cancelled(r.calls, done + r.logicals))
  }

  lemma {:induction false} CancelStart<C>(r: Result<Cancelled<C>>)
    ensures AfterCancel([], r) == r
  {
    if r.Ok? { assert [] + r.value.logicals == r.value.logicals; }
  }

  method Cancel<C(==)>(calls: map<C, nat>, cancelled: seq<C>) returns (r: Result<Cancelled<C>>)
    ensures r == CancelAll(calls, cancelled)
  {
    var next: map<C, nat>, logicals: seq<nat> := calls, [];
    assert cancelled[0..] == cancelled;
    CancelStart(CancelAll(calls, cancelled));
    for i := 0 to |cancelled|
      invariant CancelAll(calls, cancelled) == AfterCancel(logicals, CancelAll(next, cancelled[i..]))
    {
      if cancelled[i] !in next {
        return Err("cancellation for unknown call");
      }
      assert cancelled[i..][1..] == cancelled[i + 1..];
      var rest := CancelAll(next - {cancelled[i]}, cancelled[i + 1..]);
      assert rest.Ok? ==>
          logicals + ([next[cancelled[i]]] + rest.value.logicals) == logicals + [next[cancelled[i]]] +
          rest.value.logicals;
      logicals := logicals + [next[cancelled[i]]];
      next := next - {cancelled[i]};
    }
    assert logicals + [] == logicals;
    return Ok(Cancelled(next, logicals));
  }

  function AfterCredit(done: seq<Credit<nat>>, rest: Result<seq<Credit<nat>>>): Result<seq<Credit<nat>>> {
    match rest case Err(e) => Err(e) case Ok(r) => Ok(done + r)
  }

  lemma {:induction false} CreditStart(r: Result<seq<Credit<nat>>>)
    ensures AfterCredit([], r) == r
  {
    if r.Ok? { assert [] + r.value == r.value; }
  }

  method CreditCalls<C(==)>(calls: map<C, nat>, credits: seq<Credit<C>>) returns (r: Result<seq<Credit<nat>>>)
    ensures r == CreditAll(calls, credits)
  {
    var done: seq<Credit<nat>> := [];
    assert credits[0..] == credits;
    CreditStart(CreditAll(calls, credits));
    for i := 0 to |credits|
      invariant CreditAll(calls, credits) == AfterCredit(done, CreditAll(calls, credits[i..]))
    {
      if credits[i].call !in calls {
        return Err("credit for unknown call");
      }
      assert credits[i..][1..] == credits[i + 1..];
      var one := Credit(calls[credits[i].call], credits[i].amount);
      ghost var rest := CreditAll(calls, credits[i + 1..]);
      assert rest.Ok? ==> done + ([one] + rest.value) == done + [one] + rest.value;
      done := done + [one];
    }
    assert done + [] == done;
    return Ok(done);
  }

  function AfterInvoke<C, P>(done: seq<Invocation<nat, P>>, rest: Result<Invoked<C, P>>): Result<Invoked<C, P>> {
    match rest case Err(e) => Err(e) case Ok(r) => Ok(Invoked(r.calls, r.next, done + r.invocations))
  }

  lemma {:induction false} InvokeStart<C, P>(r: Result<Invoked<C, P>>)
    ensures AfterInvoke([], r) == r
  {
    if r.Ok? { assert [] + r.value.invocations == r.value.invocations; }
  }

  method Invoke<C(==), P>(calls: map<C, nat>, next: nat, effects: seq<Invocation<C, P>>)
    returns (r: Result<Invoked<C, P>>)
    ensures r == InvokeAll(calls, next, effects)
  {
    var nextCalls: map<C, nat>, nextLogical: nat, done: seq<Invocation<nat, P>> := calls, next, [];
    assert effects[0..] == effects;
    InvokeStart(InvokeAll(calls, next, effects));
    for i := 0 to |effects|
      invariant InvokeAll(calls, next, effects) == AfterInvoke(done, InvokeAll(nextCalls, nextLogical, effects[i..]))
    {
      if effects[i].call in nextCalls {
        return Err("repeated active call");
      }
      if nextLogical >= U64_MAX {
        return Err("logical call identity overflow");
      }
      assert effects[i..][1..] == effects[i + 1..];
      var one: Invocation<nat, P> := Invocation(nextLogical, effects[i].body);
      ghost var rest := InvokeAll(nextCalls[effects[i].call := nextLogical], nextLogical + 1, effects[i + 1..]);
      assert rest.Ok? ==> done + ([one] + rest.value.invocations) == done + [one] + rest.value.invocations;
      done := done + [one];
      nextCalls := nextCalls[effects[i].call := nextLogical];
      nextLogical := nextLogical + 1;
    }
    assert done + [] == done;
    return Ok(Invoked(nextCalls, nextLogical, done));
  }

  function AfterDrop<C>(done: seq<nat>, rest: Result<Dropped<C>>): Result<Dropped<C>> {
    match rest case Err(e) => Err(e) case Ok(r) => Ok(Dropped(r.calls, r.byLogical, done + r.logicals))
  }

  lemma {:induction false} DropStart<C>(r: Result<Dropped<C>>)
    ensures AfterDrop([], r) == r
  {
    if r.Ok? { assert [] + r.value.logicals == r.value.logicals; }
  }

  method Drop<C(==)>(calls: map<C, nat>, byLogical: map<nat, C>, cancelled: seq<C>) returns (r: Result<Dropped<C>>)
    ensures r == DropAll(calls, byLogical, cancelled)
  {
    var nextCalls: map<C, nat>, nextLogicals: map<nat, C>, logicals: seq<nat> := calls, byLogical, [];
    assert cancelled[0..] == cancelled;
    DropStart(DropAll(calls, byLogical, cancelled));
    for i := 0 to |cancelled|
      invariant DropAll(calls, byLogical, cancelled) ==
          AfterDrop(logicals, DropAll(nextCalls, nextLogicals, cancelled[i..]))
    {
      if cancelled[i] !in nextCalls {
        return Err("cancelled unknown call");
      }
      assert cancelled[i..][1..] == cancelled[i + 1..];
      var logical := nextCalls[cancelled[i]];
      ghost var rest := DropAll(nextCalls - {cancelled[i]}, nextLogicals - {logical}, cancelled[i + 1..]);
      assert rest.Ok? ==> logicals + ([logical] + rest.value.logicals) == logicals + [logical] + rest.value.logicals;
      nextCalls, nextLogicals := nextCalls - {cancelled[i]}, nextLogicals - {logical};
      logicals := logicals + [logical];
    }
    assert logicals + [] == logicals;
    return Ok(Dropped(nextCalls, nextLogicals, logicals));
  }

  function AfterBind<C, P>(done: seq<Invocation<nat, P>>, rest: Result<Bound<C, P>>): Result<Bound<C, P>> {
    match rest case Err(e) => Err(e) case Ok(r) => Ok(Bound(r.calls, r.byLogical, done + r.invocations))
  }

  lemma {:induction false} BindStart<C, P>(r: Result<Bound<C, P>>)
    ensures AfterBind([], r) == r
  {
    if r.Ok? { assert [] + r.value.invocations == r.value.invocations; }
  }

  method Bind<C(==), P>(calls: map<C, nat>, byLogical: map<nat, C>, effects: seq<Invocation<C, P>>,
      expected: seq<Invocation<nat, P>>)
    returns (r: Result<Bound<C, P>>)
    requires |effects| == |expected|
    ensures r == BindAll(calls, byLogical, effects, expected)
  {
    var nextCalls: map<C, nat>, nextLogicals: map<nat, C>, done: seq<Invocation<nat, P>> := calls, byLogical, [];
    assert effects[0..] == effects && expected[0..] == expected;
    BindStart(BindAll(calls, byLogical, effects, expected));
    for i := 0 to |effects|
      invariant BindAll(calls, byLogical, effects, expected) ==
                AfterBind(done, BindAll(nextCalls, nextLogicals, effects[i..], expected[i..]))
    {
      var call, logical: nat := effects[i].call, expected[i].call;
      if call in nextCalls || logical in nextLogicals {
        return Err("repeated logical call");
      }
      assert effects[i..][1..] == effects[i + 1..] && expected[i..][1..] == expected[i + 1..];
      var one: Invocation<nat, P> := Invocation(logical, effects[i].body);
      ghost var rest := BindAll(nextCalls[call := logical], nextLogicals[logical := call], effects[i + 1..],
          expected[i + 1..]);
      assert rest.Ok? ==> done + ([one] + rest.value.invocations) == done + [one] + rest.value.invocations;
      done := done + [one];
      nextCalls, nextLogicals := nextCalls[call := logical], nextLogicals[logical := call];
    }
    assert done + [] == done;
    return Ok(Bound(nextCalls, nextLogicals, done));
  }

  // ---------- Hosts ----------

  class RecordingHost<C(==), P, V> {
    var transcript: seq<Event<P, V>>
    var callToLogical: map<C, nat>
    var nextLogicalCall: nat

    function View(): Recording<C, P, V>
      reads this
    {
      Recording(transcript, callToLogical, nextLogicalCall)
    }

    constructor ()
      ensures View() == StartRecording()
    {
      transcript, callToLogical, nextLogicalCall := [], map[], 1;
    }

    /** Routes a turn; the real host may still refuse it, and then nothing is recorded. */
    method RouteTurn(turn: Turn<C, P>, accepted: bool) returns (r: Result<()>)
      modifies this
      ensures r.Ok? <==> accepted && RecordTurn(old(View()), turn).Ok?
      ensures View() == if r.Ok? then RecordTurn(old(View()), turn).value else old(View())
    {
      var cancelled := Cancel(callToLogical, turn.cancelled);
      if cancelled.Err? { return Err(cancelled.message); }
      var credits := CreditCalls(cancelled.value.calls, turn.credits);
      if credits.Err? { return Err(credits.message); }
      var invoked := Invoke(cancelled.value.calls, nextLogicalCall, turn.effects);
      if invoked.Err? { return Err(invoked.message); }
      if !accepted { return Err("host refused the turn"); }
      callToLogical, nextLogicalCall := invoked.value.calls, invoked.value.next;
      if !(cancelled.value.logicals == [] && credits.value == [] && invoked.value.invocations == []) {
        transcript := transcript + [Routed(Route(turn.sequence, turn.source, cancelled.value.logicals, credits.value,
                                                 invoked.value.invocations))];
      }
      return Ok(());
    }

    /** Records what the real host completed, if anything. */
    method TryCompletion(reported: Option<HostCompletion<C, V>>) returns (r: Result<Option<Completion<C, V>>>)
      modifies this
      ensures reported.None? ==> r == Ok(None) && View() == old(View())
      ensures reported.Some? ==> (r.Ok? <==> RecordCompletion(old(View()), reported.value).Ok?)
      ensures reported.Some? && r.Ok? ==>
        && r.value == Some(Completion(reported.value.call, reported.value.kind, reported.value.outcome))
        && View() == RecordCompletion(old(View()), reported.value).value
      ensures r.Err? ==> View() == old(View())
    {
      if reported.None? { return Ok(None); }
      var c := reported.value;
      if c.call !in callToLogical { return Err("completed unknown call"); }
      var logical := callToLogical[c.call];
      if c.terminal {
        callToLogical := callToLogical - {c.call};
      }
      transcript := transcript + [Completed(logical, c.kind, c.outcome, c.terminal)];
      return Ok(Some(Completion(c.call, c.kind, c.outcome)));
    }
  }

  class ReplayingHost<C(==), P(==), V> {
    const transcript: seq<Event<P, V>>
    var cursor: nat
    var callToLogical: map<C, nat>
    var logicalToCall: map<nat, C>

    function View(): Replay<C, P, V>
      reads this
    {
      Replay(transcript, cursor, callToLogical, logicalToCall)
    }

    constructor (transcript: seq<Event<P, V>>)
      ensures View() == StartReplay(transcript)
    {
      this.transcript := transcript;
      cursor, callToLogical, logicalToCall := 0, map[], map[];
    }

    method RouteTurn(turn: Turn<C, P>) returns (r: Result<()>)
      modifies this
      ensures r.Ok? <==> ReplayTurn(old(View()), turn).Ok?
      ensures View() == if r.Ok? then ReplayTurn(old(View()), turn).value else old(View())
    {
      if turn.cancelled == [] && turn.credits == [] && turn.effects == [] { return Ok(()); }
      if cursor >= |transcript| { return Err("unexpected turn after transcript end"); }
      if transcript[cursor].Completed? { return Err("expected completion before turn"); }
      r := CheckTurn(turn, transcript[cursor].route);
    }

    method CheckTurn(turn: Turn<C, P>, expected: Route<P>) returns (r: Result<()>)
      modifies this
      ensures r.Ok? <==> MatchTurn(old(View()), turn, expected).Ok?
      ensures View() == if r.Ok? then MatchTurn(old(View()), turn, expected).value else old(View())
    {
      if expected.sequence != turn.sequence || expected.source != turn.source { return Err("turn identity differs"); }
      var dropped := Drop(callToLogical, logicalToCall, turn.cancelled);
      if dropped.Err? { return Err(dropped.message); }
      var credits := CreditCalls(dropped.value.calls, turn.credits);
      if credits.Err? { return Err(credits.message); }
      if |turn.effects| != |expected.invocations| { return Err("invocation count differs"); }
      var bound := Bind(dropped.value.calls, dropped.value.byLogical, turn.effects, expected.invocations);
      if bound.Err? { return Err(bound.message); }
      var actual := Route(turn.sequence, turn.source, dropped.value.logicals, credits.value, bound.value.invocations);
      if actual != expected { return Err("route differs"); }
      callToLogical, logicalToCall := bound.value.calls, bound.value.byLogical;
      cursor := cursor + 1;
      return Ok(());
    }

    method TryCompletion() returns (r: Result<Option<Completion<C, V>>>)
      modifies this
      ensures r.Ok? <==> ReplayCompletion(old(View())).Ok?
      ensures r.Ok? ==> r.value == ReplayCompletion(old(View())).value.completion
      ensures View() == if r.Ok? then ReplayCompletion(old(View())).value.replay else old(View())
    {
      if cursor >= |transcript| || transcript[cursor].Routed? { return Ok(None); }
      var event := transcript[cursor];
      if event.logical !in logicalToCall { return Err("completed inactive logical call"); }
      var call := logicalToCall[event.logical];
      if event.terminal {
        logicalToCall := logicalToCall - {event.logical};
        callToLogical := callToLogical - {call};
      }
      cursor := cursor + 1;
      return Ok(Some(Completion(call, event.kind, event.outcome)));
    }

    method AssertConsumed() returns (r: Result<()>)
      ensures r.Ok? <==> Consumed(View())
    {
      if cursor == |transcript| && |callToLogical| == 0 { return Ok(()); }
      return Err("effect replay stopped early");
    }
  }
}
