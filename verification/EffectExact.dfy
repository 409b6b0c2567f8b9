/** What the loops over a turn accept and give, position by position. */
module EffectExact {
  import opened Wrappers
  import opened EffectTranscript

  ghost predicate Inverse<D>(calls: map<D, nat>, logicals: map<nat, D>) {
    && (forall d | d in calls :: calls[d] in logicals && logicals[calls[d]] == d)
    && (forall l | l in logicals :: logicals[l] in calls && calls[logicals[l]] == l)
  }

  ghost function Members<C>(s: seq<C>): set<C> { set c | c in s }

  lemma {:induction false} MembersOfRest<C>(s: seq<C>)
    requires s != []
    ensures Members(s) == {s[0]} + Members(s[1..])
  {
    assert s == [s[0]] + s[1..];
  }

  // ---------- Cancellations ----------

  /** Every cancelled call is live, and cancelled once. */
  ghost predicate Cancellable<C>(calls: map<C, nat>, cancelled: seq<C>) {
    && (forall i | 0 <= i < |cancelled| :: cancelled[i] in calls)
    && (forall i, j | 0 <= i < j < |cancelled| :: cancelled[i] != cancelled[j])
  }

  /** The logical calls of live calls, in order. */
  ghost predicate Numbered<C>(calls: map<C, nat>, cancelled: seq<C>, logicals: seq<nat>) {
    && |logicals| == |cancelled|
    && forall i | 0 <= i < |cancelled| :: cancelled[i] in calls && logicals[i] == calls[cancelled[i]]
  }

  lemma {:induction false} CancellableRest<C>(calls: map<C, nat>, cancelled: seq<C>)
    requires cancelled != []
    ensures Cancellable(calls, cancelled) <==>
        cancelled[0] in calls && Cancellable(calls - {cancelled[0]}, cancelled[1..])
  {
    var c, rest := cancelled[0], cancelled[1..];
    if Cancellable(calls, cancelled) {
      forall i | 0 <= i < |rest| ensures rest[i] in calls - {c} { assert rest[i] == cancelled[i + 1]; }
    }
    if c in calls && Cancellable(calls - {c}, rest) {
      forall i | 0 <= i < |cancelled| ensures cancelled[i] in calls { assert i > 0 ==> cancelled[i] == rest[i - 1]; }
      forall i, j | 0 <= i < j < |cancelled| ensures cancelled[i] != cancelled[j] {
        assert cancelled[j] == rest[j - 1];
        assert i > 0 ==> cancelled[i] == rest[i - 1];
      }
    }
  }

  /** Cancelling while recording. */
  lemma {:induction false} CancelExact<C>(calls: map<C, nat>, cancelled: seq<C>)
    ensures CancelAll(calls, cancelled).Ok? <==> Cancellable(calls, cancelled)
    ensures CancelAll(calls, cancelled).Ok? ==>
      && CancelAll(calls, cancelled).value.calls == calls - Members(cancelled)
      && Numbered(calls, cancelled, CancelAll(calls, cancelled).value.logicals)
    decreases |cancelled|
  {
    if cancelled != [] {
      CancellableRest(calls, cancelled);
      MembersOfRest(cancelled);
      if cancelled[0] in calls {
        CancelExact(calls - {cancelled[0]}, cancelled[1..]);
      }
    }
  }

  lemma {:induction false} InverseWithout<C>(calls: map<C, nat>, byLogical: map<nat, C>, c: C)
    requires Inverse(calls, byLogical) && c in calls
    ensures Inverse(calls - {c}, byLogical - {calls[c]})
  {
  }

  /** Cancelling while replaying. */
  lemma {:induction false} DropExact<C>(calls: map<C, nat>, byLogical: map<nat, C>, cancelled: seq<C>)
    requires Inverse(calls, byLogical)
    ensures DropAll(calls, byLogical, cancelled).Ok? <==> Cancellable(calls, cancelled)
    ensures DropAll(calls, byLogical, cancelled).Ok? ==>
      var r := DropAll(calls, byLogical, cancelled).value;
      && r.calls == calls - Members(cancelled) && Inverse(r.calls, r.byLogical)
      && Numbered(calls, cancelled, r.logicals)
    decreases |cancelled|
  {
    if cancelled != [] {
      CancellableRest(calls, cancelled);
      MembersOfRest(cancelled);
      if cancelled[0] in calls {
        InverseWithout(calls, byLogical, cancelled[0]);
        DropExact(calls - {cancelled[0]}, byLogical - {calls[cancelled[0]]}, cancelled[1..]);
      }
    }
  }

  // ---------- Credits ----------

  /** The same amounts, for the logical calls of live calls. */
  ghost predicate CreditsOf<C>(calls: map<C, nat>, credits: seq<Credit<C>>, logicals: seq<Credit<nat>>) {
    && |logicals| == |credits|
    && forall i | 0 <= i < |credits| ::
         credits[i].call in calls && logicals[i] == Credit(calls[credits[i].call], credits[i].amount)
  }

  lemma {:induction false} CreditExact<C>(calls: map<C, nat>, credits: seq<Credit<C>>)
    ensures CreditAll(calls, credits).Ok? <==> forall i | 0 <= i < |credits| :: credits[i].call in calls
    ensures CreditAll(calls, credits).Ok? ==> CreditsOf(calls, credits, CreditAll(calls, credits).value)
    decreases |credits|
  {
    if credits != [] {
      var rest := credits[1..];
      CreditExact(calls, rest);
      assert forall i | 0 <= i < |rest| :: rest[i] == credits[i + 1];
      if credits[0].call in calls && CreditAll(calls, rest).Ok? {
        forall i | 0 <= i < |credits| ensures credits[i].call in calls {
          assert i > 0 ==> credits[i] == rest[i - 1];
        }
      }
    }
  }

  // ---------- Invocations ----------

  /** New calls: not live, and different from each other. */
  ghost predicate Fresh<C, P, V>(calls: map<C, V>, effects: seq<Invocation<C, P>>) {
    && (forall i | 0 <= i < |effects| :: effects[i].call !in calls)
    && (forall i, j | 0 <= i < j < |effects| :: effects[i].call != effects[j].call)
  }

  ghost function CallsOf<C, P>(effects: seq<Invocation<C, P>>): set<C> {
    set i | 0 <= i < |effects| :: effects[i].call
  }

  ghost predicate SameBodies<C, D, P>(effects: seq<Invocation<C, P>>, invocations: seq<Invocation<D, P>>) {
    |invocations| == |effects| && forall i | 0 <= i < |effects| :: invocations[i].body == effects[i].body
  }

  /** The live calls afterwards: those before, and the new ones with the given numbers. */
  ghost predicate Binds<C, P>(before: map<C, nat>, after: map<C, nat>, effects: seq<Invocation<C, P>>,
      numbered: seq<Invocation<nat, P>>) {
    && |numbered| == |effects| && after.Keys == before.Keys + CallsOf(effects)
    && (forall c | c in before && c !in CallsOf(effects) :: after[c] == before[c])
    && (forall i | 0 <= i < |effects| :: effects[i].call in after && after[effects[i].call] == numbered[i].call)
  }

  lemma {:induction false} FreshRest<C, P, V>(calls: map<C, V>, effects: seq<Invocation<C, P>>, v: V)
    requires effects != []
    ensures Fresh(calls, effects) <==>
        effects[0].call !in calls && Fresh(calls[effects[0].call := v], effects[1..])
  {
    var c, rest := effects[0].call, effects[1..];
    if Fresh(calls, effects) {
      forall i | 0 <= i < |rest| ensures rest[i].call !in calls[c := v] { assert rest[i] == effects[i + 1]; }
    }
    if c !in calls && Fresh(calls[c := v], rest) {
      forall i | 0 <= i < |effects| ensures effects[i].call !in calls { assert i > 0 ==> effects[i] == rest[i - 1]; }
      forall i, j | 0 <= i < j < |effects| ensures effects[i].call != effects[j].call {
        assert effects[j] == rest[j - 1];
        assert i > 0 ==> effects[i] == rest[i - 1];
      }
    }
  }

  lemma {:induction false} CallsOfRest<C, P>(effects: seq<Invocation<C, P>>)
    requires effects != []
    ensures CallsOf(effects) == {effects[0].call} + CallsOf(effects[1..])
  {
    forall c | c in CallsOf(effects) ensures c in {effects[0].call} + CallsOf(effects[1..]) {
      var i :| 0 <= i < |effects| && effects[i].call == c;
      assert i > 0 ==> effects[i] == effects[1..][i - 1];
    }
    forall c | c in CallsOf(effects[1..]) ensures c in CallsOf(effects) {
      var i :| 0 <= i < |effects[1..]| && effects[1..][i].call == c;
      assert effects[1..][i] == effects[i + 1];
    }
  }

  lemma {:induction false} BindsFirst<C, P>(before: map<C, nat>, after: map<C, nat>, effects: seq<Invocation<C, P>>,
      numbered: seq<Invocation<nat, P>>)
    requires effects != [] && |numbered| == |effects|
    requires Fresh(before, effects)
    requires Binds(before[effects[0].call := numbered[0].call], after, effects[1..], numbered[1..])
    ensures Binds(before, after, effects, numbered)
  {
    CallsOfRest(effects);
    assert effects[0].call !in CallsOf(effects[1..]);
    forall i | 0 <= i < |effects| ensures effects[i].call in after && after[effects[i].call] == numbered[i].call {
      assert i > 0 ==> effects[i] == effects[1..][i - 1] && numbered[i] == numbered[1..][i - 1];
    }
  }

  lemma {:induction false} BindsNothing<C, P>(calls: map<C, nat>)
    ensures Binds<C, P>(calls, calls, [], [])
  {
    assert CallsOf<C, P>([]) == {};
  }

  /** Consecutive numbers from `next`. */
  ghost predicate Consecutive<C, P>(next: nat, effects: seq<Invocation<C, P>>, numbered: seq<Invocation<nat, P>>) {
    SameBodies(effects, numbered) && forall i | 0 <= i < |numbered| :: numbered[i].call == next + i
  }

  lemma {:induction false} ConsecutiveFirst<C, P>(next: nat, effects: seq<Invocation<C, P>>,
      numbered: seq<Invocation<nat, P>>)
    requires effects != [] && Consecutive(next + 1, effects[1..], numbered)
    ensures Consecutive(next, effects, [Invocation(next, effects[0].body)] + numbered)
  {
    var all := [Invocation(next, effects[0].body)] + numbered;
    forall i | 0 <= i < |effects| ensures all[i].body == effects[i].body && all[i].call == next + i {
      assert i > 0 ==> effects[i] == effects[1..][i - 1] && all[i] == numbered[i - 1];
    }
  }

  /** Numbers do not run out. */
  predicate RoomFor(next: nat, count: nat) { count == 0 || next + count <= U64_MAX }

  lemma {:induction false} InvokeIs<C, P>(calls: map<C, nat>, next: nat, effects: seq<Invocation<C, P>>)
    requires effects != [] && effects[0].call !in calls && next < U64_MAX
    ensures InvokeAll(calls, next, effects) ==
      match InvokeAll(calls[effects[0].call := next], next + 1, effects[1..])
      case Err(e) => Err(e)
      case Ok(rest) => Ok(Invoked(rest.calls, rest.next, [Invocation(next, effects[0].body)] + rest.invocations))
  {
  }

  /** One more invocation in front. */
  lemma {:induction false} InvokeFirst<C, P>(calls: map<C, nat>, next: nat, effects: seq<Invocation<C, P>>,
      after: map<C, nat>, numbered: seq<Invocation<nat, P>>)
    requires effects != [] && Fresh(calls, effects) && Consecutive(next + 1, effects[1..], numbered)
    requires Binds(calls[effects[0].call := next], after, effects[1..], numbered)
    ensures var all := [Invocation(next, effects[0].body)] + numbered;
      Consecutive(next, effects, all) && Binds(calls, after, effects, all)
  {
    var all := [Invocation(next, effects[0].body)] + numbered;
    ConsecutiveFirst(next, effects, numbered);
    assert all[1..] == numbered;
    BindsFirst(calls, after, effects, all);
  }

  /** Invoking while recording. */
  lemma {:induction false} InvokeExact<C, P>(calls: map<C, nat>, next: nat, effects: seq<Invocation<C, P>>)
    ensures InvokeAll(calls, next, effects).Ok? <==> Fresh(calls, effects) && RoomFor(next, |effects|)
    ensures InvokeAll(calls, next, effects).Ok? ==>
      var r := InvokeAll(calls, next, effects).value;
      && r.next == next + |effects| && Consecutive(next, effects, r.invocations)
      && Binds(calls, r.calls, effects, r.invocations)
    decreases |effects|
  {
    if effects == [] {
      BindsNothing<C, P>(calls);
    } else {
      FreshRest(calls, effects, next);
      if effects[0].call !in calls && next < U64_MAX {
        InvokeExact(calls[effects[0].call := next], next + 1, effects[1..]);
        InvokeIs(calls, next, effects);
        var r := InvokeAll(calls[effects[0].call := next], next + 1, effects[1..]);
        if r.Ok? { InvokeFirst(calls, next, effects, r.value.calls, r.value.invocations); }
      }
    }
  }

  lemma {:induction false} InverseWith<C>(calls: map<C, nat>, byLogical: map<nat, C>, c: C, l: nat)
    requires Inverse(calls, byLogical) && c !in calls && l !in byLogical
    ensures Inverse(calls[c := l], byLogical[l := c])
  {
  }

  /** What binding gives: the expected numbers with the bodies of this turn. */
  ghost predicate Takes<C, P>(effects: seq<Invocation<C, P>>, expected: seq<Invocation<nat, P>>,
      given: seq<Invocation<nat, P>>) {
    && SameBodies(effects, given) && |expected| == |effects|
    && forall i | 0 <= i < |given| :: given[i].call == expected[i].call
  }

  lemma {:induction false} TakesFirst<C, P>(effects: seq<Invocation<C, P>>, expected: seq<Invocation<nat, P>>,
      given: seq<Invocation<nat, P>>)
    requires effects != [] && |expected| == |effects| && Takes(effects[1..], expected[1..], given)
    ensures Takes(effects, expected, [Invocation(expected[0].call, effects[0].body)] + given)
  {
    var all := [Invocation(expected[0].call, effects[0].body)] + given;
    forall i | 0 <= i < |effects| ensures all[i].body == effects[i].body && all[i].call == expected[i].call {
      assert i > 0 ==>
          effects[i] == effects[1..][i - 1] && expected[i] == expected[1..][i - 1] && all[i] == given[i - 1];
    }
  }

  /** Binding while replaying. */
  lemma {:induction false} BindExact<C, P>(calls: map<C, nat>, byLogical: map<nat, C>, effects: seq<Invocation<C, P>>,
      expected: seq<Invocation<nat, P>>)
    requires |effects| == |expected| && Inverse(calls, byLogical)
    ensures BindAll(calls, byLogical, effects, expected).Ok? <==>
        Fresh(calls, effects) && Fresh(byLogical, expected)
    ensures BindAll(calls, byLogical, effects, expected).Ok? ==>
      var r := BindAll(calls, byLogical, effects, expected).value;
      && Takes(effects, expected, r.invocations) && Inverse(r.calls, r.byLogical)
      && Binds(calls, r.calls, effects, expected)
    decreases |effects|
  {
    if effects == [] {
      BindsNothing<C, P>(calls);
    } else {
      var c, l := effects[0].call, expected[0].call;
      FreshRest(calls, effects, l);
      FreshRest(byLogical, expected, c);
      if c !in calls && l !in byLogical {
        InverseWith(calls, byLogical, c, l);
        BindExact(calls[c := l], byLogical[l := c], effects[1..], expected[1..]);
        var r := BindAll(calls[c := l], byLogical[l := c], effects[1..], expected[1..]);
        if r.Ok? {
          TakesFirst(effects, expected, r.value.invocations);
          BindsFirst(calls, r.value.calls, effects, expected);
        }
      }
    }
  }

  // ---------- Turns ----------

  /** The turn is the recorded one, its calls standing for the logical calls. */
  ghost predicate IsRoute<C, P>(calls: map<C, nat>, turn: Turn<C, P>, route: Route<P>) {
    var live := calls - Members(turn.cancelled);
    && turn.sequence == route.sequence && turn.source == route.source
    && Cancellable(calls, turn.cancelled) && Numbered(calls, turn.cancelled, route.cancellations)
    && CreditsOf(live, turn.credits, route.credits)
    && SameBodies(turn.effects, route.invocations) && Fresh(live, turn.effects)
  }

  /** The new logical calls of the route are not live, and different from each other. */
  ghost predicate NewLogicals<C, P>(calls: map<C, nat>, turn: Turn<C, P>, route: Route<P>) {
    && (forall i, c | 0 <= i < |route.invocations| && c in calls && c !in turn.cancelled ::
          calls[c] != route.invocations[i].call)
    && (forall i, j | 0 <= i < j < |route.invocations| :: route.invocations[i].call != route.invocations[j].call)
  }

  lemma {:induction false} NewLogicalsAreFresh<C, P>(calls: map<C, nat>, live: map<C, nat>, byLogical: map<nat, C>,
      turn: Turn<C, P>, route: Route<P>)
    requires live == calls - Members(turn.cancelled) && Inverse(live, byLogical)
    ensures Fresh(byLogical, route.invocations) <==> NewLogicals(calls, turn, route)
  {
    if Fresh(byLogical, route.invocations) {
      forall i, c | 0 <= i < |route.invocations| && c in calls && c !in turn.cancelled
        ensures calls[c] != route.invocations[i].call
      {
        assert c in live;
      }
    }
    assert forall l | l in byLogical :: byLogical[l] in live;
  }

  /** What replay does with a turn that it compares with `route`. */
  lemma {:induction false} MatchExact<C(!new), P(!new), V(!new)>(t: Replay<C, P, V>, turn: Turn<C, P>, route: Route<P>)
    requires Inverse(t.calls, t.logicals)
    ensures MatchTurn(t, turn, route).Ok? <==> IsRoute(t.calls, turn, route) && NewLogicals(t.calls, turn, route)
    ensures MatchTurn(t, turn, route).Ok? ==>
      var t1 := MatchTurn(t, turn, route).value;
      && t1.transcript == t.transcript && t1.cursor == t.cursor + 1 && Inverse(t1.calls, t1.logicals)
      && Binds(t.calls - Members(turn.cancelled), t1.calls, turn.effects, route.invocations)
  {
    DropExact(t.calls, t.logicals, turn.cancelled);
    if Cancellable(t.calls, turn.cancelled) && turn.sequence == route.sequence && turn.source == route.source {
      var dropped := DropAll(t.calls, t.logicals, turn.cancelled).value;
      CreditExact(dropped.calls, turn.credits);
      NewLogicalsAreFresh(t.calls, dropped.calls, dropped.byLogical, turn, route);
      if |turn.effects| == |route.invocations| {
        BindExact(dropped.calls, dropped.byLogical, turn.effects, route.invocations);
        SameRoute(t, turn, route);
      }
    }
  }

  /** The route that replay puts together is the recorded one exactly when the turn is that route. */
  lemma {:induction false} SameRoute<C(!new), P(!new), V(!new)>(t: Replay<C, P, V>, turn: Turn<C, P>, route: Route<P>)
    requires Inverse(t.calls, t.logicals) && DropAll(t.calls, t.logicals, turn.cancelled).Ok?
    requires |turn.effects| == |route.invocations|
    requires turn.sequence == route.sequence && turn.source == route.source
    ensures var dropped := DropAll(t.calls, t.logicals, turn.cancelled).value;
      var credits := CreditAll(dropped.calls, turn.credits);
      var bound := BindAll(dropped.calls, dropped.byLogical, turn.effects, route.invocations);
      credits.Ok? && bound.Ok? ==>
        (Route(turn.sequence, turn.source, dropped.logicals, credits.value, bound.value.invocations) == route <==>
           IsRoute(t.calls, turn, route))
  {
    DropExact(t.calls, t.logicals, turn.cancelled);
    var dropped := DropAll(t.calls, t.logicals, turn.cancelled).value;
    var credits := CreditAll(dropped.calls, turn.credits);
    var bound := BindAll(dropped.calls, dropped.byLogical, turn.effects, route.invocations);
    CreditExact(dropped.calls, turn.credits);
    BindExact(dropped.calls, dropped.byLogical, turn.effects, route.invocations);
    if credits.Ok? && bound.Ok? && IsRoute(t.calls, turn, route) {
      assert dropped.logicals == route.cancellations;
      assert credits.value == route.credits;
      assert bound.value.invocations == route.invocations;
    }
  }

  /** Replaying a turn: an empty one is let through, and any other one is accepted exactly when the next event is
      a route, the turn is that route and its new logical calls are new. */
  lemma {:induction false} ReplayTurnExact<C(!new), P(!new), V(!new)>(t: Replay<C, P, V>, turn: Turn<C, P>)
    requires Inverse(t.calls, t.logicals)
    ensures EmptyTurn(turn) ==> ReplayTurn(t, turn) == Ok(t)
    ensures !EmptyTurn(turn) ==>
      (ReplayTurn(t, turn).Ok? <==>
         && t.cursor < |t.transcript| && t.transcript[t.cursor].Routed?
         && IsRoute(t.calls, turn, t.transcript[t.cursor].route)
         && NewLogicals(t.calls, turn, t.transcript[t.cursor].route))
    ensures !EmptyTurn(turn) && ReplayTurn(t, turn).Ok? ==>
      var t1 := ReplayTurn(t, turn).value;
      && t1.transcript == t.transcript && t1.cursor == t.cursor + 1 && Inverse(t1.calls, t1.logicals)
      && Binds(t.calls - Members(turn.cancelled), t1.calls, turn.effects,
               t.transcript[t.cursor].route.invocations)
  {
    if t.cursor < |t.transcript| && t.transcript[t.cursor].Routed? {
      MatchExact(t, turn, t.transcript[t.cursor].route);
    }
  }

  /** Recording a turn: it is accepted exactly when it cancels and credits live calls only and its new calls are
      new; what is appended is the route of the turn, with consecutive new numbers, or nothing for an empty turn. */
  lemma {:induction false} RecordTurnExact<C(!new), P(!new), V(!new)>(s: Recording<C, P, V>, turn: Turn<C, P>)
    ensures RecordTurn(s, turn).Ok? <==>
      && Cancellable(s.calls, turn.cancelled)
      && (forall i | 0 <= i < |turn.credits| :: turn.credits[i].call in s.calls - Members(turn.cancelled))
      && Fresh(s.calls - Members(turn.cancelled), turn.effects) && RoomFor(s.next, |turn.effects|)
    ensures RecordTurn(s, turn).Ok? && EmptyTurn(turn) ==> RecordTurn(s, turn).value == s
    ensures RecordTurn(s, turn).Ok? && !EmptyTurn(turn) ==>
      var s1 := RecordTurn(s, turn).value;
      && |s1.transcript| == |s.transcript| + 1 && s1.transcript[..|s.transcript|] == s.transcript
      && s1.transcript[|s.transcript|].Routed? && s1.next == s.next + |turn.effects|
      && var route := s1.transcript[|s.transcript|].route;
         && IsRoute(s.calls, turn, route) && Consecutive(s.next, turn.effects, route.invocations)
         && Binds(s.calls - Members(turn.cancelled), s1.calls, turn.effects, route.invocations)
  {
    CancelExact(s.calls, turn.cancelled);
    if Cancellable(s.calls, turn.cancelled) {
      var live := s.calls - Members(turn.cancelled);
      CreditExact(live, turn.credits);
      InvokeExact(live, s.next, turn.effects);
      if EmptyTurn(turn) { assert live == s.calls; }
    }
  }
}
