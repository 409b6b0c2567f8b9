/** Replay accepts nothing but the recording: the converse of the simulation, and which calls are live. */
module EffectConverse {
  import opened Wrappers
  import opened EffectTranscript
  import opened EffectExact
  import opened EffectReplay

  // ---------- One turn ----------

  /** Two turns with the same route are renamings of each other. */
  lemma {:induction false} SameRouteRenames<C(!new), D(!new), P>(recorded: map<C, nat>, calls: map<D, nat>,
      logicals: map<nat, D>, a: Turn<C, P>, b: Turn<D, P>, route: Route<P>)
    requires Inverse(calls, logicals) && IsRoute(recorded, a, route) && IsRoute(calls, b, route)
    ensures RenamesTurn(recorded, calls, logicals, a, b)
  {
    forall i | 0 <= i < |a.cancelled| && a.cancelled[i] in recorded && recorded[a.cancelled[i]] in logicals
      ensures b.cancelled[i] == logicals[recorded[a.cancelled[i]]]
    {
      assert calls[b.cancelled[i]] == route.cancellations[i] == recorded[a.cancelled[i]];
    }
    forall i | 0 <= i < |a.credits| && a.credits[i].call in recorded && recorded[a.credits[i].call] in logicals
      ensures b.credits[i] == Credit(logicals[recorded[a.credits[i].call]], a.credits[i].amount)
    {
      assert Credit(calls[b.credits[i].call], b.credits[i].amount) == route.credits[i];
      assert Credit(recorded[a.credits[i].call], a.credits[i].amount) == route.credits[i];
    }
  }

  /** A recorded turn that routed something is replayed by `b` exactly when `b` is that turn renamed. */
  lemma {:induction false} OnlyRenamingsAccepted<C(!new), D(!new), P(!new), V(!new)>(s: Recording<C, P, V>,
      t: Replay<D, P, V>, a: Turn<C, P>, b: Turn<D, P>)
    requires Related(s, t) && RecordTurn(s, a).Ok? && RecordTurn(s, a).value.transcript <= t.transcript
    requires !EmptyTurn(a)
    ensures ReplayTurn(t, b).Ok? && ReplayTurn(t, b).value.cursor == t.cursor + 1 <==>
        RenamesTurn(s.calls, t.calls, t.logicals, a, b)
  {
    ReplayTurnExact(t, b);
    if RenamesTurn(s.calls, t.calls, t.logicals, a, b) {
      TurnSimulates(s, t, a, b);
    }
    if ReplayTurn(t, b).Ok? && ReplayTurn(t, b).value.cursor == t.cursor + 1 {
      RecordTurnExact(s, a);
      assert t.transcript[t.cursor] == RecordTurn(s, a).value.transcript[|s.transcript|];
      SameRouteRenames(s.calls, t.calls, t.logicals, a, b, t.transcript[t.cursor].route);
    }
  }

  // ---------- Runs ----------

  /** Step `i` was accepted, and read an event exactly when the recorded step wrote one. */
  ghost predicate AcceptedAt<C, D(!new), P(!new), V(!new)>(recs: seq<Recording<C, P, V>>, reps: seq<Replay<D, P, V>>,
      steps: seq<Step<C, D, P, V>>, i: nat)
    requires i < |steps| && |recs| == |reps| == |steps| + 1
  {
    && ReplayStep(reps[i], steps[i]) == Ok(reps[i + 1])
    && reps[i + 1].cursor - reps[i].cursor == |recs[i + 1].transcript| - |recs[i].transcript|
  }

  ghost predicate AcceptedRun<C(!new), D(!new), P(!new), V(!new)>(recs: seq<Recording<C, P, V>>,
      reps: seq<Replay<D, P, V>>, steps: seq<Step<C, D, P, V>>) {
    && |recs| == |reps| == |steps| + 1 && reps[0] == StartReplay(recs[|steps|].transcript)
    && forall i {:trigger AcceptedAt(recs, reps, steps, i)} | 0 <= i < |steps| :: AcceptedAt(recs, reps, steps, i)
  }

  /** An empty turn is renamed by the empty turns of its identity only, and replay cannot see the identity. */
  ghost predicate QuietAgrees<C, D, P, V>(step: Step<C, D, P, V>) {
    step.TurnStep? && EmptyTurn(step.turn) ==>
      step.replayed.sequence == step.turn.sequence && step.replayed.source == step.turn.source
  }

  lemma {:induction false} EmptyRenames<C(!new), D(!new), P(!new)>(recorded: map<C, nat>, calls: map<D, nat>,
      logicals: map<nat, D>, a: Turn<C, P>, b: Turn<D, P>)
    requires EmptyTurn(a) && EmptyTurn(b) && a.sequence == b.sequence && a.source == b.source
    ensures RenamesTurn(recorded, calls, logicals, a, b)
  {
  }

  lemma {:induction false} AcceptedTurnRenames<C(!new), D(!new), P(!new), V(!new)>(recs: seq<Recording<C, P, V>>,
      reps: seq<Replay<D, P, V>>, steps: seq<Step<C, D, P, V>>, i: nat)
    requires RecordedRun(recs, steps) && AcceptedRun(recs, reps, steps) && i < |steps|
    requires steps[i].TurnStep? && QuietAgrees(steps[i])
    requires Related(recs[i], reps[i]) && reps[i].transcript == recs[|steps|].transcript
    ensures RenamesTurn(recs[i].calls, reps[i].calls, reps[i].logicals, steps[i].turn, steps[i].replayed)
  {
    var a, b := steps[i].turn, steps[i].replayed;
    assert RecordedAt(recs, steps, i) && AcceptedAt(recs, reps, steps, i);
    TranscriptGrows(recs, steps, i + 1, |steps|);
    RecordTurnExact(recs[i], a);
    ReplayTurnExact(reps[i], b);
    if EmptyTurn(a) {
      EmptyRenames(recs[i].calls, reps[i].calls, reps[i].logicals, a, b);
    } else {
      OnlyRenamingsAccepted(recs[i], reps[i], a, b);
    }
  }

  lemma {:induction false} AcceptedRelated<C(!new), D(!new), P(!new), V(!new)>(recs: seq<Recording<C, P, V>>,
      reps: seq<Replay<D, P, V>>, steps: seq<Step<C, D, P, V>>, i: nat)
    requires RecordedRun(recs, steps) && AcceptedRun(recs, reps, steps) && i < |recs|
    requires forall j | 0 <= j < |steps| :: QuietAgrees(steps[j])
    ensures Related(recs[i], reps[i]) && reps[i].transcript == recs[|steps|].transcript
  {
    if i > 0 {
      AcceptedRelated(recs, reps, steps, i - 1);
      assert RecordedAt(recs, steps, i - 1) && AcceptedAt(recs, reps, steps, i - 1);
      TranscriptGrows(recs, steps, i, |steps|);
      match steps[i - 1]
      case TurnStep(a, b) =>
        AcceptedTurnRenames(recs, reps, steps, i - 1);
        TurnSimulates(recs[i - 1], reps[i - 1], a, b);
        SameTranscript(reps[i - 1], b);
      case CompletionStep(c) => CompletionSimulates(recs[i - 1], reps[i - 1], c);
    }
  }

  /** `ReplaySimulatesRecord` and its converse: replay accepts a run, reading an event wherever one was recorded,
      exactly when it is the recorded run renamed. */
  lemma {:induction false} AcceptedRunIsRenamed<C(!new), D(!new), P(!new), V(!new)>(recs: seq<Recording<C, P, V>>,
      reps: seq<Replay<D, P, V>>, steps: seq<Step<C, D, P, V>>)
    requires RecordedRun(recs, steps) && forall i | 0 <= i < |steps| :: QuietAgrees(steps[i])
    ensures AcceptedRun(recs, reps, steps) <==> ReplayedRun(recs, reps, steps)
  {
    if AcceptedRun(recs, reps, steps) {
      forall i | 0 <= i < |steps| ensures ReplayedAt(recs, reps, steps, i) {
        assert AcceptedAt(recs, reps, steps, i);
        AcceptedRelated(recs, reps, steps, i);
        if steps[i].TurnStep? { AcceptedTurnRenames(recs, reps, steps, i); }
      }
    }
    if ReplayedRun(recs, reps, steps) {
      forall i | 0 <= i < |steps| ensures AcceptedAt(recs, reps, steps, i) {
        assert ReplayedAt(recs, reps, steps, i);
        RunRelated(recs, reps, steps, i);
        RunStep(recs, reps, steps, i);
      }
    }
  }

  // ---------- Live calls ----------

  ghost predicate Invokes<P, V>(event: Event<P, V>, l: nat) {
    event.Routed? && exists i | 0 <= i < |event.route.invocations| :: event.route.invocations[i].call == l
  }

  /** A cancellation or a terminal completion. */
  ghost predicate Ends<P, V>(event: Event<P, V>, l: nat) {
    if event.Routed? then l in event.route.cancellations else event.terminal && event.logical == l
  }

  ghost predicate InvokedIn<P, V>(transcript: seq<Event<P, V>>, l: nat) {
    exists i | 0 <= i < |transcript| :: Invokes(transcript[i], l)
  }

  ghost predicate EndedIn<P, V>(transcript: seq<Event<P, V>>, l: nat) {
    exists i | 0 <= i < |transcript| :: Ends(transcript[i], l)
  }

  ghost predicate Live<C>(calls: map<C, nat>, l: nat) { exists c | c in calls :: calls[c] == l }

  /** Live are exactly the calls that were invoked and have not ended; numbers up to `next` are used up. */
  ghost predicate Accounts<C, P, V>(s: Recording<C, P, V>) {
    && Injective(s.calls) && Below(s.calls, s.next)
    && (forall l: nat :: Live(s.calls, l) <==> InvokedIn(s.transcript, l) && !EndedIn(s.transcript, l))
    && (forall l: nat | InvokedIn(s.transcript, l) || EndedIn(s.transcript, l) :: l < s.next)
  }

  lemma {:induction false} OneMore<P, V>(transcript: seq<Event<P, V>>, event: Event<P, V>, l: nat)
    ensures InvokedIn(transcript + [event], l) <==> InvokedIn(transcript, l) || Invokes(event, l)
    ensures EndedIn(transcript + [event], l) <==> EndedIn(transcript, l) || Ends(event, l)
  {
    var all := transcript + [event];
    assert all[|transcript|] == event;
    if i :| 0 <= i < |transcript| && Invokes(transcript[i], l) { assert Invokes(all[i], l); }
    if i :| 0 <= i < |transcript| && Ends(transcript[i], l) { assert Ends(all[i], l); }
  }

  /** After a turn a logical call is live when it was and is not cancelled, or when the turn invokes it. */
  lemma {:induction false} TurnLive<C(!new), P(!new), V(!new)>(s: Recording<C, P, V>, turn: Turn<C, P>, l: nat)
    requires Injective(s.calls) && RecordTurn(s, turn).Ok? && !EmptyTurn(turn)
    ensures var s1 := RecordTurn(s, turn).value;
      && |s1.transcript| == |s.transcript| + 1 && s1.transcript == s.transcript + [s1.transcript[|s.transcript|]]
      && (Live(s1.calls, l) <==>
            (Live(s.calls, l) && !Ends(s1.transcript[|s.transcript|], l)) || Invokes(s1.transcript[|s.transcript|], l))
  {
    RecordTurnExact(s, turn);
    var s1 := RecordTurn(s, turn).value;
    var event := s1.transcript[|s.transcript|];
    var live := s.calls - Members(turn.cancelled);
    if c :| c in s1.calls && s1.calls[c] == l {
      if c in CallsOf(turn.effects) {
        var i :| 0 <= i < |turn.effects| && turn.effects[i].call == c;
        assert event.route.invocations[i].call == l;
      } else {
        assert c in live && s.calls[c] == l;
        forall i | 0 <= i < |event.route.cancellations| ensures event.route.cancellations[i] != l {
          assert turn.cancelled[i] in s.calls && turn.cancelled[i] in Members(turn.cancelled);
        }
      }
    }
    if c :| c in s.calls && s.calls[c] == l && !Ends(event, l) {
      StaysLive(s.calls, turn, event.route, s1.calls, c);
    }
    if i :| 0 <= i < |event.route.invocations| && event.route.invocations[i].call == l {
      assert s1.calls[turn.effects[i].call] == l;
    }
  }

  lemma {:induction false} StaysLive<C(!new), P(!new)>(calls: map<C, nat>, turn: Turn<C, P>, route: Route<P>,
      after: map<C, nat>, c: C)
    requires IsRoute(calls, turn, route)
    requires Binds(calls - Members(turn.cancelled), after, turn.effects, route.invocations)
    requires c in calls && calls[c] !in route.cancellations
    ensures c in after && after[c] == calls[c]
  {
    forall i | 0 <= i < |turn.cancelled| ensures turn.cancelled[i] != c {
      assert route.cancellations[i] == calls[turn.cancelled[i]];
    }
    assert c in calls - Members(turn.cancelled);
    assert c !in CallsOf(turn.effects);
  }

  lemma {:induction false} TurnInjective<C(!new), P(!new), V(!new)>(s: Recording<C, P, V>, turn: Turn<C, P>)
    requires Injective(s.calls) && Below(s.calls, s.next) && RecordTurn(s, turn).Ok?
    ensures var s1 := RecordTurn(s, turn).value; Injective(s1.calls) && Below(s1.calls, s1.next)
  {
    RecordTurnExact(s, turn);
    if !EmptyTurn(turn) {
      var s1 := RecordTurn(s, turn).value;
      var route := s1.transcript[|s.transcript|].route;
      forall c | c in s1.calls
        ensures s1.calls[c] < s1.next
        ensures c !in CallsOf(turn.effects) ==> c in s.calls && s1.calls[c] == s.calls[c]
        ensures c in CallsOf(turn.effects) ==> NumberOf(turn.effects, s.next, c, s1.calls[c])
      {
        if c in CallsOf(turn.effects) {
          var i :| 0 <= i < |turn.effects| && turn.effects[i].call == c;
          assert route.invocations[i].call == s.next + i;
        }
      }
    }
  }

  /** The `k`-th new call has the `k`-th new number. */
  ghost predicate NumberOf<C, P>(effects: seq<Invocation<C, P>>, next: nat, c: C, l: nat) {
    next <= l < next + |effects| && effects[l - next].call == c
  }

  lemma {:induction false} TurnAccounts<C(!new), P(!new), V(!new)>(s: Recording<C, P, V>, turn: Turn<C, P>)
    requires Accounts(s) && RecordTurn(s, turn).Ok?
    ensures Accounts(RecordTurn(s, turn).value)
  {
    RecordTurnExact(s, turn);
    TurnInjective(s, turn);
    if !EmptyTurn(turn) {
      var s1 := RecordTurn(s, turn).value;
      var event := s1.transcript[|s.transcript|];
      forall l: nat
        ensures Live(s1.calls, l) <==> InvokedIn(s1.transcript, l) && !EndedIn(s1.transcript, l)
        ensures InvokedIn(s1.transcript, l) || EndedIn(s1.transcript, l) ==> l < s1.next
      {
        TurnLive(s, turn, l);
        OneMore(s.transcript, event, l);
        TurnNumbers(s, turn, l);
      }
    }
  }

  /** A turn invokes unused numbers and ends used ones. */
  lemma {:induction false} TurnNumbers<C(!new), P(!new), V(!new)>(s: Recording<C, P, V>, turn: Turn<C, P>, l: nat)
    requires Below(s.calls, s.next) && RecordTurn(s, turn).Ok? && !EmptyTurn(turn)
    ensures var s1 := RecordTurn(s, turn).value;
      && |s1.transcript| == |s.transcript| + 1
      && (Invokes(s1.transcript[|s.transcript|], l) ==> s.next <= l < s1.next)
      && (Ends(s1.transcript[|s.transcript|], l) ==> Live(s.calls, l) && l < s.next)
  {
    RecordTurnExact(s, turn);
    var event := RecordTurn(s, turn).value.transcript[|s.transcript|];
    if Ends(event, l) {
      var i :| 0 <= i < |event.route.cancellations| && event.route.cancellations[i] == l;
      assert s.calls[turn.cancelled[i]] == l;
    }
  }

  lemma {:induction false} CompletionAccounts<C(!new), P(!new), V(!new)>(s: Recording<C, P, V>,
      c: HostCompletion<C, V>)
    requires Accounts(s) && RecordCompletion(s, c).Ok?
    ensures Accounts(RecordCompletion(s, c).value)
  {
    var s1 := RecordCompletion(s, c).value;
    var event := Completed(s.calls[c.call], c.kind, c.outcome, c.terminal);
    forall l: nat
      ensures Live(s1.calls, l) <==> InvokedIn(s1.transcript, l) && !EndedIn(s1.transcript, l)
      ensures InvokedIn(s1.transcript, l) || EndedIn(s1.transcript, l) ==> l < s1.next
    {
      OneMore(s.transcript, event, l);
      CompletionLive(s, c, l);
    }
  }

  lemma {:induction false} CompletionLive<C(!new), P(!new), V(!new)>(s: Recording<C, P, V>, c: HostCompletion<C, V>,
      l: nat)
    requires Injective(s.calls) && RecordCompletion(s, c).Ok?
    ensures Live(RecordCompletion(s, c).value.calls, l) <==>
        Live(s.calls, l) && !(c.terminal && s.calls[c.call] == l)
    ensures l == s.calls[c.call] ==> Live(s.calls, l)
  {
    var s1 := RecordCompletion(s, c).value;
    if d :| d in s.calls && s.calls[d] == l && !(c.terminal && s.calls[c.call] == l) {
      assert d in s1.calls && s1.calls[d] == l;
    }
    if d :| d in s1.calls && s1.calls[d] == l {
      assert d in s.calls && s.calls[d] == l;
    }
  }

  /** In every recorded run the live calls are those that the transcript invokes and does not end. */
  lemma {:induction false} LiveIsUnended<C(!new), D(!new), P(!new), V(!new)>(recs: seq<Recording<C, P, V>>,
      steps: seq<Step<C, D, P, V>>, i: nat)
    requires RecordedRun(recs, steps) && i < |recs|
    ensures Accounts(recs[i])
  {
    if i > 0 {
      LiveIsUnended(recs, steps, i - 1);
      assert RecordedAt(recs, steps, i - 1);
      match steps[i - 1]
      case TurnStep(a, _) => TurnAccounts(recs[i - 1], a);
      case CompletionStep(c) => CompletionAccounts(recs[i - 1], c);
    }
  }

  /** A replay is consumed exactly when every invocation of the transcript was ended in it. */
  lemma {:induction false} ConsumedWhenAllEnded<C(!new), D(!new), P(!new), V(!new)>(recs: seq<Recording<C, P, V>>,
      reps: seq<Replay<D, P, V>>, steps: seq<Step<C, D, P, V>>)
    requires RecordedRun(recs, steps) && ReplayedRun(recs, reps, steps)
    ensures Consumed(reps[|steps|]) <==>
        forall l: nat | InvokedIn(recs[|steps|].transcript, l) :: EndedIn(recs[|steps|].transcript, l)
  {
    ReplaySimulatesRecord(recs, reps, steps);
    LiveIsUnended(recs, steps, |steps|);
    var s := recs[|steps|];
    if s.calls != map[] {
      var c :| c in s.calls;
      assert Live(s.calls, s.calls[c]);
    } else {
      assert forall l: nat :: !Live(s.calls, l);
    }
  }
}
