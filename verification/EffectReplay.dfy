/** Replay simulates record. */
module EffectReplay {
  import opened Wrappers
  import opened EffectTranscript
  import opened EffectExact

  // ---------- Relation ----------

  ghost predicate Injective<C>(m: map<C, nat>) { forall a, b | a in m && b in m && m[a] == m[b] :: a == b }

  /** The same logical calls are live on both sides. */
  ghost predicate SameLive<C, D>(recorded: map<C, nat>, logicals: map<nat, D>) {
    && (forall c | c in recorded :: recorded[c] in logicals)
    && (forall l | l in logicals :: exists c | c in recorded :: recorded[c] == l)
  }

  ghost predicate Maps<C, D>(recorded: map<C, nat>, calls: map<D, nat>, logicals: map<nat, D>) {
    Injective(recorded) && Inverse(calls, logicals) && SameLive(recorded, logicals)
  }

  /** The call of the replaying runtime that stands for a live call of the recorded one. */
  function Renamed<C, D>(recorded: map<C, nat>, logicals: map<nat, D>, c: C): D
    requires c in recorded && recorded[c] in logicals
  {
    logicals[recorded[c]]
  }

  // ---------- Cancellations ----------

  ghost predicate RenamesCalls<C, D>(recorded: map<C, nat>, logicals: map<nat, D>, a: seq<C>, b: seq<D>) {
    |a| == |b| && forall i | 0 <= i < |a| && a[i] in recorded && recorded[a[i]] in logicals ::
        b[i] == logicals[recorded[a[i]]]
  }

  lemma {:induction false} DropMaps<C, D>(recorded: map<C, nat>, calls: map<D, nat>, logicals: map<nat, D>, c: C)
    requires Maps(recorded, calls, logicals) && c in recorded
    ensures Maps(recorded - {c}, calls - {logicals[recorded[c]]}, logicals - {recorded[c]})
  {
    var r, l := recorded - {c}, logicals - {recorded[c]};
    forall k | k in l ensures exists x | x in r :: r[x] == k {
      var x :| x in recorded && recorded[x] == k;
      assert x in r && r[x] == k;
    }
  }

  lemma {:induction false} CancelSimulates<C(!new), D(!new)>(recorded: map<C, nat>, calls: map<D, nat>,
      logicals: map<nat, D>,
      a: seq<C>, b: seq<D>)
    requires Maps(recorded, calls, logicals) && CancelAll(recorded, a).Ok? && RenamesCalls(recorded, logicals, a, b)
    ensures var r := DropAll(calls, logicals, b);
            && r.Ok? && r.value.logicals == CancelAll(recorded, a).value.logicals
            && Maps(CancelAll(recorded, a).value.calls, r.value.calls, r.value.byLogical)
            && (forall c | c in CancelAll(recorded, a).value.calls ::
                 c in recorded && CancelAll(recorded, a).value.calls[c] == recorded[c])
            && (forall l | l in r.value.byLogical :: l in logicals && r.value.byLogical[l] == logicals[l])
    decreases |a|
  {
    if a != [] {
      var c, l := a[0], recorded[a[0]];
      DropMaps(recorded, calls, logicals, c);
      CancelSimulates(recorded - {c}, calls - {logicals[l]}, logicals - {l}, a[1..], b[1..]);
    }
  }

  // ---------- Credits ----------

  ghost predicate RenamesCredits<C, D>(recorded: map<C, nat>, logicals: map<nat, D>, a: seq<Credit<C>>,
      b: seq<Credit<D>>) {
    && |a| == |b|
    && forall i | 0 <= i < |a| && a[i].call in recorded && recorded[a[i].call] in logicals ::
         b[i] == Credit(logicals[recorded[a[i].call]], a[i].amount)
  }

  lemma {:induction false} CreditSimulates<C(!new), D(!new)>(recorded: map<C, nat>, calls: map<D, nat>,
      logicals: map<nat, D>,
      a: seq<Credit<C>>, b: seq<Credit<D>>)
    requires Maps(recorded, calls, logicals) && CreditAll(recorded, a).Ok? && RenamesCredits(recorded, logicals, a, b)
    ensures CreditAll(calls, b) == CreditAll(recorded, a)
    decreases |a|
  {
    if a != [] { CreditSimulates(recorded, calls, logicals, a[1..], b[1..]); }
  }

  // ---------- Invocations ----------

  /** The same invocations, under calls that are not live and differ from each other. */
  ghost predicate RenamesEffects<C, D, P>(calls: map<D, nat>, a: seq<Invocation<C, P>>, b: seq<Invocation<D, P>>) {
    && |a| == |b|
    && (forall i | 0 <= i < |a| :: b[i].body == a[i].body && b[i].call !in calls)
    && (forall i, j | 0 <= i < j < |b| :: b[i].call != b[j].call)
  }

  ghost predicate Below<C>(recorded: map<C, nat>, next: nat) { forall c | c in recorded :: recorded[c] < next }

  lemma {:induction false} BindMaps<C, D>(recorded: map<C, nat>, calls: map<D, nat>, logicals: map<nat, D>, next: nat,
      c: C, d: D)
    requires Maps(recorded, calls, logicals) && Below(recorded, next) && c !in recorded && d !in calls
    ensures next !in logicals
    ensures Maps(recorded[c := next], calls[d := next], logicals[next := d]) && Below(recorded[c := next], next + 1)
  {
    assert next !in logicals;
    var r, l := recorded[c := next], logicals[next := d];
    forall k | k in l ensures exists x | x in r :: r[x] == k {
      if k == next {
        assert c in r && r[c] == k;
      } else {
        var x :| x in recorded && recorded[x] == k;
        assert x in r && r[x] == k;
      }
    }
  }

  lemma {:induction false} InvokeSimulates<C(!new), D(!new), P(!new)>(recorded: map<C, nat>, calls: map<D, nat>,
      logicals: map<nat, D>,
      next: nat, a: seq<Invocation<C, P>>, b: seq<Invocation<D, P>>)
    requires Maps(recorded, calls, logicals) && Below(recorded, next)
    requires InvokeAll(recorded, next, a).Ok? && RenamesEffects(calls, a, b)
    ensures var out := InvokeAll(recorded, next, a).value;
            && |out.invocations| == |b|
            && var r := BindAll(calls, logicals, b, out.invocations);
               && r.Ok? && r.value.invocations == out.invocations
               && Maps(out.calls, r.value.calls, r.value.byLogical) && Below(out.calls, out.next)
    decreases |a|
  {
    if a != [] {
      BindMaps(recorded, calls, logicals, next, a[0].call, b[0].call);
      InvokeSimulates(recorded[a[0].call := next], calls[b[0].call := next], logicals[next := b[0].call], next + 1,
          a[1..], b[1..]);
      var out := InvokeAll(recorded, next, a).value;
      assert out.invocations[1..] == InvokeAll(recorded[a[0].call := next], next + 1, a[1..]).value.invocations;
    }
  }

  // ---------- Steps ----------

  /** The replay is where the recording is: same live calls, and everything recorded so far read. */
  ghost predicate Related<C, D, P, V>(s: Recording<C, P, V>, t: Replay<D, P, V>) {
    && Maps(s.calls, t.calls, t.logicals) && Below(s.calls, s.next)
    && t.cursor == |s.transcript| <= |t.transcript| && t.transcript[..t.cursor] == s.transcript
  }

  /** `b` is turn `a` with live calls renamed and new calls chosen freely. */
  ghost predicate RenamesTurn<C(!new), D(!new), P>(s: map<C, nat>, calls: map<D, nat>, logicals: map<nat, D>,
      a: Turn<C, P>, b: Turn<D, P>) {
    && b.sequence == a.sequence && b.source == a.source
    && RenamesCalls(s, logicals, a.cancelled, b.cancelled)
    && RenamesCredits(s, logicals, a.credits, b.credits)
    && RenamesEffects(calls - Members(b.cancelled), a.effects, b.effects)
  }

  lemma {:induction false} CancelCount<C>(calls: map<C, nat>, a: seq<C>)
    requires CancelAll(calls, a).Ok?
    ensures |CancelAll(calls, a).value.logicals| == |a|
    decreases |a|
  {
    if a != [] { CancelCount(calls - {a[0]}, a[1..]); }
  }

  lemma {:induction false} CreditCount<C>(calls: map<C, nat>, a: seq<Credit<C>>)
    requires CreditAll(calls, a).Ok?
    ensures |CreditAll(calls, a).value| == |a|
    decreases |a|
  {
    if a != [] { CreditCount(calls, a[1..]); }
  }

  /** The maps after a turn, on both sides. */
  lemma {:induction false} TurnMaps<C(!new), D(!new), P(!new), V>(s: Recording<C, P, V>, t: Replay<D, P, V>,
      a: Turn<C, P>, b: Turn<D, P>, route: Route<P>)
    requires Maps(s.calls, t.calls, t.logicals) && Below(s.calls, s.next) &&
        RenamesTurn(s.calls, t.calls, t.logicals, a, b)
    requires RecordTurn(s, a).Ok?
    requires var cancelled := CancelAll(s.calls, a.cancelled).value;
             route == Route(a.sequence, a.source, cancelled.logicals, CreditAll(cancelled.calls, a.credits).value,
                            InvokeAll(cancelled.calls, s.next, a.effects).value.invocations)
    ensures MatchTurn(t, b, route).Ok?
    ensures var s1, t1 := RecordTurn(s, a).value, MatchTurn(t, b, route).value;
            && t1.transcript == t.transcript && t1.cursor == t.cursor + 1
            && Maps(s1.calls, t1.calls, t1.logicals) && Below(s1.calls, s1.next)
  {
    CancelSimulates(s.calls, t.calls, t.logicals, a.cancelled, b.cancelled);
    DropExact(t.calls, t.logicals, b.cancelled);
    var cancelled, dropped := CancelAll(s.calls, a.cancelled).value, DropAll(t.calls, t.logicals, b.cancelled).value;
    CreditsAfter(s.calls, t.logicals, cancelled.calls, dropped.byLogical, a.credits, b.credits);
    CreditSimulates(cancelled.calls, dropped.calls, dropped.byLogical, a.credits, b.credits);
    InvokeSimulates(cancelled.calls, dropped.calls, dropped.byLogical, s.next, a.effects, b.effects);
  }

  /** Cancellations do not change how the calls that stay are renamed. */
  lemma {:induction false} CreditsAfter<C, D>(s: map<C, nat>, logicals: map<nat, D>, s1: map<C, nat>,
      logicals1: map<nat, D>, a: seq<Credit<C>>, b: seq<Credit<D>>)
    requires RenamesCredits(s, logicals, a, b)
    requires forall c | c in s1 :: c in s && s1[c] == s[c]
    requires forall l | l in logicals1 :: l in logicals && logicals1[l] == logicals[l]
    ensures RenamesCredits(s1, logicals1, a, b)
  {
  }

  /** A turn: replay accepts what the recording accepted. */
  lemma {:induction false} TurnSimulates<C(!new), D(!new), P(!new), V(!new)>(s: Recording<C, P, V>, t: Replay<D, P, V>,
      a: Turn<C, P>, b: Turn<D, P>)
    requires Related(s, t) && RecordTurn(s, a).Ok? && RecordTurn(s, a).value.transcript <= t.transcript
    requires RenamesTurn(s.calls, t.calls, t.logicals, a, b)
    ensures ReplayTurn(t, b).Ok? && Related(RecordTurn(s, a).value, ReplayTurn(t, b).value)
  {
    var cancelled := CancelAll(s.calls, a.cancelled).value;
    var credits := CreditAll(cancelled.calls, a.credits).value;
    var invoked := InvokeAll(cancelled.calls, s.next, a.effects).value;
    var route := Route(a.sequence, a.source, cancelled.logicals, credits, invoked.invocations);
    CancelCount(s.calls, a.cancelled);
    CreditCount(cancelled.calls, a.credits);
    TurnMaps(s, t, a, b, route);
    if !EmptyTurn(a) {
      InvokeCount(cancelled.calls, s.next, a.effects);
      var s1 := RecordTurn(s, a).value;
      assert s1.transcript == s.transcript + [Routed(route)];
      assert t.transcript[t.cursor] == s1.transcript[|s.transcript|];
    }
  }

  lemma {:induction false} InvokeCount<C, P>(calls: map<C, nat>, next: nat, a: seq<Invocation<C, P>>)
    requires InvokeAll(calls, next, a).Ok?
    ensures |InvokeAll(calls, next, a).value.invocations| == |a|
    decreases |a|
  {
    if a != [] { InvokeCount(calls[a[0].call := next], next + 1, a[1..]); }
  }

  /** A completion: replay reports the recorded one, under the renamed call. */
  lemma {:induction false} CompletionSimulates<C(!new), D(!new), P(!new), V(!new)>(s: Recording<C, P, V>,
      t: Replay<D, P, V>, c: HostCompletion<C, V>)
    requires Related(s, t) && RecordCompletion(s, c).Ok? && RecordCompletion(s, c).value.transcript <= t.transcript
    ensures ReplayCompletion(t).Ok? && Related(RecordCompletion(s, c).value, ReplayCompletion(t).value.replay)
    ensures ReplayCompletion(t).value.completion ==
        Some(Completion(Renamed(s.calls, t.logicals, c.call), c.kind, c.outcome))
  {
    var s1 := RecordCompletion(s, c).value;
    assert t.transcript[t.cursor] == s1.transcript[|s.transcript|];
    if c.terminal { DropMaps(s.calls, t.calls, t.logicals, c.call); }
  }

  // ---------- Runs ----------

  /** One step of both runtimes: a turn of each, or a completion that the recorded host reported. */
  datatype Step<C, D, P, V> = TurnStep(turn: Turn<C, P>, replayed: Turn<D, P>)
      | CompletionStep(completion: HostCompletion<C, V>)

  function RecordStep<C(==), D, P, V>(s: Recording<C, P, V>, step: Step<C, D, P, V>): Result<Recording<C, P, V>> {
    match step
    case TurnStep(turn, _) => RecordTurn(s, turn)
    case CompletionStep(completion) => RecordCompletion(s, completion)
  }

  function ReplayStep<C, D(==), P(==), V>(t: Replay<D, P, V>, step: Step<C, D, P, V>): Result<Replay<D, P, V>> {
    match step
    case TurnStep(_, replayed) => ReplayTurn(t, replayed)
    case CompletionStep(_) =>
      (match ReplayCompletion(t)
       case Ok(polled) => Ok(polled.replay)
       case Err(e) => Err(e))
  }

  ghost predicate RecordedAt<C, D, P, V>(recs: seq<Recording<C, P, V>>, steps: seq<Step<C, D, P, V>>, i: nat)
    requires i < |steps| && |recs| == |steps| + 1
  {
    RecordStep(recs[i], steps[i]) == Ok(recs[i + 1])
  }

  /** A recorded run in which every call succeeded. */
  ghost predicate RecordedRun<C, D, P, V>(recs: seq<Recording<C, P, V>>, steps: seq<Step<C, D, P, V>>) {
    && |recs| == |steps| + 1 && recs[0] == StartRecording()
    && forall i {:trigger RecordedAt(recs, steps, i)} | 0 <= i < |steps| :: RecordedAt(recs, steps, i)
  }

  /** Step `i` of the replay: an error leaves it where it was; turns are renamed turns. */
  ghost predicate ReplayedAt<C(!new), D(!new), P, V>(recs: seq<Recording<C, P, V>>, reps: seq<Replay<D, P, V>>,
      steps: seq<Step<C, D, P, V>>, i: nat)
    requires i < |steps| && |recs| == |reps| == |steps| + 1
  {
    && reps[i + 1] == (match ReplayStep(reps[i], steps[i]) case Ok(t) => t case Err(_) => reps[i])
    && (steps[i].TurnStep? ==>
          RenamesTurn(recs[i].calls, reps[i].calls, reps[i].logicals, steps[i].turn, steps[i].replayed))
  }

  ghost predicate ReplayedRun<C(!new), D(!new), P, V>(recs: seq<Recording<C, P, V>>, reps: seq<Replay<D, P, V>>,
      steps: seq<Step<C, D, P, V>>) {
    && |recs| == |reps| == |steps| + 1 && reps[0] == StartReplay(recs[|steps|].transcript)
    && forall i {:trigger ReplayedAt(recs, reps, steps, i)} | 0 <= i < |steps| :: ReplayedAt(recs, reps, steps, i)
  }

  lemma {:induction false} TranscriptGrows<C(!new), D(!new), P(!new), V(!new)>(recs: seq<Recording<C, P, V>>,
      steps: seq<Step<C, D, P, V>>, i: nat, j: nat)
    requires RecordedRun(recs, steps) && i <= j < |recs|
    ensures recs[i].transcript <= recs[j].transcript
    decreases j - i
  {
    if i < j {
      TranscriptGrows(recs, steps, i, j - 1);
      assert RecordedAt(recs, steps, j - 1);
      StepGrows(recs[j - 1], steps[j - 1]);
    }
  }

  lemma {:induction false} StepGrows<C(!new), D(!new), P(!new), V(!new)>(s: Recording<C, P, V>, step: Step<C, D, P, V>)
    requires RecordStep(s, step).Ok?
    ensures s.transcript <= RecordStep(s, step).value.transcript
  {
  }

  lemma {:induction false} RunRelated<C(!new), D(!new), P(!new), V(!new)>(recs: seq<Recording<C, P, V>>,
      reps: seq<Replay<D, P, V>>,
      steps: seq<Step<C, D, P, V>>, i: nat)
    requires RecordedRun(recs, steps) && ReplayedRun(recs, reps, steps) && i < |recs|
    ensures Related(recs[i], reps[i]) && reps[i].transcript == recs[|steps|].transcript
  {
    if i > 0 {
      RunRelated(recs, reps, steps, i - 1);
      RunStep(recs, reps, steps, i - 1);
    }
  }

  /** One step of the run, replay and record in step before it. */
  lemma {:induction false} RunStep<C(!new), D(!new), P(!new), V(!new)>(recs: seq<Recording<C, P, V>>,
      reps: seq<Replay<D, P, V>>, steps: seq<Step<C, D, P, V>>, i: nat)
    requires RecordedRun(recs, steps) && ReplayedRun(recs, reps, steps) && i < |steps|
    requires Related(recs[i], reps[i]) && reps[i].transcript == recs[|steps|].transcript
    ensures ReplayStep(reps[i], steps[i]).Ok? && Related(recs[i + 1], reps[i + 1])
    ensures reps[i + 1].transcript == recs[|steps|].transcript
    ensures steps[i].CompletionStep? ==>
      var c := steps[i].completion;
      && c.call in recs[i].calls && recs[i].calls[c.call] in reps[i].logicals && ReplayCompletion(reps[i]).Ok?
      && ReplayCompletion(reps[i]).value.completion ==
           Some(Completion(Renamed(recs[i].calls, reps[i].logicals, c.call), c.kind, c.outcome))
  {
    assert RecordedAt(recs, steps, i) && ReplayedAt(recs, reps, steps, i);
    TranscriptGrows(recs, steps, i + 1, |steps|);
    match steps[i]
    case TurnStep(a, b) =>
      TurnSimulates(recs[i], reps[i], a, b);
      SameTranscript(reps[i], b);
    case CompletionStep(c) => CompletionSimulates(recs[i], reps[i], c);
  }

  lemma {:induction false} SameTranscript<D(!new), P(!new), V(!new)>(t: Replay<D, P, V>, b: Turn<D, P>)
    requires ReplayTurn(t, b).Ok?
    ensures ReplayTurn(t, b).value.transcript == t.transcript
  {
  }

  /** Replaying an error-free recording to any runtime that emits the same turns under renamed calls:
      every turn is accepted, every completion is the recorded one for the renamed call, the two
      maps stay inverse to each other, and at the end the transcript is consumed exactly when every
      recorded call was completed or cancelled. */
  lemma {:induction false} ReplaySimulatesRecord<C(!new), D(!new), P(!new), V(!new)>(recs: seq<Recording<C, P, V>>,
      reps: seq<Replay<D, P, V>>,
      steps: seq<Step<C, D, P, V>>)
    requires RecordedRun(recs, steps) && ReplayedRun(recs, reps, steps)
    ensures forall i | 0 <= i < |steps| :: ReplayStep(reps[i], steps[i]).Ok?
    ensures forall i | 0 <= i < |reps| :: Inverse(reps[i].calls, reps[i].logicals)
    ensures forall i | 0 <= i < |steps| && steps[i].CompletionStep? ::
      var c := steps[i].completion;
      && c.call in recs[i].calls && recs[i].calls[c.call] in reps[i].logicals && ReplayCompletion(reps[i]).Ok?
      && ReplayCompletion(reps[i]).value.completion ==
           Some(Completion(Renamed(recs[i].calls, reps[i].logicals, c.call), c.kind, c.outcome))
    ensures Consumed(reps[|steps|]) <==> recs[|steps|].calls == map[]
  {
    forall i | 0 <= i < |reps| ensures Related(recs[i], reps[i]) && reps[i].transcript == recs[|steps|].transcript {
      RunRelated(recs, reps, steps, i);
    }
    forall i | 0 <= i < |steps|
      ensures ReplayStep(reps[i], steps[i]).Ok?
      ensures steps[i].CompletionStep? ==>
        var c := steps[i].completion;
        && c.call in recs[i].calls && recs[i].calls[c.call] in reps[i].logicals && ReplayCompletion(reps[i]).Ok?
        && ReplayCompletion(reps[i]).value.completion ==
             Some(Completion(Renamed(recs[i].calls, reps[i].logicals, c.call), c.kind, c.outcome))
    {
      RunStep(recs, reps, steps, i);
    }
    BothEmpty(recs[|steps|], reps[|steps|]);
  }

  /** No live call on one side, none on the other. */
  lemma {:induction false} BothEmpty<C(!new), D(!new), P(!new), V(!new)>(s: Recording<C, P, V>, t: Replay<D, P, V>)
    requires Related(s, t)
    ensures s.calls == map[] <==> t.calls == map[]
  {
    if t.calls != map[] {
      var d :| d in t.calls;
      var c :| c in s.calls && s.calls[c] == t.calls[d];
    }
    if s.calls != map[] {
      var c :| c in s.calls;
      assert t.logicals[s.calls[c]] in t.calls;
    }
  }
}
