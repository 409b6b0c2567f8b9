/** Runs of publications: what was accepted is what the ledger holds. */
module PublicationRuns {
  import opened Wrappers
  import opened OwnershipDigests
  import opened CheckedPublication

  // ---------- Edges ----------

  predicate Proper(edge: Relocation) { edge.source != edge.target }

  ghost function ProperBelow(pairs: seq<Relocation>, i: nat): set<nat>
    requires i <= |pairs|
  {
    set j: nat | j < i && Proper(pairs[j])
  }

  /** How many of the first `i` pairs are proper. */
  ghost function Rank(pairs: seq<Relocation>, i: nat): nat
    requires i <= |pairs|
  {
    |ProperBelow(pairs, i)|
  }

  lemma {:induction false} RankNone(pairs: seq<Relocation>)
    ensures Rank(pairs, 0) == 0
  {
    assert ProperBelow(pairs, 0) == {};
  }

  /** A proper pair is kept at its rank. */
  ghost predicate KeptAt(pairs: seq<Relocation>, kept: seq<Relocation>, i: nat)
    requires i < |pairs|
  {
    Proper(pairs[i]) ==> Rank(pairs, i) < |kept| && kept[Rank(pairs, i)] == pairs[i]
  }

  /** `kept` are the proper pairs, in order and with repeats. */
  ghost predicate KeepsProper(pairs: seq<Relocation>, kept: seq<Relocation>) {
    && |kept| == Rank(pairs, |pairs|)
    && forall i {:trigger KeptAt(pairs, kept, i)} | 0 <= i < |pairs| :: KeptAt(pairs, kept, i)
  }

  lemma {:induction false} RankNext(pairs: seq<Relocation>, i: nat)
    requires i < |pairs|
    ensures Rank(pairs, i + 1) == Rank(pairs, i) + if Proper(pairs[i]) then 1 else 0
  {
    var before := ProperBelow(pairs, i);
    assert ProperBelow(pairs, i + 1) == if Proper(pairs[i]) then before + {i} else before;
  }

  /** Ranks in the first and in the second part of a list. */
  lemma {:induction false} RankAppended(a: seq<Relocation>, b: seq<Relocation>, i: nat)
    requires i <= |a| + |b|
    ensures i <= |a| ==> Rank(a + b, i) == Rank(a, i)
    ensures i >= |a| ==> Rank(a + b, i) == Rank(a, |a|) + Rank(b, i - |a|)
    decreases i
  {
    var all := a + b;
    RankNone(all);
    RankNone(a);
    RankNone(b);
    if i > 0 {
      RankAppended(a, b, i - 1);
      RankNext(all, i - 1);
      if i <= |a| {
        RankNext(a, i - 1);
      } else {
        RankNext(b, i - 1 - |a|);
      }
    }
  }

  lemma {:induction false} KeptAppendedAt(a: seq<Relocation>, b: seq<Relocation>, x: seq<Relocation>,
      y: seq<Relocation>, i: nat)
    requires KeepsProper(a, x) && KeepsProper(b, y) && i < |a + b|
    ensures KeptAt(a + b, x + y, i)
  {
    RankAppended(a, b, i);
    if i < |a| {
      assert KeptAt(a, x, i);
    } else {
      assert KeptAt(b, y, i - |a|);
    }
  }

  lemma {:induction false} KeepsAppended(a: seq<Relocation>, b: seq<Relocation>, x: seq<Relocation>,
      y: seq<Relocation>)
    requires KeepsProper(a, x) && KeepsProper(b, y)
    ensures KeepsProper(a + b, x + y)
  {
    RankAppended(a, b, |a| + |b|);
    forall i | 0 <= i < |a + b| ensures KeptAt(a + b, x + y, i) { KeptAppendedAt(a, b, x, y, i); }
  }

  function PairsOf(p: nat, targets: seq<nat>): seq<Relocation> {
    seq(|targets|, i requires 0 <= i < |targets| => Relocation(p, targets[i]))
  }

  lemma {:induction false} OnePair(pair: Relocation)
    ensures KeepsProper([pair], if Proper(pair) then [pair] else [])
  {
    RankNone([pair]);
    RankNext([pair], 0);
  }

  /** The edges of a dependency row are the targets other than the source, in order and with repeats. */
  lemma {:induction false} EdgesExact(p: nat, targets: seq<nat>)
    ensures KeepsProper(PairsOf(p, targets), Edges(p, targets))
  {
    if targets == [] {
      RankNone(PairsOf(p, targets));
    } else {
      var first := Relocation(p, targets[0]);
      EdgesExact(p, targets[1..]);
      OnePair(first);
      assert PairsOf(p, targets) == [first] + PairsOf(p, targets[1..]);
      KeepsAppended([first], PairsOf(p, targets[1..]), if Proper(first) then [first] else [], Edges(p, targets[1..]));
    }
  }

  /** Nothing else keeps exactly the proper pairs. */
  lemma {:induction false} KeepsUnique(pairs: seq<Relocation>, x: seq<Relocation>, y: seq<Relocation>)
    requires KeepsProper(pairs, x) && KeepsProper(pairs, y)
    ensures x == y
  {
    forall k | 0 <= k < |x| ensures x[k] == y[k] {
      var i := AtRank(pairs, k);
      assert KeptAt(pairs, x, i) && KeptAt(pairs, y, i);
    }
  }

  lemma {:induction false} AtRank(pairs: seq<Relocation>, k: nat) returns (i: nat)
    requires k < Rank(pairs, |pairs|)
    ensures i < |pairs| && Proper(pairs[i]) && Rank(pairs, i) == k
  {
    i := |pairs|;
    while Rank(pairs, i) > k
      invariant i <= |pairs|
      invariant i < |pairs| ==> Rank(pairs, i + 1) > k
      decreases i
    {
      RankNone(pairs);
      i := i - 1;
      RankNext(pairs, i);
    }
    RankNext(pairs, i);
  }

  // ---------- Runs ----------

  /** The ledger after a run of calls; a refused call changes nothing. */
  ghost function AfterCalls(projectionCount: nat, routeCount: nat, calls: seq<Call>): Ledger {
    if calls == [] then NewLedger(projectionCount, routeCount)
    else
      var before := AfterCalls(projectionCount, routeCount, calls[..|calls| - 1]);
      match Publish(before, calls[|calls| - 1])
      case Ok(after) => after
      case Err(_) => before
  }

  /** The calls of a run that were accepted. */
  ghost function AcceptedCalls(projectionCount: nat, routeCount: nat, calls: seq<Call>): seq<Call> {
    if calls == [] then []
    else
      var n := |calls| - 1;
      AcceptedCalls(projectionCount, routeCount, calls[..n])
        + if Publish(AfterCalls(projectionCount, routeCount, calls[..n]), calls[n]).Ok? then [calls[n]] else []
  }

  /** What a call adds to the rows of a projection, to its dependency rows and to the pairs. */
  function RowsOf(call: Call, p: nat): nat {
    if call.p != p then 0 else if call.content.Rows? then call.content.count else 1
  }

  predicate Relocates(call: Call) {
    call.content.Dependency? && exists i | 0 <= i < |call.content.targets| :: call.content.targets[i] != call.p
  }

  function PairsOfCall(call: Call): seq<Relocation> {
    if call.content.Rows? then [] else PairsOf(call.p, call.content.targets)
  }

  ghost function TotalRows(calls: seq<Call>, p: nat): nat {
    if calls == [] then 0 else TotalRows(calls[..|calls| - 1], p) + RowsOf(calls[|calls| - 1], p)
  }

  ghost function RelocatingRows(calls: seq<Call>, p: nat): nat {
    |set i | 0 <= i < |calls| && calls[i].p == p && Relocates(calls[i])|
  }

  ghost function AllPairs(calls: seq<Call>): seq<Relocation> {
    if calls == [] then [] else AllPairs(calls[..|calls| - 1]) + PairsOfCall(calls[|calls| - 1])
  }

  ghost predicate Claims(calls: seq<Call>, route: nat) {
    exists i | 0 <= i < |calls| :: calls[i].route == Some(route)
  }

  /** The ledger holds exactly what these calls published. */
  ghost predicate Holds(l: Ledger, calls: seq<Call>) {
    && (forall p | 0 <= p < |l.projections| ::
          l.projections[p] == Row(TotalRows(calls, p), RelocatingRows(calls, p)))
    && KeepsProper(AllPairs(calls), l.relocations)
    && (forall route | 0 <= route < |l.coverage| :: l.coverage[route] <==> Claims(calls, route))
  }

  lemma {:induction false} HoldsNothing(projectionCount: nat, routeCount: nat)
    ensures Holds(NewLedger(projectionCount, routeCount), [])
  {
    RankNone(AllPairs([]));
    forall p: nat ensures RelocatingRows([], p) == 0 {
      var none: seq<Call> := [];
      assert (set i | 0 <= i < |none| && none[i].p == p && Relocates(none[i])) == {};
    }
  }

  lemma {:induction false} MoreRelocating(calls: seq<Call>, call: Call, p: nat)
    ensures RelocatingRows(calls + [call], p) ==
        RelocatingRows(calls, p) + if call.p == p && Relocates(call) then 1 else 0
  {
    var all := calls + [call];
    var before := set i | 0 <= i < |calls| && calls[i].p == p && Relocates(calls[i]);
    var after := set i | 0 <= i < |all| && all[i].p == p && Relocates(all[i]);
    assert after == if call.p == p && Relocates(call) then before + {|calls|} else before;
  }

  lemma {:induction false} MoreClaims(calls: seq<Call>, call: Call, route: nat)
    ensures Claims(calls + [call], route) <==> Claims(calls, route) || call.route == Some(route)
  {
    var all := calls + [call];
    assert all[|calls|] == call;
    if i :| 0 <= i < |calls| && calls[i].route == Some(route) { assert all[i].route == Some(route); }
  }

  /** What an accepted call does to a ledger, field by field. */
  lemma {:induction false} PublishShape(l: Ledger, call: Call)
    requires Publish(l, call).Ok?
    ensures var r := Publish(l, call).value;
      && call.p < |l.projections| == |r.projections| && |r.coverage| == |l.coverage|
      && (forall p | 0 <= p < |l.projections| ::
            r.projections[p] == Row(l.projections[p].rows + RowsOf(call, p),
              l.projections[p].dependencyRows + if call.p == p && Relocates(call) then 1 else 0))
      && r.relocations == l.relocations + (if call.content.Rows? then [] else Edges(call.p, call.content.targets))
      && (forall route | 0 <= route < |l.coverage| ::
            r.coverage[route] <==> l.coverage[route] || call.route == Some(route))
  {
    assert l.relocations + [] == l.relocations;
  }

  lemma {:induction false} PublishHolds(l: Ledger, calls: seq<Call>, call: Call)
    requires Holds(l, calls) && Publish(l, call).Ok?
    ensures Holds(Publish(l, call).value, calls + [call])
  {
    PublishShape(l, call);
    var r, all := Publish(l, call).value, calls + [call];
    assert all[..|all| - 1] == calls && all[|all| - 1] == call;
    forall p | 0 <= p < |r.projections|
      ensures r.projections[p] == Row(TotalRows(all, p), RelocatingRows(all, p))
    {
      MoreRelocating(calls, call, p);
    }
    forall route | 0 <= route < |r.coverage| ensures r.coverage[route] <==> Claims(all, route) {
      MoreClaims(calls, call, route);
    }
    var edges := if call.content.Rows? then [] else Edges(call.p, call.content.targets);
    if call.content.Rows? {
      RankNone(PairsOfCall(call));
    } else {
      EdgesExact(call.p, call.content.targets);
    }
    KeepsAppended(AllPairs(calls), PairsOfCall(call), l.relocations, edges);
  }

  lemma {:induction false} PublishOk(l: Ledger, call: Call)
    requires LedgerOk(l) && Publish(l, call).Ok?
    ensures LedgerOk(Publish(l, call).value)
  {
    match call.content
    case Rows(count) =>
      PublishRowsOk(l, call.p, count);
      if call.route.Some? { ClaimedOk(PublishRows(l, call.p, count).value, call.route.value); }
    case Dependency(targets) =>
      PublishDependencyRowOk(l, call.p, targets);
      if call.route.Some? { ClaimedOk(PublishDependencyRow(l, call.p, targets).value, call.route.value); }
  }

  /** After any run of publications the ledger holds exactly the accepted ones: rows are the sums of the accepted
      counts, the relocations are the proper (source, target) pairs in order, and the routes are those claimed. */
  lemma {:induction false} LedgerHoldsAccepted(projectionCount: nat, routeCount: nat, calls: seq<Call>)
    ensures var l := AfterCalls(projectionCount, routeCount, calls);
      && |l.projections| == projectionCount && |l.coverage| == routeCount && LedgerOk(l)
      && Holds(l, AcceptedCalls(projectionCount, routeCount, calls))
  {
    if calls == [] {
      HoldsNothing(projectionCount, routeCount);
      NewLedgerOk(projectionCount, routeCount);
    } else {
      var n := |calls| - 1;
      LedgerHoldsAccepted(projectionCount, routeCount, calls[..n]);
      var l := AfterCalls(projectionCount, routeCount, calls[..n]);
      var done := AcceptedCalls(projectionCount, routeCount, calls[..n]);
      if Publish(l, calls[n]).Ok? {
        PublishHolds(l, done, calls[n]);
        PublishShape(l, calls[n]);
        PublishOk(l, calls[n]);
      } else {
        assert done + [] == done;
      }
    }
  }

  /** What makes a call acceptable after others: its projections exist, its route exists and was not claimed before,
      and the rows still fit 32 bits. */
  ghost predicate Acceptable(projectionCount: nat, routeCount: nat, done: seq<Call>, call: Call) {
    && call.p < projectionCount && TotalRows(done, call.p) + RowsOf(call, call.p) < U32_LIMIT
    && (call.content.Dependency? ==>
          forall i | 0 <= i < |call.content.targets| :: call.content.targets[i] < projectionCount)
    && (call.route.Some? ==>
          call.route.value < routeCount && !Claims(done, call.route.value) && RowsOf(call, call.p) > 0)
  }

  /** A call after any run is accepted exactly when it is acceptable after the calls accepted so far. */
  lemma {:induction false} AcceptedExactly(projectionCount: nat, routeCount: nat, calls: seq<Call>, call: Call)
    ensures Publish(AfterCalls(projectionCount, routeCount, calls), call).Ok? <==>
        Acceptable(projectionCount, routeCount, AcceptedCalls(projectionCount, routeCount, calls), call)
  {
    LedgerHoldsAccepted(projectionCount, routeCount, calls);
    var l := AfterCalls(projectionCount, routeCount, calls);
    if call.p < |l.projections| {
      assert RowOk(l.projections[call.p], l.relocations, call.p);
    }
  }

  /** Every route is claimed, and every projection gets a row. */
  ghost predicate AllPublished(projectionCount: nat, routeCount: nat, calls: seq<Call>) {
    && (forall route: nat | route < routeCount :: Claims(calls, route))
    && (forall p: nat | p < projectionCount :: TotalRows(calls, p) > 0)
  }

  lemma {:induction false} HoldsComplete(l: Ledger, calls: seq<Call>)
    requires Holds(l, calls)
    ensures Complete(l) <==> AllPublished(|l.projections|, |l.coverage|, calls)
  {
    if AllPublished(|l.projections|, |l.coverage|, calls) {
      forall p | 0 <= p < |l.projections| ensures l.projections[p].rows != 0 { assert TotalRows(calls, p) > 0; }
    }
    if Complete(l) {
      forall p: nat | p < |l.projections| ensures TotalRows(calls, p) > 0 { assert l.projections[p].rows != 0; }
      forall route: nat | route < |l.coverage| ensures Claims(calls, route) { assert l.coverage[route]; }
    }
  }

  /** A plan can be frozen against a publication exactly when every route was claimed by an accepted call and every
      projection got a row from one. */
  lemma {:induction false} CompleteExactly(projectionCount: nat, routeCount: nat, calls: seq<Call>)
    ensures Complete(AfterCalls(projectionCount, routeCount, calls)) <==>
        AllPublished(projectionCount, routeCount, AcceptedCalls(projectionCount, routeCount, calls))
  {
    LedgerHoldsAccepted(projectionCount, routeCount, calls);
    HoldsComplete(AfterCalls(projectionCount, routeCount, calls), AcceptedCalls(projectionCount, routeCount, calls));
  }
}
