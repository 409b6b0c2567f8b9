/** Compressed adjacency rows and their reversal by counting sort. */
module Adjacency {
  import opened Wrappers
  import opened Graphs
  import Sorting
  import TarjanSteps

  const USIZE_MAX: nat := 0xFFFF_FFFF_FFFF_FFFF

  ghost predicate RowAt(offsets: seq<nat>, arena: seq<nat>, rows: Adjacency, v: nat)
    requires |offsets| == |rows| + 1 && v < |rows|
  {
    && offsets[v] + |rows[v]| == offsets[v + 1] && offsets[v + 1] <= |arena|
    && arena[offsets[v]..offsets[v + 1]] == rows[v]
  }

  /** `offsets` cuts `arena` into exactly the given rows. */
  ghost predicate IsCsr(offsets: seq<nat>, arena: seq<nat>, rows: Adjacency) {
    && |offsets| == |rows| + 1 && offsets[0] == 0 && offsets[|rows|] == |arena|
    && (forall v: nat | v < |rows| :: RowAt(offsets, arena, rows, v))
  }

  lemma {:induction false} RowSlice(offsets: seq<nat>, arena: seq<nat>, rows: Adjacency, v: nat)
    requires IsCsr(offsets, arena, rows) && v < |rows|
    ensures v + 1 < |offsets| && offsets[v] <= offsets[v + 1] <= |arena|
    ensures arena[offsets[v]..offsets[v + 1]] == rows[v]
  {
    assert RowAt(offsets, arena, rows, v);
  }

  function Flatten(rows: Adjacency): (r: seq<nat>) {
    if rows == [] then [] else Flatten(rows[..|rows| - 1]) + rows[|rows| - 1]
  }

  lemma {:induction false} FlattenPrefix(rows: Adjacency, k: nat)
    requires k <= |rows|
    ensures Flatten(rows[..k]) <= Flatten(rows)
  {
    if k == |rows| {
      assert rows[..k] == rows;
    } else {
      FlattenPrefix(rows[..|rows| - 1], k);
      assert rows[..|rows| - 1][..k] == rows[..k];
    }
  }

  /** Row offsets of the flattened rows; fails only when they exceed a machine word. */
  method AdjacencyOffsets(rows: Adjacency) returns (r: Result<seq<nat>>)
    ensures r.Ok? <==> |Flatten(rows)| <= USIZE_MAX
    ensures r.Ok? ==> IsCsr(r.value, Flatten(rows), rows)
  {
    var offsets := [0];
    for i := 0 to |rows|
      invariant |offsets| == i + 1 && offsets[0] == 0
      invariant forall v | 0 <= v <= i :: offsets[v] == |Flatten(rows[..v])| <= USIZE_MAX
    {
      assert rows[..i + 1][..i] == rows[..i];
      var next := offsets[i] + |rows[i]|;
      if next > USIZE_MAX {
        FlattenPrefix(rows, i + 1);
        return Err("request adjacency offset overflow");
      }
      offsets := offsets + [next];
    }
    assert rows[..|rows|] == rows;
    forall v: nat | v < |rows| ensures RowAt(offsets, Flatten(rows), rows, v) {
      assert rows[..v + 1][..v] == rows[..v];
      FlattenPrefix(rows, v + 1);
      assert Flatten(rows[..v + 1]) == Flatten(rows[..v]) + rows[v];
    }
    r := Ok(offsets);
  }

  // ---------- Reversal ----------

  /** One entry `source` for every occurrence of `target` in `row`. */
  ghost function Hits(source: nat, row: seq<nat>, target: nat): (r: seq<nat>) {
    if row == [] then []
    else Hits(source, row[..|row| - 1], target) + if row[|row| - 1] == target then [source] else []
  }

  /** The sources of the edges into `target`, in row order, one entry per edge. */
  ghost function Sources(rows: Adjacency, target: nat): (r: seq<nat>) {
    if rows == [] then []
    else Sources(rows[..|rows| - 1], target) + Hits(|rows| - 1, rows[|rows| - 1], target)
  }

  ghost function Reversed(rows: Adjacency): (r: Adjacency)
    ensures |r| == |rows|
  {
    seq(|rows|, t requires 0 <= t < |rows| => Sources(rows, t))
  }

  lemma {:induction false} HitsMember(source: nat, row: seq<nat>, target: nat)
    ensures forall x :: x in Hits(source, row, target) <==> x == source && target in row
    ensures |Hits(source, row, target)| == multiset(row)[target]
  {
    if row != [] {
      HitsMember(source, row[..|row| - 1], target);
      assert row == row[..|row| - 1] + [row[|row| - 1]];
    }
  }

  lemma {:induction false} SourcesMember(rows: Adjacency, target: nat)
    ensures forall s: nat :: s in Sources(rows, target) <==> s < |rows| && target in rows[s]
    ensures forall i, j | 0 <= i < j < |Sources(rows, target)| ::
              Sources(rows, target)[i] <= Sources(rows, target)[j]
  {
    if rows != [] {
      var last := |rows| - 1;
      SourcesMember(rows[..last], target);
      HitsMember(last, rows[last], target);
      var before, hits := Sources(rows[..last], target), Hits(last, rows[last], target);
      forall i, j | 0 <= i < j < |before + hits| ensures (before + hits)[i] <= (before + hits)[j] {
        if i < |before| { assert before[i] in before; }
        if j >= |before| { assert hits[j - |before|] in hits; }
        if i >= |before| { assert hits[i - |before|] in hits; }
      }
    }
  }

  lemma {:induction false} SourcesCount(rows: Adjacency, target: nat)
    ensures |Sources(rows, target)| == multiset(Flatten(rows))[target]
  {
    if rows != [] {
      SourcesCount(rows[..|rows| - 1], target);
      HitsMember(|rows| - 1, rows[|rows| - 1], target);
    }
  }

  /** Rows without repeated targets have strictly ascending buckets. */
  lemma {:induction false} SourcesStrict(rows: Adjacency, target: nat)
    requires forall v | 0 <= v < |rows| :: Sorting.StrictlySorted(rows[v], TarjanSteps.NatLeq)
    ensures Sorting.StrictlySorted(Sources(rows, target), TarjanSteps.NatLeq)
  {
    if rows != [] {
      var last := |rows| - 1;
      SourcesStrict(rows[..last], target);
      SourcesMember(rows[..last], target);
      HitsOnce(last, rows[last], target);
      var before := Sources(rows[..last], target);
      assert before + [] == before;
      StrictAppend(before, last);
    }
  }

  lemma {:induction false} StrictAppend(s: seq<nat>, x: nat)
    requires Sorting.StrictlySorted(s, TarjanSteps.NatLeq) && forall y | y in s :: y < x
    ensures Sorting.StrictlySorted(s + [x], TarjanSteps.NatLeq)
  {
    forall i, j | 0 <= i < j < |s + [x]|
      ensures TarjanSteps.NatLeq((s + [x])[i], (s + [x])[j]) && (s + [x])[i] != (s + [x])[j]
    {
      assert s[i] in s;
    }
  }

  lemma {:induction false} HitsOnce(source: nat, row: seq<nat>, target: nat)
    requires Sorting.StrictlySorted(row, TarjanSteps.NatLeq)
    ensures Hits(source, row, target) == if target in row then [source] else []
  {
    if row != [] {
      var init, last := row[..|row| - 1], row[|row| - 1];
      HitsOnce(source, init, target);
      assert row == init + [last];
      assert last !in init;
    }
  }

  /** Reversing strictly sorted rows twice gives them back. */
  lemma {:induction false} ReverseTwice(rows: Adjacency)
    requires InRange(rows)
    requires forall v | 0 <= v < |rows| :: Sorting.StrictlySorted(rows[v], TarjanSteps.NatLeq)
    ensures Reversed(Reversed(rows)) == rows
  {
    var back := Reversed(rows);
    forall t | 0 <= t < |rows| ensures Sorting.StrictlySorted(back[t], TarjanSteps.NatLeq) {
      SourcesStrict(rows, t);
    }
    forall v | 0 <= v < |rows| ensures Reversed(back)[v] == rows[v] {
      SourcesStrict(back, v);
      forall t: nat ensures t in Sources(back, v) <==> t in rows[v] {
        SourcesMember(back, v);
        SourcesMember(rows, t);
        if t in rows[v] { var j :| 0 <= j < |rows[v]| && rows[v][j] == t; }
      }
      TarjanSteps.NatOrder();
      Sorting.StrictlySortedUnique(Sources(back, v), rows[v], TarjanSteps.NatLeq);
    }
  }

  /** The rows determine the compressed form. */
  lemma {:induction false} CsrUnique(rows: Adjacency, o1: seq<nat>, a1: seq<nat>, o2: seq<nat>, a2: seq<nat>)
    requires IsCsr(o1, a1, rows) && IsCsr(o2, a2, rows)
    ensures o1 == o2 && a1 == a2
  {
    forall v: nat | v <= |rows| ensures o1[v] == o2[v] { OffsetsUnique(rows, o1, a1, o2, a2, v); }
    forall i | 0 <= i < |a1| ensures a1[i] == a2[i] {
      var v := RowOf(rows, o1, a1, i, |rows|);
      assert RowAt(o1, a1, rows, v) && RowAt(o2, a2, rows, v);
      assert a1[o1[v]..o1[v + 1]][i - o1[v]] == a2[o2[v]..o2[v + 1]][i - o2[v]];
    }
  }

  /** Reversing the compressed form of strictly sorted rows twice gives it back, offset by offset. */
  lemma {:induction false} ReverseTwiceCsr(rows: Adjacency, offsets: seq<nat>, arena: seq<nat>, twiceOffsets: seq<nat>,
      twiceArena: seq<nat>)
    requires InRange(rows)
    requires forall v | 0 <= v < |rows| :: Sorting.StrictlySorted(rows[v], TarjanSteps.NatLeq)
    requires IsCsr(offsets, arena, rows) && IsCsr(twiceOffsets, twiceArena, Reversed(Reversed(rows)))
    ensures twiceOffsets == offsets && twiceArena == arena
  {
    ReverseTwice(rows);
    CsrUnique(rows, offsets, arena, twiceOffsets, twiceArena);
  }

  lemma {:induction false} OffsetsUnique(rows: Adjacency, o1: seq<nat>, a1: seq<nat>, o2: seq<nat>, a2: seq<nat>,
      v: nat)
    requires IsCsr(o1, a1, rows) && IsCsr(o2, a2, rows) && v <= |rows|
    ensures o1[v] == o2[v]
  {
    if v > 0 {
      OffsetsUnique(rows, o1, a1, o2, a2, v - 1);
      assert RowAt(o1, a1, rows, v - 1) && RowAt(o2, a2, rows, v - 1);
    }
  }

  lemma {:induction false} RowOf(rows: Adjacency, offsets: seq<nat>, arena: seq<nat>, i: nat, k: nat) returns (v: nat)
    requires IsCsr(offsets, arena, rows) && k <= |rows| && i < offsets[k]
    ensures v < k && offsets[v] <= i < offsets[v + 1]
  {
    if offsets[k - 1] <= i { v := k - 1; } else { v := RowOf(rows, offsets, arena, i, k - 1); }
  }

  // ---------- Counting sort ----------

  /** The rows as far as edge `i` of row `v`. */
  ghost function Upto(rows: Adjacency, v: nat, i: nat): (r: Adjacency)
    requires v < |rows| && i <= |rows[v]|
  {
    rows[..v] + [rows[v][..i]]
  }

  lemma {:induction false} SourcesExtend(rows: Adjacency, v: nat, i: nat, t: nat)
    requires v < |rows| && i < |rows[v]|
    ensures Sources(Upto(rows, v, i + 1), t)
         == Sources(Upto(rows, v, i), t) + if rows[v][i] == t then [v] else []
  {
    var a, b := Upto(rows, v, i), Upto(rows, v, i + 1);
    assert a[..v] == b[..v] == rows[..v];
    assert rows[v][..i + 1][..i] == rows[v][..i];
  }

  /** The end of one row is the start of the next. */
  lemma {:induction false} SourcesNextRow(rows: Adjacency, v: nat, t: nat)
    requires v < |rows|
    ensures Sources(Upto(rows, v, |rows[v]|), t) == Sources(rows[..v + 1], t)
  {
    assert rows[v][..|rows[v]|] == rows[v];
    assert Upto(rows, v, |rows[v]|) == rows[..v + 1];
  }

  lemma {:induction false} SourcesFirst(rows: Adjacency, v: nat, t: nat)
    requires v < |rows|
    ensures Sources(Upto(rows, v, 0), t) == Sources(rows[..v], t)
  {
    assert Upto(rows, v, 0)[..v] == rows[..v];
  }

  lemma {:induction false} SourcesPrefix(rows: Adjacency, v: nat, t: nat)
    requires v <= |rows|
    ensures Sources(rows[..v], t) <= Sources(rows, t)
  {
    if v < |rows| {
      SourcesPrefix(rows[..|rows| - 1], v, t);
      assert rows[..|rows| - 1][..v] == rows[..v];
    } else {
      assert rows[..v] == rows;
    }
  }

  lemma {:induction false} UptoPrefix(rows: Adjacency, v: nat, i: nat, t: nat)
    requires v < |rows| && i <= |rows[v]|
    ensures Sources(Upto(rows, v, i), t) <= Sources(rows, t)
    decreases |rows[v]| - i
  {
    if i < |rows[v]| {
      SourcesExtend(rows, v, i, t);
      UptoPrefix(rows, v, i + 1, t);
    } else {
      SourcesNextRow(rows, v, t);
      SourcesPrefix(rows, v + 1, t);
    }
  }

  ghost function SumCounts(s: seq<nat>, n: nat): nat {
    if n == 0 then 0 else SumCounts(s, n - 1) + multiset(s)[n - 1]
  }

  lemma {:induction false} SumCountsStep(s: seq<nat>, x: nat, n: nat)
    ensures SumCounts(s + [x], n) == SumCounts(s, n) + if x < n then 1 else 0
  {
    if n > 0 { SumCountsStep(s, x, n - 1); }
  }

  lemma {:induction false} SumCountsEmpty(n: nat)
    ensures SumCounts([], n) == 0
  {
    if n > 0 { SumCountsEmpty(n - 1); }
  }

  lemma {:induction false} SumCountsTotal(s: seq<nat>, n: nat)
    requires forall i | 0 <= i < |s| :: s[i] < n
    ensures SumCounts(s, n) == |s|
  {
    if s == [] {
      SumCountsEmpty(n);
    } else {
      var init, last := s[..|s| - 1], s[|s| - 1];
      SumCountsTotal(init, n);
      SumCountsStep(init, last, n);
      assert s == init + [last];
    }
  }

  /** The bucket of `t` starts with the sources met so far. */
  ghost predicate Filled(offsets: seq<nat>, arena: seq<nat>, found: seq<nat>, t: nat)
    requires t < |offsets|
  {
    offsets[t] + |found| <= |arena| && arena[offsets[t]..offsets[t] + |found|] == found
  }

  lemma {:induction false} FilledStep(offsets: seq<nat>, arena: seq<nat>, found: seq<nat>, t: nat, slot: nat, x: nat)
    requires t < |offsets| && Filled(offsets, arena, found, t) && slot < |arena|
    ensures slot == offsets[t] + |found| ==> Filled(offsets, arena[slot := x], found + [x], t)
    ensures slot < offsets[t] || offsets[t] + |found| <= slot ==> Filled(offsets, arena[slot := x], found, t)
  {
  }

  /** The arena a compressed form is cut from is the flattened rows. */
  lemma {:induction false} CsrFlatten(offsets: seq<nat>, arena: seq<nat>, rows: Adjacency, k: nat)
    requires IsCsr(offsets, arena, rows) && k <= |rows|
    ensures offsets[k] <= |arena| && arena[..offsets[k]] == Flatten(rows[..k])
  {
    if k > 0 {
      CsrFlatten(offsets, arena, rows, k - 1);
      assert RowAt(offsets, arena, rows, k - 1);
      assert rows[..k][..k - 1] == rows[..k - 1];
      assert arena[..offsets[k]] == arena[..offsets[k - 1]] + arena[offsets[k - 1]..offsets[k]];
    }
  }

  lemma {:induction false} OutOfRangeRow(offsets: seq<nat>, arena: seq<nat>, rows: Adjacency, i: nat)
    requires IsCsr(offsets, arena, rows) && i < |arena| && arena[i] >= |rows|
    ensures !InRange(rows)
  {
    var v := RowOf(rows, offsets, arena, i, |rows|);
    assert RowAt(offsets, arena, rows, v);
    assert rows[v][i - offsets[v]] == arena[i];
  }

  /** Counts how often each node is a target; a missing target is an error. */
  method CountTargets(nodeCount: nat, offsets: seq<nat>, edges: seq<nat>, ghost rows: Adjacency)
    returns (r: Result<array<nat>>)
    requires IsCsr(offsets, edges, rows) && |rows| == nodeCount
    ensures r.Ok? <==> InRange(rows)
    ensures r.Ok? ==> fresh(r.value) && r.value.Length == nodeCount
    ensures r.Ok? ==> forall t | 0 <= t < nodeCount :: r.value[t] == multiset(edges)[t]
    ensures r.Ok? ==> edges == Flatten(rows) && forall i | 0 <= i < |edges| :: edges[i] < nodeCount
  {
    var counts := new nat[nodeCount](_ => 0);
    for i := 0 to |edges|
      invariant forall t | 0 <= t < nodeCount :: counts[t] == multiset(edges[..i])[t]
      invariant forall j | 0 <= j < i :: edges[j] < nodeCount
    {
      if edges[i] >= nodeCount {
        OutOfRangeRow(offsets, edges, rows, i);
        return Err("request reverse adjacency target is out of range");
      }
      assert edges[..i + 1] == edges[..i] + [edges[i]];
      counts[edges[i]] := counts[edges[i]] + 1;
    }
    assert edges[..|edges|] == edges;
    CsrInRange(offsets, edges, rows);
    r := Ok(counts);
  }

  lemma {:induction false} CsrInRange(offsets: seq<nat>, edges: seq<nat>, rows: Adjacency)
    requires IsCsr(offsets, edges, rows) && forall i | 0 <= i < |edges| :: edges[i] < |rows|
    ensures InRange(rows) && edges == Flatten(rows)
  {
    assert edges[..|edges|] == edges && rows[..|rows|] == rows;
    CsrFlatten(offsets, edges, rows, |rows|);
    forall v: nat, j: nat | v < |rows| && j < |rows[v]| ensures rows[v][j] < |rows| {
      assert RowAt(offsets, edges, rows, v);
      assert rows[v][j] == edges[offsets[v] + j];
    }
  }

  lemma {:induction false} SumCountsMonotone(s: seq<nat>, t: nat, u: nat)
    requires t <= u
    ensures SumCounts(s, t) <= SumCounts(s, u)
  {
    if t < u { SumCountsMonotone(s, t, u - 1); }
  }

  /** Bucket `t` has room for exactly the sources of `t`, and the buckets fill the arena. */
  ghost predicate Layout(offsets: seq<nat>, rows: Adjacency, length: nat) {
    && |offsets| == |rows| + 1 && offsets[0] == 0 && offsets[|rows|] == length
    && (forall t: nat | t < |rows| :: Bucket(offsets, rows, t))
    && (forall t, u | 0 <= t <= u <= |rows| :: offsets[t] <= offsets[u])
  }

  ghost predicate Bucket(offsets: seq<nat>, rows: Adjacency, t: nat)
    requires |offsets| == |rows| + 1 && t < |rows|
  {
    offsets[t] + |Sources(rows, t)| == offsets[t + 1]
  }

  lemma {:induction false} LayoutOfSums(offsets: seq<nat>, rows: Adjacency, arena: seq<nat>)
    requires arena == Flatten(rows) && forall i | 0 <= i < |arena| :: arena[i] < |rows|
    requires |offsets| == |rows| + 1 && forall u | 0 <= u <= |rows| :: offsets[u] == SumCounts(arena, u)
    ensures Layout(offsets, rows, |arena|)
  {
    SumCountsTotal(arena, |rows|);
    forall t: nat | t < |rows| ensures Bucket(offsets, rows, t) {
      SourcesCount(rows, t);
      assert offsets[t + 1] == SumCounts(arena, t) + multiset(arena)[t];
    }
    forall t, u | 0 <= t <= u <= |rows| ensures offsets[t] <= offsets[u] {
      SumCountsMonotone(arena, t, u);
    }
  }

  /** Turns the counts into bucket offsets. */
  method BucketOffsets(counts: array<nat>, ghost arena: seq<nat>) returns (offsets: seq<nat>)
    requires forall t | 0 <= t < counts.Length :: counts[t] == multiset(arena)[t]
    ensures |offsets| == counts.Length + 1
    ensures forall u | 0 <= u <= counts.Length :: offsets[u] == SumCounts(arena, u)
  {
    offsets := [0];
    for t := 0 to counts.Length
      invariant |offsets| == t + 1
      invariant forall u | 0 <= u <= t :: offsets[u] == SumCounts(arena, u)
    {
      offsets := offsets + [offsets[t] + counts[t]];
    }
  }

  /** Every bucket starts with its sources among the edges handled so far, and its cursor
      points behind them. */
  ghost predicate Placed(offsets: seq<nat>, cursors: seq<nat>, arena: seq<nat>, done: Adjacency) {
    && |cursors| < |offsets|
    && forall t: nat | t < |cursors| :: PlacedAt(offsets, cursors, arena, done, t)
  }

  ghost predicate PlacedAt(offsets: seq<nat>, cursors: seq<nat>, arena: seq<nat>, done: Adjacency, t: nat)
    requires t < |cursors| < |offsets|
  {
    && cursors[t] == offsets[t] + |Sources(done, t)|
    && Filled(offsets, arena, Sources(done, t), t)
  }

  /** Writing edge `i` of row `v` at its target's cursor places one more edge. */
  lemma {:induction false} PlaceStep(offsets: seq<nat>, rows: Adjacency, cursors: seq<nat>, arena: seq<nat>, v: nat,
      i: nat)
    requires Layout(offsets, rows, |arena|) && |cursors| == |rows| && InRange(rows)
    requires v < |rows| && i < |rows[v]| && Placed(offsets, cursors, arena, Upto(rows, v, i))
    ensures cursors[rows[v][i]] < |arena|
    ensures var t := rows[v][i];
            Placed(offsets, cursors[t := cursors[t] + 1], arena[cursors[t] := v], Upto(rows, v, i + 1))
  {
    var target := rows[v][i];
    PlaceSlot(offsets, rows, cursors, arena, v, i);
    var slot := cursors[target];
    var after, moved, done := arena[slot := v], cursors[target := slot + 1], Upto(rows, v, i + 1);
    forall t: nat | t < |cursors| ensures PlacedAt(offsets, moved, after, done, t) {
      PlaceOne(offsets, rows, cursors, arena, v, i, t);
    }
  }

  /** The cursor of a bucket stays within it, and has room when an edge is left to place. */
  lemma {:induction false} CursorInBucket(offsets: seq<nat>, rows: Adjacency, cursors: seq<nat>, arena: seq<nat>,
      v: nat, i: nat, t: nat)
    requires Layout(offsets, rows, |arena|) && |cursors| == |rows| && t < |cursors|
    requires v < |rows| && i < |rows[v]| && Placed(offsets, cursors, arena, Upto(rows, v, i))
    ensures offsets[t] <= cursors[t] <= offsets[t + 1] <= |arena|
    ensures rows[v][i] == t ==> cursors[t] < offsets[t + 1]
  {
    assert PlacedAt(offsets, cursors, arena, Upto(rows, v, i), t);
    assert Bucket(offsets, rows, t);
    UptoPrefix(rows, v, i, t);
    UptoPrefix(rows, v, i + 1, t);
    SourcesExtend(rows, v, i, t);
  }

  lemma {:induction false} PlaceSlot(offsets: seq<nat>, rows: Adjacency, cursors: seq<nat>, arena: seq<nat>, v: nat,
      i: nat)
    requires Layout(offsets, rows, |arena|) && |cursors| == |rows| && InRange(rows)
    requires v < |rows| && i < |rows[v]| && Placed(offsets, cursors, arena, Upto(rows, v, i))
    ensures cursors[rows[v][i]] < |arena|
  {
    CursorInBucket(offsets, rows, cursors, arena, v, i, rows[v][i]);
  }

  /** The bucket that is written. */
  lemma {:induction false} PlaceHit(offsets: seq<nat>, cursors: seq<nat>, arena: seq<nat>, a: Adjacency, b: Adjacency,
      t: nat, v: nat)
    requires t < |cursors| < |offsets| && PlacedAt(offsets, cursors, arena, a, t) && cursors[t] < |arena|
    requires Sources(b, t) == Sources(a, t) + [v]
    ensures PlacedAt(offsets, cursors[t := cursors[t] + 1], arena[cursors[t] := v], b, t)
  {
    FilledStep(offsets, arena, Sources(a, t), t, cursors[t], v);
  }

  /** A bucket that is not. */
  lemma {:induction false} PlaceMiss(offsets: seq<nat>, cursors: seq<nat>, moved: seq<nat>, arena: seq<nat>,
      a: Adjacency, b: Adjacency,
      t: nat, slot: nat, v: nat)
    requires t < |cursors| < |offsets| && PlacedAt(offsets, cursors, arena, a, t) && slot < |arena|
    requires |moved| == |cursors| && moved[t] == cursors[t] && Sources(b, t) == Sources(a, t)
    requires slot < offsets[t] || cursors[t] <= slot
    ensures PlacedAt(offsets, moved, arena[slot := v], b, t)
  {
    FilledStep(offsets, arena, Sources(a, t), t, slot, v);
  }

  lemma {:induction false} PlaceOne(offsets: seq<nat>, rows: Adjacency, cursors: seq<nat>, arena: seq<nat>, v: nat,
      i: nat, t: nat)
    requires Layout(offsets, rows, |arena|) && |cursors| == |rows| && InRange(rows) && t < |cursors|
    requires v < |rows| && i < |rows[v]| && Placed(offsets, cursors, arena, Upto(rows, v, i)) &&
        cursors[rows[v][i]] < |arena|
    ensures var target := rows[v][i];
            PlacedAt(offsets, cursors[target := cursors[target] + 1], arena[cursors[target] := v], Upto(rows, v, i + 1),
                t)
  {
    var target := rows[v][i];
    var a, b := Upto(rows, v, i), Upto(rows, v, i + 1);
    SourcesExtend(rows, v, i, t);
    assert PlacedAt(offsets, cursors, arena, a, t);
    if t == target {
      PlaceHit(offsets, cursors, arena, a, b, t, v);
    } else {
      assert Sources(a, t) + [] == Sources(a, t);
      CursorInBucket(offsets, rows, cursors, arena, v, i, t);
      CursorInBucket(offsets, rows, cursors, arena, v, i, target);
      assert t < target ==> offsets[t + 1] <= offsets[target];
      assert target < t ==> offsets[target + 1] <= offsets[t];
      PlaceMiss(offsets, cursors, cursors[target := cursors[target] + 1], arena, a, b, t, cursors[target], v);
    }
  }

  lemma {:induction false} PlacedSame(offsets: seq<nat>, cursors: seq<nat>, arena: seq<nat>, a: Adjacency, b: Adjacency)
    requires Placed(offsets, cursors, arena, a)
    requires forall t: nat | t < |cursors| :: Sources(a, t) == Sources(b, t)
    ensures Placed(offsets, cursors, arena, b)
  {
    forall t: nat | t < |cursors| ensures PlacedAt(offsets, cursors, arena, b, t) {
      assert PlacedAt(offsets, cursors, arena, a, t);
    }
  }

  /** Slot `k` was passed by the cursor of bucket `t`. */
  ghost predicate Passed(before: seq<nat>, after: seq<nat>, t: nat, k: nat) {
    t < |before| == |after| && before[t] <= k < after[t]
  }

  /** Cursors moved forward, and only slots that they passed were written. */
  ghost predicate WroteOnlyPassed(cursors: seq<nat>, arena: seq<nat>, movedCursors: seq<nat>, written: seq<nat>) {
    && |movedCursors| == |cursors| && |written| == |arena|
    && (forall t | 0 <= t < |cursors| :: cursors[t] <= movedCursors[t])
    && (forall k: nat | k < |arena| && written[k] != arena[k] :: exists t: nat :: Passed(cursors, movedCursors, t, k))
  }

  lemma {:induction false} WritesNext(cursors: seq<nat>, arena: seq<nat>, c: seq<nat>, a: seq<nat>, target: nat,
      source: nat)
    requires WroteOnlyPassed(cursors, arena, c, a) && target < |c| && c[target] < |a|
    ensures WroteOnlyPassed(cursors, arena, c[target := c[target] + 1], a[c[target] := source])
  {
    var next := c[target := c[target] + 1];
    forall k: nat | k < |arena| && a[c[target] := source][k] != arena[k]
      ensures exists t: nat :: Passed(cursors, next, t, k)
    {
      if k == c[target] {
        assert Passed(cursors, next, target, k);
      } else {
        var t: nat :| Passed(cursors, c, t, k);
        assert Passed(cursors, next, t, k);
      }
    }
  }

  /** Writes every edge of row `source` into the bucket of its target, and nothing else. */
  method PlaceRow(source: nat, row: seq<nat>, cursors: array<nat>, arena: array<nat>,
                  ghost offsets: seq<nat>, ghost rows: Adjacency)
    requires InRange(rows) && source < |rows| && rows[source] == row && cursors.Length == |rows|
    requires cursors != arena && Layout(offsets, rows, arena.Length)
    requires Placed(offsets, cursors[..], arena[..], rows[..source])
    modifies cursors, arena
    ensures Placed(offsets, cursors[..], arena[..], rows[..source + 1])
    ensures WroteOnlyPassed(old(cursors[..]), old(arena[..]), cursors[..], arena[..])
  {
    forall t: nat | t < |rows| ensures Sources(rows[..source], t) == Sources(Upto(rows, source, 0), t) {
      SourcesFirst(rows, source, t);
    }
    PlacedSame(offsets, cursors[..], arena[..], rows[..source], Upto(rows, source, 0));
    for i := 0 to |row|
      invariant Placed(offsets, cursors[..], arena[..], Upto(rows, source, i))
      invariant WroteOnlyPassed(old(cursors[..]), old(arena[..]), cursors[..], arena[..])
    {
      var target := row[i];
      PlaceStep(offsets, rows, cursors[..], arena[..], source, i);
      WritesNext(old(cursors[..]), old(arena[..]), cursors[..], arena[..], target, source);
      ghost var c, a := cursors[..], arena[..];
      arena[cursors[target]] := source;
      cursors[target] := cursors[target] + 1;
      assert arena[..] == a[c[target] := source] && cursors[..] == c[target := c[target] + 1];
    }
    forall t: nat | t < |rows|
      ensures Sources(Upto(rows, source, |row|), t) == Sources(rows[..source + 1], t)
    {
      SourcesNextRow(rows, source, t);
    }
    PlacedSame(offsets, cursors[..], arena[..], Upto(rows, source, |row|), rows[..source + 1]);
  }

  lemma {:induction false} PlacedIsReversed(offsets: seq<nat>, cursors: seq<nat>, arena: seq<nat>, rows: Adjacency)
    requires Layout(offsets, rows, |arena|) && |cursors| == |rows| && Placed(offsets, cursors, arena, rows)
    ensures IsCsr(offsets, arena, Reversed(rows))
  {
    forall t: nat | t < |rows| ensures RowAt(offsets, arena, Reversed(rows), t) {
      assert Bucket(offsets, rows, t) && PlacedAt(offsets, cursors, arena, rows, t);
    }
  }

  /** Points every cursor at the start of its bucket. */
  method ResetCursors(cursors: array<nat>, buckets: seq<nat>)
    requires |buckets| == cursors.Length + 1
    modifies cursors
    ensures cursors[..] == buckets[..cursors.Length]
  {
    for t := 0 to cursors.Length
      invariant forall u | 0 <= u < t :: cursors[u] == buckets[u]
    {
      cursors[t] := buckets[t];
    }
  }

  lemma {:induction false} PlacedNothing(offsets: seq<nat>, cursors: seq<nat>, arena: seq<nat>, rows: Adjacency)
    requires Layout(offsets, rows, |arena|) && cursors == offsets[..|rows|]
    ensures Placed(offsets, cursors, arena, rows[..0])
  {
  }

  /** Reverses compressed rows: bucket `t` lists the sources of the edges into `t`. */
  method ReverseAdjacency(nodeCount: nat, offsets: seq<nat>, edges: seq<nat>, ghost rows: Adjacency)
    returns (r: Result<(seq<nat>, seq<nat>)>)
    requires IsCsr(offsets, edges, rows) && |rows| == nodeCount
    ensures r.Ok? <==> InRange(rows)
    ensures r.Ok? ==> IsCsr(r.value.0, r.value.1, Reversed(rows))
  {
    var counted := CountTargets(nodeCount, offsets, edges, rows);
    if counted.Err? { return Err(counted.message); }
    var cursors := counted.value;
    var buckets := BucketOffsets(cursors, edges);
    LayoutOfSums(buckets, rows, edges);
    ResetCursors(cursors, buckets);
    var arena := new nat[|edges|](_ => 0);
    PlacedNothing(buckets, cursors[..], arena[..], rows);
    for source := 0 to nodeCount
      invariant Placed(buckets, cursors[..], arena[..], rows[..source])
    {
      assert RowAt(offsets, edges, rows, source);
      PlaceRow(source, edges[offsets[source]..offsets[source + 1]], cursors, arena, buckets, rows);
    }
    assert rows[..nodeCount] == rows;
    PlacedIsReversed(buckets, cursors[..], arena[..], rows);
    r := Ok((buckets, arena[..]));
  }
}
