/** A stable insertion sort: the meaning given to the standard library's slice
    sorts (`sort_by`, `sort_unstable_by_key`, `dedup`) wherever the sources use them. */
module Sorting {

  ghost predicate TotalPreorder<T(!new)>(leq: (T, T) -> bool) {
    && (forall a, b :: leq(a, b) || leq(b, a))
    && (forall a, b, c :: leq(a, b) && leq(b, c) ==> leq(a, c))
  }

  ghost predicate Antisymmetric<T(!new)>(leq: (T, T) -> bool) {
    forall a, b :: leq(a, b) && leq(b, a) ==> a == b
  }

  ghost predicate Sorted<T>(s: seq<T>, leq: (T, T) -> bool) {
    forall i, j | 0 <= i < j < |s| :: leq(s[i], s[j])
  }

  function Insert<T>(x: T, s: seq<T>, leq: (T, T) -> bool): (r: seq<T>)
    ensures multiset(r) == multiset(s) + multiset{x}
    ensures |r| == |s| + 1
  {
    if s == [] || leq(x, s[0]) then [x] + s
    else
      assert s == [s[0]] + s[1..];
      [s[0]] + Insert(x, s[1..], leq)
  }

  function Sort<T>(s: seq<T>, leq: (T, T) -> bool): (r: seq<T>)
    ensures multiset(r) == multiset(s)
    ensures |r| == |s|
  {
    if s == [] then []
    else
      assert s == [s[0]] + s[1..];
      Insert(s[0], Sort(s[1..], leq), leq)
  }

  lemma {:induction false} SameElements<T>(a: seq<T>, b: seq<T>)
    requires multiset(a) == multiset(b)
    ensures forall x :: x in a <==> x in b
    ensures |a| == |b|
  {
    forall x ensures x in a <==> x in b {
      assert x in a <==> x in multiset(a);
      assert x in b <==> x in multiset(b);
    }
    assert |a| == |multiset(a)| == |multiset(b)| == |b|;
  }

  ghost predicate Distinct<T>(s: seq<T>) {
    forall i, j | 0 <= i < j < |s| :: s[i] != s[j]
  }

  lemma {:induction false} RepeatedCount<T>(s: seq<T>, i: nat, j: nat)
    requires i < j < |s| && s[i] == s[j]
    ensures multiset(s)[s[i]] >= 2
  {
    assert s == s[..i] + [s[i]] + s[i + 1..j] + [s[j]] + s[j + 1..];
  }

  lemma {:induction false} DistinctCount<T>(s: seq<T>, x: T)
    requires Distinct(s)
    ensures multiset(s)[x] <= 1
  {
    if x in s {
      var i :| 0 <= i < |s| && s[i] == x;
      assert s == s[..i] + [s[i]] + s[i + 1..];
      assert x !in s[..i] && x !in s[i + 1..];
    }
  }

  /** Rearranging distinct elements leaves them distinct. */
  lemma {:induction false} DistinctArrangement<T>(a: seq<T>, b: seq<T>)
    requires Distinct(a) && multiset(a) == multiset(b)
    ensures Distinct(b)
  {
    forall i, j | 0 <= i < j < |b| ensures b[i] != b[j] {
      DistinctCount(a, b[i]);
      if b[i] == b[j] { RepeatedCount(b, i, j); }
    }
  }

  lemma {:induction false} InsertSorted<T(!new)>(x: T, s: seq<T>, leq: (T, T) -> bool)
    requires TotalPreorder(leq) && Sorted(s, leq)
    ensures Sorted(Insert(x, s, leq), leq)
  {
    if s == [] || leq(x, s[0]) {
    } else {
      InsertSorted(x, s[1..], leq);
      var rest := Insert(x, s[1..], leq);
      SameElements(rest, s[1..] + [x]);
      forall k | 0 <= k < |rest| ensures leq(s[0], rest[k]) {
        assert rest[k] in s[1..] + [x];
      }
    }
  }

  lemma {:induction false} SortSorted<T(!new)>(s: seq<T>, leq: (T, T) -> bool)
    requires TotalPreorder(leq)
    ensures Sorted(Sort(s, leq), leq)
  {
    if s != [] {
      SortSorted(s[1..], leq);
      InsertSorted(s[0], Sort(s[1..], leq), leq);
    }
  }

  /** A sorted sequence is returned unchanged. */
  lemma {:induction false} SortOfSorted<T>(s: seq<T>, leq: (T, T) -> bool)
    requires Sorted(s, leq)
    ensures Sort(s, leq) == s
  {
    if s != [] {
      SortOfSorted(s[1..], leq);
      assert s == [s[0]] + s[1..];
    }
  }

  lemma {:induction false} SameHead<T(!new)>(a: seq<T>, b: seq<T>, leq: (T, T) -> bool)
    requires Antisymmetric(leq) && TotalPreorder(leq) && a != []
    requires Sorted(a, leq) && Sorted(b, leq) && multiset(a) == multiset(b)
    ensures b != [] && a[0] == b[0]
  {
    SameElements(a, b);
    assert a[0] in b && b[0] in a;
  }

  lemma {:induction false} TailMultiset<T>(a: seq<T>)
    requires a != []
    ensures multiset(a[1..]) == multiset(a) - multiset{a[0]}
  {
    assert a == [a[0]] + a[1..];
  }

  /** A total order has one sorted arrangement of each bag of elements. */
  lemma {:induction false} SortedUnique<T(!new)>(a: seq<T>, b: seq<T>, leq: (T, T) -> bool)
    requires Antisymmetric(leq) && TotalPreorder(leq)
    requires Sorted(a, leq) && Sorted(b, leq) && multiset(a) == multiset(b)
    ensures a == b
  {
    SameElements(a, b);
    if a != [] {
      SameHead(a, b, leq);
      TailMultiset(a);
      TailMultiset(b);
      SortedUnique(a[1..], b[1..], leq);
      assert a == [a[0]] + a[1..] && b == [b[0]] + b[1..];
    }
  }

  function Dedup<T(==,!new)>(s: seq<T>): (r: seq<T>)
    ensures forall x :: x in r <==> x in s
    ensures |r| <= |s|
  {
    if |s| < 2 then s
    else if s[0] == s[1] then Dedup(s[1..])
    else [s[0]] + Dedup(s[1..])
  }

  ghost predicate StrictlySorted<T>(s: seq<T>, leq: (T, T) -> bool) {
    forall i, j | 0 <= i < j < |s| :: leq(s[i], s[j]) && s[i] != s[j]
  }

  /** Dropping consecutive repeats of a sorted sequence leaves it strictly sorted. */
  lemma {:induction false} DedupStrict<T(!new)>(s: seq<T>, leq: (T, T) -> bool)
    requires Antisymmetric(leq) && Sorted(s, leq)
    ensures StrictlySorted(Dedup(s), leq)
  {
    if |s| >= 2 {
      DedupStrict(s[1..], leq);
      if s[0] != s[1] {
        var rest := Dedup(s[1..]);
        forall k | 0 <= k < |rest| ensures leq(s[0], rest[k]) && s[0] != rest[k] {
          assert rest[k] in s[1..];
          var m :| 1 <= m < |s| && s[m] == rest[k];
          assert leq(s[0], s[1]) && (m > 1 ==> leq(s[1], s[m]));
        }
      }
    }
  }

  lemma {:induction false} StrictTail<T(!new)>(a: seq<T>, leq: (T, T) -> bool, x: T)
    requires StrictlySorted(a, leq) && a != []
    ensures x in a[1..] <==> x in a && x != a[0]
  {
    assert a == [a[0]] + a[1..];
    if x in a[1..] {
      var i :| 0 <= i < |a[1..]| && a[1..][i] == x;
      assert a[i + 1] == x;
    }
  }

  /** A strictly sorted sequence is determined by its set of elements. */
  lemma {:induction false} StrictlySortedUnique<T(!new)>(a: seq<T>, b: seq<T>, leq: (T, T) -> bool)
    requires Antisymmetric(leq)
    requires StrictlySorted(a, leq) && StrictlySorted(b, leq)
    requires forall x :: x in a <==> x in b
    ensures a == b
  {
    if b != [] { assert b[0] in b && b[0] in a; }
    if a != [] {
      assert a[0] in a && a[0] in b;
      assert b[0] in b && b[0] in a;
      assert a[0] == b[0];
      forall x ensures x in a[1..] <==> x in b[1..] {
        StrictTail(a, leq, x);
        StrictTail(b, leq, x);
      }
      StrictlySortedUnique(a[1..], b[1..], leq);
      assert a == [a[0]] + a[1..] && b == [b[0]] + b[1..];
    }
  }

  // ---------- Listing a set in order ----------

  ghost predicate Total<T(!new)>(leq: (T, T) -> bool) {
    TotalPreorder(leq) && Antisymmetric(leq)
  }

  lemma {:induction false} FindLeast<T(!new)>(s: set<T>, leq: (T, T) -> bool) returns (least: T)
    requires s != {} && Total(leq)
    ensures least in s && forall y | y in s :: leq(least, y)
  {
    least :| least in s;
    var rest := s - {least};
    if rest == {} {
      assert s == {least};
    } else {
      var y := FindLeast(rest, leq);
      if !leq(least, y) { LeastOf(s, y, least, leq); least := y; } else { LeastOf(s, least, y, leq); }
    }
  }

  lemma {:induction false} LeastOf<T(!new)>(s: set<T>, x: T, y: T, leq: (T, T) -> bool)
    requires Total(leq) && leq(x, y) && forall z | z in s :: z == x || z == y || leq(x, z) || leq(y, z)
    ensures forall z | z in s :: leq(x, z)
  {
  }

  lemma {:induction false} LeastExists<T(!new)>(s: set<T>, leq: (T, T) -> bool)
    requires s != {} && Total(leq)
    ensures exists x :: x in s && forall y | y in s :: leq(x, y)
  {
    var least := FindLeast(s, leq);
  }

  ghost function Least<T(!new)>(s: set<T>, leq: (T, T) -> bool): (r: T)
    requires s != {} && Total(leq)
    ensures r in s && forall y | y in s :: leq(r, y)
  {
    LeastExists(s, leq);
    var x :| x in s && forall y | y in s :: leq(x, y);
    x
  }

  ghost function Ascending<T(!new)>(s: set<T>, leq: (T, T) -> bool): (r: seq<T>)
    requires Total(leq)
    ensures forall x :: x in r <==> x in s
    ensures |r| == |s|
  {
    if s == {} then [] else [Least(s, leq)] + Ascending(s - {Least(s, leq)}, leq)
  }

  lemma {:induction false} AscendingSorted<T(!new)>(s: set<T>, leq: (T, T) -> bool)
    requires Total(leq)
    ensures StrictlySorted(Ascending(s, leq), leq)
  {
    if s != {} {
      var least := Least(s, leq);
      AscendingSorted(s - {least}, leq);
      var tail := Ascending(s - {least}, leq);
      forall k | 0 <= k < |tail| ensures leq(least, tail[k]) && least != tail[k] {
        assert tail[k] in s - {least};
      }
    }
  }

  /** Any strictly ascending listing of a set is the canonical one. */
  lemma {:induction false} AscendingUnique<T(!new)>(s: set<T>, q: seq<T>, leq: (T, T) -> bool)
    requires Total(leq) && StrictlySorted(q, leq) && forall x :: x in q <==> x in s
    ensures q == Ascending(s, leq)
  {
    AscendingSorted(s, leq);
    StrictlySortedUnique(q, Ascending(s, leq), leq);
  }

  // ---------- Stability ----------

  predicate Tied<T>(x: T, y: T, leq: (T, T) -> bool) { leq(x, y) && leq(y, x) }

  /** The elements tied with `x`, in order. */
  function Ties<T>(s: seq<T>, x: T, leq: (T, T) -> bool): seq<T> {
    if s == [] then [] else (if Tied(s[0], x, leq) then [s[0]] else []) + Ties(s[1..], x, leq)
  }

  lemma {:induction false} TiesHead<T>(y: T, s: seq<T>, x: T, leq: (T, T) -> bool)
    ensures Ties([y] + s, x, leq) == (if Tied(y, x, leq) then [y] else []) + Ties(s, x, leq)
  {
    assert ([y] + s)[1..] == s;
  }

  lemma {:induction false} InsertTies<T(!new)>(y: T, s: seq<T>, x: T, leq: (T, T) -> bool)
    requires TotalPreorder(leq)
    ensures Ties(Insert(y, s, leq), x, leq) == (if Tied(y, x, leq) then [y] else []) + Ties(s, x, leq)
  {
    if s == [] || leq(y, s[0]) {
      TiesHead(y, s, x, leq);
    } else {
      InsertTies(y, s[1..], x, leq);
      TiesHead(s[0], Insert(y, s[1..], leq), x, leq);
      NotBothTied(y, s[0], x, leq);
      assert [] + Ties(s[1..], x, leq) == Ties(s[1..], x, leq);
    }
  }

  /** What is not below `z` is not tied with what `z` is tied with. */
  lemma {:induction false} NotBothTied<T(!new)>(y: T, z: T, x: T, leq: (T, T) -> bool)
    requires TotalPreorder(leq) && !leq(y, z)
    ensures !(Tied(y, x, leq) && Tied(z, x, leq))
  {
    assert leq(y, x) && leq(x, z) ==> leq(y, z);
  }

  /** Sorting keeps tied elements in the order they had. */
  lemma {:induction false} SortStable<T(!new)>(s: seq<T>, x: T, leq: (T, T) -> bool)
    requires TotalPreorder(leq)
    ensures Ties(Sort(s, leq), x, leq) == Ties(s, x, leq)
  {
    if s != [] {
      SortStable(s[1..], x, leq);
      InsertTies(s[0], Sort(s[1..], leq), x, leq);
    }
  }
}
