/** Transitive substitution in environments with cycles: when it reaches a fixed point, and when
    it is idempotent. */
module SubstitutionCycles {
  import opened Wrappers
  import opened Types
  import opened Substitution

  /** A walk along the bindings, through variables that move. */
  ghost predicate Trail(bindings: seq<Binding>, p: seq<TypeVar>) {
    && p != []
    && (forall i | 0 <= i < |p| :: Moves(bindings, p[i]))
    && (forall i | 0 < i < |p| :: Occurs(Bound(bindings)(p[i - 1]), p[i]))
  }

  ghost predicate Connected(bindings: seq<Binding>, v: TypeVar, w: TypeVar) {
    exists p :: Trail(bindings, p) && p[0] == v && p[|p| - 1] == w
  }

  ghost predicate Distinct(p: seq<TypeVar>) { forall i, j | 0 <= i < j < |p| :: p[i] != p[j] }

  /** A walk can be cut until it visits no variable twice. */
  lemma {:induction false} Shortened(bindings: seq<Binding>, p: seq<TypeVar>) returns (q: seq<TypeVar>)
    requires Trail(bindings, p)
    ensures Trail(bindings, q) && Distinct(q) && q[0] == p[0] && q[|q| - 1] == p[|p| - 1]
    decreases |p|
  {
    if Distinct(p) { return p; }
    var i, j :| 0 <= i < j < |p| && p[i] == p[j];
    var cut := p[..i] + p[j..];
    forall k | 0 < k < |cut| ensures Occurs(Bound(bindings)(cut[k - 1]), cut[k]) {
      if k == i { assert Occurs(Bound(bindings)(p[i - 1]), p[i]); }
    }
    q := Shortened(bindings, cut);
  }

  ghost function Reached(bindings: seq<Binding>, v: TypeVar): set<TypeVar> {
    set w | w in Variables(bindings) && Connected(bindings, v, w)
  }

  ghost function Reach(bindings: seq<Binding>): TypeVar -> nat { (v: TypeVar) => |Reached(bindings, v)| }

  lemma {:induction false} Subset<T>(a: set<T>, b: set<T>)
    requires a <= b
    ensures |a| <= |b| && (|a| == |b| ==> a == b)
  {
    assert b == a + (b - a);
  }

  /** Along a binding either less can be reached, or the walk comes back. */
  lemma {:induction false} LowerOrBack(bindings: seq<Binding>, v: TypeVar, u: TypeVar)
    requires Moves(bindings, v) && Occurs(Bound(bindings)(v), u) && Moves(bindings, u)
    ensures Reach(bindings)(u) <= Reach(bindings)(v)
    ensures Connected(bindings, u, v) || Reach(bindings)(u) < Reach(bindings)(v)
  {
    var from, to := Reached(bindings, v), Reached(bindings, u);
    forall w | w in to ensures w in from {
      var p :| Trail(bindings, p) && p[0] == u && p[|p| - 1] == w;
      var q := [v] + p;
      assert Trail(bindings, q) && q[0] == v && q[|q| - 1] == w;
    }
    Subset(to, from);
    assert Trail(bindings, [v]) && [v][0] == v;
    assert v in from;
  }

  /** The variables of a replaced type. */
  lemma {:induction false} OccursReplaced(ty: Type, f: TypeVar -> Type, u: TypeVar, w: TypeVar)
    requires Occurs(ty, u) && Occurs(f(u), w)
    ensures Occurs(Replace(ty, f), w)
    decreases ty
  {
    match ty
    case List(item) => OccursReplaced(item, f, u, w);
    case Set(item) => OccursReplaced(item, f, u, w);
    case Map(key, value) => if Occurs(key, u) { OccursReplaced(key, f, u, w); } else { OccursReplaced(value, f, u, w); }
    case Function(args, _, result) =>
      if Occurs(result, u) {
        OccursReplaced(result, f, u, w);
      } else {
        var i :| 0 <= i < |args| && Occurs(args[i], u);
        OccursReplaced(args[i], f, u, w);
        assert Occurs(ReplaceAll(args, f)[i], w);
      }
    case Object(shape) => OccursShapeReplaced(shape, f, u, w);
    case VariantSet(variants) =>
      var i :| 0 <= i < |variants| && variants[i].Tagged? && OccursShape(variants[i].payload, u);
      OccursShapeReplaced(variants[i].payload, f, u, w);
      assert Replace(ty, f).variants[i] == ReplaceVariant(variants[i], f);
    case Union(members) =>
      var i :| 0 <= i < |members| && Occurs(members[i], u);
      OccursReplaced(members[i], f, u, w);
      assert Occurs(ReplaceAll(members, f)[i], w);
    case _ =>
  }

  lemma {:induction false} OccursShapeReplaced(shape: ObjectShape, f: TypeVar -> Type, u: TypeVar, w: TypeVar)
    requires OccursShape(shape, u) && Occurs(f(u), w)
    ensures OccursShape(ReplaceShape(shape, f), w)
    decreases shape
  {
    var name :| name in shape.fields && Occurs(shape.fields[name], u);
    OccursReplaced(shape.fields[name], f, u, w);
    assert Occurs(ReplaceShape(shape, f).fields[name], w);
  }

  /** Every variable of a replaced type comes from some variable of the type. */
  lemma {:induction false} ReplacedOccurs(ty: Type, f: TypeVar -> Type, w: TypeVar) returns (u: TypeVar)
    requires Occurs(Replace(ty, f), w)
    ensures Occurs(ty, u) && Occurs(f(u), w)
    decreases ty
  {
    match ty
    case Var(v) => u := v;
    case List(item) => u := ReplacedOccurs(item, f, w);
    case Set(item) => u := ReplacedOccurs(item, f, w);
    case Map(key, value) =>
      if Occurs(Replace(key, f), w) { u := ReplacedOccurs(key, f, w); } else { u := ReplacedOccurs(value, f, w); }
    case Function(args, _, result) =>
      if Occurs(Replace(result, f), w) {
        u := ReplacedOccurs(result, f, w);
      } else {
        var i :| 0 <= i < |args| && Occurs(ReplaceAll(args, f)[i], w);
        u := ReplacedOccurs(args[i], f, w);
      }
    case Object(shape) => u := ReplacedShapeOccurs(shape, f, w);
    case VariantSet(variants) =>
      var i :| 0 <= i < |variants| && Replace(ty, f).variants[i].Tagged? &&
          OccursShape(Replace(ty, f).variants[i].payload, w);
      assert Replace(ty, f).variants[i] == ReplaceVariant(variants[i], f);
      u := ReplacedShapeOccurs(variants[i].payload, f, w);
    case Union(members) =>
      var i :| 0 <= i < |members| && Occurs(ReplaceAll(members, f)[i], w);
      u := ReplacedOccurs(members[i], f, w);
  }

  lemma {:induction false} ReplacedShapeOccurs(shape: ObjectShape, f: TypeVar -> Type, w: TypeVar) returns (u: TypeVar)
    requires OccursShape(ReplaceShape(shape, f), w)
    ensures OccursShape(shape, u) && Occurs(f(u), w)
    decreases shape
  {
    var name :| name in shape.fields && Occurs(ReplaceShape(shape, f).fields[name], w);
    u := ReplacedOccurs(shape.fields[name], f, w);
  }

  lemma {:induction false} Resolved(bindings: seq<Binding>, v: TypeVar, active: set<TypeVar>)
    requires Moves(bindings, v) && v !in active
    ensures ResolveVariable(v, bindings, active) == Replace(Bound(bindings)(v), Resolver(bindings, active + {v}))
  {
  }

  ghost function Elements(p: seq<TypeVar>): set<TypeVar> { set v | v in p }

  /** The rest of a cycle, walked with its beginning active, ends in the variable it started from. */
  lemma {:induction false} CycleSurvives(bindings: seq<Binding>, p: seq<TypeVar>, i: nat)
    requires Trail(bindings, p) && Distinct(p) && Occurs(Bound(bindings)(p[|p| - 1]), p[0]) && i < |p|
    ensures Occurs(ResolveVariable(p[i], bindings, Elements(p[..i])), p[0])
    decreases |p| - i
  {
    var active := Elements(p[..i]);
    assert p[i] !in active;
    assert Elements(p[..i + 1]) == active + {p[i]};
    var next := if i + 1 < |p| then p[i + 1] else p[0];
    if i + 1 < |p| {
      CycleSurvives(bindings, p, i + 1);
    } else {
      assert p[0] in p[..i + 1];
    }
    assert Occurs(ResolveVariable(next, bindings, active + {p[i]}), p[0]);
    OccursReplaced(Bound(bindings)(p[i]), Resolver(bindings, active + {p[i]}), next, p[0]);
    Resolved(bindings, p[i], active);
  }

  /** A variable on a cycle occurs in what it resolves to. */
  lemma {:induction false} SurvivesItself(bindings: seq<Binding>, v: TypeVar, u: TypeVar)
    requires Moves(bindings, v) && Occurs(Bound(bindings)(v), u) && Moves(bindings, u) && Connected(bindings, u, v)
    ensures Occurs(ResolveVariable(v, bindings, {}), v)
  {
    var p :| Trail(bindings, p) && p[0] == u && p[|p| - 1] == v;
    var q := Shortened(bindings, p);
    var n := |q| - 1;
    var cycle := [v] + q[..n];
    forall i | 0 < i < |cycle| ensures Occurs(Bound(bindings)(cycle[i - 1]), cycle[i]) {
      if i > 1 { assert Occurs(Bound(bindings)(q[i - 2]), q[i - 1]); }
    }
    assert n > 0 ==> Occurs(Bound(bindings)(q[n - 1]), q[n]);
    CycleSurvives(bindings, cycle, 0);
    assert cycle[..0] == [] && Elements([]) == {};
  }

  /** A variable on a cycle does not resolve to a fixed point. */
  lemma {:induction false} MovesOnCycle(bindings: seq<Binding>, v: TypeVar, u: TypeVar)
    requires Moves(bindings, v) && Occurs(Bound(bindings)(v), u) && Moves(bindings, u) && Connected(bindings, u, v)
    ensures var r := Resolve(Var(v), bindings, {}); Once(r, bindings) != r
  {
    var r := Resolve(Var(v), bindings, {});
    assert r == Resolver(bindings, {})(v) == ResolveVariable(v, bindings, {});
    SurvivesItself(bindings, v, u);
    if Once(r, bindings) == r { ReplaceFixed(r, Bound(bindings)); }
  }

  ghost predicate ReachesFixedPoint(bindings: seq<Binding>) {
    forall ty: Type :: Once(Resolve(ty, bindings, {}), bindings) == Resolve(ty, bindings, {})
  }

  /** Transitive substitution always ends in a fixed point of the one-layer substitution exactly
      when the bindings have no cycle. */
  lemma {:induction false} FixedIffAcyclic(bindings: seq<Binding>)
    ensures ReachesFixedPoint(bindings) <==> Acyclic(bindings)
  {
    if Acyclic(bindings) {
      forall ty: Type ensures Once(Resolve(ty, bindings, {}), bindings) == Resolve(ty, bindings, {}) {
        ResolveFixed(ty, bindings);
      }
    }
    if ReachesFixedPoint(bindings) {
      forall v: TypeVar, u: TypeVar | Moves(bindings, v) && Occurs(Bound(bindings)(v), u) && Moves(bindings, u)
        ensures Reach(bindings)(u) < Reach(bindings)(v)
      {
        LowerOrBack(bindings, v, u);
        if Connected(bindings, u, v) { MovesOnCycle(bindings, v, u); }
      }
      assert Ranked(bindings, Reach(bindings));
    }
  }

  /** Ranks go down along the bindings, or stay where a variable is bound to a bare variable. */
  ghost predicate BareRanked(bindings: seq<Binding>, rank: TypeVar -> nat) {
    forall v: TypeVar, u: TypeVar | Moves(bindings, v) && Occurs(Bound(bindings)(v), u) && Moves(bindings, u) ::
      rank(u) < rank(v) || (rank(u) == rank(v) && Bound(bindings)(v) == Var(u))
  }

  /** Every cycle runs through bare variables only. */
  ghost predicate BareCycles(bindings: seq<Binding>) { exists rank: TypeVar -> nat :: BareRanked(bindings, rank) }

  ghost predicate Idempotent(bindings: seq<Binding>) {
    forall ty: Type :: Resolve(Resolve(ty, bindings, {}), bindings, {}) == Resolve(ty, bindings, {})
  }

  ghost predicate BareStep(bindings: seq<Binding>, p: seq<TypeVar>, v: TypeVar, i: int)
    requires 0 <= i < |p|
  {
    Moves(bindings, p[i]) && Bound(bindings)(p[i]) == Var(if i + 1 < |p| then p[i + 1] else v)
  }

  /** Each variable of `p` is bound to the next one, and the last to `v`. */
  ghost predicate BareTrail(bindings: seq<Binding>, p: seq<TypeVar>, v: TypeVar) {
    && Distinct(p)
    && forall i | 0 <= i < |p| :: BareStep(bindings, p, v, i)
  }

  /** A cycle of bare variables resolves to its first variable. */
  lemma {:induction false} BareCycleReturns(bindings: seq<Binding>, p: seq<TypeVar>, i: nat)
    requires p != [] && BareTrail(bindings, p, p[0]) && i < |p|
    ensures ResolveVariable(p[i], bindings, Elements(p[..i])) == Var(p[0])
    decreases |p| - i
  {
    var active := Elements(p[..i]);
    assert p[i] !in active;
    assert Elements(p[..i + 1]) == active + {p[i]};
    if i + 1 < |p| {
      BareCycleReturns(bindings, p, i + 1);
    } else {
      assert p[0] in p[..i + 1];
    }
    assert BareStep(bindings, p, p[0], i);
    Resolved(bindings, p[i], active);
  }

  /** The active variables on the way to `v`: those of its rank are the bare trail to it. */
  ghost predicate Approach(bindings: seq<Binding>, rank: TypeVar -> nat, v: TypeVar, active: set<TypeVar>,
      p: seq<TypeVar>) {
    && BareTrail(bindings, p, v) && (forall i | 0 <= i < |p| :: p[i] in active)
    && (Moves(bindings, v) ==>
          forall a | a in active && Moves(bindings, a) :: rank(v) <= rank(a) && (rank(v) == rank(a) ==> a in p))
  }

  lemma {:induction false} ApproachNext(bindings: seq<Binding>, rank: TypeVar -> nat, v: TypeVar, active: set<TypeVar>,
                                        p: seq<TypeVar>, u: TypeVar) returns (q: seq<TypeVar>)
    requires BareRanked(bindings, rank) && Approach(bindings, rank, v, active, p)
    requires Moves(bindings, v) && v !in active && Occurs(Bound(bindings)(v), u)
    ensures Approach(bindings, rank, u, active + {v}, q)
  {
    q := [];
    if Moves(bindings, u) && rank(u) == rank(v) {
      q := p + [v];
      forall i | 0 <= i < |q| ensures BareStep(bindings, q, u, i) {
        if i < |p| { assert BareStep(bindings, p, v, i); }
      }
    }
  }

  /** The end of a bare trail that comes back is a cycle. */
  lemma {:induction false} BareEnd(bindings: seq<Binding>, p: seq<TypeVar>, i: nat)
    requires i < |p| && BareTrail(bindings, p, p[i])
    ensures ResolveVariable(p[i], bindings, {}) == Var(p[i])
  {
    var q := p[i..];
    forall k | 0 <= k < |q| ensures BareStep(bindings, q, p[i], k) { assert BareStep(bindings, p, p[i], i + k); }
    BareCycleReturns(bindings, q, 0);
    assert q[..0] == [] && Elements([]) == {};
  }

  /** With bare cycles only, what is left after resolving resolves to itself. */
  lemma {:induction false} Settled(bindings: seq<Binding>, rank: TypeVar -> nat, v: TypeVar, active: set<TypeVar>,
                                   p: seq<TypeVar>, w: TypeVar)
    requires BareRanked(bindings, rank) && Approach(bindings, rank, v, active, p)
    requires Occurs(ResolveVariable(v, bindings, active), w)
    ensures ResolveVariable(w, bindings, {}) == Var(w)
    decreases |Variables(bindings) - active|
  {
    if !Moves(bindings, v) {
    } else if v in active {
      var i :| 0 <= i < |p| && p[i] == v;
      BareEnd(bindings, p, i);
    } else {
      Resolved(bindings, v, active);
      var u := ReplacedOccurs(Bound(bindings)(v), Resolver(bindings, active + {v}), w);
      var q := ApproachNext(bindings, rank, v, active, p, u);
      assert Variables(bindings) - active == (Variables(bindings) - (active + {v})) + {v};
      Settled(bindings, rank, u, active + {v}, q, w);
    }
  }

  lemma {:induction false} BareIdempotent(ty: Type, bindings: seq<Binding>)
    requires BareCycles(bindings)
    ensures Resolve(Resolve(ty, bindings, {}), bindings, {}) == Resolve(ty, bindings, {})
  {
    var rank: TypeVar -> nat :| BareRanked(bindings, rank);
    var r := Resolve(ty, bindings, {});
    forall w: TypeVar | Occurs(r, w) ensures Resolver(bindings, {})(w) == Var(w) {
      var v := ReplacedOccurs(ty, Resolver(bindings, {}), w);
      Settled(bindings, rank, v, {}, [], w);
    }
    ReplaceIdentity(r, Resolver(bindings, {}));
  }

  /** A variable on a cycle that is bound to a proper type grows each time it is resolved. */
  lemma {:induction false} GrowsOnCycle(bindings: seq<Binding>, v: TypeVar, u: TypeVar)
    requires Moves(bindings, v) && Occurs(Bound(bindings)(v), u) && Moves(bindings, u) && Connected(bindings, u, v)
    requires !Bound(bindings)(v).Var?
    ensures var r := Resolve(Var(v), bindings, {}); Resolve(r, bindings, {}) != r
  {
    var r := Resolve(Var(v), bindings, {});
    SurvivesItself(bindings, v, u);
    assert r == Resolver(bindings, {})(v) == ResolveVariable(v, bindings, {});
    Resolved(bindings, v, {});
    assert !r.Var?;
    if Resolve(r, bindings, {}) == r { ReplaceFixed(r, Resolver(bindings, {})); }
  }

  /** Transitive substitution is idempotent exactly when every cycle of the bindings runs through
      bare variables only. */
  lemma {:induction false} IdempotentIffBareCycles(bindings: seq<Binding>)
    ensures Idempotent(bindings) <==> BareCycles(bindings)
  {
    if BareCycles(bindings) {
      forall ty: Type ensures Resolve(Resolve(ty, bindings, {}), bindings, {}) == Resolve(ty, bindings, {}) {
        BareIdempotent(ty, bindings);
      }
    }
    if Idempotent(bindings) {
      var rank := Reach(bindings);
      forall v: TypeVar, u: TypeVar | Moves(bindings, v) && Occurs(Bound(bindings)(v), u) && Moves(bindings, u)
        ensures rank(u) < rank(v) || (rank(u) == rank(v) && Bound(bindings)(v) == Var(u))
      {
        LowerOrBack(bindings, v, u);
        if Connected(bindings, u, v) && !Bound(bindings)(v).Var? { GrowsOnCycle(bindings, v, u); }
      }
      assert BareRanked(bindings, rank);
    }
  }

  /** With a cycle it need not be idempotent: two list types that contain each other's variable. */
  lemma {:induction false} ResolveOnCycle()
    ensures var bindings := [Binding(0, List(Var(1))), Binding(1, List(Var(0)))];
            && Resolve(Var(0), bindings, {}) == List(List(Var(0)))
            && Resolve(Resolve(Var(0), bindings, {}), bindings, {}) == List(List(List(List(Var(0)))))
  {
    var bindings := [Binding(0, List(Var(1))), Binding(1, List(Var(0)))];
    assert bindings[1..] == [Binding(1, List(Var(0)))];
    assert Lookup(bindings, 0) == Some(List(Var(1))) && Lookup(bindings, 1) == Some(List(Var(0)));
    assert ResolveVariable(0, bindings, {} + {0} + {1}) == Var(0);
    assert Resolve(List(Var(0)), bindings, {} + {0} + {1}) == List(Var(0));
    assert ResolveVariable(1, bindings, {} + {0}) == List(Var(0));
    assert Resolve(List(Var(1)), bindings, {} + {0}) == List(List(Var(0)));
    assert ResolveVariable(0, bindings, {}) == List(List(Var(0)));
    assert Resolve(List(Var(0)), bindings, {}) == List(List(List(Var(0))));
  }
}
