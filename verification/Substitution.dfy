/** Substitution environments: one layer, a chain of parent-linked frames, and transitive. */
module Substitution {
  import opened Wrappers
  import opened Types

  datatype Binding = Binding(variable: TypeVar, value: Type)

  /** The first binding of a variable. */
  function Lookup(bindings: seq<Binding>, v: TypeVar): (r: Option<Type>)
    ensures r.Some? <==> exists i | 0 <= i < |bindings| :: bindings[i].variable == v
  {
    if bindings == [] then None
    else if bindings[0].variable == v then Some(bindings[0].value)
    else Lookup(bindings[1..], v)
  }

  /** Binding `i` is the first one of `v`. */
  predicate FirstBinding(bindings: seq<Binding>, v: TypeVar, i: nat) {
    i < |bindings| && bindings[i].variable == v && forall j | 0 <= j < i :: bindings[j].variable != v
  }

  lemma {:induction false} LookupFirst(bindings: seq<Binding>, v: TypeVar, value: Type)
    ensures Lookup(bindings, v) == Some(value) <==>
        exists i: nat :: FirstBinding(bindings, v, i) && bindings[i].value == value
  {
    if bindings == [] {
    } else if bindings[0].variable == v {
      assert FirstBinding(bindings, v, 0);
      assert forall i: nat | FirstBinding(bindings, v, i) :: i == 0;
    } else {
      var rest := bindings[1..];
      LookupFirst(rest, v, value);
      if i: nat :| FirstBinding(rest, v, i) && rest[i].value == value {
        assert FirstBinding(bindings, v, i + 1) && bindings[i + 1].value == value;
      }
      if i: nat :| FirstBinding(bindings, v, i) && bindings[i].value == value {
        assert FirstBinding(rest, v, i - 1) && rest[i - 1].value == value;
      }
    }
  }

  function Bound(bindings: seq<Binding>): TypeVar -> Type {
    (v: TypeVar) => match Lookup(bindings, v) case Some(value) => value case None => Var(v)
  }

  /** One layer: replacements are not looked into. */
  function Once(ty: Type, bindings: seq<Binding>): Type { Replace(ty, Bound(bindings)) }

  /** One layer makes of a variable the value of its first binding, and leaves a variable without binding. */
  lemma {:induction false} OnceFirst(bindings: seq<Binding>, v: TypeVar)
    ensures forall i: nat | FirstBinding(bindings, v, i) :: Once(Var(v), bindings) == bindings[i].value
    ensures (forall i: nat :: !FirstBinding(bindings, v, i)) ==> Once(Var(v), bindings) == Var(v)
  {
    forall i: nat | FirstBinding(bindings, v, i) ensures Once(Var(v), bindings) == bindings[i].value {
      LookupFirst(bindings, v, bindings[i].value);
    }
    match Lookup(bindings, v)
    case Some(value) => LookupFirst(bindings, v, value);
    case None =>
  }

  // ---------- Parent-linked frames ----------

  /** Frames are known by their bindings and their parent; `count` bounds the length of a chain. */
  datatype Frames<!F> = Frames(count: nat, parent: F -> Option<F>, bindings: F -> seq<Binding>)

  /** The one-layer substitutions of the first `n` frames of the chain from `frame`, child first. */
  function Layers<F>(ty: Type, frame: Option<F>, frames: Frames<F>, n: nat): Type
    decreases n
  {
    if frame.None? || n == 0 then ty
    else Layers(Once(ty, frames.bindings(frame.value)), frames.parent(frame.value), frames, n - 1)
  }

  /** What a single walk makes of a variable: the first frame that replaces it decides, and the
      replacement is walked from the parent of that frame on. */
  function WalkVariable<F>(v: TypeVar, frame: Option<F>, frames: Frames<F>, n: nat): Type
    decreases n, 0
  {
    if frame.None? || n == 0 then Var(v)
    else
      var parent := frames.parent(frame.value);
      match Lookup(frames.bindings(frame.value), v)
      case Some(value) =>
        if value != Var(v) then Walk(value, parent, frames, n - 1) else WalkVariable(v, parent, frames, n - 1)
      case None => WalkVariable(v, parent, frames, n - 1)
  }

  function Walker<F>(frame: Option<F>, frames: Frames<F>, n: nat): TypeVar -> Type
    decreases n, 1
  {
    (v: TypeVar) => WalkVariable(v, frame, frames, n)
  }

  function Walk<F>(ty: Type, frame: Option<F>, frames: Frames<F>, n: nat): Type
    decreases n, 2
  {
    Replace(ty, Walker(frame, frames, n))
  }

  function Layered<F>(frame: Option<F>, frames: Frames<F>, n: nat): TypeVar -> Type {
    (v: TypeVar) => Layers(Var(v), frame, frames, n)
  }

  /** Layers act on each variable alone. */
  lemma {:induction false} LayersReplace<F>(ty: Type, frame: Option<F>, frames: Frames<F>, n: nat)
    ensures Layers(ty, frame, frames, n) == Replace(ty, Layered(frame, frames, n))
    decreases n
  {
    if frame.None? || n == 0 {
      ReplaceIdentity(ty, Layered(frame, frames, n));
    } else {
      var bindings, parent := frames.bindings(frame.value), frames.parent(frame.value);
      var rest := Layered(parent, frames, n - 1);
      LayersReplace(Once(ty, bindings), parent, frames, n - 1);
      ReplaceTwice(ty, Bound(bindings), rest);
      forall v: TypeVar ensures Then(Bound(bindings), rest)(v) == Layered(frame, frames, n)(v) {
        LayersReplace(Bound(bindings)(v), parent, frames, n - 1);
      }
      ReplaceAgree(ty, Then(Bound(bindings), rest), Layered(frame, frames, n));
    }
  }

  /** One walk through the frames equals substituting layer by layer, whatever the frames. */
  lemma {:induction false} WalkIsLayers<F>(ty: Type, frame: Option<F>, frames: Frames<F>, n: nat)
    ensures Walk(ty, frame, frames, n) == Layers(ty, frame, frames, n)
    decreases n
  {
    LayersReplace(ty, frame, frames, n);
    forall v: TypeVar ensures Walker(frame, frames, n)(v) == Layered(frame, frames, n)(v) {
      if frame.Some? && n > 0 {
        var bindings, parent := frames.bindings(frame.value), frames.parent(frame.value);
        WalkIsLayers(Bound(bindings)(v), parent, frames, n - 1);
        assert Once(Var(v), bindings) == Bound(bindings)(v);
      }
    }
    ReplaceAgree(ty, Walker(frame, frames, n), Layered(frame, frames, n));
  }

  /** `chain` lists the frames from `frame` to a root. */
  ghost predicate IsChain<F>(frame: Option<F>, frames: Frames<F>, chain: seq<F>)
    decreases |chain|
  {
    if chain == [] then frame.None?
    else frame == Some(chain[0]) && IsChain(frames.parent(chain[0]), frames, chain[1..])
  }

  /** Substituting frame by frame, from the child to the root. */
  function FrameByFrame<F>(ty: Type, frames: Frames<F>, chain: seq<F>): Type
    decreases |chain|
  {
    if chain == [] then ty else FrameByFrame(Once(ty, frames.bindings(chain[0])), frames, chain[1..])
  }

  lemma {:induction false} LayersOfChain<F>(ty: Type, frame: Option<F>, frames: Frames<F>, chain: seq<F>, n: nat)
    requires IsChain(frame, frames, chain) && |chain| <= n
    ensures Layers(ty, frame, frames, n) == FrameByFrame(ty, frames, chain)
    decreases |chain|
  {
    if chain != [] {
      LayersOfChain(Once(ty, frames.bindings(chain[0])), frames.parent(chain[0]), frames, chain[1..], n - 1);
    }
  }

  /** On a chain within the frame count, the walk is the frame-by-frame substitution. */
  lemma {:induction false} WalkIsFrameByFrame<F>(ty: Type, frame: F, frames: Frames<F>, chain: seq<F>)
    requires IsChain(Some(frame), frames, chain) && |chain| <= frames.count
    ensures Walk(ty, Some(frame), frames, frames.count) == FrameByFrame(ty, frames, chain)
  {
    WalkIsLayers(ty, Some(frame), frames, frames.count);
    LayersOfChain(ty, Some(frame), frames, chain, frames.count);
  }

  /** The first binding of `v` in these bindings is `i`, and it changes `v`. */
  predicate Decides(bindings: seq<Binding>, v: TypeVar, i: nat) {
    FirstBinding(bindings, v, i) && bindings[i].value != Var(v)
  }

  ghost predicate Undecided<F>(frames: Frames<F>, chain: seq<F>, v: TypeVar) {
    forall j, i: nat {:trigger Decides(frames.bindings(chain[j]), v, i)} | 0 <= j < |chain| ::
      !Decides(frames.bindings(chain[j]), v, i)
  }

  lemma {:induction false} FirstUndecided<F>(v: TypeVar, frames: Frames<F>, chain: seq<F>)
    requires Undecided(frames, chain, v) && chain != []
    ensures Once(Var(v), frames.bindings(chain[0])) == Var(v) && Undecided(frames, chain[1..], v)
  {
    var bindings := frames.bindings(chain[0]);
    OnceFirst(bindings, v);
    if i: nat :| FirstBinding(bindings, v, i) { assert !Decides(bindings, v, i); }
    forall j, i: nat | 0 <= j < |chain[1..]| ensures !Decides(frames.bindings(chain[1..][j]), v, i) {
      assert chain[1..][j] == chain[j + 1];
    }
  }

  lemma {:induction false} FrameByFrameUndecided<F>(v: TypeVar, frames: Frames<F>, chain: seq<F>)
    requires Undecided(frames, chain, v)
    ensures FrameByFrame(Var(v), frames, chain) == Var(v)
    decreases |chain|
  {
    if chain != [] {
      FirstUndecided(v, frames, chain);
      FrameByFrameUndecided(v, frames, chain[1..]);
    }
  }

  lemma {:induction false} FrameByFrameFirst<F>(v: TypeVar, frames: Frames<F>, chain: seq<F>, k: nat, i: nat)
    requires k < |chain| && Undecided(frames, chain[..k], v) && Decides(frames.bindings(chain[k]), v, i)
    ensures FrameByFrame(Var(v), frames, chain) ==
        FrameByFrame(frames.bindings(chain[k])[i].value, frames, chain[k + 1..])
    decreases |chain|
  {
    OnceFirst(frames.bindings(chain[0]), v);
    if k > 0 {
      assert chain[1..][..k - 1] == chain[..k][1..] && chain[1..][k..] == chain[k + 1..];
      FirstUndecided(v, frames, chain[..k]);
      FrameByFrameFirst(v, frames, chain[1..], k - 1, i);
    }
  }

  /** A walk makes of a variable the value of its first binding in the nearest frame that changes it, substituted
      through the frames beyond; a variable that no frame changes stays. */
  lemma {:induction false} WalkFirst<F>(v: TypeVar, frame: F, frames: Frames<F>, chain: seq<F>)
    requires IsChain(Some(frame), frames, chain) && |chain| <= frames.count
    ensures var r := Walk(Var(v), Some(frame), frames, frames.count);
      && (forall k: nat, i: nat | k < |chain| && Undecided(frames, chain[..k], v) &&
            Decides(frames.bindings(chain[k]), v, i) ::
            r == FrameByFrame(frames.bindings(chain[k])[i].value, frames, chain[k + 1..]))
      && (Undecided(frames, chain, v) ==> r == Var(v))
  {
    WalkIsFrameByFrame(Var(v), frame, frames, chain);
    forall k: nat, i: nat | k < |chain| && Undecided(frames, chain[..k], v) &&
        Decides(frames.bindings(chain[k]), v, i)
      ensures FrameByFrame(Var(v), frames, chain) ==
          FrameByFrame(frames.bindings(chain[k])[i].value, frames, chain[k + 1..])
    {
      FrameByFrameFirst(v, frames, chain, k, i);
    }
    if Undecided(frames, chain, v) { FrameByFrameUndecided(v, frames, chain); }
  }

  // ---------- Transitive substitution ----------

  function Variables(bindings: seq<Binding>): (r: set<TypeVar>)
    ensures forall v: TypeVar :: v in r <==> Lookup(bindings, v).Some?
  {
    if bindings == [] then {} else {bindings[0].variable} + Variables(bindings[1..])
  }

  /** A variable is replaced unless it is being replaced already; the replacement is then
      substituted in turn. */
  function ResolveVariable(v: TypeVar, bindings: seq<Binding>, active: set<TypeVar>): Type
    decreases |Variables(bindings) - active|, 0
  {
    match Lookup(bindings, v)
    case None => Var(v)
    case Some(value) =>
      if value == Var(v) || v in active then Var(v)
      else
        assert Variables(bindings) - active == (Variables(bindings) - (active + {v})) + {v};
        Resolve(value, bindings, active + {v})
  }

  function Resolver(bindings: seq<Binding>, active: set<TypeVar>): TypeVar -> Type
    decreases |Variables(bindings) - active|, 1
  {
    (v: TypeVar) => ResolveVariable(v, bindings, active)
  }

  function Resolve(ty: Type, bindings: seq<Binding>, active: set<TypeVar>): Type
    decreases |Variables(bindings) - active|, 2
  {
    Replace(ty, Resolver(bindings, active))
  }

  lemma {:induction false} ResolveVar(v: TypeVar, bindings: seq<Binding>)
    ensures Resolve(Var(v), bindings, {}) == match Lookup(bindings, v)
      case None => Var(v)
      case Some(value) => if value == Var(v) then Var(v) else Resolve(value, bindings, {v})
  {
    assert {} + {v} == {v};
    assert Resolve(Var(v), bindings, {}) == Resolver(bindings, {})(v) == ResolveVariable(v, bindings, {});
  }

  /** A variable resolves to the value of its first binding, resolved in turn, and stays if nothing changes it. */
  lemma {:induction false} ResolveFirst(v: TypeVar, bindings: seq<Binding>)
    ensures forall i: nat | Decides(bindings, v, i) ::
        Resolve(Var(v), bindings, {}) == Resolve(bindings[i].value, bindings, {v})
    ensures (forall i: nat :: !Decides(bindings, v, i)) ==> Resolve(Var(v), bindings, {}) == Var(v)
  {
    ResolveVar(v, bindings);
    forall i: nat | Decides(bindings, v, i) ensures Lookup(bindings, v) == Some(bindings[i].value) {
      LookupFirst(bindings, v, bindings[i].value);
    }
    if Lookup(bindings, v).Some? {
      LookupFirst(bindings, v, Lookup(bindings, v).value);
      var i: nat :| FirstBinding(bindings, v, i) && bindings[i].value == Lookup(bindings, v).value;
      assert Decides(bindings, v, i) <==> bindings[i].value != Var(v);
    }
  }

  /** A variable that a layer replaces by something else. */
  predicate Moves(bindings: seq<Binding>, v: TypeVar) { Bound(bindings)(v) != Var(v) }

  /** Along the bindings, ranks go down. */
  ghost predicate Ranked(bindings: seq<Binding>, rank: TypeVar -> nat) {
    forall v: TypeVar, u: TypeVar | Moves(bindings, v) && Occurs(Bound(bindings)(v), u) && Moves(bindings, u) ::
        rank(u) < rank(v)
  }

  ghost predicate Acyclic(bindings: seq<Binding>) { exists rank: TypeVar -> nat :: Ranked(bindings, rank) }

  /** Without cycles the active variables never matter. */
  lemma {:induction false} ActiveIrrelevant(v: TypeVar, bindings: seq<Binding>, active: set<TypeVar>,
      rank: TypeVar -> nat)
    requires Ranked(bindings, rank) && (Moves(bindings, v) ==>
        forall a | a in active && Moves(bindings, a) :: rank(v) < rank(a))
    ensures ResolveVariable(v, bindings, active) == ResolveVariable(v, bindings, {})
    decreases if Moves(bindings, v) then rank(v) + 1 else 0
  {
    if Moves(bindings, v) {
      var value := Bound(bindings)(v);
      forall u: TypeVar | Occurs(value, u)
        ensures Resolver(bindings, active + {v})(u) == Resolver(bindings, {} + {v})(u)
      {
        ActiveIrrelevant(u, bindings, active + {v}, rank);
        ActiveIrrelevant(u, bindings, {} + {v}, rank);
      }
      ReplaceAgree(value, Resolver(bindings, active + {v}), Resolver(bindings, {} + {v}));
    }
  }

  /** Without cycles, resolving a variable is resolving its replacement. */
  lemma {:induction false} ResolveStep(v: TypeVar, bindings: seq<Binding>, rank: TypeVar -> nat)
    requires Ranked(bindings, rank) && Moves(bindings, v)
    ensures ResolveVariable(v, bindings, {}) == Resolve(Bound(bindings)(v), bindings, {})
  {
    var value := Bound(bindings)(v);
    forall u: TypeVar | Occurs(value, u) ensures Resolver(bindings, {} + {v})(u) == Resolver(bindings, {})(u) {
      ActiveIrrelevant(u, bindings, {} + {v}, rank);
    }
    ReplaceAgree(value, Resolver(bindings, {} + {v}), Resolver(bindings, {}));
  }

  /** `n` layers of the same environment. */
  function Iterate(ty: Type, bindings: seq<Binding>, n: nat): Type
    decreases n
  {
    if n == 0 then ty else Iterate(Once(ty, bindings), bindings, n - 1)
  }

  function Iterated(bindings: seq<Binding>, n: nat): TypeVar -> Type { (v: TypeVar) => Iterate(Var(v), bindings, n) }

  lemma {:induction false} IterateReplace(ty: Type, bindings: seq<Binding>, n: nat)
    ensures Iterate(ty, bindings, n) == Replace(ty, Iterated(bindings, n))
    decreases n
  {
    if n == 0 {
      ReplaceIdentity(ty, Iterated(bindings, n));
    } else {
      IterateReplace(Once(ty, bindings), bindings, n - 1);
      ReplaceTwice(ty, Bound(bindings), Iterated(bindings, n - 1));
      forall v: TypeVar ensures Then(Bound(bindings), Iterated(bindings, n - 1))(v) == Iterated(bindings, n)(v) {
        IterateReplace(Bound(bindings)(v), bindings, n - 1);
      }
      ReplaceAgree(ty, Then(Bound(bindings), Iterated(bindings, n - 1)), Iterated(bindings, n));
    }
  }

  /** Enough layers: more than the rank of every variable that moves. */
  ghost predicate Enough(ty: Type, bindings: seq<Binding>, rank: TypeVar -> nat, n: nat) {
    forall v: TypeVar | Occurs(ty, v) && Moves(bindings, v) :: rank(v) < n
  }

  lemma {:induction false} IterateVariable(v: TypeVar, bindings: seq<Binding>, n: nat)
    requires n > 0
    ensures Iterate(Var(v), bindings, n) == Iterate(Bound(bindings)(v), bindings, n - 1)
  {
    assert Once(Var(v), bindings) == Bound(bindings)(v);
  }

  lemma {:induction false} ResolveIsIterateVariable(v: TypeVar, bindings: seq<Binding>, rank: TypeVar -> nat, n: nat)
    requires Ranked(bindings, rank) && (Moves(bindings, v) ==> rank(v) < n)
    ensures ResolveVariable(v, bindings, {}) == Iterate(Var(v), bindings, n)
    decreases n
  {
    if n > 0 { IterateVariable(v, bindings, n); }
    if n == 0 {
    } else if Moves(bindings, v) {
      var value := Bound(bindings)(v);
      ResolveStep(v, bindings, rank);
      forall u: TypeVar | Occurs(value, u) ensures Resolver(bindings, {})(u) == Iterated(bindings, n - 1)(u) {
        ResolveIsIterateVariable(u, bindings, rank, n - 1);
      }
      ReplaceAgree(value, Resolver(bindings, {}), Iterated(bindings, n - 1));
      IterateReplace(value, bindings, n - 1);
    } else {
      ResolveIsIterateVariable(v, bindings, rank, n - 1);
    }
  }

  /** Without cycles, transitive substitution is one-layer substitution repeated often enough. */
  lemma {:induction false} ResolveIsIterate(ty: Type, bindings: seq<Binding>, rank: TypeVar -> nat, n: nat)
    requires Ranked(bindings, rank) && Enough(ty, bindings, rank, n)
    ensures Resolve(ty, bindings, {}) == Iterate(ty, bindings, n)
  {
    IterateReplace(ty, bindings, n);
    forall v: TypeVar | Occurs(ty, v) ensures Resolver(bindings, {})(v) == Iterated(bindings, n)(v) {
      ResolveIsIterateVariable(v, bindings, rank, n);
    }
    ReplaceAgree(ty, Resolver(bindings, {}), Iterated(bindings, n));
  }

  lemma {:induction false} IterateOnce(ty: Type, bindings: seq<Binding>, n: nat)
    ensures Iterate(ty, bindings, n + 1) == Once(Iterate(ty, bindings, n), bindings)
    decreases n
  {
    if n > 0 { IterateOnce(Once(ty, bindings), bindings, n - 1); }
  }

  lemma {:induction false} RankBound(vars: set<TypeVar>, rank: TypeVar -> nat) returns (n: nat)
    ensures forall v | v in vars :: rank(v) < n
    decreases |vars|
  {
    n := 0;
    if vars != {} {
      var v :| v in vars;
      n := RankBound(vars - {v}, rank);
      if n <= rank(v) { n := rank(v) + 1; }
    }
  }

  /** From `n` layers on, one-layer substitution gives `r`. */
  ghost predicate Settles(ty: Type, bindings: seq<Binding>, n: nat, r: Type) {
    forall m: nat | n <= m :: Iterate(ty, bindings, m) == r
  }

  /** Without cycles, transitive substitution reaches the fixed point of the one-layer substitution,
      leaves no variable that could still be replaced, and is idempotent. */
  lemma {:induction false} ResolveFixed(ty: Type, bindings: seq<Binding>)
    requires Acyclic(bindings)
    ensures var r := Resolve(ty, bindings, {});
            && Once(r, bindings) == r
            && (forall v: TypeVar | Occurs(r, v) :: !Moves(bindings, v))
            && Resolve(r, bindings, {}) == r
            && exists n: nat :: Settles(ty, bindings, n, r)
  {
    var rank: TypeVar -> nat :| Ranked(bindings, rank);
    var n := RankBound(Variables(bindings), rank);
    var r := Resolve(ty, bindings, {});
    forall m: nat | n <= m ensures Iterate(ty, bindings, m) == r { ResolveIsIterate(ty, bindings, rank, m); }
    IterateOnce(ty, bindings, n);
    assert Iterate(ty, bindings, n + 1) == r;
    assert Settles(ty, bindings, n, r);
    ReplaceFixed(r, Bound(bindings));
    forall v: TypeVar | Occurs(r, v) ensures Resolver(bindings, {})(v) == Var(v) { assert !Moves(bindings, v); }
    ReplaceIdentity(r, Resolver(bindings, {}));
  }
}
