/** The copy-on-change walks: they rebuild only what changes, and say whether anything did. */
module SubstitutionWalks {
  import opened Wrappers
  import opened Types
  import opened Substitution

  /** What a copy-on-change loop over `was` has made of its first `i` elements: nothing as long as all
      of them are unchanged. */
  ghost predicate Copied<T>(was: seq<T>, now: seq<T>, i: nat, changed: Option<seq<T>>)
    requires i <= |was| && |now| == |was|
  {
    match changed
    case None => now[..i] == was[..i]
    case Some(c) => c == now[..i] && now[..i] != was[..i]
  }

  lemma {:induction false} CopiedStep<T>(was: seq<T>, now: seq<T>, i: nat, changed: Option<seq<T>>)
    requires i < |was| && |now| == |was| && Copied(was, now, i, changed)
    ensures changed.Some? ==> Copied(was, now, i + 1, Some(changed.value + [now[i]]))
    ensures changed.None? && now[i] != was[i] ==> Copied(was, now, i + 1, Some(was[..i] + [now[i]]))
    ensures changed.None? && now[i] == was[i] ==> Copied(was, now, i + 1, None)
  {
    assert now[..i + 1] == now[..i] + [now[i]] && was[..i + 1] == was[..i] + [was[i]];
    assert now[..i + 1][..i] == now[..i] && was[..i + 1][..i] == was[..i];
  }

  lemma {:induction false} CopiedAll<T>(was: seq<T>, now: seq<T>, changed: Option<seq<T>>)
    requires |now| == |was| && Copied(was, now, |was|, changed)
    ensures changed.None? <==> now == was
    ensures changed.Some? ==> changed.value == now
  {
    assert now[..|now|] == now && was[..|was|] == was;
  }

  /** What a copy-on-change loop over the fields `was` has made of all but the fields in `rest`. */
  ghost predicate CopiedFields(was: map<Name, Type>, now: map<Name, Type>, rest: set<Name>,
      changed: Option<map<Name, Type>>) {
    && now.Keys == was.Keys && rest <= was.Keys
    && match changed
       case None => forall name | name in was && name !in rest :: now[name] == was[name]
       case Some(c) =>
         && c.Keys == was.Keys
         && (forall name | name in was :: c[name] == if name in rest then was[name] else now[name])
         && exists name | name in was && name !in rest :: now[name] != was[name]
  }

  lemma {:induction false} CopiedFieldsStep(was: map<Name, Type>, now: map<Name, Type>, rest: set<Name>,
      changed: Option<map<Name, Type>>, name: Name)
    requires CopiedFields(was, now, rest, changed) && name in rest
    ensures now[name] == was[name] ==> CopiedFields(was, now, rest - {name}, changed)
    ensures now[name] != was[name] ==>
      CopiedFields(was, now, rest - {name}, Some((if changed.Some? then changed.value else was)[name := now[name]]))
  {
  }

  lemma {:induction false} CopiedFieldsAll(was: map<Name, Type>, now: map<Name, Type>, changed: Option<map<Name, Type>>)
    requires CopiedFields(was, now, {}, changed)
    ensures changed.None? <==> now == was
    ensures changed.Some? ==> changed.value == now
  {
    if changed.None? { assert now == was; }
    else { assert changed.value == now; }
  }

  // ---------- The walk through frames ----------

  /** A variable: the frames are searched from the nearest one on. */
  method WalkBindings<F>(variable: TypeVar, frame: Option<F>, frames: Frames<F>, remaining: nat) returns (r: Type)
    ensures r == WalkVariable(variable, frame, frames, remaining)
    decreases remaining, Var(variable), 0
  {
    var current: Option<F>, budget: nat := frame, remaining;
    while current.Some?
      invariant budget <= remaining
      invariant WalkVariable(variable, frame, frames, remaining) == WalkVariable(variable, current, frames, budget)
      decreases budget
    {
      if budget == 0 {
        return Var(variable);
      }
      budget := budget - 1;
      var parent := frames.parent(current.value);
      var found := Lookup(frames.bindings(current.value), variable);
      if found.Some? && found.value != Var(variable) {
        var substituted, _ := WalkFrames(found.value, parent, frames, budget);
        return substituted;
      }
      current := parent;
    }
    return Var(variable);
  }

  method WalkFrames<F>(ty: Type, frame: Option<F>, frames: Frames<F>, remaining: nat) returns (r: Type, changed: bool)
    ensures r == Walk(ty, frame, frames, remaining)
    ensures changed <==> r != ty
    decreases remaining, ty, 1
  {
    match ty
    case Var(variable) =>
      r := WalkBindings(variable, frame, frames, remaining);
      return r, r != ty;
    case List(item) =>
      var substituted, itemChanged := WalkFrames(item, frame, frames, remaining);
      if itemChanged { return List(substituted), true; }
      return ty, false;
    case Set(item) =>
      var substituted, itemChanged := WalkFrames(item, frame, frames, remaining);
      if itemChanged { return Set(substituted), true; }
      return ty, false;
    case Map(key, value) =>
      var newKey, keyChanged := WalkFrames(key, frame, frames, remaining);
      var newValue, valueChanged := WalkFrames(value, frame, frames, remaining);
      if keyChanged || valueChanged { return Map(newKey, newValue), true; }
      return ty, false;
    case Function(args, mode, result) =>
      var newArgs := WalkSequence(args, frame, frames, remaining);
      var newResult, resultChanged := WalkFrames(result, frame, frames, remaining);
      if newArgs.Some? || resultChanged {
        return Function(if newArgs.Some? then newArgs.value else args, mode, newResult), true;
      }
      return ty, false;
    case Object(shape) =>
      var newShape := WalkShape(shape, frame, frames, remaining);
      if newShape.Some? { return Object(newShape.value), true; }
      return ty, false;
    case VariantSet(variants) =>
      var newVariants := WalkVariants(variants, frame, frames, remaining);
      if newVariants.Some? { return VariantSet(newVariants.value), true; }
      return ty, false;
    case Union(members) =>
      var newMembers := WalkSequence(members, frame, frames, remaining);
      if newMembers.Some? { return Union(newMembers.value), true; }
      return ty, false;
    case _ =>
      return ty, false;
  }

  method WalkSequence<F>(types: seq<Type>, frame: Option<F>, frames: Frames<F>, remaining: nat)
    returns (changed: Option<seq<Type>>)
    ensures changed.None? <==> ReplaceAll(types, Walker(frame, frames, remaining)) == types
    ensures changed.Some? ==> changed.value == ReplaceAll(types, Walker(frame, frames, remaining))
    decreases remaining, types
  {
    ghost var now := ReplaceAll(types, Walker(frame, frames, remaining));
    changed := None;
    for i := 0 to |types|
      invariant Copied(types, now, i, changed)
    {
      CopiedStep(types, now, i, changed);
      var substituted, itemChanged := WalkFrames(types[i], frame, frames, remaining);
      if itemChanged {
        changed := Some((if changed.Some? then changed.value else types[..i]) + [substituted]);
      } else if changed.Some? {
        changed := Some(changed.value + [types[i]]);
      }
    }
    CopiedAll(types, now, changed);
  }

  method WalkShape<F>(shape: ObjectShape, frame: Option<F>, frames: Frames<F>, remaining: nat)
    returns (r: Option<ObjectShape>)
    ensures r.None? <==> ReplaceShape(shape, Walker(frame, frames, remaining)) == shape
    ensures r.Some? ==> r.value == ReplaceShape(shape, Walker(frame, frames, remaining))
    decreases remaining, shape
  {
    ghost var now := ReplaceShape(shape, Walker(frame, frames, remaining)).fields;
    var changed: Option<map<Name, Type>> := None;
    var rest := shape.fields.Keys;
    while rest != {}
      invariant CopiedFields(shape.fields, now, rest, changed)
    {
      var name :| name in rest;
      CopiedFieldsStep(shape.fields, now, rest, changed, name);
      var substituted, fieldChanged := WalkFrames(shape.fields[name], frame, frames, remaining);
      if fieldChanged {
        changed := Some((if changed.Some? then changed.value else shape.fields)[name := substituted]);
      }
      rest := rest - {name};
    }
    CopiedFieldsAll(shape.fields, now, changed);
    if changed.None? {
      return None;
    }
    return Some(ObjectShape(changed.value, shape.fieldOrder, shape.open));
  }

  method WalkVariants<F>(variants: seq<Variant>, frame: Option<F>, frames: Frames<F>, remaining: nat)
    returns (changed: Option<seq<Variant>>)
    ensures changed.None? <==> Replace(VariantSet(variants), Walker(frame, frames, remaining)) == VariantSet(variants)
    ensures changed.Some? ==>
        VariantSet(changed.value) == Replace(VariantSet(variants), Walker(frame, frames, remaining))
    decreases remaining, variants
  {
    ghost var now := Replace(VariantSet(variants), Walker(frame, frames, remaining)).variants;
    changed := None;
    for i := 0 to |variants|
      invariant Copied(variants, now, i, changed)
    {
      CopiedStep(variants, now, i, changed);
      assert now[i] == ReplaceVariant(variants[i], Walker(frame, frames, remaining));
      match variants[i]
      case Tag(_) =>
        if changed.Some? { changed := Some(changed.value + [variants[i]]); }
      case Tagged(tag, payload) =>
        var fields := WalkShape(payload, frame, frames, remaining);
        if fields.Some? {
          changed := Some((if changed.Some? then changed.value else variants[..i]) + [Tagged(tag, fields.value)]);
        } else if changed.Some? {
          changed := Some(changed.value + [variants[i]]);
        }
    }
    CopiedAll(variants, now, changed);
  }

  // ---------- The walk through one environment ----------

  function Elements(active: seq<TypeVar>): set<TypeVar> { set v | v in active }

  /** Pushing a bound variable that is not active leaves fewer to go. */
  lemma {:induction false} Pushed(bindings: seq<Binding>, active: seq<TypeVar>, v: TypeVar)
    requires v in Variables(bindings) && v !in active
    ensures Elements(active + [v]) == Elements(active) + {v}
    ensures |Variables(bindings) - Elements(active + [v])| < |Variables(bindings) - Elements(active)|
  {
    assert Elements(active + [v]) == Elements(active) + {v};
    assert Variables(bindings) - Elements(active) == (Variables(bindings) - Elements(active + [v])) + {v};
  }

  /** What the walk makes of each variable: one layer, or transitively with some variables active. */
  function Target(bindings: seq<Binding>, active: seq<TypeVar>, recurse: bool): TypeVar -> Type {
    if recurse then Resolver(bindings, Elements(active)) else Bound(bindings)
  }

  /** The four ways a variable can go. */
  lemma {:induction false} TargetCases(v: TypeVar, bindings: seq<Binding>, active: seq<TypeVar>, recurse: bool)
    ensures var found, target := Lookup(bindings, v), Target(bindings, active, recurse)(v);
            if found.None? || found.value == Var(v) || (recurse && v in active) then target == Var(v)
            else if recurse then target == Resolve(found.value, bindings, Elements(active) + {v})
            else target == found.value
  {
    if recurse { assert Target(bindings, active, recurse)(v) == ResolveVariable(v, bindings, Elements(active)); }
  }

  method SubstituteVariable(variable: TypeVar, bindings: seq<Binding>, active: seq<TypeVar>, recurse: bool)
    returns (r: Type, changed: bool)
    ensures r == Target(bindings, active, recurse)(variable)
    ensures changed <==> r != Var(variable)
    decreases |Variables(bindings) - Elements(active)|, Var(variable), 0
  {
    TargetCases(variable, bindings, active, recurse);
    var ty := Var(variable);
    var found := Lookup(bindings, variable);
    if found.None? || found.value == ty {
      return ty, false;
    }
    if !recurse {
      return found.value, true;
    }
    if variable in active {
      return ty, false;
    }
    Pushed(bindings, active, variable);
    var substituted, _ := SubstituteInner(found.value, bindings, active + [variable], recurse);
    return substituted, substituted != ty;
  }

  method SubstituteInner(ty: Type, bindings: seq<Binding>, active: seq<TypeVar>, recurse: bool)
    returns (r: Type, changed: bool)
    ensures r == Replace(ty, Target(bindings, active, recurse))
    ensures changed <==> r != ty
    decreases |Variables(bindings) - Elements(active)|, ty, 1
  {
    match ty
    case Var(variable) =>
      r, changed := SubstituteVariable(variable, bindings, active, recurse);
    case List(item) =>
      var substituted, itemChanged := SubstituteInner(item, bindings, active, recurse);
      if itemChanged { return List(substituted), true; }
      return ty, false;
    case Set(item) =>
      var substituted, itemChanged := SubstituteInner(item, bindings, active, recurse);
      if itemChanged { return Set(substituted), true; }
      return ty, false;
    case Map(key, value) =>
      var newKey, keyChanged := SubstituteInner(key, bindings, active, recurse);
      var newValue, valueChanged := SubstituteInner(value, bindings, active, recurse);
      if keyChanged || valueChanged { return Map(newKey, newValue), true; }
      return ty, false;
    case Function(args, mode, result) =>
      var newArgs := SubstituteSequence(args, bindings, active, recurse);
      var newResult, resultChanged := SubstituteInner(result, bindings, active, recurse);
      if newArgs.Some? || resultChanged {
        return Function(if newArgs.Some? then newArgs.value else args, mode, newResult), true;
      }
      return ty, false;
    case Object(shape) =>
      var newShape := SubstituteShape(shape, bindings, active, recurse);
      if newShape.Some? { return Object(newShape.value), true; }
      return ty, false;
    case VariantSet(variants) =>
      var newVariants := SubstituteVariants(variants, bindings, active, recurse);
      if newVariants.Some? { return VariantSet(newVariants.value), true; }
      return ty, false;
    case Union(members) =>
      var newMembers := SubstituteSequence(members, bindings, active, recurse);
      if newMembers.Some? { return Union(newMembers.value), true; }
      return ty, false;
    case _ =>
      return ty, false;
  }

  method SubstituteSequence(types: seq<Type>, bindings: seq<Binding>, active: seq<TypeVar>, recurse: bool)
    returns (changed: Option<seq<Type>>)
    ensures changed.None? <==> ReplaceAll(types, Target(bindings, active, recurse)) == types
    ensures changed.Some? ==> changed.value == ReplaceAll(types, Target(bindings, active, recurse))
    decreases |Variables(bindings) - Elements(active)|, types
  {
    ghost var now := ReplaceAll(types, Target(bindings, active, recurse));
    changed := None;
    for i := 0 to |types|
      invariant Copied(types, now, i, changed)
    {
      CopiedStep(types, now, i, changed);
      var substituted, itemChanged := SubstituteInner(types[i], bindings, active, recurse);
      if itemChanged {
        changed := Some((if changed.Some? then changed.value else types[..i]) + [substituted]);
      } else if changed.Some? {
        changed := Some(changed.value + [types[i]]);
      }
    }
    CopiedAll(types, now, changed);
  }

  method SubstituteShape(shape: ObjectShape, bindings: seq<Binding>, active: seq<TypeVar>, recurse: bool)
    returns (r: Option<ObjectShape>)
    ensures r.None? <==> ReplaceShape(shape, Target(bindings, active, recurse)) == shape
    ensures r.Some? ==> r.value == ReplaceShape(shape, Target(bindings, active, recurse))
    decreases |Variables(bindings) - Elements(active)|, shape
  {
    ghost var now := ReplaceShape(shape, Target(bindings, active, recurse)).fields;
    var changed: Option<map<Name, Type>> := None;
    var rest := shape.fields.Keys;
    while rest != {}
      invariant CopiedFields(shape.fields, now, rest, changed)
    {
      var name :| name in rest;
      CopiedFieldsStep(shape.fields, now, rest, changed, name);
      var substituted, fieldChanged := SubstituteInner(shape.fields[name], bindings, active, recurse);
      if fieldChanged {
        changed := Some((if changed.Some? then changed.value else shape.fields)[name := substituted]);
      }
      rest := rest - {name};
    }
    CopiedFieldsAll(shape.fields, now, changed);
    if changed.None? {
      return None;
    }
    return Some(ObjectShape(changed.value, shape.fieldOrder, shape.open));
  }

  method SubstituteVariants(variants: seq<Variant>, bindings: seq<Binding>, active: seq<TypeVar>, recurse: bool)
    returns (changed: Option<seq<Variant>>)
    ensures changed.None? <==> Replace(VariantSet(variants), Target(bindings, active, recurse)) == VariantSet(variants)
    ensures changed.Some? ==>
        VariantSet(changed.value) == Replace(VariantSet(variants), Target(bindings, active, recurse))
    decreases |Variables(bindings) - Elements(active)|, variants
  {
    ghost var now := Replace(VariantSet(variants), Target(bindings, active, recurse)).variants;
    changed := None;
    for i := 0 to |variants|
      invariant Copied(variants, now, i, changed)
    {
      CopiedStep(variants, now, i, changed);
      assert now[i] == ReplaceVariant(variants[i], Target(bindings, active, recurse));
      match variants[i]
      case Tag(_) =>
        if changed.Some? { changed := Some(changed.value + [variants[i]]); }
      case Tagged(tag, payload) =>
        var fields := SubstituteShape(payload, bindings, active, recurse);
        if fields.Some? {
          changed := Some((if changed.Some? then changed.value else variants[..i]) + [Tagged(tag, fields.value)]);
        } else if changed.Some? {
          changed := Some(changed.value + [variants[i]]);
        }
    }
    CopiedAll(variants, now, changed);
  }

  /** One layer, whatever the environment. */
  method ApplyOnce(ty: Type, bindings: seq<Binding>) returns (r: Type)
    ensures r == Once(ty, bindings)
    ensures forall v: TypeVar, i: nat | ty == Var(v) && FirstBinding(bindings, v, i) :: r == bindings[i].value
  {
    var substituted, _ := SubstituteInner(ty, bindings, [], false);
    r := substituted;
    if ty.Var? { OnceFirst(bindings, ty.variable); }
  }

  /** Transitively, on every environment, cyclic or not. */
  method Apply(ty: Type, bindings: seq<Binding>) returns (r: Type)
    ensures r == Resolve(ty, bindings, {})
    ensures forall v: TypeVar, i: nat | ty == Var(v) && Decides(bindings, v, i) ::
              r == Resolve(bindings[i].value, bindings, {v})
    ensures Acyclic(bindings) ==> Once(r, bindings) == r
  {
    assert Elements([]) == {};
    var substituted, _ := SubstituteInner(ty, bindings, [], true);
    r := substituted;
    if ty.Var? { ResolveFirst(ty.variable, bindings); }
    if Acyclic(bindings) { ResolveFixed(ty, bindings); }
  }

  /** Through all frames at once; the same as frame by frame when the chain ends within the count. */
  method ApplyFrames<F>(ty: Type, frame: F, frames: Frames<F>) returns (r: Type)
    ensures r == Layers(ty, Some(frame), frames, frames.count)
    ensures forall chain | IsChain(Some(frame), frames, chain) && |chain| <= frames.count ::
              r == FrameByFrame(ty, frames, chain)
  {
    var substituted, _ := WalkFrames(ty, Some(frame), frames, frames.count);
    r := substituted;
    WalkIsLayers(ty, Some(frame), frames, frames.count);
    forall chain | IsChain(Some(frame), frames, chain) && |chain| <= frames.count
      ensures r == FrameByFrame(ty, frames, chain)
    {
      WalkIsFrameByFrame(ty, frame, frames, chain);
    }
  }
}
