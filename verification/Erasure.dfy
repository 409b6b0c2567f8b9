/** Erasure of type variables for the runtime: every variable becomes Unknown. */
module Erasure {
  import opened Wrappers
  import opened Types
  import opened SubstitutionWalks

  function AllUnknown(): TypeVar -> Type { (v: TypeVar) => Unknown }

  /** Every variable replaced by Unknown. */
  function Erased(ty: Type): Type { Replace(ty, AllUnknown()) }

  /** Whether a variable is left, as the runtime boundary tests it. */
  predicate ContainsVar(ty: Type)
    decreases ty
  {
    match ty
    case Var(_) => true
    case List(item) => ContainsVar(item)
    case Set(item) => ContainsVar(item)
    case Map(key, value) => ContainsVar(key) || ContainsVar(value)
    case Union(members) => exists i | 0 <= i < |members| :: ContainsVar(members[i])
    case Function(args, _, result) => (exists i | 0 <= i < |args| :: ContainsVar(args[i])) || ContainsVar(result)
    case Object(shape) => ShapeContainsVar(shape)
    case VariantSet(variants) =>
      exists i | 0 <= i < |variants| :: variants[i].Tagged? && ShapeContainsVar(variants[i].payload)
    case _ => false
  }

  predicate ShapeContainsVar(shape: ObjectShape)
    decreases shape
  {
    exists name | name in shape.fields :: ContainsVar(shape.fields[name])
  }

  /** Erasing changes a type exactly when it contains a variable. */
  lemma {:induction false} ErasedChanges(ty: Type)
    ensures Erased(ty) != ty <==> ContainsVar(ty)
    decreases ty
  {
    match ty
    case List(item) => ErasedChanges(item);
    case Set(item) => ErasedChanges(item);
    case Map(key, value) => ErasedChanges(key); ErasedChanges(value);
    case Function(args, _, result) => AllErasedChange(args); ErasedChanges(result);
    case Object(shape) => ShapeErasedChanges(shape);
    case VariantSet(variants) =>
      var r := Erased(ty).variants;
      forall i | 0 <= i < |variants|
        ensures r[i] != variants[i] <==> variants[i].Tagged? && ShapeContainsVar(variants[i].payload)
      {
        assert r[i] == ReplaceVariant(variants[i], AllUnknown());
        if variants[i].Tagged? { ShapeErasedChanges(variants[i].payload); }
      }
      if !ContainsVar(ty) { assert r == variants; }
    case Union(members) => AllErasedChange(members);
    case _ =>
  }

  lemma {:induction false} AllErasedChange(types: seq<Type>)
    ensures ReplaceAll(types, AllUnknown()) != types <==> exists i | 0 <= i < |types| :: ContainsVar(types[i])
    decreases types
  {
    var r := ReplaceAll(types, AllUnknown());
    forall i | 0 <= i < |types| ensures r[i] != types[i] <==> ContainsVar(types[i]) { ErasedChanges(types[i]); }
    if !exists i | 0 <= i < |types| :: ContainsVar(types[i]) { assert r == types; }
  }

  lemma {:induction false} ShapeErasedChanges(shape: ObjectShape)
    ensures ReplaceShape(shape, AllUnknown()) != shape <==> ShapeContainsVar(shape)
    decreases shape
  {
    var r := ReplaceShape(shape, AllUnknown());
    forall name | name in shape.fields
      ensures r.fields[name] != shape.fields[name] <==> ContainsVar(shape.fields[name])
    {
      ErasedChanges(shape.fields[name]);
    }
    if !ShapeContainsVar(shape) { assert r.fields == shape.fields; }
  }

  /** Erasure leaves no variable and does nothing the second time. */
  lemma {:induction false} ErasedIdempotent(ty: Type)
    ensures Erased(Erased(ty)) == Erased(ty) && !ContainsVar(Erased(ty))
  {
    ReplaceTwice(ty, AllUnknown(), AllUnknown());
    ReplaceAgree(ty, Then(AllUnknown(), AllUnknown()), AllUnknown());
    ErasedChanges(Erased(ty));
  }

  // ---------- The copy-on-change walk ----------

  /** What a loop that patches a copy of `was` has done after `i` elements: no copy as long as nothing
      changed. */
  ghost predicate Patched<T>(was: seq<T>, now: seq<T>, i: nat, changed: Option<seq<T>>)
    requires i <= |was| && |now| == |was|
  {
    match changed
    case None => now[..i] == was[..i]
    case Some(c) => c == now[..i] + was[i..] && now[..i] != was[..i]
  }

  lemma {:induction false} PatchedStep<T>(was: seq<T>, now: seq<T>, i: nat, changed: Option<seq<T>>)
    requires i < |was| && |now| == |was| && Patched(was, now, i, changed)
    ensures now[i] == was[i] ==> Patched(was, now, i + 1, changed)
    ensures now[i] != was[i] ==>
        Patched(was, now, i + 1, Some((if changed.Some? then changed.value else was)[i := now[i]]))
  {
    assert now[..i + 1] == now[..i] + [now[i]] && was[..i + 1] == was[..i] + [was[i]];
    assert now[..i + 1][..i] == now[..i] && was[..i + 1][..i] == was[..i];
    if changed.Some? {
      assert changed.value[i := now[i]] == now[..i + 1] + was[i + 1..];
    } else {
      assert was[i := now[i]] == now[..i + 1] + was[i + 1..];
    }
  }

  lemma {:induction false} PatchedAll<T>(was: seq<T>, now: seq<T>, changed: Option<seq<T>>)
    requires |now| == |was| && Patched(was, now, |was|, changed)
    ensures changed.None? <==> now == was
    ensures changed.Some? ==> changed.value == now
  {
    assert now[..|now|] == now && was[..|was|] == was;
  }

  /** The erased type, or nothing when erasing changes nothing. */
  method EraseInner(ty: Type) returns (r: Option<Type>)
    ensures r.None? <==> Erased(ty) == ty
    ensures r.Some? ==> r.value == Erased(ty)
    decreases ty
  {
    match ty
    case Var(_) =>
      return Some(Unknown);
    case List(item) =>
      var newItem := EraseInner(item);
      return if newItem.Some? then Some(List(newItem.value)) else None;
    case Set(item) =>
      var newItem := EraseInner(item);
      return if newItem.Some? then Some(Set(newItem.value)) else None;
    case Map(key, value) =>
      var newKey := EraseInner(key);
      var newValue := EraseInner(value);
      if newKey.None? && newValue.None? { return None; }
      return Some(Map(if newKey.Some? then newKey.value else key, if newValue.Some? then newValue.value else value));
    case Function(args, mode, result) =>
      var newArgs := EraseSequence(args);
      var newResult := EraseInner(result);
      if newArgs.None? && newResult.None? { return None; }
      return Some(Function(if newArgs.Some? then newArgs.value else args, mode,
                           if newResult.Some? then newResult.value else result));
    case Object(shape) =>
      var newShape := EraseShape(shape);
      return if newShape.Some? then Some(Object(newShape.value)) else None;
    case VariantSet(variants) =>
      var newVariants := EraseVariants(variants);
      return if newVariants.Some? then Some(VariantSet(newVariants.value)) else None;
    case Union(members) =>
      var newMembers := EraseSequence(members);
      return if newMembers.Some? then Some(Union(newMembers.value)) else None;
    case _ =>
      return None;
  }

  method EraseSequence(types: seq<Type>) returns (changed: Option<seq<Type>>)
    ensures changed.None? <==> ReplaceAll(types, AllUnknown()) == types
    ensures changed.Some? ==> changed.value == ReplaceAll(types, AllUnknown())
    decreases types
  {
    ghost var now := ReplaceAll(types, AllUnknown());
    changed := None;
    for i := 0 to |types|
      invariant Patched(types, now, i, changed)
    {
      PatchedStep(types, now, i, changed);
      var item := EraseInner(types[i]);
      if item.Some? {
        changed := Some((if changed.Some? then changed.value else types)[i := item.value]);
      }
    }
    PatchedAll(types, now, changed);
  }

  method EraseVariants(variants: seq<Variant>) returns (changed: Option<seq<Variant>>)
    ensures changed.None? <==> Erased(VariantSet(variants)) == VariantSet(variants)
    ensures changed.Some? ==> VariantSet(changed.value) == Erased(VariantSet(variants))
    decreases variants
  {
    ghost var now := Erased(VariantSet(variants)).variants;
    changed := None;
    for i := 0 to |variants|
      invariant Patched(variants, now, i, changed)
    {
      PatchedStep(variants, now, i, changed);
      assert now[i] == ReplaceVariant(variants[i], AllUnknown());
      if variants[i].Tagged? {
        var payload := EraseShape(variants[i].payload);
        if payload.Some? {
          changed := Some((if changed.Some? then changed.value
              else variants)[i := Tagged(variants[i].tag, payload.value)]);
        }
      }
    }
    PatchedAll(variants, now, changed);
  }

  method EraseShape(shape: ObjectShape) returns (r: Option<ObjectShape>)
    ensures r.None? <==> ReplaceShape(shape, AllUnknown()) == shape
    ensures r.Some? ==> r.value == ReplaceShape(shape, AllUnknown())
    decreases shape
  {
    ghost var now := ReplaceShape(shape, AllUnknown()).fields;
    var changed: Option<map<Name, Type>> := None;
    var rest := shape.fields.Keys;
    while rest != {}
      invariant CopiedFields(shape.fields, now, rest, changed)
    {
      var name :| name in rest;
      CopiedFieldsStep(shape.fields, now, rest, changed, name);
      var field := EraseInner(shape.fields[name]);
      if field.Some? {
        changed := Some((if changed.Some? then changed.value else shape.fields)[name := field.value]);
      }
      rest := rest - {name};
    }
    CopiedFieldsAll(shape.fields, now, changed);
    if changed.None? {
      return None;
    }
    return Some(ObjectShape(changed.value, shape.fieldOrder, shape.open));
  }

  /** Erases every variable; the result has none left, and is the type itself if it had none. */
  method EraseVars(ty: Type) returns (r: Type)
    ensures r == Erased(ty) && !ContainsVar(r)
    ensures r == ty <==> !ContainsVar(ty)
  {
    var inner := EraseInner(ty);
    ErasedChanges(ty);
    ErasedIdempotent(ty);
    r := if inner.Some? then inner.value else ty;
  }
}
