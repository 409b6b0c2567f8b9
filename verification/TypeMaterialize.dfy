/** Reading types back out of a finished module, and the round trip. */
module TypeMaterialize {
  import opened Wrappers
  import opened Types
  import opened TypeTerms
  import opened TypeArena
  import opened TypeArenaBuilder
  import Erasure

  /** Cached types are what their terms mean. */
  ghost predicate Cached<D>(terms: seq<Term<D>>, cache: seq<Option<Type>>) {
    |cache| == |terms| && forall i | 0 <= i < |cache| && cache[i].Some? ::
        Sound(terms, i) && cache[i].value == Meaning(terms, i)
  }

  ghost predicate AllSound<D>(terms: seq<Term<D>>, ids: seq<nat>) {
    forall i | 0 <= i < |ids| :: Sound(terms, ids[i])
  }

  ghost predicate PayloadsSound<D>(terms: seq<Term<D>>, variants: seq<VariantTerm<nat>>) {
    forall i | 0 <= i < |variants| && variants[i].TaggedTerm? ::
      Sound(terms, variants[i].payload) && terms[variants[i].payload].kind.ObjectTerm?
  }

  /** A term is sound when its parts are, and payloads are objects. */
  lemma {:induction false} SoundParts<D(!new)>(terms: seq<Term<D>>, id: nat)
    requires Backward(terms) && id < |terms|
    ensures match terms[id].kind
            case VariantSetTerm(variants) => Sound(terms, id) <==> PayloadsSound(terms, variants)
            case ObjectTerm(fields, _, _) => Sound(terms, id) <==>
                forall i | 0 <= i < |fields| :: Sound(terms, fields[i].ty)
            case FunctionTerm(args, _, result) => Sound(terms, id) <==> AllSound(terms, args) && Sound(terms, result)
            case UnionTerm(members) => Sound(terms, id) <==> AllSound(terms, members)
            case MapTerm(key, value) => Sound(terms, id) <==> Sound(terms, key) && Sound(terms, value)
            case ListTerm(item) => Sound(terms, id) <==> Sound(terms, item)
            case SetTerm(item) => Sound(terms, id) <==> Sound(terms, item)
            case _ => Sound(terms, id)
  {
    var k := terms[id].kind;
    match k
    case VariantSetTerm(variants) =>
      assert forall i | 0 <= i < |variants| && variants[i].TaggedTerm? :: Part(k, variants[i].payload);
    case ObjectTerm(fields, _, _) => assert forall i | 0 <= i < |fields| :: Part(k, fields[i].ty);
    case FunctionTerm(args, _, result) =>
      assert Part(k, result);
      assert forall i | 0 <= i < |args| :: Part(k, args[i]);
    case UnionTerm(members) => assert forall i | 0 <= i < |members| :: Part(k, members[i]);
    case MapTerm(key, value) => assert Part(k, key) && Part(k, value);
    case ListTerm(item) => assert Part(k, item);
    case SetTerm(item) => assert Part(k, item);
    case _ =>
  }

  /** The type a term means, or an error if a tagged variant under it does not refer to an object. */
  method MaterializeType<D(!new)>(terms: seq<Term<D>>, id: nat) returns (r: Result<Type>)
    requires Backward(terms)
    ensures r.Ok? <==> Sound(terms, id)
    ensures r.Ok? ==> r.value == Meaning(terms, id)
  {
    var cache := new Option<Type>[|terms|](_ => None);
    r := MaterializeWithCache(terms, id, cache);
  }

  method MaterializeWithCache<D(!new)>(terms: seq<Term<D>>, id: nat, cache: array<Option<Type>>)
    returns (r: Result<Type>)
    requires Backward(terms) && Cached(terms, cache[..])
    modifies cache
    ensures Cached(terms, cache[..])
    ensures r.Ok? <==> Sound(terms, id)
    ensures r.Ok? ==> r.value == Meaning(terms, id)
    decreases id, 1
  {
    if id < cache.Length && cache[id].Some? {
      assert cache[..][id].Some?;
      return Ok(cache[id].value);
    }
    if id >= |terms| {
      return Err("artifact type module has no dense term");
    }
    r := MaterializeTerm(terms, id, cache);
    if r.Ok? {
      cache[id] := Some(r.value);
    }
  }

  method MaterializeTerm<D(!new)>(terms: seq<Term<D>>, id: nat, cache: array<Option<Type>>) returns (r: Result<Type>)
    requires Backward(terms) && Cached(terms, cache[..]) && id < |terms|
    modifies cache
    ensures Cached(terms, cache[..])
    ensures r.Ok? <==> Sound(terms, id)
    ensures r.Ok? ==> r.value == Meaning(terms, id)
    decreases id, 0
  {
    SoundParts(terms, id);
    var kind := terms[id].kind;
    match kind
    case VariantSetTerm(variants) =>
      assert forall i | 0 <= i < |variants| && variants[i].TaggedTerm? :: Part(kind, variants[i].payload);
      var newVariants := MaterializeVariants(terms, id, variants, cache);
      if newVariants.Err? { return Err(newVariants.message); }
      assert VariantSet(newVariants.value) == Meaning(terms, id);
      r := Ok(VariantSet(newVariants.value));
    case ObjectTerm(fields, fieldOrder, open) =>
      assert forall i | 0 <= i < |fields| :: Part(kind, fields[i].ty);
      var newFields := MaterializeFields(terms, id, fields, cache);
      if newFields.Err? { return Err(newFields.message); }
      r := Ok(Object(ObjectShape(newFields.value, fieldOrder, open)));
    case ListTerm(item) =>
      assert Part(kind, item);
      r := MaterializeWithCache(terms, item, cache);
      if r.Ok? { r := Ok(List(r.value)); }
    case SetTerm(item) =>
      assert Part(kind, item);
      r := MaterializeWithCache(terms, item, cache);
      if r.Ok? { r := Ok(Set(r.value)); }
    case FunctionTerm(args, mode, result) =>
      assert Part(kind, result);
      assert forall i | 0 <= i < |args| :: Part(kind, args[i]);
      var newArgs := MaterializeAll(terms, id, args, cache);
      if newArgs.Err? { return Err(newArgs.message); }
      r := MaterializeWithCache(terms, result, cache);
      if r.Ok? { r := Ok(Function(newArgs.value, mode, r.value)); }
    case UnionTerm(members) =>
      assert forall i | 0 <= i < |members| :: Part(kind, members[i]);
      var newMembers := MaterializeAll(terms, id, members, cache);
      if newMembers.Err? { return Err(newMembers.message); }
      r := Ok(Union(newMembers.value));
    case MapTerm(key, value) =>
      assert Part(kind, key) && Part(kind, value);
      var newKey := MaterializeWithCache(terms, key, cache);
      if newKey.Err? { return newKey; }
      r := MaterializeWithCache(terms, value, cache);
      if r.Ok? { r := Ok(Map(newKey.value, r.value)); }
    case _ =>
      r := Ok(Build(MapKind(kind, (c: nat) => Unknown)));
  }

  method MaterializeAll<D(!new)>(terms: seq<Term<D>>, id: nat, ids: seq<nat>, cache: array<Option<Type>>)
    returns (r: Result<seq<Type>>)
    requires Backward(terms) && Cached(terms, cache[..]) && forall i | 0 <= i < |ids| :: ids[i] < id
    modifies cache
    ensures Cached(terms, cache[..])
    ensures r.Ok? <==> AllSound(terms, ids)
    ensures r.Ok? ==> r.value == MapAll(ids, Below(terms, id))
    decreases id, 0, 0
  {
    var types: seq<Type> := [];
    for i := 0 to |ids|
      invariant Cached(terms, cache[..])
      invariant |types| == i && forall j | 0 <= j < i :: Sound(terms, ids[j]) && types[j] == Meaning(terms, ids[j])
    {
      var ty := MaterializeWithCache(terms, ids[i], cache);
      if ty.Err? { return Err(ty.message); }
      types := types + [ty.value];
    }
    return Ok(types);
  }

  lemma {:induction false} FieldMapStep(layer: seq<FieldTerm<Type>>, i: nat)
    requires i < |layer|
    ensures FieldMap(layer[..i + 1]) == FieldMap(layer[..i])[layer[i].name := layer[i].ty]
  {
    assert layer[..i + 1][..i] == layer[..i];
  }

  method MaterializeFields<D(!new)>(terms: seq<Term<D>>, id: nat, fields: seq<FieldTerm<nat>>,
      cache: array<Option<Type>>)
    returns (r: Result<map<Name, Type>>)
    requires Backward(terms) && Cached(terms, cache[..]) && forall i | 0 <= i < |fields| :: fields[i].ty < id
    modifies cache
    ensures Cached(terms, cache[..])
    ensures r.Ok? <==> forall i | 0 <= i < |fields| :: Sound(terms, fields[i].ty)
    ensures r.Ok? ==> r.value == FieldMap(MapFields(fields, Below(terms, id)))
    decreases id, 0, 0
  {
    var done: map<Name, Type> := map[];
    ghost var layer := MapFields(fields, Below(terms, id));
    for i := 0 to |fields|
      invariant Cached(terms, cache[..])
      invariant forall j | 0 <= j < i :: Sound(terms, fields[j].ty)
      invariant done == FieldMap(layer[..i])
    {
      var ty := MaterializeWithCache(terms, fields[i].ty, cache);
      if ty.Err? { return Err(ty.message); }
      FieldMapStep(layer, i);
      done := done[fields[i].name := ty.value];
    }
    assert layer[..|fields|] == layer;
    return Ok(done);
  }

  method MaterializeVariants<D(!new)>(terms: seq<Term<D>>, id: nat, variants: seq<VariantTerm<nat>>,
      cache: array<Option<Type>>)
    returns (r: Result<seq<Variant>>)
    requires Backward(terms) && Cached(terms, cache[..]) && id <= |terms|
    requires forall i | 0 <= i < |variants| && variants[i].TaggedTerm? :: variants[i].payload < id
    modifies cache
    ensures Cached(terms, cache[..])
    ensures r.Ok? <==> PayloadsSound(terms, variants)
    ensures r.Ok? ==> |r.value| == |variants|
    ensures r.Ok? ==>
        forall i | 0 <= i < |variants| :: r.value[i] == BuildVariant(MapVariant(variants[i], Below(terms, id)))
    decreases id, 0, 1
  {
    var done: seq<Variant> := [];
    for i := 0 to |variants|
      invariant Cached(terms, cache[..])
      invariant PayloadsSound(terms, variants[..i])
      invariant |done| == i && forall j | 0 <= j < i ::
          done[j] == BuildVariant(MapVariant(variants[j], Below(terms, id)))
    {
      match variants[i]
      case TagTerm(tag) => done := done + [Tag(tag)];
      case TaggedTerm(tag, payload) =>
        var shape := MaterializePayload(terms, id, payload, cache);
        if shape.Err? { return Err(shape.message); }
        done := done + [Tagged(tag, shape.value)];
    }
    assert variants[..|variants|] == variants;
    return Ok(done);
  }

  method MaterializePayload<D(!new)>(terms: seq<Term<D>>, id: nat, payload: nat, cache: array<Option<Type>>)
    returns (r: Result<ObjectShape>)
    requires Backward(terms) && Cached(terms, cache[..]) && payload < id <= |terms|
    modifies cache
    ensures Cached(terms, cache[..])
    ensures r.Ok? <==> Sound(terms, payload) && terms[payload].kind.ObjectTerm?
    ensures r.Ok? ==> r.value == Payload(Below(terms, id)(payload))
    decreases id, 0, 0
  {
    var ty := MaterializeWithCache(terms, payload, cache);
    if ty.Err? { return Err(ty.message); }
    ObjectMeaning(terms, payload);
    if !ty.value.Object? {
      return Err("artifact tagged variant references non-object term");
    }
    return Ok(ty.value.shape);
  }

  /** Only object terms mean objects. */
  lemma {:induction false} ObjectMeaning<D(!new)>(terms: seq<Term<D>>, id: nat)
    requires id < |terms|
    ensures Meaning(terms, id).Object? <==> terms[id].kind.ObjectTerm?
  {
  }

  // ---------- The round trip ----------

  lemma {:induction false} CanonicalSound<D(!new)>(terms: seq<Term<D>>, id: nat)
    requires Canonical(terms, id)
    ensures Sound(terms, id)
    decreases id
  {
    forall c: nat | Part(terms[id].kind, c) ensures c < id && Sound(terms, c) { CanonicalSound(terms, c); }
  }

  /** Whatever was interned is materialised unchanged, however many terms were added since, by any
      digest function. */
  method RoundTrip<D(!new)>(hash: Hash<D>, was: seq<Term<D>>, terms: seq<Term<D>>, ids: map<D, seq<nat>>, id: nat,
      ghost ty: Type)
    returns (r: Result<Type>)
    requires Interned(was, id, ty) && was <= terms && Table(hash, terms, ids)
    ensures r == Ok(ty)
  {
    InternedStable(was, terms, id, ty);
    CanonicalSound(terms, id);
    r := MaterializeType(terms, id);
  }

  /** Two interned types have the same term exactly when they are equal. */
  lemma {:induction false} SameTermIffEqual<D(!new)>(hash: Hash<D>, terms: seq<Term<D>>, ids: map<D, seq<nat>>, i: nat,
      a: Type, j: nat, b: Type)
    requires Table(hash, terms, ids) && Interned(terms, i, a) && Interned(terms, j, b)
    ensures i == j <==> a == b
  {
    if a == b { CanonicalUnique(hash, terms, ids, i, j); }
  }

  /** The stored twin and flag of an interned type are those of recursive erasure. */
  lemma {:induction false} PrecomputedErasure<D(!new)>(hash: Hash<D>, terms: seq<Term<D>>, ids: map<D, seq<nat>>,
      i: nat, ty: Type)
    requires Table(hash, terms, ids) && AllErased(terms, {}) && Interned(terms, i, ty)
    ensures var e := terms[i].runtimeErased;
            && e < |terms| && Meaning(terms, e) == Erasure.Erased(ty) && !terms[e].containsVariable
            && (terms[i].containsVariable <==> Erasure.ContainsVar(ty)) && (e == i <==> !Erasure.ContainsVar(ty))
  {
    ErasedMeaning(terms, i);
    FlagMeaning(terms, i);
    Erasure.ErasedChanges(ty);
    assert ErasedAt(terms, i);
  }
}
