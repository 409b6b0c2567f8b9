/** The builder object of the type arena. */
module TypeArenaBuilder {
  import opened Wrappers
  import opened Types
  import opened TypeTerms
  import opened TypeArena
  import Sorting

  // ---------- Adding a term ----------

  function Payloads<C>(variants: seq<VariantTerm<C>>): seq<C> {
    if variants == [] then []
    else (if variants[0].TaggedTerm? then [variants[0].payload] else []) + Payloads(variants[1..])
  }

  /** The parts of a layer, in order. */
  function Children<C>(k: Kind<C>): seq<C> {
    match k
    case VariantSetTerm(variants) => Payloads(variants)
    case ObjectTerm(fields, _, _) => seq(|fields|, i requires 0 <= i < |fields| => fields[i].ty)
    case ListTerm(item) => [item]
    case FunctionTerm(args, _, result) => args + [result]
    case UnionTerm(members) => members
    case MapTerm(key, value) => [key, value]
    case SetTerm(item) => [item]
    case _ => []
  }

  lemma {:induction false} PayloadsMember<C>(variants: seq<VariantTerm<C>>, c: C)
    ensures c in Payloads(variants) <==>
        exists i | 0 <= i < |variants| :: variants[i].TaggedTerm? && variants[i].payload == c
  {
    if variants != [] {
      PayloadsMember(variants[1..], c);
      assert forall i | 0 < i < |variants| :: variants[i] == variants[1..][i - 1];
      if c in Payloads(variants[1..]) {
        var i :| 0 <= i < |variants[1..]| && variants[1..][i].TaggedTerm? && variants[1..][i].payload == c;
        assert variants[i + 1].payload == c;
      }
    }
  }

  lemma {:induction false} ChildrenArePart<C>(k: Kind<C>, c: C)
    ensures c in Children(k) <==> Part(k, c)
  {
    match k
    case VariantSetTerm(variants) => PayloadsMember(variants, c);
    case ObjectTerm(fields, _, _) =>
      assert |Children(k)| == |fields| && forall i | 0 <= i < |fields| :: Children(k)[i] == fields[i].ty;
    case _ =>
  }

  function NewTerm<D>(hash: Hash<D>, terms: seq<Term<D>>, k: Kind<nat>, contains: bool): Term<D> {
    Term(k, DigestOfKind(hash, terms, k), contains, |terms|)
  }

  /** Digests, flags and erased layers look at parts only, so more terms do not change them. */
  lemma {:induction false} SameBelow<D(!new)>(hash: Hash<D>, a: seq<Term<D>>, b: seq<Term<D>>, k: Kind<nat>)
    requires a <= b && forall c: nat | Part(k, c) :: c < |a|
    ensures DigestOfKind(hash, b, k) == DigestOfKind(hash, a, k)
    ensures HasVariable(b, k) == HasVariable(a, k)
    ensures ErasedKind(b, k) == ErasedKind(a, k)
  {
    MapKindAgree(k, DigestOf(a), DigestOf(b));
    MapKindAgree(k, ErasedId(a), ErasedId(b));
  }

  lemma {:induction false} PushTable<D(!new)>(hash: Hash<D>, terms: seq<Term<D>>, ids: map<D, seq<nat>>, k: Kind<nat>,
      t: Term<D>)
    requires Table(hash, terms, ids) && (forall c: nat | Part(k, c) :: c < |terms|)
    requires t == NewTerm(hash, terms, k, HasVariable(terms, k)) && t.digest !in ids
    ensures Table(hash, terms + [t], ids[t.digest := [|terms|]])
  {
    var r := terms + [t];
    var ids1 := ids[t.digest := [|terms|]];
    forall i {:trigger DigestAt(hash, r, i)} {:trigger FlagAt(r, i)} {:trigger IndexedAt(r, ids1, i)} | 0 <= i < |r|
      ensures DigestAt(hash, r, i) && FlagAt(r, i) && IndexedAt(r, ids1, i)
    {
      SameBelow(hash, terms, r, r[i].kind);
      if i < |terms| { assert DigestAt(hash, terms, i) && FlagAt(terms, i) && IndexedAt(terms, ids, i); }
    }
  }

  lemma {:induction false} PushErased<D(!new)>(hash: Hash<D>, terms: seq<Term<D>>, k: Kind<nat>, t: Term<D>,
      pending: set<nat>)
    requires Backward(terms) && AllErased(terms, pending) && (forall c: nat | Part(k, c) :: c < |terms|)
    requires t == NewTerm(hash, terms, k, HasVariable(terms, k))
    ensures AllErased(terms + [t], if t.containsVariable then pending + {|terms|} else pending)
  {
    var r := terms + [t];
    forall i | 0 <= i < |terms| && i !in pending ensures ErasedAt(r, i) {
      assert ErasedAt(terms, i);
      SameBelow(hash, terms, r, terms[i].kind);
    }
  }

  /** The erased layer of a layer over finished terms has no variable, and its parts exist. */
  lemma {:induction false} ErasedKindPlain<D(!new)>(terms: seq<Term<D>>, k: Kind<nat>, pending: set<nat>)
    requires AllErased(terms, pending) && forall c: nat | Part(k, c) :: c < |terms| && c !in pending
    ensures !HasVariable(terms, ErasedKind(terms, k))
    ensures forall c: nat | Part(ErasedKind(terms, k), c) :: c < |terms|
  {
    if !k.VariableTerm? {
      forall e: nat | Part(ErasedKind(terms, k), e) ensures e < |terms| && !terms[e].containsVariable {
        var c := PartFrom(k, ErasedId(terms), e);
        assert ErasedAt(terms, c);
      }
    }
  }

  /** Pointing term `id` at its erased twin. */
  lemma {:induction false} PatchTable<D(!new)>(hash: Hash<D>, terms: seq<Term<D>>, ids: map<D, seq<nat>>, id: nat,
      e: nat)
    requires Table(hash, terms, ids) && id < |terms|
    ensures Table(hash, terms[id := terms[id].(runtimeErased := e)], ids)
  {
    var r := terms[id := terms[id].(runtimeErased := e)];
    forall i {:trigger DigestAt(hash, r, i)} {:trigger IndexedAt(r, ids, i)} | 0 <= i < |r|
      ensures DigestAt(hash, r, i) && IndexedAt(r, ids, i)
    {
      MapKindAgree(terms[i].kind, DigestOf(terms), DigestOf(r));
      assert DigestAt(hash, terms, i) && IndexedAt(terms, ids, i);
    }
    forall i {:trigger FlagAt(r, i)} | 0 <= i < |r| ensures FlagAt(r, i) {
      assert FlagAt(terms, i);
      if c: nat :| Part(r[i].kind, c) && c < |terms| && terms[c].containsVariable { assert r[c].containsVariable; }
    }
  }

  lemma {:induction false} PatchErased<D(!new)>(terms: seq<Term<D>>, id: nat, e: nat)
    requires Backward(terms) && Flagged(terms) && AllErased(terms, {id}) && id < |terms| && e < |terms|
    requires terms[id].containsVariable && terms[e].kind == ErasedKind(terms, terms[id].kind) &&
        !terms[e].containsVariable
    requires forall i | id < i < |terms| :: !terms[i].containsVariable
    ensures AllErased(terms[id := terms[id].(runtimeErased := e)], {})
  {
    var r := terms[id := terms[id].(runtimeErased := e)];
    forall i | 0 <= i < |r| ensures ErasedAt(r, i) {
      if i != id { assert ErasedAt(terms, i); }
      if terms[i].containsVariable { MapKindAgree(terms[i].kind, ErasedId(terms), ErasedId(r)); }
    }
  }

  // ---------- Interned types ----------

  /** `id` is a canonical term that means `ty`. */
  ghost predicate Interned<D>(terms: seq<Term<D>>, id: nat, ty: Type) {
    Canonical(terms, id) && Meaning(terms, id) == ty
  }

  lemma {:induction false} InternedStable<D>(a: seq<Term<D>>, b: seq<Term<D>>, id: nat, ty: Type)
    requires a <= b && Interned(a, id, ty)
    ensures Interned(b, id, ty)
  {
    CanonicalStable(a, b, id);
    MeaningStable(a, b, id);
  }

  /** A term for the layer, over terms that mean its parts, means the type it builds. */
  lemma {:induction false} LayerInterned<D(!new)>(terms: seq<Term<D>>, id: nat, layer: Kind<Type>)
    requires Backward(terms) && id < |terms| && Tidy(terms, terms[id].kind)
    requires forall c: nat | Part(terms[id].kind, c) :: Canonical(terms, c)
    requires MapKind(terms[id].kind, MeaningOf(terms)) == layer
    ensures Interned(terms, id, Build(layer))
  {
    MapKindAgree(terms[id].kind, Below(terms, id), MeaningOf(terms));
  }

  function MeaningOf<D>(terms: seq<Term<D>>): nat -> Type { (c: nat) => Meaning(terms, c) }

  ghost predicate AllInterned<D>(terms: seq<Term<D>>, ids: seq<nat>, types: seq<Type>) {
    |ids| == |types| && forall i | 0 <= i < |ids| :: Interned(terms, ids[i], types[i])
  }

  lemma {:induction false} AllInternedStable<D>(a: seq<Term<D>>, b: seq<Term<D>>, ids: seq<nat>, types: seq<Type>)
    requires a <= b && AllInterned(a, ids, types)
    ensures AllInterned(b, ids, types)
  {
    forall i | 0 <= i < |ids| ensures Interned(b, ids[i], types[i]) { InternedStable(a, b, ids[i], types[i]); }
  }

  ghost predicate CachedAt<D>(terms: seq<Term<D>>, cache: map<nat, nat>, memory: map<nat, Type>, a: nat)
    requires a in cache
  {
    a in memory && Interned(terms, cache[a], memory[a])
  }

  /** What lives at an address is known, and cached terms mean what lives there. */
  ghost predicate CacheOk<D>(terms: seq<Term<D>>, cache: map<nat, nat>, memory: map<nat, Type>) {
    forall a {:trigger CachedAt(terms, cache, memory, a)} | a in cache :: CachedAt(terms, cache, memory, a)
  }

  lemma {:induction false} CacheStable<D>(a: seq<Term<D>>, b: seq<Term<D>>, cache: map<nat, nat>,
      memory: map<nat, Type>)
    requires a <= b && CacheOk(a, cache, memory)
    ensures CacheOk(b, cache, memory)
  {
    forall k {:trigger CachedAt(b, cache, memory, k)} | k in cache ensures CachedAt(b, cache, memory, k) {
      assert CachedAt(a, cache, memory, k);
      InternedStable(a, b, cache[k], memory[k]);
    }
  }

  lemma {:induction false} CacheRemembers<D>(terms: seq<Term<D>>, cache: map<nat, nat>, a: map<nat, Type>,
      b: map<nat, Type>)
    requires CacheOk(terms, cache, a) && Remembers(a, b)
    ensures CacheOk(terms, cache, b)
  {
    forall k {:trigger CachedAt(terms, cache, b, k)} | k in cache ensures CachedAt(terms, cache, b, k) {
      assert CachedAt(terms, cache, a, k);
    }
  }

  lemma {:induction false} CacheAdd<D>(terms: seq<Term<D>>, cache: map<nat, nat>, memory: map<nat, Type>, a: nat,
      id: nat)
    requires CacheOk(terms, cache, memory) && a in memory && Interned(terms, id, memory[a])
    ensures CacheOk(terms, cache[a := id], memory)
  {
    forall k {:trigger CachedAt(terms, cache[a := id], memory, k)} | k in cache[a := id]
      ensures CachedAt(terms, cache[a := id], memory, k)
    {
      if k != a { assert CachedAt(terms, cache, memory, k); }
    }
  }

  /** There is always an address nothing lives at. */
  lemma {:induction false} FreeAddress<X>(memory: map<nat, X>)
    ensures exists a: nat :: a !in memory
  {
    var n: nat := |memory|;
    if forall a: nat :: a in memory {
      Filled(n + 1, memory.Keys);
      assert false;
    }
  }

  lemma {:induction false} Filled(n: nat, keys: set<nat>)
    requires forall a: nat | a < n :: a in keys
    ensures |keys| >= n
  {
    if n > 0 {
      Filled(n - 1, keys - {n - 1});
    }
  }

  lemma {:induction false} EmptyTable<D(!new)>(hash: Hash<D>)
    ensures Table(hash, [], map[]) && AllErased<D>([], {}) && !HasVariable<D>([], UnknownTerm)
  {
  }

  lemma {:induction false} UnknownInterned<D(!new)>(terms: seq<Term<D>>, id: nat)
    requires id < |terms| && terms[id].kind == UnknownTerm
    ensures Interned(terms, id, Unknown)
  {
  }

  // ---------- Layers of types ----------

  /** The fields of a shape in the order of `names`. */
  function FieldLayer(shape: ObjectShape, names: seq<Name>): (r: seq<FieldTerm<Type>>)
    requires forall name | name in names :: name in shape.fields
    ensures |r| == |names| && forall i | 0 <= i < |names| :: r[i] == FieldTerm(names[i], shape.fields[names[i]])
  {
    seq(|names|, i requires 0 <= i < |names| => FieldTerm(names[i], shape.fields[names[i]]))
  }

  lemma {:induction false} FieldLayerBuilds(shape: ObjectShape, names: seq<Name>)
    requires Sorting.StrictlySorted(names, NameLeq) && forall name :: name in names <==> name in shape.fields
    ensures FieldMap(FieldLayer(shape, names)) == shape.fields
  {
    var layer := FieldLayer(shape, names);
    assert Names(layer) == names;
    FieldMapKeys(layer);
    forall name | name in shape.fields ensures FieldMap(layer)[name] == shape.fields[name] {
      var i :| 0 <= i < |names| && names[i] == name;
      SortedFieldAt(layer, i);
    }
  }

  function VariantLayer(v: Variant): VariantTerm<Type> {
    match v case Tag(tag) => TagTerm(tag) case Tagged(tag, payload) => TaggedTerm(tag, Object(payload))
  }

  ghost predicate FieldsInterned<D>(terms: seq<Term<D>>, fields: seq<FieldTerm<nat>>, layer: seq<FieldTerm<Type>>) {
    |fields| == |layer| && forall i | 0 <= i < |fields| ::
      fields[i].name == layer[i].name && Interned(terms, fields[i].ty, layer[i].ty)
  }

  ghost predicate VariantInterned<D>(terms: seq<Term<D>>, v: VariantTerm<nat>, variant: Variant) {
    match variant
    case Tag(tag) => v == TagTerm(tag)
    case Tagged(tag, payload) => v.TaggedTerm? && v.tag == tag && Interned(terms, v.payload, Object(payload))
  }

  ghost predicate VariantsInterned<D>(terms: seq<Term<D>>, terms1: seq<VariantTerm<nat>>, variants: seq<Variant>) {
    |terms1| == |variants| && forall i | 0 <= i < |variants| :: VariantInterned(terms, terms1[i], variants[i])
  }

  lemma {:induction false} FieldsStable<D>(a: seq<Term<D>>, b: seq<Term<D>>, fields: seq<FieldTerm<nat>>,
      layer: seq<FieldTerm<Type>>)
    requires a <= b && FieldsInterned(a, fields, layer)
    ensures FieldsInterned(b, fields, layer)
  {
    forall i | 0 <= i < |fields| ensures Interned(b, fields[i].ty, layer[i].ty) {
      InternedStable(a, b, fields[i].ty, layer[i].ty);
    }
  }

  lemma {:induction false} VariantsStable<D>(a: seq<Term<D>>, b: seq<Term<D>>, found: seq<VariantTerm<nat>>,
      variants: seq<Variant>)
    requires a <= b && VariantsInterned(a, found, variants)
    ensures VariantsInterned(b, found, variants)
  {
    forall i | 0 <= i < |variants| ensures VariantInterned(b, found[i], variants[i]) {
      assert VariantInterned(a, found[i], variants[i]);
      if variants[i].Tagged? { InternedStable(a, b, found[i].payload, Object(variants[i].payload)); }
    }
  }

  /** An interned object is an object term. */
  lemma {:induction false} ObjectInterned<D(!new)>(terms: seq<Term<D>>, id: nat, shape: ObjectShape)
    requires Interned(terms, id, Object(shape))
    ensures id < |terms| && terms[id].kind.ObjectTerm?
  {
  }

  lemma {:induction false} ObjectLayer<D(!new)>(terms: seq<Term<D>>, shape: ObjectShape, names: seq<Name>,
      fields: seq<FieldTerm<nat>>)
    requires Sorting.StrictlySorted(names, NameLeq) && forall name :: name in names <==> name in shape.fields
    requires FieldsInterned(terms, fields, FieldLayer(shape, names))
    ensures var kind, layer := ObjectTerm(fields, shape.fieldOrder, shape.open),
        ObjectTerm(FieldLayer(shape, names), shape.fieldOrder, shape.open);
            && Ready(terms, kind, layer) && Build(layer) == Object(shape)
  {
    ObjectReady(terms, fields, FieldLayer(shape, names), names, shape.fieldOrder, shape.open);
    FieldLayerBuilds(shape, names);
  }

  lemma {:induction false} ObjectReady<D(!new)>(terms: seq<Term<D>>, fields: seq<FieldTerm<nat>>,
      layer: seq<FieldTerm<Type>>, names: seq<Name>,
                               fieldOrder: seq<Name>, open: bool)
    requires Sorting.StrictlySorted(names, NameLeq) && FieldsInterned(terms, fields, layer)
    requires |layer| == |names| && forall i | 0 <= i < |names| :: layer[i].name == names[i]
    ensures Ready(terms, ObjectTerm(fields, fieldOrder, open), ObjectTerm(layer, fieldOrder, open))
  {
    assert Names(fields) == names;
    assert MapFields(fields, MeaningOf(terms)) == layer;
  }

  lemma {:induction false} VariantsLayer<D(!new)>(terms: seq<Term<D>>, found: seq<VariantTerm<nat>>,
      variants: seq<Variant>)
    requires VariantsInterned(terms, found, variants)
    ensures var kind := VariantSetTerm(found);
            var layer := VariantSetTerm(seq(|variants|, i requires 0 <= i < |variants| => VariantLayer(variants[i])));
            && Ready(terms, kind, layer) && Build(layer) == VariantSet(variants)
  {
    forall i | 0 <= i < |variants|
      ensures MapVariant(found[i], MeaningOf(terms)) == VariantLayer(variants[i])
      ensures found[i].TaggedTerm? ==> Canonical(terms, found[i].payload) && terms[found[i].payload].kind.ObjectTerm?
    {
      assert VariantInterned(terms, found[i], variants[i]);
      if variants[i].Tagged? { ObjectInterned(terms, found[i].payload, variants[i].payload); }
    }
  }

  lemma {:induction false} SequenceLayer<D(!new)>(terms: seq<Term<D>>, ids: seq<nat>, types: seq<Type>)
    requires AllInterned(terms, ids, types)
    ensures MapAll(ids, MeaningOf(terms)) == types && forall c | c in ids :: Canonical(terms, c)
  {
    assert forall i | 0 <= i < |ids| :: Interned(terms, ids[i], types[i]);
  }

  /** Types without parts, and their layer. */
  predicate Leaf(ty: Type) {
    ty.Text? || ty.Number? || ty.Bytes? || ty.Absent? || ty.RenderContract? || ty.UnresolvedShape? || ty.Var? ||
        ty.Bits?
  }

  function LeafTerm<C>(ty: Type): Kind<C>
    requires Leaf(ty)
  {
    match ty
    case Text => TextTerm
    case Number => NumberTerm
    case Bytes(size) => BytesTerm(size)
    case Absent => AbsentTerm
    case RenderContract => RenderContractTerm
    case UnresolvedShape(reason) => UnresolvedShapeTerm(reason)
    case Var(ordinal) => VariableTerm(ordinal)
    case Bits(width) => BitsTerm(width)
  }

  /** What interning a layer needs to know about it. */
  ghost predicate Ready<D(!new)>(terms: seq<Term<D>>, kind: Kind<nat>, layer: Kind<Type>) {
    && Tidy(terms, kind) && (forall c: nat | Part(kind, c) :: Canonical(terms, c))
    && MapKind(kind, MeaningOf(terms)) == layer
  }

  lemma {:induction false} LeafReady<D(!new)>(terms: seq<Term<D>>, ty: Type)
    requires Leaf(ty)
    ensures Ready(terms, LeafTerm(ty), LeafTerm(ty)) && Build(LeafTerm(ty)) == ty
  {
  }

  lemma {:induction false} ItemReady<D(!new)>(terms: seq<Term<D>>, id: nat, item: Type)
    requires Interned(terms, id, item)
    ensures Ready(terms, ListTerm(id), ListTerm(item)) && Build(ListTerm(item)) == List(item)
    ensures Ready(terms, SetTerm(id), SetTerm(item)) && Build(SetTerm(item)) == Set(item)
  {
  }

  lemma {:induction false} MapReady<D(!new)>(was: seq<Term<D>>, terms: seq<Term<D>>, keyId: nat, key: Type,
      valueId: nat, value: Type)
    requires was <= terms && Interned(was, keyId, key) && Interned(terms, valueId, value)
    ensures Ready(terms, MapTerm(keyId, valueId), MapTerm(key, value)) && Build(MapTerm(key, value)) == Map(key, value)
  {
    InternedStable(was, terms, keyId, key);
  }

  lemma {:induction false} FunctionReady<D(!new)>(was: seq<Term<D>>, terms: seq<Term<D>>, ids: seq<nat>,
      args: seq<Type>, mode: FlowMode, id: nat, result: Type)
    requires was <= terms && AllInterned(was, ids, args) && Interned(terms, id, result)
    ensures Ready(terms, FunctionTerm(ids, mode, id), FunctionTerm(args, mode, result))
    ensures Build(FunctionTerm(args, mode, result)) == Function(args, mode, result)
  {
    AllInternedStable(was, terms, ids, args);
    SequenceLayer(terms, ids, args);
  }

  lemma {:induction false} UnionReady<D(!new)>(terms: seq<Term<D>>, ids: seq<nat>, members: seq<Type>)
    requires AllInterned(terms, ids, members)
    ensures Ready(terms, UnionTerm(ids), UnionTerm(members)) && Build(UnionTerm(members)) == Union(members)
  {
    SequenceLayer(terms, ids, members);
  }

  // ---------- The builder ----------

  class ArtifactTypeModuleBuilder<D(==,!new)> {
    const hash: Hash<D>
    var terms: seq<Term<D>>
    var idsByDigest: map<D, seq<nat>>
    var unknown: nat
    /** Terms by the address of a shared node. */
    var sharedTypes: map<nat, nat>
    var sharedObjects: map<nat, nat>
    var sharedVariants: map<nat, nat>
    /** The node that lives at an address; a shape stands as an object type, variants as a variant set. */
    var memory: map<nat, Type>

    ghost predicate Valid()
      reads this
    {
      && Table(hash, terms, idsByDigest) && AllErased(terms, {})
      && unknown < |terms| && terms[unknown].kind == UnknownTerm
      && CacheOk(terms, sharedTypes, memory) && CacheOk(terms, sharedObjects, memory) &&
           CacheOk(terms, sharedVariants, memory)
    }

    constructor (hash: Hash<D>)
      ensures Valid() && this.hash == hash
      ensures |terms| == 1 && Interned(terms, unknown, Unknown)
    {
      this.hash := hash;
      terms, idsByDigest, unknown := [], map[], 0;
      sharedTypes, sharedObjects, sharedVariants, memory := map[], map[], map[], map[];
      new;
      EmptyTable(hash);
      var r := InternKind(UnknownTerm, {});
      unknown := r.value;
      UnknownInterned(terms, unknown);
    }

    method ChildrenExist(kind: Kind<nat>) returns (all: bool)
      ensures all <==> forall c: nat | Part(kind, c) :: c < |terms|
    {
      var children := Children(kind);
      forall c: nat ensures c in children <==> Part(kind, c) { ChildrenArePart(kind, c); }
      for i := 0 to |children|
        invariant forall j | 0 <= j < i :: children[j] < |terms|
      {
        if children[i] >= |terms| {
          assert Part(kind, children[i]);
          return false;
        }
      }
      return true;
    }

    method KindContainsVariable(kind: Kind<nat>) returns (r: bool)
      ensures r <==> HasVariable(terms, kind)
    {
      if kind.VariableTerm? {
        return true;
      }
      var children := Children(kind);
      forall c: nat ensures c in children <==> Part(kind, c) { ChildrenArePart(kind, c); }
      for i := 0 to |children|
        invariant forall j | 0 <= j < i :: !(children[j] < |terms| && terms[children[j]].containsVariable)
      {
        if children[i] < |terms| && terms[children[i]].containsVariable {
          assert Part(kind, children[i]);
          return true;
        }
      }
      return false;
    }

    /** The term of the layer, if there is one; an error if it cannot be added either. */
    method FindTerm(kind: Kind<nat>) returns (r: Result<Option<nat>>)
      requires Indexed(terms, idsByDigest)
      ensures r.Ok? ==> forall c: nat | Part(kind, c) :: c < |terms|
      ensures r.Ok? && r.value.Some? ==> r.value.value < |terms| && terms[r.value.value].kind == kind
      ensures r.Ok? && r.value.None? ==> DigestOfKind(hash, terms, kind) !in idsByDigest
      ensures r.Err? <==> Refused(hash, terms, idsByDigest, kind)
    {
      var exist := ChildrenExist(kind);
      if !exist {
        return Err("artifact type term references missing child");
      }
      var digest := DigestOfKind(hash, terms, kind);
      if digest in idsByDigest {
        var candidates := idsByDigest[digest];
        for i := 0 to |candidates|
          invariant forall j | 0 <= j < i :: terms[candidates[j]].kind != kind
        {
          if terms[candidates[i]].kind == kind {
            return Ok(Some(candidates[i]));
          }
        }
        return Err("artifact type digest collision");
      }
      if |terms| > U32_MAX {
        return Err("artifact type module exceeds u32");
      }
      return Ok(None);
    }

    method PushTerm(kind: Kind<nat>, ghost pending: set<nat>) returns (id: nat, containsVariable: bool)
      requires Table(hash, terms, idsByDigest) && AllErased(terms, pending)
      requires (forall c: nat | Part(kind, c) :: c < |terms|) && DigestOfKind(hash, terms, kind) !in idsByDigest
      modifies this`terms, this`idsByDigest
      ensures Table(hash, terms, idsByDigest) && AllErased(terms, if containsVariable then pending + {id} else pending)
      ensures id == |old(terms)| && (containsVariable <==> old(HasVariable(terms, kind)))
      ensures terms == old(terms) + [NewTerm(hash, old(terms), kind, containsVariable)]
      ensures ErasedKind(terms, kind) == old(ErasedKind(terms, kind))
    {
      id := |terms|;
      containsVariable := KindContainsVariable(kind);
      var term := NewTerm(hash, terms, kind, containsVariable);
      PushTable(hash, terms, idsByDigest, kind, term);
      PushErased(hash, terms, kind, term, pending);
      SameBelow(hash, terms, terms + [term], kind);
      terms := terms + [term];
      idsByDigest := idsByDigest[term.digest := [id]];
    }

    /** The one term of a layer; a term with variables gets an erased twin. */
    method InternKind(kind: Kind<nat>, ghost pending: set<nat>) returns (r: Result<nat>)
      requires Table(hash, terms, idsByDigest) && AllErased(terms, pending)
      requires pending == {} || !HasVariable(terms, kind)
      modifies this`terms, this`idsByDigest
      ensures old(terms) <= terms
      ensures r.Ok? ==> Table(hash, terms, idsByDigest) && AllErased(terms, pending)
      ensures r.Ok? ==> r.value < |terms| && terms[r.value].kind == kind
      ensures Indexed(terms, idsByDigest) && DigestsOk(hash, terms)
      ensures old(Refused(hash, terms, idsByDigest, kind)) ==>
        r.Err? && terms == old(terms) && idsByDigest == old(idsByDigest)
      ensures r.Err? && !old(Refused(hash, terms, idsByDigest, kind)) ==>
        && old(HasVariable(terms, kind)) && Refused(hash, terms, idsByDigest, ErasedKind(terms, kind))
        && KnownParts(terms, ErasedKind(terms, kind))
      ensures r.Ok? && !old(HasVariable(terms, kind)) ==> |terms| <= |old(terms)| + 1
      ensures pending != {} ==> forall i | |old(terms)| <= i < |terms| :: !terms[i].containsVariable
      decreases HasVariable(terms, kind), 0
    {
      var found := FindTerm(kind);
      if found.Err? {
        return Err(found.message);
      }
      if found.value.Some? {
        return Ok(found.value.value);
      }
      var id, containsVariable := PushTerm(kind, pending);
      if containsVariable {
        var erased := EraseTerm(id);
        if erased.Err? {
          return erased;
        }
      }
      return Ok(id);
    }

    /** Interns the erased twin of the last term and points the term at it. */
    method EraseTerm(id: nat) returns (r: Result<nat>)
      requires Table(hash, terms, idsByDigest) && AllErased(terms, {id})
      requires id == |terms| - 1 && terms[id].containsVariable
      modifies this`terms, this`idsByDigest
      ensures |old(terms)| <= |terms| && terms[..id] == old(terms)[..id] && terms[id].kind == old(terms)[id].kind
      ensures r.Ok? ==> Table(hash, terms, idsByDigest) && AllErased(terms, {})
      ensures Indexed(terms, idsByDigest) && DigestsOk(hash, terms)
      ensures r.Err? ==>
        && terms == old(terms) && Refused(hash, terms, idsByDigest, ErasedKind(terms, terms[id].kind))
        && KnownParts(terms, ErasedKind(terms, terms[id].kind))
      decreases false, 1
    {
      ghost var pushed := terms;
      var kind := terms[id].kind;
      assert forall c: nat | Part(kind, c) :: c < id;
      ErasedKindPlain(terms, kind, {id});
      r := InternKind(ErasedKind(terms, kind), {id});
      assert terms[id] == pushed[id] && terms[..id] == pushed[..id];
      if r.Ok? {
        SameBelow(hash, pushed, terms, kind);
        assert !HasVariable(terms, terms[r.value].kind) by {
          ErasedKindPlain(terms, kind, {id});
        }
        assert FlagAt(terms, r.value);
        PatchTable(hash, terms, idsByDigest, id, r.value);
        PatchErased(terms, id, r.value);
        terms := terms[id := terms[id].(runtimeErased := r.value)];
      }
    }

    /** Terms and addresses were only added. */
    ghost predicate Grew(terms0: seq<Term<D>>, memory0: map<nat, Type>)
      reads this
    {
      terms0 <= terms && Remembers(memory0, memory)
    }

    /** A term that was given means `ty`; none is given only if a layer over the terms was refused. */
    ghost predicate Gives(r: Result<nat>, ty: Type)
      reads this
    {
      if r.Ok? then Valid() && Interned(terms, r.value, ty) else Blocked()
    }

    ghost predicate Blocked()
      reads this
    {
      Stuck(hash, terms, idsByDigest)
    }

    /** Interns a layer over interned parts. */
    method InternLayer(kind: Kind<nat>, ghost layer: Kind<Type>) returns (r: Result<nat>)
      requires Valid() && Ready(terms, kind, layer)
      modifies this`terms, this`idsByDigest
      ensures old(terms) <= terms
      ensures Gives(r, Build(layer))
    {
      ghost var was := terms;
      r := InternKind(kind, {});
      if r.Err? {
        assert Refused(hash, terms, idsByDigest, kind) || Refused(hash, terms, idsByDigest, ErasedKind(terms, kind));
      } else {
        CacheStable(was, terms, sharedTypes, memory);
        CacheStable(was, terms, sharedObjects, memory);
        CacheStable(was, terms, sharedVariants, memory);
        LayerGiven(was, terms, kind, layer, r.value);
      }
    }

    /** The address of a node: any address at which no other node lives. */
    method AddressOf(node: Type) returns (a: nat)
      requires Valid()
      modifies this`memory
      ensures Valid() && a in memory && memory[a] == node && Remembers(old(memory), memory)
    {
      FreeAddress(memory);
      a :| a in memory ==> memory[a] == node;
      ghost var was := memory;
      memory := memory[a := node];
      CacheRemembers(terms, sharedTypes, was, memory);
      CacheRemembers(terms, sharedObjects, was, memory);
      CacheRemembers(terms, sharedVariants, was, memory);
    }

    /** Interns a type. Its term means exactly this type, earlier terms are not touched, and every
        other call for the same type gives the same term. */
    method InternType(ty: Type) returns (r: Result<nat>)
      requires Valid()
      modifies this
      ensures Grew(old(terms), old(memory))
      ensures Gives(r, ty)
      decreases ty, 1
    {
      if Leaf(ty) {
        LeafReady(terms, ty);
        r := InternLayer(LeafTerm(ty), LeafTerm(ty));
        return;
      }
      match ty
      case VariantSet(variants) => r := InternVariants(variants);
      case Object(shape) => r := InternObjectShape(shape);
      case List(item) =>
        var id := InternShared(item);
        if id.Err? { return id; }
        ItemReady(terms, id.value, item);
        r := InternLayer(ListTerm(id.value), ListTerm(item));
      case Function(args, mode, result) => r := InternFunction(args, mode, result);
      case Unknown =>
        UnknownInterned(terms, unknown);
        r := Ok(unknown);
      case Union(members) => r := InternUnion(members);
      case Map(key, value) => r := InternMap(key, value);
      case Set(item) =>
        var id := InternShared(item);
        if id.Err? { return id; }
        ItemReady(terms, id.value, item);
        r := InternLayer(SetTerm(id.value), SetTerm(item));
    }

    method InternUnion(members: seq<Type>) returns (r: Result<nat>)
      requires Valid()
      modifies this
      ensures Grew(old(terms), old(memory))
      ensures Gives(r, Union(members))
      decreases members, 2
    {
      var ids := InternAll(members);
      if ids.Err? { return Err(ids.message); }
      UnionReady(terms, ids.value, members);
      r := InternLayer(UnionTerm(ids.value), UnionTerm(members));
    }

    method InternFunction(args: seq<Type>, mode: FlowMode, result: Type) returns (r: Result<nat>)
      requires Valid()
      modifies this
      ensures Grew(old(terms), old(memory))
      ensures Gives(r, Function(args, mode, result))
      decreases Function(args, mode, result), 0
    {
      var ids := InternAll(args);
      if ids.Err? { return Err(ids.message); }
      ghost var was := terms;
      var id := InternType(result);
      if id.Err? { return id; }
      FunctionReady(was, terms, ids.value, args, mode, id.value, result);
      r := InternLayer(FunctionTerm(ids.value, mode, id.value), FunctionTerm(args, mode, result));
    }

    method InternMap(key: Type, value: Type) returns (r: Result<nat>)
      requires Valid()
      modifies this
      ensures Grew(old(terms), old(memory))
      ensures Gives(r, Map(key, value))
      decreases Map(key, value), 0
    {
      var ids := InternEntry(key, value);
      if ids.Err? { return Err(ids.message); }
      r := InternLayer(MapTerm(ids.value.0, ids.value.1), MapTerm(key, value));
    }

    /** Interns the key and the value of a map. */
    method InternEntry(key: Type, value: Type) returns (r: Result<(nat, nat)>)
      requires Valid()
      modifies this
      ensures Grew(old(terms), old(memory))
      ensures if r.Ok? then Valid() && Ready(terms, MapTerm(r.value.0, r.value.1), MapTerm(key, value)) else Blocked()
      ensures Build(MapTerm(key, value)) == Map(key, value)
      decreases Map(key, value), -1
    {
      var keyId := InternType(key);
      if keyId.Err? { return Err(keyId.message); }
      ghost var was := terms;
      var valueId := InternType(value);
      if valueId.Err? { return Err(valueId.message); }
      MapReady(was, terms, keyId.value, key, valueId.value, value);
      return Ok((keyId.value, valueId.value));
    }

    method InternAll(types: seq<Type>) returns (r: Result<seq<nat>>)
      requires Valid()
      modifies this
      ensures Grew(old(terms), old(memory))
      ensures if r.Ok? then Valid() && AllInterned(terms, r.value, types) else Blocked()
      decreases types, 1
    {
      var ids: seq<nat> := [];
      for i := 0 to |types|
        invariant Valid() && old(terms) <= terms && Remembers(old(memory), memory)
        invariant AllInterned(terms, ids, types[..i])
      {
        ghost var was := terms;
        var id := InternType(types[i]);
        if id.Err? { return Err(id.message); }
        AllInternedStable(was, terms, ids, types[..i]);
        ids := ids + [id.value];
      }
      assert types[..|types|] == types;
      return Ok(ids);
    }

    /** The item of a list or set, looked up by its address first. */
    method InternShared(item: Type) returns (r: Result<nat>)
      requires Valid()
      modifies this
      ensures Grew(old(terms), old(memory))
      ensures Gives(r, item)
      decreases item, 2
    {
      var address := AddressOf(item);
      if address in sharedTypes {
        assert CachedAt(terms, sharedTypes, memory, address);
        return Ok(sharedTypes[address]);
      }
      r := InternType(item);
      if r.Ok? {
        CacheAdd(terms, sharedTypes, memory, address, r.value);
        sharedTypes := sharedTypes[address := r.value];
      }
    }

    method InternObjectShape(shape: ObjectShape) returns (r: Result<nat>)
      requires Valid()
      modifies this
      ensures Grew(old(terms), old(memory))
      ensures Gives(r, Object(shape))
      decreases shape, 2
    {
      var address := AddressOf(Object(shape));
      if address in sharedObjects {
        assert CachedAt(terms, sharedObjects, memory, address);
        return Ok(sharedObjects[address]);
      }
      r := InternObjectFields(shape);
      if r.Ok? {
        CacheAdd(terms, sharedObjects, memory, address, r.value);
        sharedObjects := sharedObjects[address := r.value];
      }
    }

    /** Interns the fields of an object by ascending name, then the object. */
    method InternObjectFields(shape: ObjectShape) returns (r: Result<nat>)
      requires Valid()
      modifies this
      ensures Grew(old(terms), old(memory))
      ensures Gives(r, Object(shape))
      decreases shape, 1
    {
      var names := AscendingNames(shape.fields.Keys);
      var fields := InternFields(shape, names);
      if fields.Err? { return Err(fields.message); }
      ObjectLayer(terms, shape, names, fields.value);
      r := InternLayer(ObjectTerm(fields.value, shape.fieldOrder, shape.open),
                       ObjectTerm(FieldLayer(shape, names), shape.fieldOrder, shape.open));
    }

    method InternFields(shape: ObjectShape, names: seq<Name>) returns (r: Result<seq<FieldTerm<nat>>>)
      requires forall name | name in names :: name in shape.fields
      requires Valid()
      modifies this
      ensures Grew(old(terms), old(memory))
      ensures if r.Ok? then Valid() && FieldsInterned(terms, r.value, FieldLayer(shape, names)) else Blocked()
      decreases shape, 0
    {
      var fields: seq<FieldTerm<nat>> := [];
      for i := 0 to |names|
        invariant Valid() && old(terms) <= terms && Remembers(old(memory), memory)
        invariant FieldsInterned(terms, fields, FieldLayer(shape, names)[..i])
      {
        ghost var was := terms;
        var id := InternType(shape.fields[names[i]]);
        if id.Err? { return Err(id.message); }
        FieldsStable(was, terms, fields, FieldLayer(shape, names)[..i]);
        fields := fields + [FieldTerm(names[i], id.value)];
      }
      assert FieldLayer(shape, names)[..|names|] == FieldLayer(shape, names);
      return Ok(fields);
    }

    method InternVariantList(variants: seq<Variant>) returns (r: Result<seq<VariantTerm<nat>>>)
      requires Valid()
      modifies this
      ensures Grew(old(terms), old(memory))
      ensures if r.Ok? then Valid() && VariantsInterned(terms, r.value, variants) else Blocked()
      decreases variants, 0
    {
      var found: seq<VariantTerm<nat>> := [];
      for i := 0 to |variants|
        invariant Valid() && old(terms) <= terms && Remembers(old(memory), memory)
        invariant VariantsInterned(terms, found, variants[..i])
      {
        match variants[i]
        case Tag(tag) => found := found + [TagTerm(tag)];
        case Tagged(tag, payload) =>
          ghost var was := terms;
          var id := InternObjectShape(payload);
          if id.Err? { return Err(id.message); }
          VariantsStable(was, terms, found, variants[..i]);
          found := found + [TaggedTerm(tag, id.value)];
      }
      assert variants[..|variants|] == variants;
      return Ok(found);
    }

    method InternVariants(variants: seq<Variant>) returns (r: Result<nat>)
      requires Valid()
      modifies this
      ensures Grew(old(terms), old(memory))
      ensures Gives(r, VariantSet(variants))
      decreases variants, 2
    {
      var address := AddressOf(VariantSet(variants));
      if address in sharedVariants {
        assert CachedAt(terms, sharedVariants, memory, address);
        return Ok(sharedVariants[address]);
      }
      r := InternVariantSet(variants);
      if r.Ok? {
        CacheAdd(terms, sharedVariants, memory, address, r.value);
        sharedVariants := sharedVariants[address := r.value];
      }
    }

    /** Interns the payloads of the variants in order, then the set. */
    method InternVariantSet(variants: seq<Variant>) returns (r: Result<nat>)
      requires Valid()
      modifies this
      ensures Grew(old(terms), old(memory))
      ensures Gives(r, VariantSet(variants))
      decreases variants, 1
    {
      var found := InternVariantList(variants);
      if found.Err? { return Err(found.message); }
      VariantsLayer(terms, found.value, variants);
      r := InternLayer(VariantSetTerm(found.value),
                       VariantSetTerm(seq(|variants|, i requires 0 <= i < |variants| => VariantLayer(variants[i]))));
    }
  }

  /** Nodes stay where they are. */
  ghost predicate Remembers(a: map<nat, Type>, b: map<nat, Type>) {
    forall k | k in a :: k in b && b[k] == a[k]
  }

  /** A term of a layer that was ready before means what the layer builds. */
  lemma {:induction false} LayerGiven<D(!new)>(was: seq<Term<D>>, terms: seq<Term<D>>, kind: Kind<nat>,
      layer: Kind<Type>, id: nat)
    requires was <= terms && Ready(was, kind, layer) && Backward(terms) && id < |terms| && terms[id].kind == kind
    ensures Interned(terms, id, Build(layer))
  {
    LayerStable(was, terms, kind);
    LayerInterned(terms, id, layer);
  }

  lemma {:induction false} LayerStable<D(!new)>(a: seq<Term<D>>, b: seq<Term<D>>, k: Kind<nat>)
    requires a <= b && Tidy(a, k) && forall c: nat | Part(k, c) :: Canonical(a, c)
    ensures Tidy(b, k) && (forall c: nat | Part(k, c) :: Canonical(b, c))
    ensures MapKind(k, MeaningOf(b)) == MapKind(k, MeaningOf(a))
  {
    forall c: nat | Part(k, c) ensures Canonical(b, c) && Meaning(b, c) == Meaning(a, c) {
      CanonicalStable(a, b, c);
      MeaningStable(a, b, c);
    }
    MapKindAgree(k, MeaningOf(a), MeaningOf(b));
  }
}
