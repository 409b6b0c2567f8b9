/** Terms of the type arena: one layer of a type whose parts are references, and what a table of
    terms means. */
module TypeTerms {
  import opened Types
  import Sorting
  import Erasure

  datatype VariantTerm<C> = TagTerm(tag: Name) | TaggedTerm(tag: Name, payload: C)

  datatype FieldTerm<C> = FieldTerm(name: Name, ty: C)

  /** One layer of a type, over any kind of reference to its parts. */
  datatype Kind<C> =
    | TextTerm
    | NumberTerm
    | BytesTerm(size: BytesType)
    | AbsentTerm
    | VariantSetTerm(variants: seq<VariantTerm<C>>)
    | ObjectTerm(fields: seq<FieldTerm<C>>, fieldOrder: seq<Name>, open: bool)
    | RenderContractTerm
    | ListTerm(item: C)
    | FunctionTerm(args: seq<C>, mode: FlowMode, result: C)
    | UnresolvedShapeTerm(reason: string)
    | VariableTerm(ordinal: TypeVar)
    | UnknownTerm
    | UnionTerm(members: seq<C>)
    | MapTerm(key: C, value: C)
    | SetTerm(item: C)
    | BitsTerm(width: nat)

  datatype Term<D> = Term(kind: Kind<nat>, digest: D, containsVariable: bool, runtimeErased: nat)

  // ---------- Layers ----------

  function MapAll<A, B>(s: seq<A>, f: A -> B): (r: seq<B>)
    ensures |r| == |s| && forall i | 0 <= i < |s| :: r[i] == f(s[i])
  {
    seq(|s|, i requires 0 <= i < |s| => f(s[i]))
  }

  function MapVariant<A, B>(v: VariantTerm<A>, f: A -> B): VariantTerm<B> {
    match v case TagTerm(tag) => TagTerm(tag) case TaggedTerm(tag, payload) => TaggedTerm(tag, f(payload))
  }

  function MapVariants<A, B>(variants: seq<VariantTerm<A>>, f: A -> B): (r: seq<VariantTerm<B>>)
    ensures |r| == |variants| && forall i | 0 <= i < |variants| :: r[i] == MapVariant(variants[i], f)
  {
    seq(|variants|, i requires 0 <= i < |variants| => MapVariant(variants[i], f))
  }

  function MapFields<A, B>(fields: seq<FieldTerm<A>>, f: A -> B): (r: seq<FieldTerm<B>>)
    ensures |r| == |fields| && forall i | 0 <= i < |fields| :: r[i] == FieldTerm(fields[i].name, f(fields[i].ty))
  {
    seq(|fields|, i requires 0 <= i < |fields| => FieldTerm(fields[i].name, f(fields[i].ty)))
  }

  /** The layer with every part replaced. */
  function MapKind<A, B>(k: Kind<A>, f: A -> B): Kind<B> {
    match k
    case TextTerm => TextTerm
    case NumberTerm => NumberTerm
    case BytesTerm(size) => BytesTerm(size)
    case AbsentTerm => AbsentTerm
    case VariantSetTerm(variants) => VariantSetTerm(MapVariants(variants, f))
    case ObjectTerm(fields, fieldOrder, open) =>
      ObjectTerm(MapFields(fields, f), fieldOrder, open)
    case RenderContractTerm => RenderContractTerm
    case ListTerm(item) => ListTerm(f(item))
    case FunctionTerm(args, mode, result) => FunctionTerm(MapAll(args, f), mode, f(result))
    case UnresolvedShapeTerm(reason) => UnresolvedShapeTerm(reason)
    case VariableTerm(ordinal) => VariableTerm(ordinal)
    case UnknownTerm => UnknownTerm
    case UnionTerm(members) => UnionTerm(MapAll(members, f))
    case MapTerm(key, value) => MapTerm(f(key), f(value))
    case SetTerm(item) => SetTerm(f(item))
    case BitsTerm(width) => BitsTerm(width)
  }

  /** `c` is a part of the layer. */
  predicate Part<C(==)>(k: Kind<C>, c: C) {
    match k
    case VariantSetTerm(variants) => exists i | 0 <= i < |variants| ::
        variants[i].TaggedTerm? && variants[i].payload == c
    case ObjectTerm(fields, _, _) => exists i | 0 <= i < |fields| :: fields[i].ty == c
    case ListTerm(item) => item == c
    case FunctionTerm(args, _, result) => c in args || result == c
    case UnionTerm(members) => c in members
    case MapTerm(key, value) => key == c || value == c
    case SetTerm(item) => item == c
    case _ => false
  }

  /** Only what happens to the parts matters. */
  lemma {:induction false} MapKindAgree<A, B>(k: Kind<A>, f: A -> B, g: A -> B)
    requires forall c | Part(k, c) :: f(c) == g(c)
    ensures MapKind(k, f) == MapKind(k, g)
  {
    match k
    case VariantSetTerm(variants) =>
      forall i | 0 <= i < |variants| ensures MapVariant(variants[i], f) == MapVariant(variants[i], g) {
        if variants[i].TaggedTerm? { assert Part(k, variants[i].payload); }
      }
    case ObjectTerm(fields, _, _) =>
      forall i | 0 <= i < |fields| ensures f(fields[i].ty) == g(fields[i].ty) { assert Part(k, fields[i].ty); }
    case FunctionTerm(args, _, result) =>
      assert Part(k, result);
      forall i | 0 <= i < |args| ensures f(args[i]) == g(args[i]) { assert Part(k, args[i]); }
    case UnionTerm(members) =>
      forall i | 0 <= i < |members| ensures f(members[i]) == g(members[i]) { assert Part(k, members[i]); }
    case MapTerm(key, value) => assert Part(k, key) && Part(k, value);
    case ListTerm(item) => assert Part(k, item);
    case SetTerm(item) => assert Part(k, item);
    case _ =>
  }

  function Compose<A, B, C>(f: A -> B, g: B -> C): A -> C { (a: A) => g(f(a)) }

  lemma {:induction false} MapKindTwice<A, B, C>(k: Kind<A>, f: A -> B, g: B -> C)
    ensures MapKind(MapKind(k, f), g) == MapKind(k, Compose(f, g))
  {
  }

  // ---------- Types as layers ----------

  function Payload(ty: Type): ObjectShape { if ty.Object? then ty.shape else ObjectShape(map[], [], false) }

  /** Fields in order, a later one of the same name winning. */
  function FieldMap(fields: seq<FieldTerm<Type>>): (r: map<Name, Type>) {
    if fields == [] then map[]
    else
      var last := fields[|fields| - 1];
      FieldMap(fields[..|fields| - 1])[last.name := last.ty]
  }

  function Names<C>(fields: seq<FieldTerm<C>>): seq<Name> {
    seq(|fields|, i requires 0 <= i < |fields| => fields[i].name)
  }

  lemma {:induction false} FieldMapKeys(fields: seq<FieldTerm<Type>>)
    ensures forall name :: name in FieldMap(fields) <==> name in Names(fields)
    decreases |fields|
  {
    if fields != [] {
      var init, last := fields[..|fields| - 1], fields[|fields| - 1];
      FieldMapKeys(init);
      assert Names(fields) == Names(init) + [last.name];
    }
  }

  /** Without repeated names every field counts. */
  lemma {:induction false} FieldMapAt(fields: seq<FieldTerm<Type>>, i: nat)
    requires i < |fields| && forall j | i < j < |fields| :: fields[j].name != fields[i].name
    ensures fields[i].name in FieldMap(fields) && FieldMap(fields)[fields[i].name] == fields[i].ty
    decreases |fields|
  {
    if i < |fields| - 1 { FieldMapAt(fields[..|fields| - 1], i); }
  }

  function BuildVariant(v: VariantTerm<Type>): Variant {
    match v case TagTerm(tag) => Tag(tag) case TaggedTerm(tag, payload) => Tagged(tag, Payload(payload))
  }

  /** The type with this layer on top. */
  function Build(k: Kind<Type>): Type {
    match k
    case TextTerm => Text
    case NumberTerm => Number
    case BytesTerm(size) => Types.Bytes(size)
    case AbsentTerm => Absent
    case VariantSetTerm(variants) => VariantSet(seq(|variants|,
        i requires 0 <= i < |variants| => BuildVariant(variants[i])))
    case ObjectTerm(fields, fieldOrder, open) => Object(ObjectShape(FieldMap(fields), fieldOrder, open))
    case RenderContractTerm => RenderContract
    case ListTerm(item) => List(item)
    case FunctionTerm(args, mode, result) => Function(args, mode, result)
    case UnresolvedShapeTerm(reason) => UnresolvedShape(reason)
    case VariableTerm(ordinal) => Var(ordinal)
    case UnknownTerm => Unknown
    case UnionTerm(members) => Union(members)
    case MapTerm(key, value) => Map(key, value)
    case SetTerm(item) => Set(item)
    case BitsTerm(width) => Bits(width)
  }

  // ---------- Meaning of a table ----------

  function Meaning<D>(terms: seq<Term<D>>, id: nat): Type
    decreases id, 1
  {
    if id < |terms| then Build(MapKind(terms[id].kind, Below(terms, id))) else Unknown
  }

  function Below<D>(terms: seq<Term<D>>, id: nat): nat -> Type
    decreases id, 0
  {
    (c: nat) => if c < id then Meaning(terms, c) else Unknown
  }

  /** Every term refers to earlier terms only. */
  ghost predicate Backward<D>(terms: seq<Term<D>>) {
    forall i, c: nat | 0 <= i < |terms| && Part(terms[i].kind, c) :: c < i
  }

  /** Nothing but `runtimeErased` of the old terms may differ, and there may be more. */
  ghost predicate Extends<D>(a: seq<Term<D>>, b: seq<Term<D>>) {
    |a| <= |b| && forall i | 0 <= i < |a| ::
      b[i].kind == a[i].kind && b[i].digest == a[i].digest && b[i].containsVariable == a[i].containsVariable
  }

  /** Adding terms keeps the meaning of those that were there. */
  lemma {:induction false} MeaningStable<D>(a: seq<Term<D>>, b: seq<Term<D>>, id: nat)
    requires Extends(a, b) && id < |a|
    ensures Meaning(b, id) == Meaning(a, id)
    decreases id
  {
    forall c: nat ensures Below(a, id)(c) == Below(b, id)(c) {
      if c < id { MeaningStable(a, b, c); }
    }
    MapKindAgree(a[id].kind, Below(a, id), Below(b, id));
  }

  /** Every tagged variant under `id` refers to an object. */
  ghost predicate Sound<D>(terms: seq<Term<D>>, id: nat)
    decreases id
  {
    && id < |terms|
    && (forall c: nat | Part(terms[id].kind, c) :: c < id && Sound(terms, c))
    && (terms[id].kind.VariantSetTerm? ==>
          forall i | 0 <= i < |terms[id].kind.variants| && terms[id].kind.variants[i].TaggedTerm? ::
            var c := terms[id].kind.variants[i].payload; c < |terms| && terms[c].kind.ObjectTerm?)
  }

  // ---------- Erasing a layer ----------

  function EraseAll(): Type -> Type { (ty: Type) => Erasure.Erased(ty) }

  lemma {:induction false} FieldMapErased(fields: seq<FieldTerm<Type>>)
    ensures FieldMap(MapFields(fields, EraseAll())) ==
            map name | name in FieldMap(fields) :: Erasure.Erased(FieldMap(fields)[name])
    decreases |fields|
  {
    if fields != [] {
      var init := fields[..|fields| - 1];
      FieldMapErased(init);
      assert MapFields(fields, EraseAll())[..|fields| - 1] == MapFields(init, EraseAll());
    }
  }

  /** Erasing a type is erasing its parts, unless it is a variable itself. */
  lemma {:induction false} ErasedBuild(k: Kind<Type>)
    requires !k.VariableTerm?
    ensures Erasure.Erased(Build(k)) == Build(MapKind(k, EraseAll()))
  {
    match k
    case VariantSetTerm(variants) => ErasedVariants(variants);
    case ObjectTerm(fields, fieldOrder, open) => ErasedObject(fields, fieldOrder, open);
    case FunctionTerm(args, _, _) => assert ReplaceAll(args, Erasure.AllUnknown()) == MapAll(args, EraseAll());
    case UnionTerm(members) => assert ReplaceAll(members, Erasure.AllUnknown()) == MapAll(members, EraseAll());
    case _ =>
  }

  lemma {:induction false} ErasedVariants(variants: seq<VariantTerm<Type>>)
    ensures var k := VariantSetTerm(variants); Erasure.Erased(Build(k)) == Build(MapKind(k, EraseAll()))
  {
    forall i | 0 <= i < |variants|
      ensures ReplaceVariant(BuildVariant(variants[i]), Erasure.AllUnknown()) ==
          BuildVariant(MapVariant(variants[i], EraseAll()))
    {
      if variants[i].TaggedTerm? { PayloadErased(variants[i].payload); }
    }
  }

  lemma {:induction false} ErasedObject(fields: seq<FieldTerm<Type>>, fieldOrder: seq<Name>, open: bool)
    ensures var k := ObjectTerm(fields, fieldOrder, open); Erasure.Erased(Build(k)) == Build(MapKind(k, EraseAll()))
  {
    FieldMapErased(fields);
    var k := ObjectTerm(fields, fieldOrder, open);
    assert ReplaceShape(Build(k).shape, Erasure.AllUnknown()).fields == FieldMap(MapFields(fields, EraseAll()));
  }

  lemma {:induction false} PayloadErased(ty: Type)
    ensures Payload(Erasure.Erased(ty)) == ReplaceShape(Payload(ty), Erasure.AllUnknown())
  {
  }

  // ---------- Canonical terms ----------

  /** Fields by ascending name, and payloads that are objects. */
  ghost predicate Tidy<D>(terms: seq<Term<D>>, k: Kind<nat>) {
    match k
    case ObjectTerm(fields, _, _) => Sorting.StrictlySorted(Names(fields), NameLeq)
    case VariantSetTerm(variants) =>
      forall i | 0 <= i < |variants| && variants[i].TaggedTerm? ::
        variants[i].payload < |terms| && terms[variants[i].payload].kind.ObjectTerm?
    case _ => true
  }

  /** A term as types are interned: tidy all the way down. */
  ghost predicate Canonical<D>(terms: seq<Term<D>>, id: nat)
    decreases id
  {
    id < |terms| && Tidy(terms, terms[id].kind)
      && forall c: nat | Part(terms[id].kind, c) :: c < id && Canonical(terms, c)
  }

  lemma {:induction false} CanonicalStable<D>(a: seq<Term<D>>, b: seq<Term<D>>, id: nat)
    requires Extends(a, b) && Canonical(a, id)
    ensures Canonical(b, id)
    decreases id
  {
    forall c: nat | Part(b[id].kind, c) ensures c < id && Canonical(b, c) { CanonicalStable(a, b, c); }
  }

  // ---------- Layers that build the same type ----------

  /** Object parts where payloads are due, and fields by ascending name. */
  ghost predicate TidyLayer(k: Kind<Type>) {
    match k
    case ObjectTerm(fields, _, _) => Sorting.StrictlySorted(Names(fields), NameLeq)
    case VariantSetTerm(variants) => forall i | 0 <= i < |variants| && variants[i].TaggedTerm? ::
        variants[i].payload.Object?
    case _ => true
  }

  lemma {:induction false} SortedDistinct(names: seq<Name>, i: nat, j: nat)
    requires Sorting.StrictlySorted(names, NameLeq) && i < j < |names|
    ensures names[i] != names[j]
  {
  }

  lemma {:induction false} SortedFieldAt(fields: seq<FieldTerm<Type>>, i: nat)
    requires Sorting.StrictlySorted(Names(fields), NameLeq) && i < |fields|
    ensures fields[i].name in FieldMap(fields) && FieldMap(fields)[fields[i].name] == fields[i].ty
  {
    forall j | i < j < |fields| ensures fields[j].name != fields[i].name { SortedDistinct(Names(fields), i, j); }
    FieldMapAt(fields, i);
  }

  lemma {:induction false} FieldMapInjective(a: seq<FieldTerm<Type>>, b: seq<FieldTerm<Type>>)
    requires Sorting.StrictlySorted(Names(a), NameLeq) && Sorting.StrictlySorted(Names(b), NameLeq)
    requires FieldMap(a) == FieldMap(b)
    ensures a == b
  {
    FieldMapKeys(a);
    FieldMapKeys(b);
    NameOrder();
    forall name ensures name in Names(a) <==> name in Names(b) { assert name in FieldMap(a) <==> name in FieldMap(b); }
    Sorting.StrictlySortedUnique(Names(a), Names(b), NameLeq);
    forall i | 0 <= i < |a| ensures a[i] == b[i] {
      assert Names(a)[i] == a[i].name && Names(b)[i] == b[i].name;
      SortedFieldAt(a, i);
      SortedFieldAt(b, i);
    }
    assert |Names(a)| == |a| && |Names(b)| == |b|;
  }

  /** Tidy layers that build the same type are the same. */
  lemma {:induction false} BuildInjective(a: Kind<Type>, b: Kind<Type>)
    requires TidyLayer(a) && TidyLayer(b) && Build(a) == Build(b)
    ensures a == b
  {
    match a
    case VariantSetTerm(variants) =>
      forall i | 0 <= i < |variants| ensures b.VariantSetTerm? && i < |b.variants| && variants[i] == b.variants[i] {
        assert Build(a).variants[i] == BuildVariant(variants[i]);
        assert Build(b).variants[i] == BuildVariant(b.variants[i]);
      }
      assert |Build(a).variants| == |Build(b).variants|;
    case ObjectTerm(fields, _, _) => FieldMapInjective(fields, b.fields);
    case _ =>
  }

  lemma {:induction false} FieldsContain(fields: seq<FieldTerm<Type>>, shape: ObjectShape)
    requires Sorting.StrictlySorted(Names(fields), NameLeq) && shape.fields == FieldMap(fields)
    ensures Erasure.ShapeContainsVar(shape) <==> exists i | 0 <= i < |fields| :: Erasure.ContainsVar(fields[i].ty)
  {
    FieldMapKeys(fields);
    if Erasure.ShapeContainsVar(shape) {
      var name :| name in shape.fields && Erasure.ContainsVar(shape.fields[name]);
      var i :| 0 <= i < |fields| && Names(fields)[i] == name;
      SortedFieldAt(fields, i);
    }
    if i :| 0 <= i < |fields| && Erasure.ContainsVar(fields[i].ty) { SortedFieldAt(fields, i); }
  }

  lemma {:induction false} VariantsContain(variants: seq<VariantTerm<Type>>, k: Kind<Type>)
    requires k == VariantSetTerm(variants) && TidyLayer(k)
    ensures Erasure.ContainsVar(Build(k)) <==>
            exists i | 0 <= i < |variants| :: variants[i].TaggedTerm? && Erasure.ContainsVar(variants[i].payload)
  {
    var built := Build(k).variants;
    forall i | 0 <= i < |variants|
      ensures built[i].Tagged? && Erasure.ShapeContainsVar(built[i].payload) <==>
              variants[i].TaggedTerm? && Erasure.ContainsVar(variants[i].payload)
    {
      assert built[i] == BuildVariant(variants[i]);
    }
  }

  /** A tidy layer contains a variable exactly when it is one or a part contains one. */
  lemma {:induction false} ContainsBuild(k: Kind<Type>)
    requires TidyLayer(k)
    ensures Erasure.ContainsVar(Build(k)) <==> k.VariableTerm? || exists c | Part(k, c) :: Erasure.ContainsVar(c)
  {
    match k
    case VariantSetTerm(variants) =>
      VariantsContain(variants, k);
      assert forall i | 0 <= i < |variants| && variants[i].TaggedTerm? :: Part(k, variants[i].payload);
    case ObjectTerm(fields, _, _) =>
      FieldsContain(fields, Build(k).shape);
      assert forall i | 0 <= i < |fields| :: Part(k, fields[i].ty);
    case FunctionTerm(args, _, result) =>
      assert Part(k, result);
      assert forall i | 0 <= i < |args| :: Part(k, args[i]);
    case UnionTerm(members) => assert forall i | 0 <= i < |members| :: Part(k, members[i]);
    case MapTerm(key, value) => assert Part(k, key) && Part(k, value);
    case ListTerm(item) => assert Part(k, item);
    case SetTerm(item) => assert Part(k, item);
    case _ =>
  }
}
