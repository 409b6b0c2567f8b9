/** Checked types, and the replacement of their variables. */
module Types {
  import Bytes
  import Sorting

  /** A name is the bytes of its text. */
  type Name = seq<Bytes.Byte>

  type TypeVar = nat

  datatype FlowMode = Continuous | TickPresent | PresentOrAbsent | NeverPresent

  datatype BytesType = Dynamic | Fixed(length: nat)

  datatype Type =
    | Text
    | Number
    | Bytes(kind: BytesType)
    | Absent
    | VariantSet(variants: seq<Variant>)
    | Object(shape: ObjectShape)
    | RenderContract
    | List(item: Type)
    | Function(args: seq<Type>, mode: FlowMode, result: Type)
    | UnresolvedShape(reason: string)
    | Var(variable: TypeVar)
    | Unknown
    | Union(members: seq<Type>)
    | Map(key: Type, value: Type)
    | Set(item: Type)
    | Bits(width: nat)

  datatype Variant = Tag(tag: Name) | Tagged(tag: Name, payload: ObjectShape)

  datatype ObjectShape = ObjectShape(fields: map<Name, Type>, fieldOrder: seq<Name>, open: bool)

  // ---------- Replacing variables ----------

  /** `ty` with every variable `v` replaced by `f(v)`, and nothing else changed. */
  function Replace(ty: Type, f: TypeVar -> Type): Type
    decreases ty
  {
    match ty
    case Var(v) => f(v)
    case List(item) => List(Replace(item, f))
    case Set(item) => Set(Replace(item, f))
    case Map(key, value) => Map(Replace(key, f), Replace(value, f))
    case Function(args, mode, result) => Function(ReplaceAll(args, f), mode, Replace(result, f))
    case Object(shape) => Object(ReplaceShape(shape, f))
    case VariantSet(variants) =>
      VariantSet(seq(|variants|, i requires 0 <= i < |variants| => ReplaceVariant(variants[i], f)))
    case Union(members) => Union(ReplaceAll(members, f))
    case _ => ty
  }

  function ReplaceAll(types: seq<Type>, f: TypeVar -> Type): (r: seq<Type>)
    ensures |r| == |types|
    ensures forall i | 0 <= i < |types| :: r[i] == Replace(types[i], f)
    decreases types
  {
    seq(|types|, i requires 0 <= i < |types| => Replace(types[i], f))
  }

  function ReplaceShape(shape: ObjectShape, f: TypeVar -> Type): ObjectShape
    decreases shape
  {
    shape.(fields := map name | name in shape.fields :: Replace(shape.fields[name], f))
  }

  function ReplaceVariant(variant: Variant, f: TypeVar -> Type): Variant
    decreases variant
  {
    match variant
    case Tag(_) => variant
    case Tagged(tag, payload) => Tagged(tag, ReplaceShape(payload, f))
  }

  /** Variable `v` occurs in `ty`. */
  ghost predicate Occurs(ty: Type, v: TypeVar)
    decreases ty
  {
    match ty
    case Var(u) => u == v
    case List(item) => Occurs(item, v)
    case Set(item) => Occurs(item, v)
    case Map(key, value) => Occurs(key, v) || Occurs(value, v)
    case Function(args, _, result) => (exists i | 0 <= i < |args| :: Occurs(args[i], v)) || Occurs(result, v)
    case Object(shape) => OccursShape(shape, v)
    case VariantSet(variants) =>
      exists i | 0 <= i < |variants| :: variants[i].Tagged? && OccursShape(variants[i].payload, v)
    case Union(members) => exists i | 0 <= i < |members| :: Occurs(members[i], v)
    case _ => false
  }

  ghost predicate OccursShape(shape: ObjectShape, v: TypeVar)
    decreases shape
  {
    exists name | name in shape.fields :: Occurs(shape.fields[name], v)
  }

  // ---------- Laws ----------

  function Then(f: TypeVar -> Type, g: TypeVar -> Type): TypeVar -> Type { (v: TypeVar) => Replace(f(v), g) }

  function Itself(): TypeVar -> Type { (v: TypeVar) => Var(v) }

  /** Replacing twice is replacing once by what the second makes of the first. */
  lemma {:induction false} ReplaceTwice(ty: Type, f: TypeVar -> Type, g: TypeVar -> Type)
    ensures Replace(Replace(ty, f), g) == Replace(ty, Then(f, g))
    decreases ty
  {
    match ty
    case List(item) => ReplaceTwice(item, f, g);
    case Set(item) => ReplaceTwice(item, f, g);
    case Map(key, value) => ReplaceTwice(key, f, g); ReplaceTwice(value, f, g);
    case Function(args, _, result) => ReplaceAllTwice(args, f, g); ReplaceTwice(result, f, g);
    case Object(shape) => ReplaceShapeTwice(shape, f, g);
    case VariantSet(variants) =>
      forall i | 0 <= i < |variants|
        ensures ReplaceVariant(ReplaceVariant(variants[i], f), g) == ReplaceVariant(variants[i], Then(f, g))
      {
        if variants[i].Tagged? { ReplaceShapeTwice(variants[i].payload, f, g); }
      }
    case Union(members) => ReplaceAllTwice(members, f, g);
    case _ =>
  }

  lemma {:induction false} ReplaceAllTwice(types: seq<Type>, f: TypeVar -> Type, g: TypeVar -> Type)
    ensures ReplaceAll(ReplaceAll(types, f), g) == ReplaceAll(types, Then(f, g))
    decreases types
  {
    forall i | 0 <= i < |types| ensures Replace(Replace(types[i], f), g) == Replace(types[i], Then(f, g)) {
      ReplaceTwice(types[i], f, g);
    }
  }

  lemma {:induction false} ReplaceShapeTwice(shape: ObjectShape, f: TypeVar -> Type, g: TypeVar -> Type)
    ensures ReplaceShape(ReplaceShape(shape, f), g) == ReplaceShape(shape, Then(f, g))
    decreases shape
  {
    forall name | name in shape.fields
      ensures Replace(Replace(shape.fields[name], f), g) == Replace(shape.fields[name], Then(f, g))
    {
      ReplaceTwice(shape.fields[name], f, g);
    }
  }

  /** Only the variables that occur matter. */
  lemma {:induction false} ReplaceAgree(ty: Type, f: TypeVar -> Type, g: TypeVar -> Type)
    requires forall v | Occurs(ty, v) :: f(v) == g(v)
    ensures Replace(ty, f) == Replace(ty, g)
    decreases ty
  {
    match ty
    case Var(v) => assert Occurs(ty, v);
    case List(item) => assert forall v | Occurs(item, v) :: Occurs(ty, v); ReplaceAgree(item, f, g);
    case Set(item) => assert forall v | Occurs(item, v) :: Occurs(ty, v); ReplaceAgree(item, f, g);
    case Map(key, value) =>
      assert forall v | Occurs(key, v) || Occurs(value, v) :: Occurs(ty, v);
      ReplaceAgree(key, f, g);
      ReplaceAgree(value, f, g);
    case Function(args, _, result) =>
      forall i | 0 <= i < |args| ensures Replace(args[i], f) == Replace(args[i], g) {
        assert forall v | Occurs(args[i], v) :: Occurs(ty, v);
        ReplaceAgree(args[i], f, g);
      }
      assert ReplaceAll(args, f) == ReplaceAll(args, g);
      assert forall v | Occurs(result, v) :: Occurs(ty, v);
      ReplaceAgree(result, f, g);
    case Object(shape) =>
      assert forall v | OccursShape(shape, v) :: Occurs(ty, v);
      ReplaceShapeAgree(shape, f, g);
    case VariantSet(variants) =>
      forall i | 0 <= i < |variants| ensures ReplaceVariant(variants[i], f) == ReplaceVariant(variants[i], g) {
        if variants[i].Tagged? {
          assert forall v | OccursShape(variants[i].payload, v) :: Occurs(ty, v);
          ReplaceShapeAgree(variants[i].payload, f, g);
        }
      }
    case Union(members) =>
      forall i | 0 <= i < |members| ensures Replace(members[i], f) == Replace(members[i], g) {
        assert forall v | Occurs(members[i], v) :: Occurs(ty, v);
        ReplaceAgree(members[i], f, g);
      }
      assert ReplaceAll(members, f) == ReplaceAll(members, g);
    case _ =>
  }

  lemma {:induction false} ReplaceShapeAgree(shape: ObjectShape, f: TypeVar -> Type, g: TypeVar -> Type)
    requires forall v | OccursShape(shape, v) :: f(v) == g(v)
    ensures ReplaceShape(shape, f) == ReplaceShape(shape, g)
    decreases shape
  {
    forall name | name in shape.fields ensures Replace(shape.fields[name], f) == Replace(shape.fields[name], g) {
      assert forall v | Occurs(shape.fields[name], v) :: OccursShape(shape, v);
      ReplaceAgree(shape.fields[name], f, g);
    }
  }

  /** Replacing every variable that occurs by itself changes nothing. */
  lemma {:induction false} ReplaceIdentity(ty: Type, f: TypeVar -> Type)
    requires forall v | Occurs(ty, v) :: f(v) == Var(v)
    ensures Replace(ty, f) == ty
  {
    ReplaceAgree(ty, f, Itself());
    ReplaceSelf(ty);
  }

  lemma {:induction false} ReplaceSelf(ty: Type)
    ensures Replace(ty, Itself()) == ty
    decreases ty
  {
    match ty
    case List(item) => ReplaceSelf(item);
    case Set(item) => ReplaceSelf(item);
    case Map(key, value) => ReplaceSelf(key); ReplaceSelf(value);
    case Function(args, _, result) => ReplaceAllSelf(args); ReplaceSelf(result);
    case Object(shape) => ReplaceShapeSelf(shape);
    case VariantSet(variants) =>
      forall i | 0 <= i < |variants| ensures ReplaceVariant(variants[i], Itself()) == variants[i] {
        if variants[i].Tagged? { ReplaceShapeSelf(variants[i].payload); }
      }
    case Union(members) => ReplaceAllSelf(members);
    case _ =>
  }

  lemma {:induction false} ReplaceAllSelf(types: seq<Type>)
    ensures ReplaceAll(types, Itself()) == types
    decreases types
  {
    forall i | 0 <= i < |types| ensures Replace(types[i], Itself()) == types[i] { ReplaceSelf(types[i]); }
  }

  lemma {:induction false} ReplaceShapeSelf(shape: ObjectShape)
    ensures ReplaceShape(shape, Itself()) == shape
    decreases shape
  {
    forall name | name in shape.fields ensures Replace(shape.fields[name], Itself()) == shape.fields[name] {
      ReplaceSelf(shape.fields[name]);
    }
  }

  /** A replacement that changes nothing keeps every variable that occurs. */
  lemma {:induction false} ReplaceFixed(ty: Type, f: TypeVar -> Type)
    requires Replace(ty, f) == ty
    ensures forall v: TypeVar | Occurs(ty, v) :: f(v) == Var(v)
    decreases ty
  {
    match ty
    case List(item) => ReplaceFixed(item, f);
    case Set(item) => ReplaceFixed(item, f);
    case Map(key, value) => ReplaceFixed(key, f); ReplaceFixed(value, f);
    case Function(args, _, result) =>
      ReplaceAllFixed(args, f);
      ReplaceFixed(result, f);
    case Object(shape) => ReplaceShapeFixed(shape, f);
    case VariantSet(variants) =>
      forall i | 0 <= i < |variants| && variants[i].Tagged?
        ensures forall v: TypeVar | OccursShape(variants[i].payload, v) :: f(v) == Var(v)
      {
        assert Replace(ty, f).variants[i] == ReplaceVariant(variants[i], f);
        ReplaceShapeFixed(variants[i].payload, f);
      }
    case Union(members) => ReplaceAllFixed(members, f);
    case _ =>
  }

  lemma {:induction false} ReplaceAllFixed(types: seq<Type>, f: TypeVar -> Type)
    requires ReplaceAll(types, f) == types
    ensures forall i, v: TypeVar | 0 <= i < |types| && Occurs(types[i], v) :: f(v) == Var(v)
    decreases types
  {
    forall i | 0 <= i < |types| ensures forall v: TypeVar | Occurs(types[i], v) :: f(v) == Var(v) {
      assert ReplaceAll(types, f)[i] == Replace(types[i], f);
      ReplaceFixed(types[i], f);
    }
  }

  lemma {:induction false} ReplaceShapeFixed(shape: ObjectShape, f: TypeVar -> Type)
    requires ReplaceShape(shape, f) == shape
    ensures forall v: TypeVar | OccursShape(shape, v) :: f(v) == Var(v)
    decreases shape
  {
    forall name | name in shape.fields ensures forall v: TypeVar | Occurs(shape.fields[name], v) :: f(v) == Var(v) {
      assert ReplaceShape(shape, f).fields[name] == Replace(shape.fields[name], f);
      ReplaceFixed(shape.fields[name], f);
    }
  }

  // ---------- Order of names ----------

  predicate NameLeq(a: Name, b: Name) { Bytes.LexLeq(a, b) }

  lemma {:induction false} NameOrder()
    ensures Sorting.Total(NameLeq)
  {
    forall a: Name, b: Name ensures NameLeq(a, b) || NameLeq(b, a) { Bytes.CompareEqual(a, b); }
    forall a: Name, b: Name | NameLeq(a, b) && NameLeq(b, a) ensures a == b { Bytes.CompareEqual(a, b); }
    forall a: Name, b: Name, c: Name | NameLeq(a, b) && NameLeq(b, c) ensures NameLeq(a, c) {
      Bytes.LexTransitive(a, b, c);
    }
  }

  /** All elements of a set of names, ascending. */
  method AscendingNames(names: set<Name>) returns (r: seq<Name>)
    ensures Sorting.StrictlySorted(r, NameLeq) && forall name :: name in r <==> name in names
  {
    var list: seq<Name> := [];
    var rest := names;
    while rest != {}
      invariant rest <= names && forall name :: name in list <==> name in names - rest
    {
      var name :| name in rest;
      list, rest := list + [name], rest - {name};
    }
    NameOrder();
    Sorting.SortSorted(list, NameLeq);
    Sorting.SameElements(list, Sorting.Sort(list, NameLeq));
    Sorting.DedupStrict(Sorting.Sort(list, NameLeq), NameLeq);
    r := Sorting.Dedup(Sorting.Sort(list, NameLeq));
  }
}
