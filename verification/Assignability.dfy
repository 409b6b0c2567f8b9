/** Structural assignability of resolved types. */
module Assignability {
  import opened Types

  // ---------- Height ----------

  function Larger(a: nat, b: nat): nat { if a < b then b else a }

  ghost function MaxOf(s: set<nat>): (r: nat)
    ensures forall x | x in s :: x <= r
    decreases |s|
  {
    if s == {} then 0
    else
      var x :| x in s;
      assert s == (s - {x}) + {x};
      Larger(x, MaxOf(s - {x}))
  }

  /** How deep a type is nested. */
  ghost function Height(ty: Type): nat
    decreases ty
  {
    match ty
    case List(item) => 1 + Height(item)
    case Set(item) => 1 + Height(item)
    case Map(key, value) => 1 + Larger(Height(key), Height(value))
    case Function(args, _, result) => 1 + Larger(MaxHeight(args), Height(result))
    case Union(members) => 1 + MaxHeight(members)
    case Object(shape) => 1 + ShapeHeight(shape)
    case VariantSet(variants) => 1 + VariantsHeight(variants)
    case _ => 0
  }

  ghost function MaxHeight(types: seq<Type>): (r: nat)
    ensures forall i | 0 <= i < |types| :: Height(types[i]) <= r
    decreases types
  {
    if types == [] then 0
    else
      assert forall i | 0 < i < |types| :: types[i] == types[1..][i - 1];
      Larger(Height(types[0]), MaxHeight(types[1..]))
  }

  ghost function VariantsHeight(variants: seq<Variant>): (r: nat)
    ensures forall i | 0 <= i < |variants| && variants[i].Tagged? :: 1 + ShapeHeight(variants[i].payload) <= r
    decreases variants
  {
    if variants == [] then 0
    else
      assert forall i | 0 < i < |variants| :: variants[i] == variants[1..][i - 1];
      Larger(if variants[0].Tagged? then 1 + ShapeHeight(variants[0].payload) else 0, VariantsHeight(variants[1..]))
  }

  ghost function FieldHeights(shape: ObjectShape): set<nat>
    decreases shape, 0
  {
    set name | name in shape.fields :: Height(shape.fields[name])
  }

  ghost function ShapeHeight(shape: ObjectShape): (r: nat)
    ensures forall name | name in shape.fields :: Height(shape.fields[name]) <= r
    decreases shape, 1
  {
    assert forall name | name in shape.fields :: Height(shape.fields[name]) in FieldHeights(shape);
    MaxOf(FieldHeights(shape))
  }

  // ---------- Assignability ----------

  predicate Unresolved(ty: Type) { ty.Unknown? || ty.Var? || ty.UnresolvedShape? }

  function Ascii(text: string): Name
    requires forall i | 0 <= i < |text| :: text[i] < 128 as char
  {
    seq(|text|, i requires 0 <= i < |text| => text[i] as int)
  }

  const NO_ELEMENT: Name := Ascii("NoElement")

  const KIND: Name := Ascii("kind")

  const RENDERABLE_KINDS: seq<Name> := [
    Ascii("Block"), Ascii("Button"), Ascii("Checkbox"), Ascii("Document"), Ascii("EmbeddedMedia"),
    Ascii("EmbeddedProgram"), Ascii("Label"), Ascii("Link"), Ascii("MapViewport"), Ascii("Paragraph"),
    Ascii("Row"), Ascii("Scene"), Ascii("Stack"), Ascii("Text"), Ascii("TextInput")]

  predicate NoElement(ty: Type) {
    ty.VariantSet? && forall i | 0 <= i < |ty.variants| :: ty.variants[i] == Tag(NO_ELEMENT)
  }

  predicate Renderable(ty: Type)
    decreases ty
  {
    || ty.RenderContract?
    || NoElement(ty)
    || (ty.Union? && ty.members != [] && forall i | 0 <= i < |ty.members| :: Renderable(ty.members[i]))
    || (ty.Object? && KIND in ty.shape.fields && ty.shape.fields[KIND].VariantSet?
        && var variants := ty.shape.fields[KIND].variants;
           forall i | 0 <= i < |variants| :: variants[i].Tag? && variants[i].tag in RENDERABLE_KINDS)
  }

  predicate BytesAssignable(actual: BytesType, expected: BytesType) { expected.Dynamic? || actual == expected }

  predicate Assignable(actual: Type, expected: Type)
    decreases Height(actual) + Height(expected), 1
  {
    if actual == expected then true
    else if Unresolved(actual) || Unresolved(expected) then false
    else if actual.Union? && actual.members == [] then false
    else if expected.Union? && expected.members == [] then false
    else if actual.Union? && expected.Union? then
      forall i | 0 <= i < |actual.members| ::
        exists j | 0 <= j < |expected.members| :: Assignable(actual.members[i], expected.members[j])
    else if actual.Union? then forall i | 0 <= i < |actual.members| :: Assignable(actual.members[i], expected)
    else if expected.Union? then exists j | 0 <= j < |expected.members| :: Assignable(actual, expected.members[j])
    else if actual.Bytes? && expected.Bytes? then BytesAssignable(actual.kind, expected.kind)
    else if expected.RenderContract? then Renderable(actual)
    else if actual.List? && expected.List? then Assignable(actual.item, expected.item)
    else if actual.Object? && expected.Object? then ShapeAssignable(actual.shape, expected.shape)
    else if actual.VariantSet? && expected.VariantSet? then
      forall i | 0 <= i < |actual.variants| :: Offered(actual.variants[i], expected.variants)
    else if actual.Function? && expected.Function? then
      && |actual.args| == |expected.args| && actual.mode == expected.mode
      && (forall i | 0 <= i < |actual.args| :: Assignable(expected.args[i], actual.args[i]))
      && Assignable(actual.result, expected.result)
    else false
  }

  predicate ShapeAssignable(actual: ObjectShape, expected: ObjectShape)
    decreases Height(Object(actual)) + Height(Object(expected)), 0
  {
    forall name | name in expected.fields ::
      name in actual.fields && Assignable(actual.fields[name], expected.fields[name])
  }

  ghost function PayloadHeight(v: Variant): nat { if v.Tagged? then 1 + ShapeHeight(v.payload) else 0 }

  predicate VariantAssignable(actual: Variant, expected: Variant)
    decreases PayloadHeight(actual) + PayloadHeight(expected), 2
  {
    match (actual, expected)
    case (Tag(a), Tag(b)) => a == b
    case (Tagged(a, p), Tagged(b, q)) => a == b && Assignable(Object(p), Object(q))
    case _ => false
  }

  /** One of the variants takes `v`. */
  predicate Offered(v: Variant, variants: seq<Variant>)
    decreases PayloadHeight(v) + VariantsHeight(variants), 3
  {
    exists k | 0 <= k < |variants| :: VariantAssignable(v, variants[k])
  }

  // ---------- Into RenderContract ----------

  /** No object that `ty` offers has a union for its kind. */
  predicate PlainKinds(ty: Type)
    decreases ty
  {
    match ty
    case Union(members) => forall i | 0 <= i < |members| :: PlainKinds(members[i])
    case Object(shape) => KIND in shape.fields ==> !shape.fields[KIND].Union?
    case _ => true
  }

  lemma {:induction false} RenderablePlain(ty: Type)
    requires Assignable(ty, RenderContract)
    ensures PlainKinds(ty)
    decreases Height(ty)
  {
    if ty.Union? {
      forall i | 0 <= i < |ty.members| ensures PlainKinds(ty.members[i]) { RenderablePlain(ty.members[i]); }
    }
  }

  lemma {:induction false} RenderableUnion(ty: Type)
    requires ty.Union? && ty.members != [] && forall i | 0 <= i < |ty.members| ::
        Assignable(ty.members[i], RenderContract)
    ensures Assignable(ty, RenderContract)
  {
  }

  /** Assignable to something renderable, and with plain kinds, is renderable. */
  lemma {:induction false} PlainRenderable(a: Type, b: Type)
    requires Assignable(a, b) && Assignable(b, RenderContract) && PlainKinds(a)
    ensures Assignable(a, RenderContract)
    decreases Height(a) + Height(b)
  {
    if a == b {
    } else if a.Union? {
      forall i | 0 <= i < |a.members| ensures Assignable(a.members[i], RenderContract) {
        if b.Union? {
          var j :| 0 <= j < |b.members| && Assignable(a.members[i], b.members[j]);
          PlainRenderable(a.members[i], b.members[j]);
        } else {
          PlainRenderable(a.members[i], b);
        }
      }
      RenderableUnion(a);
    } else if b.Union? {
      var j :| 0 <= j < |b.members| && Assignable(a, b.members[j]);
      PlainRenderable(a, b.members[j]);
    } else if a.Object? && b.Object? {
      PlainRenderableObject(a, b);
    } else if a.VariantSet? && b.VariantSet? {
      forall i | 0 <= i < |a.variants| ensures a.variants[i] == Tag(NO_ELEMENT) {
        assert Offered(a.variants[i], b.variants);
      }
    }
  }

  lemma {:induction false} PlainRenderableObject(a: Type, b: Type)
    requires a.Object? && b.Object? && Assignable(a, b) && Assignable(b, RenderContract) && PlainKinds(a)
    ensures Assignable(a, RenderContract)
  {
    var kind := b.shape.fields[KIND];
    if a != b {
      assert ShapeAssignable(a.shape, b.shape);
      assert KIND in a.shape.fields && Assignable(a.shape.fields[KIND], kind);
      var variants := a.shape.fields[KIND].variants;
      forall i | 0 <= i < |variants| ensures variants[i].Tag? && variants[i].tag in RENDERABLE_KINDS {
        assert a.shape.fields[KIND] != kind ==> Offered(variants[i], kind.variants);
      }
    }
  }

  /** Transitivity into RenderContract holds exactly for types with plain kinds. */
  lemma {:induction false} TransitiveIntoRender(a: Type, b: Type)
    requires Assignable(a, b) && Assignable(b, RenderContract)
    ensures Assignable(a, RenderContract) <==> PlainKinds(a)
  {
    if Assignable(a, RenderContract) { RenderablePlain(a); }
    if PlainKinds(a) { PlainRenderable(a, b); }
  }

  // ---------- Transitive ----------

  /** Wherever `c` expects RenderContract, what `a` offers there has plain kinds; inside the arguments
      of functions the two change sides. Sets and maps are compared by equality only. */
  ghost predicate Safe(a: Type, c: Type)
    decreases Height(a) + Height(c)
  {
    if a.Union? then forall i | 0 <= i < |a.members| :: Safe(a.members[i], c)
    else if c.Union? then forall k | 0 <= k < |c.members| :: Safe(a, c.members[k])
    else if c.RenderContract? then PlainKinds(a)
    else
      match (a, c)
      case (List(x), List(z)) => Safe(x, z)
      case (Object(p), Object(q)) =>
        forall name | name in p.fields && name in q.fields :: Safe(p.fields[name], q.fields[name])
      case (VariantSet(p), VariantSet(q)) =>
        forall i, k | 0 <= i < |p| && 0 <= k < |q| && p[i].Tagged? && q[k].Tagged? && p[i].tag == q[k].tag ::
          Safe(Object(p[i].payload), Object(q[k].payload))
      case (Function(p, _, r), Function(q, _, s)) =>
        (forall i | 0 <= i < |p| && i < |q| :: Safe(q[i], p[i])) && Safe(r, s)
      case _ => true
  }

  lemma {:induction false} SafeMember(a: Type, c: Type, k: nat)
    requires Safe(a, c) && c.Union? && k < |c.members|
    ensures Safe(a, c.members[k])
    decreases Height(a)
  {
    if a.Union? {
      forall i | 0 <= i < |a.members| ensures Safe(a.members[i], c.members[k]) { SafeMember(a.members[i], c, k); }
    }
  }

  lemma {:induction false} SafeHasPlainKinds(a: Type)
    requires Safe(a, RenderContract)
    ensures PlainKinds(a)
    decreases Height(a)
  {
    if a.Union? {
      forall i | 0 <= i < |a.members| ensures PlainKinds(a.members[i]) { SafeHasPlainKinds(a.members[i]); }
    }
  }

  /** Assignability is transitive wherever the last type expects RenderContract of plain kinds only,
      whatever lies between. */
  lemma {:induction false} Transitive(a: Type, b: Type, c: Type)
    requires Safe(a, c) && Assignable(a, b) && Assignable(b, c)
    ensures Assignable(a, c)
    decreases Height(a) + Height(b) + Height(c), 1
  {
    if a == b || b == c || a == c {
    } else if c.RenderContract? {
      SafeHasPlainKinds(a);
      PlainRenderable(a, b);
    } else if a.Union? {
      TransitiveFromUnion(a, b, c);
    } else if b.Union? {
      var j :| 0 <= j < |b.members| && Assignable(a, b.members[j]);
      TransitiveViaMember(a, b, c, j);
    } else if c.Union? {
      var k :| 0 <= k < |c.members| && Assignable(b, c.members[k]);
      Transitive(a, b, c.members[k]);
    } else {
      TransitivePlain(a, b, c);
    }
  }

  /** No unions at the top. */
  lemma {:induction false} TransitivePlain(a: Type, b: Type, c: Type)
    requires Safe(a, c) && Assignable(a, b) && Assignable(b, c)
    requires !a.Union? && !b.Union? && !c.Union? && !c.RenderContract? && a != b && b != c && a != c
    ensures Assignable(a, c)
    decreases Height(a) + Height(b) + Height(c), 0, 1
  {
    if a.List? {
      Transitive(a.item, b.item, c.item);
    } else if a.Object? {
      TransitiveShape(a.shape, b.shape, c.shape);
    } else if a.VariantSet? {
      TransitiveVariants(a, b, c);
    } else if a.Function? {
      TransitiveFunction(a, b, c);
    }
  }

  lemma {:induction false} TransitiveFunction(a: Type, b: Type, c: Type)
    requires Safe(a, c) && Assignable(a, b) && Assignable(b, c)
    requires a.Function? && b.Function? && c.Function? && a != b && b != c && a != c
    ensures Assignable(a, c)
    decreases Height(a) + Height(b) + Height(c), 0, 0
  {
    forall i | 0 <= i < |a.args| ensures Assignable(c.args[i], a.args[i]) {
      Transitive(c.args[i], b.args[i], a.args[i]);
    }
    Transitive(a.result, b.result, c.result);
  }

  /** `x`, a member of a union, is assignable to `c` or to a member of it. */
  ghost predicate Taken(x: Type, c: Type) {
    if c.Union? then exists k | 0 <= k < |c.members| :: Assignable(x, c.members[k]) else Assignable(x, c)
  }

  lemma {:induction false} UnionTaken(b: Type, c: Type, j: nat)
    requires b.Union? && Assignable(b, c) && b != c && j < |b.members|
    ensures Taken(b.members[j], c)
  {
  }

  lemma {:induction false} UnionIntoUnion(a: Type, c: Type)
    requires a.Union? && c.Union? && a.members != [] && c.members != []
    requires forall i | 0 <= i < |a.members| :: Taken(a.members[i], c)
    ensures Assignable(a, c)
  {
    forall i | 0 <= i < |a.members| ensures exists k | 0 <= k < |c.members| :: Assignable(a.members[i], c.members[k]) {
      assert Taken(a.members[i], c);
    }
  }

  lemma {:induction false} UnionIntoOne(a: Type, c: Type)
    requires a.Union? && !c.Union? && !Unresolved(c) && a.members != []
    requires forall i | 0 <= i < |a.members| :: Taken(a.members[i], c)
    ensures Assignable(a, c)
  {
    forall i | 0 <= i < |a.members| ensures Assignable(a.members[i], c) { assert Taken(a.members[i], c); }
  }

  lemma {:induction false} TakenThrough(x: Type, y: Type, c: Type)
    requires Safe(x, c) && Assignable(x, y) && Taken(y, c)
    ensures Taken(x, c)
    decreases Height(x) + Height(y) + Height(c), 2
  {
    if c.Union? {
      var k :| 0 <= k < |c.members| && Assignable(y, c.members[k]);
      SafeMember(x, c, k);
      Transitive(x, y, c.members[k]);
    } else {
      Transitive(x, y, c);
    }
  }

  /** Through one member of the union in the middle. */
  lemma {:induction false} TransitiveViaMember(a: Type, b: Type, c: Type, j: nat)
    requires Safe(a, c) && a != b && b != c && b.Union? && j < |b.members| && !a.Union?
    requires Assignable(a, b.members[j]) && Assignable(b, c) && !Unresolved(a)
    ensures Assignable(a, c)
    decreases Height(a) + Height(b) + Height(c), 0
  {
    UnionTaken(b, c, j);
    TakenThrough(a, b.members[j], c);
  }

  /** Member by member. */
  lemma {:induction false} TransitiveFromUnion(a: Type, b: Type, c: Type)
    requires Safe(a, c) && Assignable(a, b) && Assignable(b, c)
    requires a.Union? && a != b && b != c && a != c
    ensures Assignable(a, c)
    decreases Height(a) + Height(b) + Height(c), 0
  {
    forall i | 0 <= i < |a.members| ensures Taken(a.members[i], c) {
      if b.Union? {
        var j :| 0 <= j < |b.members| && Assignable(a.members[i], b.members[j]);
        UnionTaken(b, c, j);
        TakenThrough(a.members[i], b.members[j], c);
      } else {
        TakenThrough(a.members[i], b, c);
      }
    }
    if c.Union? { UnionIntoUnion(a, c); } else { UnionIntoOne(a, c); }
  }

  lemma {:induction false} TransitiveShape(a: ObjectShape, b: ObjectShape, c: ObjectShape)
    requires Safe(Object(a), Object(c)) && ShapeAssignable(a, b) && ShapeAssignable(b, c)
    ensures ShapeAssignable(a, c)
    decreases Height(Object(a)) + Height(Object(b)) + Height(Object(c)), 0, 0
  {
    forall name | name in c.fields ensures name in a.fields && Assignable(a.fields[name], c.fields[name]) {
      Transitive(a.fields[name], b.fields[name], c.fields[name]);
    }
  }

  lemma {:induction false} TransitiveVariants(a: Type, b: Type, c: Type)
    requires Safe(a, c) && Assignable(a, b) && Assignable(b, c)
    requires a.VariantSet? && b.VariantSet? && c.VariantSet? && a != b && b != c && a != c
    ensures Assignable(a, c)
    decreases Height(a) + Height(b) + Height(c), 0, 0
  {
    forall i | 0 <= i < |a.variants| ensures Offered(a.variants[i], c.variants) {
      TransitiveVariant(a, b, c, i);
    }
  }

  lemma {:induction false} TransitiveVariant(a: Type, b: Type, c: Type, i: nat)
    requires Safe(a, c) && Assignable(a, b) && Assignable(b, c)
    requires a.VariantSet? && b.VariantSet? && c.VariantSet? && a != b && b != c && i < |a.variants|
    ensures Offered(a.variants[i], c.variants)
    decreases Height(a) + Height(b) + Height(c), 0, 0, 0
  {
    assert Offered(a.variants[i], b.variants);
    var j :| 0 <= j < |b.variants| && VariantAssignable(a.variants[i], b.variants[j]);
    assert Offered(b.variants[j], c.variants);
    var k :| 0 <= k < |c.variants| && VariantAssignable(b.variants[j], c.variants[k]);
    var x, y, z := a.variants[i], b.variants[j], c.variants[k];
    if x.Tagged? {
      Transitive(Object(x.payload), Object(y.payload), Object(z.payload));
    }
    assert VariantAssignable(x, z);
  }

  // ---------- Where it is safe ----------

  /** No object has a union for its kind where the type gives a value (`gives`) or, inside the
      arguments of a function, where it takes one. */
  ghost predicate Plain(ty: Type, gives: bool)
    decreases ty
  {
    match ty
    case List(item) => Plain(item, gives)
    case Function(args, _, result) => (forall i | 0 <= i < |args| :: Plain(args[i], !gives)) && Plain(result, gives)
    case Union(members) => forall i | 0 <= i < |members| :: Plain(members[i], gives)
    case Object(shape) => ShapePlain(shape, gives)
    case VariantSet(variants) =>
      forall i | 0 <= i < |variants| && variants[i].Tagged? :: ShapePlain(variants[i].payload, gives)
    case _ => true
  }

  ghost predicate ShapePlain(shape: ObjectShape, gives: bool)
    decreases shape
  {
    && (gives && KIND in shape.fields ==> !shape.fields[KIND].Union?)
    && forall name | name in shape.fields :: Plain(shape.fields[name], gives)
  }

  /** RenderContract does not occur where the type gives a value (`gives`) or, inside the arguments of
      a function, where it takes one. */
  ghost predicate Quiet(ty: Type, gives: bool)
    decreases ty
  {
    match ty
    case RenderContract => !gives
    case List(item) => Quiet(item, gives)
    case Function(args, _, result) => (forall i | 0 <= i < |args| :: Quiet(args[i], !gives)) && Quiet(result, gives)
    case Union(members) => forall i | 0 <= i < |members| :: Quiet(members[i], gives)
    case Object(shape) => ShapeQuiet(shape, gives)
    case VariantSet(variants) =>
      forall i | 0 <= i < |variants| && variants[i].Tagged? :: ShapeQuiet(variants[i].payload, gives)
    case _ => true
  }

  ghost predicate ShapeQuiet(shape: ObjectShape, gives: bool)
    decreases shape
  {
    forall name | name in shape.fields :: Quiet(shape.fields[name], gives)
  }

  /** Plain kinds from `a` to `c`, or no RenderContract between them. */
  ghost predicate PlainOrQuiet(a: Type, c: Type) {
    (Plain(a, true) && Plain(c, false)) || (Quiet(a, false) && Quiet(c, true))
  }

  lemma {:induction false} SafeWhenPlainOrQuiet(a: Type, c: Type)
    requires PlainOrQuiet(a, c)
    ensures Safe(a, c)
    decreases Height(a) + Height(c), 1
  {
    if a.Union? {
      forall i | 0 <= i < |a.members| ensures Safe(a.members[i], c) { SafeWhenPlainOrQuiet(a.members[i], c); }
    } else if c.Union? {
      forall k | 0 <= k < |c.members| ensures Safe(a, c.members[k]) { SafeWhenPlainOrQuiet(a, c.members[k]); }
    } else if a.List? && c.List? {
      SafeWhenPlainOrQuiet(a.item, c.item);
    } else if a.Object? && c.Object? {
      SafeObjects(a.shape, c.shape);
    } else if a.VariantSet? && c.VariantSet? {
      SafeVariants(a, c);
    } else if a.Function? && c.Function? {
      SafeFunctions(a, c);
    } else if c.RenderContract? {
      assert !Quiet(c, true);
      assert a.Object? ==> ShapePlain(a.shape, true);
    }
  }

  lemma {:induction false} SafeObjects(p: ObjectShape, q: ObjectShape)
    requires PlainOrQuiet(Object(p), Object(q))
    ensures Safe(Object(p), Object(q))
    decreases Height(Object(p)) + Height(Object(q)), 0
  {
    forall name | name in p.fields && name in q.fields ensures Safe(p.fields[name], q.fields[name]) {
      assert PlainOrQuiet(Object(p), Object(q)) ==>
          (ShapePlain(p, true) && ShapePlain(q, false)) || (ShapeQuiet(p, false) && ShapeQuiet(q, true));
      SafeWhenPlainOrQuiet(p.fields[name], q.fields[name]);
    }
  }

  lemma {:induction false} SafeVariants(a: Type, c: Type)
    requires a.VariantSet? && c.VariantSet? && PlainOrQuiet(a, c)
    ensures Safe(a, c)
    decreases Height(a) + Height(c), 0
  {
    var p, q := a.variants, c.variants;
    forall i, k | 0 <= i < |p| && 0 <= k < |q| && p[i].Tagged? && q[k].Tagged? && p[i].tag == q[k].tag
      ensures Safe(Object(p[i].payload), Object(q[k].payload))
    {
      SafeWhenPlainOrQuiet(Object(p[i].payload), Object(q[k].payload));
    }
  }

  lemma {:induction false} SafeFunctions(a: Type, c: Type)
    requires a.Function? && c.Function? && PlainOrQuiet(a, c)
    ensures Safe(a, c)
    decreases Height(a) + Height(c), 0
  {
    forall i | 0 <= i < |a.args| && i < |c.args| ensures Safe(c.args[i], a.args[i]) {
      SafeWhenPlainOrQuiet(c.args[i], a.args[i]);
    }
    SafeWhenPlainOrQuiet(a.result, c.result);
  }

  /** So assignability is transitive between types without RenderContract, whatever their kinds, and
      from types that give plain kinds to types that take plain kinds. */
  lemma {:induction false} TransitivePlainOrQuiet(a: Type, b: Type, c: Type)
    requires PlainOrQuiet(a, c) && Assignable(a, b) && Assignable(b, c)
    ensures Assignable(a, c)
  {
    SafeWhenPlainOrQuiet(a, c);
    Transitive(a, b, c);
  }

  /** Without plain kinds assignability is not transitive: an object whose kind is a union of
      one variant set is assignable to the object whose kind is that variant set, which is
      renderable, but is not renderable itself. */
  lemma {:induction false} RenderContractNotTransitive()
    ensures var kind := VariantSet([Tag(Ascii("Block"))]);
            var a := Object(ObjectShape(map[KIND := Union([kind])], [], false));
            var b := Object(ObjectShape(map[KIND := kind], [], false));
            Assignable(a, b) && Assignable(b, RenderContract) && !Assignable(a, RenderContract)
  {
    var kind := VariantSet([Tag(Ascii("Block"))]);
    var a := ObjectShape(map[KIND := Union([kind])], [], false);
    var b := ObjectShape(map[KIND := kind], [], false);
    assert Ascii("Block") == RENDERABLE_KINDS[0];
    assert Assignable(Union([kind]).members[0], kind);
    assert Assignable(a.fields[KIND], b.fields[KIND]);
    assert ShapeAssignable(a, b);
  }
}
