/** Assignability against a meaning of types: the values that a type holds. */
module AssignabilityMeaning {
  import opened Types
  import opened Assignability

  // ---------- Values ----------

  datatype Value =
    | TextValue(text: Name)
    | NumberValue(number: int)
    | BytesValue(bytes: seq<nat>)
    | AbsentValue
    | TagValue(tag: Name)
    | TaggedValue(tag: Name, payload: map<Name, Value>)
    | ObjectValue(fields: map<Name, Value>)
    | ListValue(items: seq<Value>)
    | FunctionValue(arity: nat, mode: FlowMode, graph: seq<Entry>)
    | MapValue(entries: seq<(Value, Value)>)
    | SetValue(items: seq<Value>)
    | BitsValue(bits: seq<bool>)

  /** A result that a function gives for some arguments. */
  datatype Entry = Entry(args: seq<Value>, result: Value)

  /** What types that are not resolved stand for. */
  type Placeholders = (Type, Value) -> bool

  /** No element, or an object of a renderable kind. */
  predicate Rendered(v: Value) {
    || v == TagValue(NO_ELEMENT)
    || (v.ObjectValue? && KIND in v.fields && v.fields[KIND].TagValue? && v.fields[KIND].tag in RENDERABLE_KINDS)
  }

  /** `ty` holds the value `v`. Objects may have more fields than their type says. */
  ghost predicate Holds(ty: Type, v: Value, unresolved: Placeholders)
    decreases ty
  {
    match ty
    case Text => v.TextValue?
    case Number => v.NumberValue?
    case Bytes(kind) => v.BytesValue? && (kind.Fixed? ==> |v.bytes| == kind.length)
    case Absent => v.AbsentValue?
    case VariantSet(variants) => exists i | 0 <= i < |variants| :: VariantHolds(variants[i], v, unresolved)
    case Object(shape) => v.ObjectValue? && ShapeHolds(shape, v.fields, unresolved)
    case RenderContract => Rendered(v)
    case List(item) => v.ListValue? && forall i | 0 <= i < |v.items| :: Holds(item, v.items[i], unresolved)
    case Function(args, mode, result) =>
      && v.FunctionValue? && v.arity == |args| && v.mode == mode
      && forall k | 0 <= k < |v.graph| :: AllHold(args, v.graph[k].args, unresolved) ==>
           Holds(result, v.graph[k].result, unresolved)
    case Union(members) => exists i | 0 <= i < |members| :: Holds(members[i], v, unresolved)
    case Map(key, value) =>
      v.MapValue? && forall i | 0 <= i < |v.entries| ::
        Holds(key, v.entries[i].0, unresolved) && Holds(value, v.entries[i].1, unresolved)
    case Set(item) => v.SetValue? && forall i | 0 <= i < |v.items| :: Holds(item, v.items[i], unresolved)
    case Bits(width) => v.BitsValue? && |v.bits| == width
    case _ => unresolved(ty, v)
  }

  ghost predicate VariantHolds(variant: Variant, v: Value, unresolved: Placeholders)
    decreases variant
  {
    match variant
    case Tag(tag) => v == TagValue(tag)
    case Tagged(tag, payload) => v.TaggedValue? && v.tag == tag && ShapeHolds(payload, v.payload, unresolved)
  }

  ghost predicate ShapeHolds(shape: ObjectShape, fields: map<Name, Value>, unresolved: Placeholders)
    decreases shape
  {
    forall name | name in shape.fields :: name in fields && Holds(shape.fields[name], fields[name], unresolved)
  }

  ghost predicate AllHold(types: seq<Type>, values: seq<Value>, unresolved: Placeholders)
    decreases types
  {
    |values| == |types| && forall i | 0 <= i < |types| :: Holds(types[i], values[i], unresolved)
  }

  // ---------- Sound ----------

  lemma {:induction false} RenderableSound(ty: Type, v: Value, unresolved: Placeholders)
    requires Renderable(ty) && Holds(ty, v, unresolved)
    ensures Rendered(v)
    decreases ty
  {
    if ty.Union? {
      var i :| 0 <= i < |ty.members| && Holds(ty.members[i], v, unresolved);
      RenderableSound(ty.members[i], v, unresolved);
    } else if ty.VariantSet? {
      var i :| 0 <= i < |ty.variants| && VariantHolds(ty.variants[i], v, unresolved);
    } else if ty.Object? {
      var kind := ty.shape.fields[KIND];
      assert Holds(kind, v.fields[KIND], unresolved);
      var i :| 0 <= i < |kind.variants| && VariantHolds(kind.variants[i], v.fields[KIND], unresolved);
    }
  }

  /** A value of an assignable type is a value of the expected type, whatever unresolved types stand for. */
  lemma {:induction false} Sound(a: Type, b: Type, v: Value, unresolved: Placeholders)
    requires Assignable(a, b) && Holds(a, v, unresolved)
    ensures Holds(b, v, unresolved)
    decreases Height(a) + Height(b), 1
  {
    if a == b {
    } else if a.Union? {
      var i :| 0 <= i < |a.members| && Holds(a.members[i], v, unresolved);
      if b.Union? {
        var j :| 0 <= j < |b.members| && Assignable(a.members[i], b.members[j]);
        Sound(a.members[i], b.members[j], v, unresolved);
      } else {
        Sound(a.members[i], b, v, unresolved);
      }
    } else if b.Union? {
      var j :| 0 <= j < |b.members| && Assignable(a, b.members[j]);
      Sound(a, b.members[j], v, unresolved);
    } else if b.RenderContract? {
      RenderableSound(a, v, unresolved);
    } else if a.List? {
      forall i | 0 <= i < |v.items| ensures Holds(b.item, v.items[i], unresolved) {
        Sound(a.item, b.item, v.items[i], unresolved);
      }
    } else if a.Object? {
      SoundShape(a.shape, b.shape, v.fields, unresolved);
    } else if a.VariantSet? {
      SoundVariants(a, b, v, unresolved);
    } else if a.Function? {
      SoundFunction(a, b, v, unresolved);
    }
  }

  lemma {:induction false} SoundShape(a: ObjectShape, b: ObjectShape, fields: map<Name, Value>,
      unresolved: Placeholders)
    requires ShapeAssignable(a, b) && ShapeHolds(a, fields, unresolved)
    ensures ShapeHolds(b, fields, unresolved)
    decreases Height(Object(a)) + Height(Object(b)), 0
  {
    forall name | name in b.fields ensures name in fields && Holds(b.fields[name], fields[name], unresolved) {
      Sound(a.fields[name], b.fields[name], fields[name], unresolved);
    }
  }

  lemma {:induction false} ObjectsAssignable(a: ObjectShape, b: ObjectShape)
    ensures Assignable(Object(a), Object(b)) <==> a == b || ShapeAssignable(a, b)
  {
  }

  lemma {:induction false} SoundVariants(a: Type, b: Type, v: Value, unresolved: Placeholders)
    requires a.VariantSet? && b.VariantSet? && a != b && Assignable(a, b) && Holds(a, v, unresolved)
    ensures Holds(b, v, unresolved)
    decreases Height(a) + Height(b), 0
  {
    var i :| 0 <= i < |a.variants| && VariantHolds(a.variants[i], v, unresolved);
    assert Offered(a.variants[i], b.variants);
    var k :| 0 <= k < |b.variants| && VariantAssignable(a.variants[i], b.variants[k]);
    if a.variants[i].Tagged? && a.variants[i].payload != b.variants[k].payload {
      ObjectsAssignable(a.variants[i].payload, b.variants[k].payload);
      SoundShape(a.variants[i].payload, b.variants[k].payload, v.payload, unresolved);
    }
    assert VariantHolds(b.variants[k], v, unresolved);
  }

  lemma {:induction false} SoundFunction(a: Type, b: Type, v: Value, unresolved: Placeholders)
    requires a.Function? && b.Function? && a != b && Assignable(a, b) && Holds(a, v, unresolved)
    ensures Holds(b, v, unresolved)
    decreases Height(a) + Height(b), 0
  {
    forall k | 0 <= k < |v.graph| && AllHold(b.args, v.graph[k].args, unresolved)
      ensures Holds(b.result, v.graph[k].result, unresolved)
    {
      forall i | 0 <= i < |a.args| ensures Holds(a.args[i], v.graph[k].args[i], unresolved) {
        Sound(b.args[i], a.args[i], v.graph[k].args[i], unresolved);
      }
      assert AllHold(a.args, v.graph[k].args, unresolved);
      Sound(a.result, b.result, v.graph[k].result, unresolved);
    }
  }

  // ---------- Complete ----------

  /** Types on which assignability sees every inclusion: resolved and without RenderContract, sets and maps. On the
      left, unions and variant sets have members; on the right, there are no unions and every tag has one variant.
      The arguments of functions change sides. */
  ghost predicate Exact(ty: Type, left: bool)
    decreases ty
  {
    match ty
    case Text => true
    case Number => true
    case Bytes(_) => true
    case Absent => true
    case Bits(_) => true
    case List(item) => Exact(item, left)
    case Object(shape) => ExactShape(shape, left)
    case VariantSet(variants) =>
      && (forall i | 0 <= i < |variants| && variants[i].Tagged? :: ExactShape(variants[i].payload, left))
      && (if left then variants != []
          else forall i, j | 0 <= i < j < |variants| :: variants[i].tag != variants[j].tag)
    case Union(members) => left && members != [] && forall i | 0 <= i < |members| :: Exact(members[i], left)
    case Function(args, _, result) => (forall i | 0 <= i < |args| :: Exact(args[i], !left)) && Exact(result, left)
    case _ => false
  }

  ghost predicate ExactShape(shape: ObjectShape, left: bool)
    decreases shape
  {
    forall name | name in shape.fields :: Exact(shape.fields[name], left)
  }

  /** Some value of a type. */
  ghost function Inhabitant(ty: Type, unresolved: Placeholders): (v: Value)
    requires Exact(ty, true)
    ensures Holds(ty, v, unresolved)
    decreases ty
  {
    match ty
    case Text => TextValue([])
    case Number => NumberValue(0)
    case Bytes(kind) => BytesValue(seq(if kind.Fixed? then kind.length else 0, _ => 0))
    case Absent => AbsentValue
    case Bits(width) => BitsValue(seq(width, _ => false))
    case List(_) => ListValue([])
    case Object(shape) => ObjectValue(Fields(shape, unresolved))
    case VariantSet(variants) =>
      var v := VariantInhabitant(variants[0], unresolved);
      assert VariantHolds(variants[0], v, unresolved);
      v
    case Union(members) => Inhabitant(members[0], unresolved)
    case Function(args, mode, _) => FunctionValue(|args|, mode, [])
  }

  ghost function VariantInhabitant(variant: Variant, unresolved: Placeholders): (v: Value)
    requires variant.Tagged? ==> ExactShape(variant.payload, true)
    ensures VariantHolds(variant, v, unresolved)
    decreases variant
  {
    match variant
    case Tag(tag) => TagValue(tag)
    case Tagged(tag, payload) => TaggedValue(tag, Fields(payload, unresolved))
  }

  /** A value for every field, and no others. */
  ghost function Fields(shape: ObjectShape, unresolved: Placeholders): (r: map<Name, Value>)
    requires ExactShape(shape, true)
    ensures r.Keys == shape.fields.Keys && ShapeHolds(shape, r, unresolved)
    decreases shape
  {
    map name | name in shape.fields :: Inhabitant(shape.fields[name], unresolved)
  }

  /** Some value that a type does not hold. */
  function Outsider(ty: Type): Value { if ty.Absent? then NumberValue(0) else AbsentValue }

  lemma {:induction false} OutsiderOutside(ty: Type, unresolved: Placeholders)
    requires Exact(ty, false)
    ensures !Holds(ty, Outsider(ty), unresolved)
  {
  }

  /** The same constructor, other than union. */
  predicate SameKind(a: Type, b: Type) {
    || (a.Text? && b.Text?) || (a.Number? && b.Number?) || (a.Bytes? && b.Bytes?) || (a.Absent? && b.Absent?)
    || (a.Bits? && b.Bits?) || (a.List? && b.List?) || (a.Object? && b.Object?) || (a.Function? && b.Function?)
    || (a.VariantSet? && b.VariantSet?)
  }

  lemma {:induction false} OtherKind(a: Type, b: Type, v: Value, unresolved: Placeholders)
    requires Exact(a, true) && Exact(b, false) && !a.Union? && !SameKind(a, b) && Holds(a, v, unresolved)
    ensures !Holds(b, v, unresolved)
  {
    if a.VariantSet? {
      var i :| 0 <= i < |a.variants| && VariantHolds(a.variants[i], v, unresolved);
    }
  }

  /** A type that is not assignable has a value that the other one does not hold. */
  lemma {:induction false} Separate(a: Type, b: Type, unresolved: Placeholders) returns (v: Value)
    requires Exact(a, true) && Exact(b, false) && !Assignable(a, b)
    ensures Holds(a, v, unresolved) && !Holds(b, v, unresolved)
    decreases Height(a) + Height(b), 2
  {
    if a.Union? {
      var i :| 0 <= i < |a.members| && !Assignable(a.members[i], b);
      v := Separate(a.members[i], b, unresolved);
    } else if SameKind(a, b) {
      v := SeparateKind(a, b, unresolved);
    } else {
      v := Inhabitant(a, unresolved);
      OtherKind(a, b, v, unresolved);
    }
  }

  lemma {:induction false} SeparateKind(a: Type, b: Type, unresolved: Placeholders) returns (v: Value)
    requires Exact(a, true) && Exact(b, false) && !Assignable(a, b) && SameKind(a, b)
    ensures Holds(a, v, unresolved) && !Holds(b, v, unresolved)
    decreases Height(a) + Height(b), 1
  {
    if a.List? {
      var item := Separate(a.item, b.item, unresolved);
      v := ListValue([item]);
      assert v.items[0] == item;
    } else if a.Object? {
      ObjectsAssignable(a.shape, b.shape);
      var fields := SeparateShape(a.shape, b.shape, unresolved);
      v := ObjectValue(fields);
    } else if a.VariantSet? {
      v := SeparateVariants(a, b, unresolved);
    } else if a.Function? {
      v := SeparateFunction(a, b, unresolved);
    } else if a.Bytes? {
      v := BytesValue(seq(if a.kind.Fixed? then a.kind.length else b.kind.length + 1, _ => 0));
    } else {
      v := BitsValue(seq(a.width, _ => false));
    }
  }

  lemma {:induction false} SeparateShape(a: ObjectShape, b: ObjectShape, unresolved: Placeholders)
    returns (fields: map<Name, Value>)
    requires ExactShape(a, true) && ExactShape(b, false) && !ShapeAssignable(a, b)
    ensures ShapeHolds(a, fields, unresolved) && !ShapeHolds(b, fields, unresolved)
    decreases Height(Object(a)) + Height(Object(b)), 0
  {
    var name :| name in b.fields && (name in a.fields ==> !Assignable(a.fields[name], b.fields[name]));
    fields := Fields(a, unresolved);
    if name in a.fields {
      var v := Separate(a.fields[name], b.fields[name], unresolved);
      fields := fields[name := v];
    }
  }

  lemma {:induction false} SeparateVariants(a: Type, b: Type, unresolved: Placeholders) returns (v: Value)
    requires a.VariantSet? && b.VariantSet? && Exact(a, true) && Exact(b, false) && !Assignable(a, b)
    ensures Holds(a, v, unresolved) && !Holds(b, v, unresolved)
    decreases Height(a) + Height(b), 0
  {
    var i :| 0 <= i < |a.variants| && !Offered(a.variants[i], b.variants);
    var variant := a.variants[i];
    if k :| 0 <= k < |b.variants| && variant.Tagged? && b.variants[k].Tagged? && b.variants[k].tag == variant.tag {
      assert !VariantAssignable(variant, b.variants[k]);
      ObjectsAssignable(variant.payload, b.variants[k].payload);
      var fields := SeparateShape(variant.payload, b.variants[k].payload, unresolved);
      v := TaggedValue(variant.tag, fields);
      assert VariantHolds(variant, v, unresolved);
      assert forall j | 0 <= j < |b.variants| && VariantHolds(b.variants[j], v, unresolved) :: j == k;
    } else {
      v := VariantInhabitant(variant, unresolved);
      assert VariantHolds(variant, v, unresolved);
      if j :| 0 <= j < |b.variants| && VariantHolds(b.variants[j], v, unresolved) {
        assert VariantAssignable(variant, b.variants[j]);
      }
    }
  }

  /** A function that gives one result, the one type allowing it and the other not. */
  lemma {:induction false} OneEntry(a: Type, b: Type, args: seq<Value>, result: Value, unresolved: Placeholders)
    requires a.Function? && b.Function? && |a.args| == |b.args| && a.mode == b.mode
    requires AllHold(b.args, args, unresolved) && !Holds(b.result, result, unresolved)
    requires AllHold(a.args, args, unresolved) ==> Holds(a.result, result, unresolved)
    ensures var v := FunctionValue(|a.args|, a.mode, [Entry(args, result)]);
      Holds(a, v, unresolved) && !Holds(b, v, unresolved)
  {
    var v := FunctionValue(|a.args|, a.mode, [Entry(args, result)]);
    assert v.graph[0] == Entry(args, result);
  }

  ghost function Arguments(types: seq<Type>, unresolved: Placeholders): (r: seq<Value>)
    requires forall i | 0 <= i < |types| :: Exact(types[i], true)
    ensures AllHold(types, r, unresolved)
  {
    seq(|types|, i requires 0 <= i < |types| => Inhabitant(types[i], unresolved))
  }

  lemma {:induction false} SeparateFunction(a: Type, b: Type, unresolved: Placeholders) returns (v: Value)
    requires a.Function? && b.Function? && Exact(a, true) && Exact(b, false) && !Assignable(a, b)
    ensures Holds(a, v, unresolved) && !Holds(b, v, unresolved)
    decreases Height(a) + Height(b), 0
  {
    if |a.args| != |b.args| || a.mode != b.mode {
      v := Inhabitant(a, unresolved);
    } else {
      var args, result := SeparateEntry(a, b, unresolved);
      OneEntry(a, b, args, result, unresolved);
      v := FunctionValue(|a.args|, a.mode, [Entry(args, result)]);
    }
  }

  lemma {:induction false} SeparateEntry(a: Type, b: Type, unresolved: Placeholders)
    returns (args: seq<Value>, result: Value)
    requires a.Function? && b.Function? && Exact(a, true) && Exact(b, false) && !Assignable(a, b)
    requires |a.args| == |b.args| && a.mode == b.mode
    ensures AllHold(b.args, args, unresolved) && !Holds(b.result, result, unresolved)
    ensures AllHold(a.args, args, unresolved) ==> Holds(a.result, result, unresolved)
    decreases Height(a) + Height(b), -1
  {
    args := Arguments(b.args, unresolved);
    if i :| 0 <= i < |b.args| && !Assignable(b.args[i], a.args[i]) {
      var arg := Separate(b.args[i], a.args[i], unresolved);
      args := args[i := arg];
      result := Outsider(b.result);
      OutsiderOutside(b.result, unresolved);
      assert !Holds(a.args[i], args[i], unresolved);
    } else {
      result := Separate(a.result, b.result, unresolved);
    }
  }

  /** Every value of the one type is a value of the other. */
  ghost predicate Included(a: Type, b: Type, unresolved: Placeholders) {
    forall v: Value | Holds(a, v, unresolved) :: Holds(b, v, unresolved)
  }

  lemma {:induction false} AssignableIncluded(a: Type, b: Type, unresolved: Placeholders)
    requires Assignable(a, b)
    ensures Included(a, b, unresolved)
  {
    forall v: Value | Holds(a, v, unresolved) ensures Holds(b, v, unresolved) { Sound(a, b, v, unresolved); }
  }

  /** On exact types, assignable means included. */
  lemma {:induction false} AssignableIsInclusion(a: Type, b: Type, unresolved: Placeholders)
    requires Exact(a, true) && Exact(b, false)
    ensures Assignable(a, b) <==> Included(a, b, unresolved)
  {
    if Assignable(a, b) {
      AssignableIncluded(a, b, unresolved);
    } else {
      var v := Separate(a, b, unresolved);
      assert Holds(a, v, unresolved) && !Holds(b, v, unresolved);
    }
  }

  // ---------- Into RenderContract ----------

  /** The values of a union are those of its members. */
  lemma {:induction false} MemberIncluded(a: Type, b: Type, i: nat, unresolved: Placeholders)
    requires a.Union? && i < |a.members| && Included(a, b, unresolved)
    ensures Included(a.members[i], b, unresolved)
  {
    forall v: Value | Holds(a.members[i], v, unresolved) ensures Holds(b, v, unresolved) {
      assert Holds(a, v, unresolved);
    }
  }

  /** Whatever the kind of a rendered object may be is a renderable kind. */
  lemma {:induction false} KindRendered(shape: ObjectShape, w: Value, unresolved: Placeholders)
    requires ExactShape(shape, true) && Included(Object(shape), RenderContract, unresolved)
    requires KIND in shape.fields && Holds(shape.fields[KIND], w, unresolved)
    ensures w.TagValue? && w.tag in RENDERABLE_KINDS
  {
    var v := ObjectValue(Fields(shape, unresolved)[KIND := w]);
    assert Holds(Object(shape), v, unresolved);
    assert Holds(RenderContract, v, unresolved);
  }

  lemma {:induction false} ObjectRenderable(shape: ObjectShape, unresolved: Placeholders)
    requires ExactShape(shape, true) && Included(Object(shape), RenderContract, unresolved)
    requires PlainKinds(Object(shape))
    ensures Renderable(Object(shape))
  {
    var v := ObjectValue(Fields(shape, unresolved));
    assert Holds(Object(shape), v, unresolved);
    assert Holds(RenderContract, v, unresolved);
    var kind := shape.fields[KIND];
    KindRendered(shape, Inhabitant(kind, unresolved), unresolved);
    forall i | 0 <= i < |kind.variants| ensures kind.variants[i].Tag? && kind.variants[i].tag in RENDERABLE_KINDS {
      var w := VariantInhabitant(kind.variants[i], unresolved);
      assert VariantHolds(kind.variants[i], w, unresolved);
      assert Holds(kind, w, unresolved);
      KindRendered(shape, w, unresolved);
    }
  }

  lemma {:induction false} IncludedRenderable(a: Type, unresolved: Placeholders)
    requires Exact(a, true) && Included(a, RenderContract, unresolved) && PlainKinds(a)
    ensures Renderable(a)
    decreases Height(a)
  {
    if a.Union? {
      forall i | 0 <= i < |a.members| ensures Renderable(a.members[i]) {
        MemberIncluded(a, RenderContract, i, unresolved);
        IncludedRenderable(a.members[i], unresolved);
      }
    } else if a.Object? {
      ObjectRenderable(a.shape, unresolved);
    } else if a.VariantSet? {
      forall i | 0 <= i < |a.variants| ensures a.variants[i] == Tag(NO_ELEMENT) {
        var w := VariantInhabitant(a.variants[i], unresolved);
        assert VariantHolds(a.variants[i], w, unresolved);
        assert Holds(a, w, unresolved) && Holds(RenderContract, w, unresolved);
      }
    } else {
      var w := Inhabitant(a, unresolved);
    }
  }

  /** Into RenderContract, assignable means: only rendered values, and no union for a kind. */
  lemma {:induction false} RenderableIsInclusion(a: Type, unresolved: Placeholders)
    requires Exact(a, true)
    ensures Assignable(a, RenderContract) <==> Included(a, RenderContract, unresolved) && PlainKinds(a)
  {
    if Assignable(a, RenderContract) {
      AssignableIncluded(a, RenderContract, unresolved);
      RenderablePlain(a);
    }
    if Included(a, RenderContract, unresolved) && PlainKinds(a) {
      IncludedRenderable(a, unresolved);
      RenderableAssignable(a);
    }
  }

  lemma {:induction false} RenderableAssignable(a: Type)
    requires Renderable(a) && !Unresolved(a)
    ensures Assignable(a, RenderContract)
    decreases Height(a)
  {
    if a.Union? {
      forall i | 0 <= i < |a.members| ensures Assignable(a.members[i], RenderContract) {
        RenderableAssignable(a.members[i]);
      }
    }
  }

  // ---------- Beyond exact types ----------

  /** Where assignability is less than inclusion: a union is met by one of its members, and sets, maps and types
      that are not resolved are met by themselves only. */
  lemma {:induction false} Invariant(a: Type, b: Type)
    ensures b.Union? && !a.Union? && !Unresolved(a) ==>
      (Assignable(a, b) <==> exists j | 0 <= j < |b.members| :: Assignable(a, b.members[j]))
    ensures (a.Set? || a.Map?) && !b.Union? && !b.RenderContract? ==> (Assignable(a, b) <==> a == b)
    ensures Unresolved(a) || Unresolved(b) ==> (Assignable(a, b) <==> a == b)
  {
  }

  /** Items of lists and lengths of bytes count. */
  lemma {:induction false} ItemsAndLengthsCount(a: Type, b: Type, k: BytesType, l: BytesType)
    ensures Assignable(List(a), List(b)) <==> Assignable(a, b)
    ensures Assignable(Types.Bytes(k), Types.Bytes(l)) <==> l.Dynamic? || k == l
  {
  }

  /** Arguments, flow mode and result of a function count, arguments the other way round. */
  lemma {:induction false} FunctionPartsCount(a: Type, b: Type)
    requires a.Function? && b.Function?
    ensures Assignable(a, b) <==>
      && |a.args| == |b.args| && a.mode == b.mode && Assignable(a.result, b.result)
      && forall i | 0 <= i < |a.args| :: Assignable(b.args[i], a.args[i])
  {
  }

  /** The fields of a payload count. */
  lemma {:induction false} PayloadFieldsCount(tag: Name, p: ObjectShape, q: ObjectShape)
    ensures Assignable(VariantSet([Tagged(tag, p)]), VariantSet([Tagged(tag, q)])) <==>
      forall name | name in q.fields :: name in p.fields && Assignable(p.fields[name], q.fields[name])
    ensures !Assignable(VariantSet([Tag(tag)]), VariantSet([Tagged(tag, q)]))
  {
    ObjectsAssignable(p, q);
    assert VariantAssignable(Tagged(tag, p), Tagged(tag, q)) <==> Assignable(Object(p), Object(q));
    OneVariant(Tagged(tag, p), Tagged(tag, q));
    OneVariant(Tag(tag), Tagged(tag, q));
  }

  lemma {:induction false} OneVariant(v: Variant, w: Variant)
    ensures Assignable(VariantSet([v]), VariantSet([w])) <==> v == w || VariantAssignable(v, w)
  {
    assert [v][0] == v && [w][0] == w;
    assert Offered(v, [w]) <==> VariantAssignable(v, w);
    if v != w {
      assert VariantSet([v]).variants[0] != VariantSet([w]).variants[0];
      assert Assignable(VariantSet([v]), VariantSet([w])) <==> Offered([v][0], [w]);
    }
  }
}
