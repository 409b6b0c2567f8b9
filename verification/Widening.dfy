/** Structural widening as a naive rebuild. */
module Widening {
  import opened Wrappers
  import opened Types
  import opened Assignability
  import opened VariantOrder
  import Sorting

  predicate Placeholder(ty: Type) { Unresolved(ty) || (ty.Object? && ty.shape.open && ty.shape.fields == map[]) }

  function OpenObject(): Type { Object(ObjectShape(map[], [], true)) }

  // ---------- Field order ----------

  /** `order` extended by the names that are allowed and not in it yet. */
  function Appended(order: seq<Name>, names: seq<Name>, allowed: set<Name>): seq<Name>
    decreases |names|
  {
    if names == [] then order
    else Appended(if names[0] in allowed && names[0] !in order then order + [names[0]] else order, names[1..], allowed)
  }

  ghost function KeyOrder(shape: ObjectShape): seq<Name> {
    NameOrder();
    Sorting.Ascending(shape.fields.Keys, NameLeq)
  }

  /** The declared orders of both shapes, then whatever field is missing, without repeats. */
  ghost function WidenedOrder(left: ObjectShape, right: ObjectShape): seq<Name> {
    var allowed := left.fields.Keys + right.fields.Keys;
    Appended(Appended([], left.fieldOrder + right.fieldOrder, allowed), KeyOrder(left) + KeyOrder(right), allowed)
  }

  /** The declared order names every field exactly once. */
  predicate CompleteOrder(shape: ObjectShape) {
    && |shape.fieldOrder| == |shape.fields|
    && forall i | 0 <= i < |shape.fieldOrder| ::
         shape.fieldOrder[i] in shape.fields && shape.fieldOrder[i] !in shape.fieldOrder[..i]
  }

  lemma {:induction false} AppendedSplit(order: seq<Name>, a: seq<Name>, b: seq<Name>, allowed: set<Name>)
    ensures Appended(order, a + b, allowed) == Appended(Appended(order, a, allowed), b, allowed)
    decreases |a|
  {
    if a == [] {
      assert a + b == b;
    } else {
      assert (a + b)[1..] == a[1..] + b;
      AppendedSplit(if a[0] in allowed && a[0] !in order then order + [a[0]] else order, a[1..], b, allowed);
    }
  }

  lemma {:induction false} AppendedNone(order: seq<Name>, names: seq<Name>, allowed: set<Name>)
    requires forall name | name in allowed :: name in order
    ensures Appended(order, names, allowed) == order
    decreases |names|
  {
    if names != [] { AppendedNone(order, names[1..], allowed); }
  }

  lemma {:induction false} AppendedAll(order: seq<Name>, names: seq<Name>, allowed: set<Name>)
    requires forall i | 0 <= i < |names| :: names[i] in allowed && names[i] !in order && names[i] !in names[..i]
    ensures Appended(order, names, allowed) == order + names
    decreases |names|
  {
    if names != [] {
      forall i | 0 <= i < |names[1..]|
        ensures names[1..][i] in allowed && names[1..][i] !in order + [names[0]] && names[1..][i] !in names[1..][..i]
      {
        assert names[1..][i] == names[i + 1] && names[..i + 1] == [names[0]] + names[1..][..i];
      }
      AppendedAll(order + [names[0]], names[1..], allowed);
      assert order + [names[0]] + names[1..] == order + names;
    }
  }

  ghost function Elements(names: seq<Name>): set<Name> { set name | name in names }

  lemma {:induction false} DistinctCount(names: seq<Name>)
    requires forall i | 0 <= i < |names| :: names[i] !in names[..i]
    ensures |Elements(names)| == |names|
  {
    if names != [] {
      var init, last := names[..|names| - 1], names[|names| - 1];
      forall i | 0 <= i < |init| ensures init[i] !in init[..i] {
        assert init[i] == names[i] && init[..i] == names[..i];
      }
      DistinctCount(init);
      assert names == init + [last];
      assert Elements(names) == Elements(init) + {last};
      assert last !in Elements(init);
    }
  }

  lemma {:induction false} SubsetOfSize(a: set<Name>, b: set<Name>)
    requires a <= b && |a| == |b|
    ensures a == b
  {
    assert b == a + (b - a);
    assert |b| == |a| + |b - a|;
  }

  /** When no field is added to a completely ordered shape, its order stays. */
  lemma {:induction false} CompleteStays(left: ObjectShape, right: ObjectShape)
    requires CompleteOrder(left) && right.fields.Keys <= left.fields.Keys
    ensures WidenedOrder(left, right) == left.fieldOrder
  {
    var order := left.fieldOrder;
    var allowed := left.fields.Keys + right.fields.Keys;
    DistinctCount(order);
    assert |left.fields.Keys| == |left.fields|;
    SubsetOfSize(Elements(order), left.fields.Keys);
    AppendedSplit([], order, right.fieldOrder, allowed);
    AppendedAll([], order, allowed);
    assert [] + order == order;
    assert forall name | name in allowed :: name in Elements(order);
    AppendedNone(order, right.fieldOrder, allowed);
    AppendedNone(order, KeyOrder(left) + KeyOrder(right), allowed);
  }

  // ---------- Widening ----------

  /** The first variant with the tag. */
  function FindTag(variants: seq<Variant>, tag: Name): (r: Option<nat>)
    ensures r.None? ==> forall i | 0 <= i < |variants| :: variants[i].tag != tag
    ensures r.Some? ==>
        r.value < |variants| && variants[r.value].tag == tag && forall i | 0 <= i < r.value :: variants[i].tag != tag
  {
    if variants == [] then None
    else if variants[0].tag == tag then Some(0)
    else
      match FindTag(variants[1..], tag)
      case None => None
      case Some(i) => Some(i + 1)
  }

  /** Widening by rebuilding everything. */
  ghost function Widen(left: Type, right: Type): (r: Type)
    ensures left.Object? && right.Object? ==> r.Object?
    decreases Height(right), 1
  {
    if Placeholder(left) then right
    else if Placeholder(right) then left
    else if left.VariantSet? && right.VariantSet? then
      VariantSet(Sorting.Sort(Merged(left.variants, right.variants), VariantLeq))
    else if left.Absent? then right
    else if right.Absent? then left
    else if NoElement(right) then left
    else if NoElement(left) then right
    else if left.Bytes? && right.Bytes? then (if left.kind == right.kind then left else Types.Bytes(Dynamic))
    else if left.List? && right.List? then List(Widen(left.item, right.item))
    else if left.Object? && right.Object? then Object(WidenShape(left.shape, right.shape))
    else if left == right then left
    else OpenObject()
  }

  ghost function WidenShape(left: ObjectShape, right: ObjectShape): ObjectShape
    decreases Height(Object(right)), 0
  {
    ObjectShape(
      map name | name in left.fields.Keys + right.fields.Keys :: WidenField(left, right, name),
      WidenedOrder(left, right),
      left.open || right.open)
  }

  ghost function WidenField(left: ObjectShape, right: ObjectShape, name: Name): Type
    requires name in left.fields || name in right.fields
    decreases ShapeHeight(right), 3
  {
    if name !in right.fields then left.fields[name]
    else if name !in left.fields then right.fields[name]
    else Widen(left.fields[name], right.fields[name])
  }

  /** One more variant: new tags are appended, payloads of known tags widened. */
  ghost function MergeOne(variants: seq<Variant>, v: Variant): seq<Variant>
    decreases PayloadHeight(v), 2
  {
    match FindTag(variants, v.tag)
    case None => variants + [v]
    case Some(i) =>
      if v.Tag? then variants
      else if variants[i].Tag? then variants[i := v]
      else variants[i := Tagged(v.tag, Widen(Object(variants[i].payload), Object(v.payload)).shape)]
  }

  ghost function Merged(variants: seq<Variant>, more: seq<Variant>): seq<Variant>
    decreases VariantsHeight(more), 3, |more|
  {
    if more == [] then variants else Merged(MergeOne(variants, more[0]), more[1..])
  }

  lemma {:induction false} MergedOneMore(variants: seq<Variant>, more: seq<Variant>, i: nat)
    requires i < |more|
    ensures Merged(variants, more[..i + 1]) == MergeOne(Merged(variants, more[..i]), more[i])
    decreases i
  {
    if i > 0 {
      assert more[..i + 1][1..] == more[1..][..i] && more[..i][1..] == more[1..][..i - 1];
      MergedOneMore(MergeOne(variants, more[0]), more[1..], i - 1);
    } else {
      assert more[..1] == [more[0]] && more[..1][1..] == [];
    }
  }
}
