/** The widening that keeps a node when nothing in it changed. Whether a node was kept is seen by
    comparing addresses, so a kept node is equal, and an equal node may or may not be kept. */
module WideningShared {
  import opened Wrappers
  import opened Types
  import opened Assignability
  import opened VariantOrder
  import opened Widening
  import Sorting

  // ---------- Field order ----------

  method AppendNames(order: seq<Name>, names: seq<Name>, allowed: set<Name>) returns (r: seq<Name>)
    ensures r == Appended(order, names, allowed)
  {
    r := order;
    for i := 0 to |names|
      invariant Appended(r, names[i..], allowed) == Appended(order, names, allowed)
    {
      if names[i] in allowed && names[i] !in r {
        r := r + [names[i]];
      }
      assert names[i..][1..] == names[i + 1..];
    }
  }

  lemma {:induction false} KeyOrderIs(shape: ObjectShape, names: seq<Name>)
    requires Sorting.StrictlySorted(names, NameLeq) && forall name :: name in names <==> name in shape.fields.Keys
    ensures names == KeyOrder(shape)
  {
    NameOrder();
    Sorting.AscendingUnique(shape.fields.Keys, names, NameLeq);
  }

  method FieldOrder(left: ObjectShape, right: ObjectShape) returns (r: seq<Name>)
    ensures r == WidenedOrder(left, right)
  {
    var allowed := left.fields.Keys + right.fields.Keys;
    r := AppendNames([], left.fieldOrder + right.fieldOrder, allowed);
    var leftNames := AscendingNames(left.fields.Keys);
    var rightNames := AscendingNames(right.fields.Keys);
    KeyOrderIs(left, leftNames);
    KeyOrderIs(right, rightNames);
    r := AppendNames(r, leftNames + rightNames, allowed);
  }

  // ---------- Objects ----------

  /** The fields after those in `done` were widened. */
  ghost predicate WidenedSoFar(left: ObjectShape, right: ObjectShape, done: set<Name>, fields: map<Name, Type>) {
    && done <= right.fields.Keys && fields.Keys == left.fields.Keys + done
    && forall name | name in fields :: fields[name] == if name in done then WidenField(left, right, name)
         else left.fields[name]
  }

  lemma {:induction false} WidenedAll(left: ObjectShape, right: ObjectShape, fields: map<Name, Type>)
    requires WidenedSoFar(left, right, right.fields.Keys, fields)
    ensures fields == WidenShape(left, right).fields
  {
    forall name | name in fields ensures fields[name] == WidenField(left, right, name) {}
  }

  lemma {:induction false} WidenStep(left: ObjectShape, right: ObjectShape, done: set<Name>, fields: map<Name, Type>,
      name: Name, widened: Type)
    requires WidenedSoFar(left, right, done, fields) && name in right.fields && name !in done
    requires widened == if name in fields then Widen(fields[name], right.fields[name]) else right.fields[name]
    ensures name in fields <==> name in left.fields
    ensures WidenedSoFar(left, right, done + {name}, fields[name := widened])
    ensures name in fields && fields[name] == widened ==> WidenedSoFar(left, right, done + {name}, fields)
  {
    assert widened == WidenField(left, right, name);
    var next := fields[name := widened];
    assert next.Keys == left.fields.Keys + (done + {name});
    if name in fields && fields[name] == widened { assert next == fields; }
  }

  /** The widened fields, or nothing if every one was kept, and whether a field is new. */
  method WidenFields(left: ObjectShape, right: ObjectShape) returns (changed: Option<map<Name, Type>>, added: bool)
    ensures WidenedSoFar(left, right, right.fields.Keys, if changed.Some? then changed.value else left.fields)
    ensures added <==> !(right.fields.Keys <= left.fields.Keys)
    decreases Height(Object(right)), 0, 0
  {
    changed, added := None, false;
    var rest := right.fields.Keys;
    ghost var done: set<Name> := {};
    while rest != {}
      invariant done + rest == right.fields.Keys && done !! rest
      invariant WidenedSoFar(left, right, done, if changed.Some? then changed.value else left.fields)
      invariant added <==> !(done <= left.fields.Keys)
      decreases rest
    {
      var name :| name in rest;
      var fields := if changed.Some? then changed.value else left.fields;
      var widened, kept := WidenOne(fields, right, name);
      WidenStep(left, right, done, fields, name, widened);
      if !kept {
        added := added || name !in fields;
        changed := Some(fields[name := widened]);
      }
      done, rest := done + {name}, rest - {name};
    }
  }

  /** The new type of one field, and whether the old node was kept. */
  method WidenOne(fields: map<Name, Type>, right: ObjectShape, name: Name) returns (widened: Type, kept: bool)
    requires name in right.fields
    ensures widened == if name in fields then Widen(fields[name], right.fields[name]) else right.fields[name]
    ensures kept ==> name in fields && fields[name] == widened
    decreases ShapeHeight(right), 3
  {
    widened, kept := right.fields[name], false;
    if name in fields {
      widened := WidenTypes(fields[name], right.fields[name]);
      kept :| kept ==> fields[name] == widened;
    }
  }

  method WidenObjects(left: ObjectShape, right: ObjectShape) returns (r: Type)
    ensures r == Object(WidenShape(left, right))
    decreases Height(Object(right)), 0, 1
  {
    var changed, added := WidenFields(left, right);
    var fields := if changed.Some? then changed.value else left.fields;
    WidenedAll(left, right, fields);
    var open := left.open || right.open;
    if !added && CompleteOrder(left) { CompleteStays(left, right); }
    if changed.None? && CompleteOrder(left) && open == left.open {
      assert fields == left.fields && !added;
      return Object(left);
    }
    var order := left.fieldOrder;
    if added || !CompleteOrder(left) {
      order := FieldOrder(left, right);
    }
    return Object(ObjectShape(fields, order, open));
  }

  // ---------- Variants ----------

  method Position(variants: seq<Variant>, tag: Name) returns (r: Option<nat>)
    ensures r == FindTag(variants, tag)
  {
    for i := 0 to |variants|
      invariant forall j | 0 <= j < i :: variants[j].tag != tag
    {
      if variants[i].tag == tag {
        return Some(i);
      }
    }
    return None;
  }

  /** Adds one variant; says so only if it may have changed something. */
  method MergeVariant(variants: seq<Variant>, v: Variant) returns (r: Option<seq<Variant>>)
    ensures MergeOne(variants, v) == if r.Some? then r.value else variants
    decreases PayloadHeight(v), 2
  {
    var at := Position(variants, v.tag);
    if at.None? {
      return Some(variants + [v]);
    }
    if v.Tag? {
      return None;
    }
    var i := at.value;
    if variants[i].Tag? {
      return Some(variants[i := v]);
    }
    var widened := WidenTypes(Object(variants[i].payload), Object(v.payload));
    var kept: bool :| kept ==> widened.shape == variants[i].payload;
    if kept {
      return None;
    }
    return Some(variants[i := Tagged(v.tag, widened.shape)]);
  }

  predicate AdjacentSorted(variants: seq<Variant>) {
    forall i | 0 < i < |variants| :: VariantLeq(variants[i - 1], variants[i])
  }

  lemma {:induction false} AdjacentIsSorted(variants: seq<Variant>, i: nat, j: nat)
    requires AdjacentSorted(variants) && i < j < |variants|
    ensures VariantLeq(variants[i], variants[j])
    decreases j - i
  {
    assert VariantLeq(variants[j - 1], variants[j]);
    if i < j - 1 {
      AdjacentIsSorted(variants, i, j - 1);
      VariantTransitive(variants[i], variants[j - 1], variants[j]);
    }
  }

  lemma {:induction false} SortedStays(variants: seq<Variant>)
    requires AdjacentSorted(variants)
    ensures Sorting.Sort(variants, VariantLeq) == variants
  {
    forall i, j | 0 <= i < j < |variants| ensures VariantLeq(variants[i], variants[j]) {
      AdjacentIsSorted(variants, i, j);
    }
    Sorting.SortOfSorted(variants, VariantLeq);
  }

  method WidenVariants(left: seq<Variant>, right: seq<Variant>) returns (r: Type)
    ensures r == VariantSet(Sorting.Sort(Merged(left, right), VariantLeq))
    decreases VariantsHeight(right), 3
  {
    var changed: Option<seq<Variant>> := None;
    for i := 0 to |right|
      invariant Merged(left, right[..i]) == if changed.Some? then changed.value else left
    {
      MergedOneMore(left, right, i);
      var merged := MergeVariant(if changed.Some? then changed.value else left, right[i]);
      if merged.Some? {
        changed := merged;
      }
    }
    assert right[..|right|] == right;
    if changed.None? && AdjacentSorted(left) {
      SortedStays(left);
      return VariantSet(left);
    }
    return VariantSet(Sorting.Sort(if changed.Some? then changed.value else left, VariantLeq));
  }

  // ---------- All types ----------

  /** The sharing version gives exactly the type, field order and variant order of the naive rebuild. */
  method WidenTypes(left: Type, right: Type) returns (r: Type)
    ensures r == Widen(left, right)
    decreases Height(right), 1
  {
    if Placeholder(left) {
      return right;
    }
    if Placeholder(right) {
      return left;
    }
    if left.VariantSet? && right.VariantSet? {
      r := WidenVariants(left.variants, right.variants);
      return;
    }
    if left.Absent? || right.Absent? {
      return if left.Absent? then right else left;
    }
    if NoElement(right) {
      return left;
    }
    if NoElement(left) {
      return right;
    }
    if left.Bytes? && right.Bytes? {
      return if left.kind.Fixed? && left.kind == right.kind then left else Types.Bytes(Dynamic);
    }
    if left.List? && right.List? {
      var widened := WidenTypes(left.item, right.item);
      var kept: bool :| kept ==> left.item == widened;
      return if kept then left else List(widened);
    }
    if left.Object? && right.Object? {
      r := WidenObjects(left.shape, right.shape);
      return;
    }
    return if left == right then left else OpenObject();
  }
}
