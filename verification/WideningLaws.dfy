/** What widening gives: the least type that covers both sides, with the names of both. */
module WideningLaws {
  import opened Wrappers
  import opened Types
  import opened Assignability
  import opened VariantOrder
  import opened Widening
  import Sorting

  // ---------- Covering ----------

  predicate OpenEmpty(ty: Type) { ty.Object? && ty.shape.open && ty.shape.fields == map[] }

  /** `big` takes everything that `small` says. The open empty object covers everything; types that are not resolved,
      absence and the missing element are covered by everything, a missing element by variant sets only as a tag.
      A lax reader takes the open empty object for a type that is not resolved. */
  ghost predicate Covers(big: Type, small: Type, lax: bool)
    decreases Height(small), 1
  {
    || OpenEmpty(big) || Unresolved(small) || small.Absent? || (lax && OpenEmpty(small))
    || (NoElement(small) && !big.VariantSet?)
    || match (big, small)
       case (Bytes(k), Bytes(l)) => k.Dynamic? || k == l
       case (List(x), List(y)) => Covers(x, y, lax)
       case (Object(p), Object(q)) => ShapeCovers(p, q, lax)
       case (VariantSet(p), VariantSet(q)) => forall i | 0 <= i < |q| :: VariantCovered(p, q[i], lax)
       case _ => big == small
  }

  ghost predicate ShapeCovers(big: ObjectShape, small: ObjectShape, lax: bool)
    decreases Height(Object(small)), 0
  {
    && (small.open ==> big.open)
    && forall name {:trigger FieldCovers(big, small, name, lax)} | name in small.fields ::
         FieldCovers(big, small, name, lax)
  }

  ghost predicate FieldCovers(big: ObjectShape, small: ObjectShape, name: Name, lax: bool)
    requires name in small.fields
    decreases ShapeHeight(small), 2
  {
    name in big.fields && Covers(big.fields[name], small.fields[name], lax)
  }

  /** A variant with the tag, and with a payload that covers the payload if there is one. */
  ghost predicate VariantCovers(big: Variant, small: Variant, lax: bool)
    decreases PayloadHeight(small), 2
  {
    big.tag == small.tag && (small.Tagged? ==> big.Tagged? && Covers(Object(big.payload), Object(small.payload), lax))
  }

  ghost predicate VariantCovered(variants: seq<Variant>, small: Variant, lax: bool)
    decreases PayloadHeight(small), 3
  {
    exists k | 0 <= k < |variants| :: VariantCovers(variants[k], small, lax)
  }

  lemma {:induction false} CoversItself(ty: Type, lax: bool)
    ensures Covers(ty, ty, lax)
    decreases Height(ty), 1
  {
    match ty
    case List(item) => CoversItself(item, lax);
    case Object(shape) => ShapeCoversItself(shape, lax);
    case VariantSet(variants) =>
      forall i | 0 <= i < |variants| ensures VariantCovered(variants, variants[i], lax) {
        if variants[i].Tagged? { ShapeCoversItself(variants[i].payload, lax); }
        assert VariantCovers(variants[i], variants[i], lax);
      }
    case _ =>
  }

  lemma {:induction false} ShapeCoversItself(shape: ObjectShape, lax: bool)
    ensures ShapeCovers(shape, shape, lax) && Covers(Object(shape), Object(shape), lax)
    decreases Height(Object(shape)), 0
  {
    forall name | name in shape.fields ensures FieldCovers(shape, shape, name, lax) {
      CoversItself(shape.fields[name], lax);
    }
  }

  lemma {:induction false} VariantCoversItself(v: Variant, lax: bool)
    ensures VariantCovers(v, v, lax)
  {
    if v.Tagged? { ShapeCoversItself(v.payload, lax); }
  }

  /** Every tag has at most one payload, at any depth. */
  ghost predicate TagsOnce(ty: Type)
    decreases ty
  {
    match ty
    case List(item) => TagsOnce(item)
    case Object(shape) => ShapeTagsOnce(shape)
    case VariantSet(variants) =>
      && (forall i | 0 <= i < |variants| && variants[i].Tagged? :: ShapeTagsOnce(variants[i].payload))
      && (forall i, j | 0 <= i < j < |variants| && variants[i].Tagged? && variants[j].Tagged? ::
            variants[i].tag != variants[j].tag)
    case _ => true
  }

  ghost predicate ShapeTagsOnce(shape: ObjectShape)
    decreases shape
  {
    forall name | name in shape.fields :: TagsOnce(shape.fields[name])
  }

  // ---------- Above both sides ----------

  /** One of the variants has the tag, and a payload. */
  ghost predicate Tags(variants: seq<Variant>, tag: Name) { exists i | 0 <= i < |variants| :: variants[i].tag == tag }

  ghost predicate HasPayload(variants: seq<Variant>, tag: Name) {
    exists i | 0 <= i < |variants| :: variants[i].Tagged? && variants[i].tag == tag
  }

  /** How far merging `more` into `variants` has come: nothing is lost, and a tag that no payload came in for is as
      it was. */
  ghost predicate MergedSoFar(variants: seq<Variant>, more: seq<Variant>, merged: seq<Variant>) {
    && |variants| <= |merged|
    && (forall j | 0 <= j < |variants| :: VariantCovers(merged[j], variants[j], true))
    && (forall j | 0 <= j < |variants| && !HasPayload(more, variants[j].tag) :: merged[j] == variants[j])
    && (forall j | |variants| <= j < |merged| && !HasPayload(more, merged[j].tag) :: merged[j].Tag?)
    && (forall i | 0 <= i < |more| :: VariantCovered(merged, more[i], true))
  }

  /** What one more variant makes of the variant that has its tag. */
  ghost function MergeInto(was: Variant, v: Variant): Variant {
    if v.Tag? then was
    else if was.Tag? then v
    else Tagged(v.tag, Widen(Object(was.payload), Object(v.payload)).shape)
  }

  lemma {:induction false} MergeOneIs(variants: seq<Variant>, v: Variant)
    ensures match FindTag(variants, v.tag)
      case None => MergeOne(variants, v) == variants + [v]
      case Some(k) => k < |variants| && MergeOne(variants, v) == variants[k := MergeInto(variants[k], v)]
  {
  }

  lemma {:induction false} PayloadsCovered(was: Variant, v: Variant)
    requires was.tag == v.tag && (v.Tagged? ==> ShapeTagsOnce(v.payload))
    ensures MergeInto(was, v).tag == v.tag
    ensures VariantCovers(MergeInto(was, v), was, true) && VariantCovers(MergeInto(was, v), v, true)
    decreases PayloadHeight(v), 2
  {
    VariantCoversItself(was, true);
    VariantCoversItself(v, true);
    if v.Tagged? && was.Tagged? {
      WidenCovers(Object(was.payload), Object(v.payload));
    }
  }

  /** One more variant, and a tag that has had no payload yet. */
  lemma {:induction false} MergeOneMore(variants: seq<Variant>, more: seq<Variant>, merged: seq<Variant>, v: Variant)
    requires MergedSoFar(variants, more, merged)
    requires v.Tagged? ==> ShapeTagsOnce(v.payload) && !HasPayload(more, v.tag)
    ensures MergedSoFar(variants, more + [v], MergeOne(merged, v))
    decreases PayloadHeight(v), 3
  {
    MergeOneIs(merged, v);
    match FindTag(merged, v.tag)
    case None => AppendedSoFar(variants, more, merged, v);
    case Some(k) =>
      PayloadsCovered(merged[k], v);
      UpdatedSoFar(variants, more, merged, v, k);
  }

  lemma {:induction false} PayloadsOfMore(more: seq<Variant>, v: Variant, tag: Name)
    ensures HasPayload(more + [v], tag) <==> HasPayload(more, tag) || (v.Tagged? && v.tag == tag)
  {
    var all := more + [v];
    assert all[|more|] == v;
    if i :| 0 <= i < |more| && more[i].Tagged? && more[i].tag == tag { assert all[i].Tagged? && all[i].tag == tag; }
  }

  lemma {:induction false} AppendedSoFar(variants: seq<Variant>, more: seq<Variant>, merged: seq<Variant>, v: Variant)
    requires MergedSoFar(variants, more, merged) && forall i | 0 <= i < |merged| :: merged[i].tag != v.tag
    ensures MergedSoFar(variants, more + [v], merged + [v])
  {
    var all, next := more + [v], merged + [v];
    forall tag ensures HasPayload(all, tag) <==> HasPayload(more, tag) || (v.Tagged? && v.tag == tag) {
      PayloadsOfMore(more, v, tag);
    }
    VariantCoversItself(v, true);
    forall i | 0 <= i < |all| ensures VariantCovered(next, all[i], true) {
      if i < |more| {
        assert VariantCovered(merged, more[i], true);
        var k :| 0 <= k < |merged| && VariantCovers(merged[k], more[i], true);
        assert VariantCovers(next[k], all[i], true);
      } else {
        assert VariantCovers(next[|merged|], all[i], true);
      }
    }
  }

  lemma {:induction false} UpdatedSoFar(variants: seq<Variant>, more: seq<Variant>, merged: seq<Variant>, v: Variant,
      k: nat)
    requires MergedSoFar(variants, more, merged) && k < |merged| && merged[k].tag == v.tag
    requires v.Tagged? ==> !HasPayload(more, v.tag)
    requires MergeInto(merged[k], v).tag == v.tag
    requires VariantCovers(MergeInto(merged[k], v), merged[k], true) && VariantCovers(MergeInto(merged[k], v), v, true)
    ensures MergedSoFar(variants, more + [v], merged[k := MergeInto(merged[k], v)])
  {
    var all, next := more + [v], merged[k := MergeInto(merged[k], v)];
    forall tag ensures HasPayload(all, tag) <==> HasPayload(more, tag) || (v.Tagged? && v.tag == tag) {
      PayloadsOfMore(more, v, tag);
    }
    forall i | 0 <= i < |all| ensures VariantCovered(next, all[i], true) {
      if i < |more| {
        assert VariantCovered(merged, more[i], true);
        var j :| 0 <= j < |merged| && VariantCovers(merged[j], more[i], true);
        assert v.Tagged? && more[i].Tagged? ==> more[i].tag != v.tag;
        assert VariantCovers(next[j], all[i], true);
      } else {
        assert VariantCovers(next[k], all[i], true);
      }
    }
  }

  lemma {:induction false} NothingMerged(variants: seq<Variant>)
    ensures MergedSoFar(variants, [], variants)
  {
    forall j | 0 <= j < |variants| ensures VariantCovers(variants[j], variants[j], true) {
      VariantCoversItself(variants[j], true);
    }
  }

  lemma {:induction false} MergedCovers(variants: seq<Variant>, more: seq<Variant>, i: nat)
    requires TagsOnce(VariantSet(more)) && i <= |more|
    ensures MergedSoFar(variants, more[..i], Merged(variants, more[..i]))
    decreases VariantsHeight(more), 4, i
  {
    if i == 0 {
      NothingMerged(variants);
    } else {
      MergedCovers(variants, more, i - 1);
      MergedOneMore(variants, more, i - 1);
      assert more[..i] == more[..i - 1] + [more[i - 1]];
      MergeOneMore(variants, more[..i - 1], Merged(variants, more[..i - 1]), more[i - 1]);
    }
  }

  /** A widened type covers both sides, if the tags of the right side have at most one payload each. */
  lemma {:induction false} WidenCovers(left: Type, right: Type)
    requires TagsOnce(right)
    ensures Covers(Widen(left, right), left, true) && Covers(Widen(left, right), right, true)
    decreases Height(right), 1
  {
    CoversItself(left, true);
    CoversItself(right, true);
    if Placeholder(left) || Placeholder(right) {
    } else if left.VariantSet? && right.VariantSet? {
      WidenVariantsCovers(left, right);
    } else if left.List? && right.List? {
      WidenCovers(left.item, right.item);
    } else if left.Object? && right.Object? {
      WidenShapeCoversLeft(left.shape, right.shape);
      WidenShapeCoversRight(left.shape, right.shape);
    }
  }

  lemma {:induction false} CoveredAnywhere(a: seq<Variant>, b: seq<Variant>, j: nat, v: Variant)
    requires (forall x :: x in a <==> x in b) && j < |a| && VariantCovers(a[j], v, true)
    ensures VariantCovered(b, v, true)
  {
    assert a[j] in b;
    var k :| 0 <= k < |b| && b[k] == a[j];
    assert VariantCovers(b[k], v, true);
  }

  /** Everything merged is covered after sorting. */
  lemma {:induction false} SortedCovers(variants: seq<Variant>, more: seq<Variant>, merged: seq<Variant>,
      sorted: seq<Variant>)
    requires MergedSoFar(variants, more, merged) && forall x :: x in merged <==> x in sorted
    ensures forall j | 0 <= j < |variants| :: VariantCovered(sorted, variants[j], true)
    ensures forall i | 0 <= i < |more| :: VariantCovered(sorted, more[i], true)
  {
    forall j | 0 <= j < |variants| ensures VariantCovered(sorted, variants[j], true) {
      CoveredAnywhere(merged, sorted, j, variants[j]);
    }
    forall i | 0 <= i < |more| ensures VariantCovered(sorted, more[i], true) {
      assert VariantCovered(merged, more[i], true);
      var j :| 0 <= j < |merged| && VariantCovers(merged[j], more[i], true);
      CoveredAnywhere(merged, sorted, j, more[i]);
    }
  }

  lemma {:induction false} WidenVariantSets(left: Type, right: Type)
    requires left.VariantSet? && right.VariantSet?
    ensures var merged := Merged(left.variants, right.variants);
      && Widen(left, right) == VariantSet(Sorting.Sort(merged, VariantLeq))
      && forall x :: x in merged <==> x in Sorting.Sort(merged, VariantLeq)
  {
    var merged := Merged(left.variants, right.variants);
    Sorting.SameElements(merged, Sorting.Sort(merged, VariantLeq));
  }

  lemma {:induction false} WidenVariantsCovers(left: Type, right: Type)
    requires left.VariantSet? && right.VariantSet? && TagsOnce(right)
    ensures Covers(Widen(left, right), left, true) && Covers(Widen(left, right), right, true)
    decreases Height(right), 0
  {
    var merged := Merged(left.variants, right.variants);
    assert right.variants[..|right.variants|] == right.variants;
    MergedCovers(left.variants, right.variants, |right.variants|);
    WidenVariantSets(left, right);
    SortedCovers(left.variants, right.variants, merged, Sorting.Sort(merged, VariantLeq));
  }

  lemma {:induction false} WidenFieldCovers(left: ObjectShape, right: ObjectShape, name: Name)
    requires ShapeTagsOnce(right) && (name in left.fields || name in right.fields)
    ensures name in left.fields ==> Covers(WidenField(left, right, name), left.fields[name], true)
    ensures name in right.fields ==> Covers(WidenField(left, right, name), right.fields[name], true)
    decreases ShapeHeight(right), 3
  {
    if name !in right.fields {
      CoversItself(left.fields[name], true);
    } else if name !in left.fields {
      CoversItself(right.fields[name], true);
    } else {
      WidenCovers(left.fields[name], right.fields[name]);
    }
  }

  lemma {:induction false} WidenShapeCoversLeft(left: ObjectShape, right: ObjectShape)
    requires ShapeTagsOnce(right)
    ensures ShapeCovers(WidenShape(left, right), left, true)
    decreases Height(Object(right)), -1
  {
    var r := WidenShape(left, right);
    forall name | name in left.fields ensures FieldCovers(r, left, name, true) { WidenFieldCovers(left, right, name); }
  }

  lemma {:induction false} WidenShapeCoversRight(left: ObjectShape, right: ObjectShape)
    requires ShapeTagsOnce(right)
    ensures ShapeCovers(WidenShape(left, right), right, true)
    decreases Height(Object(right)), -1
  {
    var r := WidenShape(left, right);
    forall name | name in right.fields ensures FieldCovers(r, right, name, true) {
      WidenFieldCovers(left, right, name);
    }
  }

  // ---------- Least ----------

  lemma {:induction false} PayloadsLeast(variants: seq<Variant>, was: Variant, v: Variant)
    requires TagsOnce(VariantSet(variants)) && was.tag == v.tag
    requires VariantCovered(variants, was, false) && VariantCovered(variants, v, false)
    ensures VariantCovered(variants, MergeInto(was, v), false)
    decreases PayloadHeight(v), 2
  {
    if was.Tagged? && v.Tagged? {
      var k :| 0 <= k < |variants| && VariantCovers(variants[k], was, false);
      var l :| 0 <= l < |variants| && VariantCovers(variants[l], v, false);
      assert k == l;
      WidenLeast(Object(was.payload), Object(v.payload), Object(variants[k].payload));
      assert VariantCovers(variants[k], MergeInto(was, v), false);
    }
  }

  ghost predicate AllCovered(variants: seq<Variant>, small: seq<Variant>) {
    forall i | 0 <= i < |small| :: VariantCovered(variants, small[i], false)
  }

  lemma {:induction false} MergeOneLeast(variants: seq<Variant>, merged: seq<Variant>, v: Variant)
    requires TagsOnce(VariantSet(variants)) && AllCovered(variants, merged) && VariantCovered(variants, v, false)
    ensures AllCovered(variants, MergeOne(merged, v))
    decreases PayloadHeight(v), 3
  {
    MergeOneIs(merged, v);
    match FindTag(merged, v.tag)
    case None =>
    case Some(k) => PayloadsLeast(variants, merged[k], v);
  }

  lemma {:induction false} MergedLeast(variants: seq<Variant>, merged: seq<Variant>, more: seq<Variant>, i: nat)
    requires TagsOnce(VariantSet(variants)) && AllCovered(variants, merged) && AllCovered(variants, more)
    requires i <= |more|
    ensures AllCovered(variants, Merged(merged, more[..i]))
    decreases VariantsHeight(more), 4, i
  {
    if i > 0 {
      MergedLeast(variants, merged, more, i - 1);
      MergedOneMore(merged, more, i - 1);
      MergeOneLeast(variants, Merged(merged, more[..i - 1]), more[i - 1]);
    }
  }

  lemma {:induction false} MergedMissing(merged: seq<Variant>, more: seq<Variant>, i: nat)
    requires NoElement(VariantSet(merged)) && NoElement(VariantSet(more)) && i <= |more|
    ensures NoElement(VariantSet(Merged(merged, more[..i])))
    decreases i
  {
    if i > 0 {
      MergedMissing(merged, more, i - 1);
      MergedOneMore(merged, more, i - 1);
      MergeOneIs(Merged(merged, more[..i - 1]), more[i - 1]);
    }
  }

  /** Whatever covers both sides covers the widened type, if its own tags have at most one payload each. */
  lemma {:induction false} WidenLeast(left: Type, right: Type, ty: Type)
    requires TagsOnce(ty) && Covers(ty, left, false) && Covers(ty, right, false)
    ensures Covers(ty, Widen(left, right), false)
    decreases Height(right), 1
  {
    if OpenEmpty(ty) || Placeholder(left) || Placeholder(right) {
    } else if left.VariantSet? && right.VariantSet? {
      WidenVariantsLeast(left, right, ty);
    } else if left.Absent? || right.Absent? || NoElement(left) || NoElement(right) {
    } else if left.List? && right.List? {
      WidenLeast(left.item, right.item, ty.item);
    } else if left.Object? && right.Object? {
      WidenShapeLeast(left.shape, right.shape, ty.shape);
    }
  }

  lemma {:induction false} WidenVariantsLeast(left: Type, right: Type, ty: Type)
    requires TagsOnce(ty) && Covers(ty, left, false) && Covers(ty, right, false)
    requires left.VariantSet? && right.VariantSet? && !OpenEmpty(ty)
    ensures Covers(ty, Widen(left, right), false)
    decreases Height(right), 0
  {
    var merged := Merged(left.variants, right.variants);
    var sorted := Sorting.Sort(merged, VariantLeq);
    WidenVariantSets(left, right);
    assert right.variants[..|right.variants|] == right.variants;
    if ty.VariantSet? {
      MergedLeast(ty.variants, left.variants, right.variants, |right.variants|);
      forall i | 0 <= i < |sorted| ensures VariantCovered(ty.variants, sorted[i], false) {
        assert sorted[i] in merged;
      }
    } else {
      MergedMissing(left.variants, right.variants, |right.variants|);
      assert NoElement(VariantSet(sorted)) by {
        forall i | 0 <= i < |sorted| ensures sorted[i] == Tag(NO_ELEMENT) { assert sorted[i] in merged; }
      }
    }
  }

  lemma {:induction false} WidenShapeLeast(left: ObjectShape, right: ObjectShape, shape: ObjectShape)
    requires ShapeTagsOnce(shape) && ShapeCovers(shape, left, false) && ShapeCovers(shape, right, false)
    ensures ShapeCovers(shape, WidenShape(left, right), false)
    decreases Height(Object(right)), 0
  {
    var r := WidenShape(left, right);
    forall name | name in r.fields ensures FieldCovers(shape, r, name, false) {
      WidenFieldLeast(left, right, shape, name);
    }
  }

  lemma {:induction false} WidenFieldLeast(left: ObjectShape, right: ObjectShape, shape: ObjectShape, name: Name)
    requires ShapeTagsOnce(shape) && ShapeCovers(shape, left, false) && ShapeCovers(shape, right, false)
    requires name in left.fields || name in right.fields
    ensures name in shape.fields && Covers(shape.fields[name], WidenField(left, right, name), false)
    decreases ShapeHeight(right), 3
  {
    assert name in left.fields ==> FieldCovers(shape, left, name, false);
    assert name in right.fields ==> FieldCovers(shape, right, name, false);
    if name in left.fields && name in right.fields {
      WidenLeast(left.fields[name], right.fields[name], shape.fields[name]);
    }
  }

  // ---------- Names ----------

  lemma {:induction false} MergeOneTags(variants: seq<Variant>, v: Variant, tag: Name)
    ensures Tags(MergeOne(variants, v), tag) <==> Tags(variants, tag) || v.tag == tag
    ensures HasPayload(MergeOne(variants, v), tag) <==> HasPayload(variants, tag) || (v.Tagged? && v.tag == tag)
  {
    MergeOneIs(variants, v);
    var r := MergeOne(variants, v);
    match FindTag(variants, v.tag)
    case None =>
      assert r[|variants|] == v;
      assert forall i | 0 <= i < |variants| :: r[i] == variants[i];
    case Some(k) =>
      assert r[k].tag == v.tag && variants[k].tag == v.tag;
      assert r[k].Tagged? <==> variants[k].Tagged? || v.Tagged?;
      assert forall i | 0 <= i < |variants| && i != k :: r[i] == variants[i];
  }

  lemma {:induction false} MergedTags(variants: seq<Variant>, more: seq<Variant>, tag: Name)
    ensures Tags(Merged(variants, more), tag) <==> Tags(variants, tag) || Tags(more, tag)
    ensures HasPayload(Merged(variants, more), tag) <==> HasPayload(variants, tag) || HasPayload(more, tag)
    decreases |more|
  {
    if more != [] {
      MergeOneTags(variants, more[0], tag);
      MergedTags(MergeOne(variants, more[0]), more[1..], tag);
      assert more == [more[0]] + more[1..];
      FirstTags(more[0], more[1..], tag);
    }
  }

  lemma {:induction false} FirstTags(v: Variant, rest: seq<Variant>, tag: Name)
    ensures Tags([v] + rest, tag) <==> v.tag == tag || Tags(rest, tag)
    ensures HasPayload([v] + rest, tag) <==> (v.Tagged? && v.tag == tag) || HasPayload(rest, tag)
  {
    var all := [v] + rest;
    assert all[0] == v;
    assert forall i | 0 <= i < |rest| :: all[i + 1] == rest[i];
    assert forall i | 0 < i < |all| :: all[i] == rest[i - 1];
  }

  lemma {:induction false} SameTags(a: seq<Variant>, b: seq<Variant>, tag: Name)
    requires forall x :: x in a <==> x in b
    ensures Tags(a, tag) <==> Tags(b, tag)
    ensures HasPayload(a, tag) <==> HasPayload(b, tag)
  {
    assert forall i | 0 <= i < |a| :: a[i] in b;
    assert forall i | 0 <= i < |b| :: b[i] in a;
  }

  /** The tags of a widened variant set, and those of them with a payload, are those of both sides. */
  lemma {:induction false} WidenTags(left: Type, right: Type, tag: Name)
    requires left.VariantSet? && right.VariantSet?
    ensures Widen(left, right).VariantSet?
    ensures Tags(Widen(left, right).variants, tag) <==> Tags(left.variants, tag) || Tags(right.variants, tag)
    ensures HasPayload(Widen(left, right).variants, tag) <==>
        HasPayload(left.variants, tag) || HasPayload(right.variants, tag)
  {
    var merged := Merged(left.variants, right.variants);
    WidenVariantSets(left, right);
    MergedTags(left.variants, right.variants, tag);
    SameTags(merged, Sorting.Sort(merged, VariantLeq), tag);
  }

  /** Says something of its own: no placeholder, not absent, not the missing element. */
  predicate Solid(ty: Type) { !Placeholder(ty) && !ty.Absent? && !NoElement(ty) }

  /** Widening with a type that says nothing gives the other side. */
  lemma {:induction false} WidenNeutral(left: Type, right: Type)
    ensures Placeholder(left) || (left.Absent? && !Placeholder(right)) ==> Widen(left, right) == right
    ensures !Placeholder(left) && (Placeholder(right) || right.Absent?) ==> Widen(left, right) == left
    ensures Solid(left) && !left.VariantSet? && NoElement(right) ==> Widen(left, right) == left
    ensures NoElement(left) && Solid(right) && !right.VariantSet? ==> Widen(left, right) == right
  {
  }

  /** Of one of the kinds that are widened part by part. */
  predicate Alike(a: Type, b: Type) {
    (a.Bytes? && b.Bytes?) || (a.List? && b.List?) || (a.VariantSet? && b.VariantSet?) || (a.Object? && b.Object?)
  }

  /** Types that say something keep their kind; objects have the fields of both sides, and are open if one is. Types of
      different kinds widen to the open empty object. */
  lemma {:induction false} WidenKinds(left: Type, right: Type)
    requires Solid(left) && Solid(right)
    ensures var r := Widen(left, right);
      && (left.Bytes? && right.Bytes? ==> r.Bytes?)
      && (left.List? && right.List? ==> r.List?)
      && (left.VariantSet? && right.VariantSet? ==> r.VariantSet?)
      && (left.Object? && right.Object? ==>
            && r.Object? && !OpenEmpty(r) && r.shape.fields.Keys == left.shape.fields.Keys + right.shape.fields.Keys
            && (r.shape.open <==> left.shape.open || right.shape.open))
      && (!Alike(left, right) ==> r == if left == right then left else OpenObject())
  {
    if left.Object? && right.Object? {
      var r := WidenShape(left.shape, right.shape);
      assert r.fields.Keys == left.shape.fields.Keys + right.shape.fields.Keys;
      if r.fields == map[] {
        assert left.shape.fields.Keys <= r.fields.Keys && right.shape.fields.Keys <= r.fields.Keys;
        assert left.shape.fields == map[] && right.shape.fields == map[];
      }
    }
  }

  // ---------- Field order ----------

  /** `name` is first at `i`. */
  predicate FirstAt(names: seq<Name>, name: Name, i: nat) { i < |names| && names[i] == name && name !in names[..i] }

  /** `order` are the allowed names without repeats, by where they are first. */
  ghost predicate Firsts(names: seq<Name>, allowed: set<Name>, order: seq<Name>) {
    && (forall name :: name in order <==> name in names && name in allowed)
    && (forall i, j, a: nat, b: nat | 0 <= i < j < |order| && FirstAt(names, order[i], a) &&
          FirstAt(names, order[j], b) :: a < b)
    && Sorting.Distinct(order)
  }

  lemma {:induction false} FirstAtLonger(names: seq<Name>, name: Name, last: Name, i: nat)
    requires FirstAt(names + [last], name, i)
    ensures if i < |names| then FirstAt(names, name, i) else i == |names| && name == last && name !in names
  {
    assert i <= |names| ==> (names + [last])[..i] == names[..i];
  }

  lemma {:induction false} FirstsOneMore(names: seq<Name>, allowed: set<Name>, order: seq<Name>, name: Name)
    requires Firsts(names, allowed, order)
    ensures Firsts(names + [name], allowed, if name in allowed && name !in order then order + [name] else order)
  {
    var all := names + [name];
    var next := if name in allowed && name !in order then order + [name] else order;
    forall i, j, a: nat, b: nat | 0 <= i < j < |next| && FirstAt(all, next[i], a) && FirstAt(all, next[j], b)
      ensures a < b
    {
      FirstAtLonger(names, next[i], name, a);
      FirstAtLonger(names, next[j], name, b);
      assert next[i] in names;
    }
  }

  lemma {:induction false} AppendedFirsts(done: seq<Name>, order: seq<Name>, names: seq<Name>, allowed: set<Name>)
    requires Firsts(done, allowed, order)
    ensures Firsts(done + names, allowed, Appended(order, names, allowed))
    decreases |names|
  {
    if names == [] {
      assert done + names == done;
    } else {
      var next := if names[0] in allowed && names[0] !in order then order + [names[0]] else order;
      assert Appended(order, names, allowed) == Appended(next, names[1..], allowed);
      assert done + names == done + [names[0]] + names[1..];
      FirstsOneMore(done, allowed, order, names[0]);
      AppendedFirsts(done + [names[0]], next, names[1..], allowed);
    }
  }

  /** The order of a widened object names exactly its fields, once each: first in the declared order of the left side,
      then of the right side, then by name. */
  lemma {:induction false} WidenedOrderFirsts(left: ObjectShape, right: ObjectShape)
    ensures var allowed := left.fields.Keys + right.fields.Keys;
      && Firsts(left.fieldOrder + right.fieldOrder + (KeyOrder(left) + KeyOrder(right)), allowed,
                WidenedOrder(left, right))
      && (forall name :: name in WidenedOrder(left, right) <==> name in allowed)
  {
    var allowed := left.fields.Keys + right.fields.Keys;
    var declared := left.fieldOrder + right.fieldOrder;
    NameOrder();
    AppendedFirsts([], [], declared, allowed);
    assert [] + declared == declared;
    AppendedFirsts(declared, Appended([], declared, allowed), KeyOrder(left) + KeyOrder(right), allowed);
    forall name | name in allowed ensures name in declared + (KeyOrder(left) + KeyOrder(right)) {
      assert name in KeyOrder(left) || name in KeyOrder(right);
    }
  }

  // ---------- Repeated tags ----------

  ghost predicate OnePayloadEach(variants: seq<Variant>) {
    forall i, j | 0 <= i < j < |variants| && variants[i].Tagged? && variants[j].Tagged? ::
      variants[i].tag != variants[j].tag
  }

  /** The same tags in the same order, with and without payloads. */
  ghost predicate SameTagging(a: seq<Variant>, b: seq<Variant>) {
    |a| == |b| && forall i | 0 <= i < |a| :: a[i].tag == b[i].tag && (a[i].Tagged? <==> b[i].Tagged?)
  }

  ghost predicate TidyPayloads(variants: seq<Variant>) {
    forall i | 0 <= i < |variants| && variants[i].Tagged? :: ShapeTagsOnce(variants[i].payload)
  }

  /** Whatever is widened with these variants is covered, and so are they. */
  ghost predicate CoversWith(right: seq<Variant>) {
    forall left: Type ::
      Covers(Widen(left, VariantSet(right)), left, true) && Covers(Widen(left, VariantSet(right)), VariantSet(right),
          true)
  }

  function Closed(fields: map<Name, Type>): ObjectShape { ObjectShape(fields, [], false) }

  ghost predicate OnlyField(shape: ObjectShape, field: Name, ty: Type) {
    shape.fields.Keys == {field} && shape.fields[field] == ty
  }

  /** The first variant has the tag, and one field of type `ty` in its payload; no other variant has the tag. */
  ghost predicate Tracks(merged: seq<Variant>, tag: Name, field: Name, ty: Type) {
    && merged != [] && merged[0].Tagged? && merged[0].tag == tag && OnlyField(merged[0].payload, field, ty)
    && forall i | 0 < i < |merged| :: merged[i].tag != tag
  }

  lemma {:induction false} TracksOther(merged: seq<Variant>, v: Variant, tag: Name, field: Name, ty: Type)
    requires Tracks(merged, tag, field, ty) && (v.tag != tag || v.Tag?)
    ensures Tracks(MergeOne(merged, v), tag, field, ty)
  {
    MergeOneIs(merged, v);
  }

  lemma {:induction false} WidenRecords(left: ObjectShape, right: ObjectShape)
    requires !Placeholder(Object(left)) && !Placeholder(Object(right))
    ensures Widen(Object(left), Object(right)) == Object(WidenShape(left, right))
  {
  }

  lemma {:induction false} WidenShapeAt(left: ObjectShape, right: ObjectShape, field: Name)
    requires field in left.fields || field in right.fields
    ensures WidenShape(left, right).fields.Keys == left.fields.Keys + right.fields.Keys
    ensures WidenShape(left, right).fields[field] == WidenField(left, right, field)
  {
  }

  lemma {:induction false} WidenFieldIs(left: ObjectShape, right: ObjectShape, field: Name)
    requires field in left.fields
    ensures WidenField(left, right, field) ==
        if field in right.fields then Widen(left.fields[field], right.fields[field]) else left.fields[field]
  {
  }

  lemma {:induction false} FieldIsSomething(field: Name, shape: ObjectShape)
    requires field in shape.fields
    ensures !Placeholder(Object(shape))
  {
  }

  lemma {:induction false} WidenClosed(left: ObjectShape, right: ObjectShape, field: Name, ty: Type)
    requires OnlyField(left, field, ty) && !right.open && right.fields.Keys <= {field}
    ensures Widen(Object(left), Object(right)) == Object(WidenShape(left, right))
    ensures OnlyField(WidenShape(left, right), field,
                      if field in right.fields then Widen(ty, right.fields[field]) else ty)
  {
    FieldIsSomething(field, left);
    WidenRecords(left, right);
    WidenShapeAt(left, right, field);
    WidenFieldIs(left, right, field);
  }

  lemma {:induction false} TracksPayload(merged: seq<Variant>, v: Variant, tag: Name, field: Name, ty: Type)
    requires Tracks(merged, tag, field, ty) && v.tag == tag && v.Tagged?
    requires !v.payload.open && v.payload.fields.Keys <= {field}
    ensures Tracks(MergeOne(merged, v), tag, field,
                   if field in v.payload.fields then Widen(ty, v.payload.fields[field]) else ty)
  {
    MergeOneIs(merged, v);
    WidenClosed(merged[0].payload, v.payload, field, ty);
  }

  /** Payloads under which the variants of `tags` at `i` and `j` lose what was there before. */
  function Losing(tags: seq<Variant>, i: nat, j: nat, field: Name, k: nat): Variant
    requires k < |tags|
  {
    if tags[k].Tag? then tags[k]
    else Tagged(tags[k].tag, Closed(if k == i then map[field := Text] else if k == j then map[field := Bits(1)]
                                    else map[]))
  }

  function LosingAll(tags: seq<Variant>, i: nat, j: nat, field: Name): (r: seq<Variant>)
    ensures |r| == |tags| && forall k | 0 <= k < |r| :: r[k] == Losing(tags, i, j, field, k)
  {
    seq(|tags|, k requires 0 <= k < |tags| => Losing(tags, i, j, field, k))
  }

  function Left(tag: Name, field: Name): seq<Variant> { [Tagged(tag, Closed(map[field := Number]))] }

  function TypeAfter(i: nat, j: nat, k: nat): Type {
    if k <= i then Number else if k <= j then OpenObject() else Bits(1)
  }

  lemma {:induction false} NumberThenText()
    ensures Widen(Number, Text) == OpenObject() && Widen(OpenObject(), Bits(1)) == Bits(1)
  {
  }

  lemma {:induction false} TracksLosing(tags: seq<Variant>, i: nat, j: nat, field: Name, k: nat)
    requires i < j < |tags| && tags[i].Tagged? && tags[j].Tagged? && tags[i].tag == tags[j].tag && k <= |tags|
    ensures Tracks(Merged(Left(tags[i].tag, field), LosingAll(tags, i, j, field)[..k]), tags[i].tag, field,
                   TypeAfter(i, j, k))
  {
    var tag, right := tags[i].tag, LosingAll(tags, i, j, field);
    if k > 0 {
      var merged := Merged(Left(tag, field), right[..k - 1]);
      TracksLosing(tags, i, j, field, k - 1);
      MergedOneMore(Left(tag, field), right, k - 1);
      TracksNext(tags, i, j, field, k - 1, merged);
    }
  }

  lemma {:induction false} TracksNext(tags: seq<Variant>, i: nat, j: nat, field: Name, k: nat, merged: seq<Variant>)
    requires i < j < |tags| && tags[i].Tagged? && tags[j].Tagged? && tags[i].tag == tags[j].tag && k < |tags|
    requires Tracks(merged, tags[i].tag, field, TypeAfter(i, j, k))
    ensures Tracks(MergeOne(merged, Losing(tags, i, j, field, k)), tags[i].tag, field, TypeAfter(i, j, k + 1))
  {
    var v := Losing(tags, i, j, field, k);
    if v.Tag? || v.tag != tags[i].tag {
      TracksOther(merged, v, tags[i].tag, field, TypeAfter(i, j, k));
    } else {
      NumberThenText();
      TracksPayload(merged, v, tags[i].tag, field, TypeAfter(i, j, k));
    }
  }

  lemma {:induction false} NumberLost(merged: seq<Variant>, sorted: seq<Variant>, tag: Name, field: Name)
    requires Tracks(merged, tag, field, Bits(1)) && forall x :: x in merged <==> x in sorted
    ensures !Covers(VariantSet(sorted), VariantSet(Left(tag, field)), true)
  {
    var small := Left(tag, field)[0];
    forall k | 0 <= k < |sorted| ensures !VariantCovers(sorted[k], small, true) {
      assert sorted[k] in merged;
      if sorted[k].tag == tag {
        assert sorted[k] == merged[0];
        FieldLost(merged[0].payload, small.payload, field);
      }
    }
    assert !VariantCovered(sorted, small, true);
  }

  lemma {:induction false} FieldLost(big: ObjectShape, small: ObjectShape, field: Name)
    requires OnlyField(big, field, Bits(1)) && OnlyField(small, field, Number)
    ensures !Covers(Object(big), Object(small), true)
  {
    assert field in big.fields && field in small.fields;
    assert !FieldCovers(big, small, field, true);
  }

  /** With two payloads for a tag something can be lost: what the first one widens to an open empty object, the second
      one takes for a placeholder. */
  lemma {:induction false} RepeatedTagLost(tags: seq<Variant>, i: nat, j: nat, field: Name)
    requires i < j < |tags| && tags[i].Tagged? && tags[j].Tagged? && tags[i].tag == tags[j].tag
    ensures var left, right := VariantSet(Left(tags[i].tag, field)), VariantSet(LosingAll(tags, i, j, field));
      !Covers(Widen(left, right), left, true)
  {
    var left, right := Left(tags[i].tag, field), LosingAll(tags, i, j, field);
    TracksLosing(tags, i, j, field, |tags|);
    assert right[..|tags|] == right;
    WidenVariantSets(VariantSet(left), VariantSet(right));
    NumberLost(Merged(left, right), Sorting.Sort(Merged(left, right), VariantLeq), tags[i].tag, field);
  }

  lemma {:induction false} LosingTidy(tags: seq<Variant>, i: nat, j: nat, field: Name)
    ensures TidyPayloads(LosingAll(tags, i, j, field)) && SameTagging(LosingAll(tags, i, j, field), tags)
  {
  }

  lemma {:induction false} OnePayloadCovers(right: seq<Variant>)
    requires TidyPayloads(right) && OnePayloadEach(right)
    ensures CoversWith(right)
  {
    forall left: Type
      ensures Covers(Widen(left, VariantSet(right)), left, true)
      ensures Covers(Widen(left, VariantSet(right)), VariantSet(right), true)
    {
      WidenCovers(left, VariantSet(right));
    }
  }

  /** As far as the tags of the right side decide, widening loses nothing exactly if every tag has at most one
      payload. */
  lemma {:induction false} LosslessIffOnePayload(tags: seq<Variant>)
    ensures OnePayloadEach(tags) <==>
        forall right: seq<Variant> | SameTagging(right, tags) && TidyPayloads(right) :: CoversWith(right)
  {
    if OnePayloadEach(tags) {
      forall right: seq<Variant> | SameTagging(right, tags) && TidyPayloads(right) ensures CoversWith(right) {
        OnePayloadCovers(right);
      }
    } else {
      var i, j :| 0 <= i < j < |tags| && tags[i].Tagged? && tags[j].Tagged? && tags[i].tag == tags[j].tag;
      RepeatedTagLost(tags, i, j, []);
      LosingTidy(tags, i, j, []);
      assert !CoversWith(LosingAll(tags, i, j, []));
    }
  }
}
