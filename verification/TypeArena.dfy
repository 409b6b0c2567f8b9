/** The hash-consing builder of type terms. */
module TypeArena {
  import opened Wrappers
  import opened TypeTerms
  import Erasure

  const U32_MAX: nat := 0xFFFF_FFFF

  type Hash<!D> = Kind<Option<D>> -> D

  // ---------- The table of terms ----------

  function DigestOf<D>(terms: seq<Term<D>>): nat -> Option<D> {
    (c: nat) => if c < |terms| then Some(terms[c].digest) else None
  }

  function DigestOfKind<D>(hash: Hash<D>, terms: seq<Term<D>>, k: Kind<nat>): D { hash(MapKind(k, DigestOf(terms))) }

  ghost predicate HasVariable<D>(terms: seq<Term<D>>, k: Kind<nat>) {
    k.VariableTerm? || exists c: nat | Part(k, c) :: c < |terms| && terms[c].containsVariable
  }

  function ErasedId<D>(terms: seq<Term<D>>): nat -> nat {
    (c: nat) => if c < |terms| then terms[c].runtimeErased else c
  }

  /** The layer with every part replaced by its erased twin. */
  function ErasedKind<D>(terms: seq<Term<D>>, k: Kind<nat>): Kind<nat> {
    if k.VariableTerm? then UnknownTerm else MapKind(k, ErasedId(terms))
  }

  ghost predicate DigestAt<D>(hash: Hash<D>, terms: seq<Term<D>>, i: nat)
    requires i < |terms|
  {
    terms[i].digest == DigestOfKind(hash, terms, terms[i].kind)
  }

  ghost predicate DigestsOk<D>(hash: Hash<D>, terms: seq<Term<D>>) {
    forall i {:trigger DigestAt(hash, terms, i)} | 0 <= i < |terms| :: DigestAt(hash, terms, i)
  }

  ghost predicate IndexedAt<D>(terms: seq<Term<D>>, ids: map<D, seq<nat>>, i: nat)
    requires i < |terms|
  {
    terms[i].digest in ids && ids[terms[i].digest] == [i]
  }

  ghost predicate Indexed<D>(terms: seq<Term<D>>, ids: map<D, seq<nat>>) {
    && (forall i {:trigger IndexedAt(terms, ids, i)} | 0 <= i < |terms| :: IndexedAt(terms, ids, i))
    && (forall d | d in ids :: |ids[d]| == 1 && ids[d][0] < |terms| && terms[ids[d][0]].digest == d)
  }

  /** Why a layer cannot be interned: a part is missing, its digest belongs to another layer, or the
      table is full. */
  ghost predicate Refused<D>(hash: Hash<D>, terms: seq<Term<D>>, ids: map<D, seq<nat>>, k: Kind<nat>)
    requires Indexed(terms, ids)
  {
    var digest := DigestOfKind(hash, terms, k);
    || (exists c: nat | Part(k, c) :: c >= |terms|)
    || (digest in ids && terms[ids[digest][0]].kind != k)
    || (digest !in ids && |terms| > U32_MAX)
  }

  ghost predicate KnownParts<D>(terms: seq<Term<D>>, k: Kind<nat>) { forall c: nat | Part(k, c) :: c < |terms| }

  /** Some layer over terms of the table is refused: its digest belongs to another layer, or the table is full. */
  ghost predicate Stuck<D(!new)>(hash: Hash<D>, terms: seq<Term<D>>, ids: map<D, seq<nat>>) {
    && Indexed(terms, ids) && DigestsOk(hash, terms)
    && exists k: Kind<nat> :: KnownParts(terms, k) && Refused(hash, terms, ids, k)
  }

  ghost predicate FlagAt<D>(terms: seq<Term<D>>, i: nat)
    requires i < |terms|
  {
    terms[i].containsVariable <==> HasVariable(terms, terms[i].kind)
  }

  ghost predicate Flagged<D>(terms: seq<Term<D>>) {
    forall i {:trigger FlagAt(terms, i)} | 0 <= i < |terms| :: FlagAt(terms, i)
  }

  /** Terms refer backward, have the digest of their kind, are found by it, and know whether they
      contain a variable. */
  ghost predicate Table<D(!new)>(hash: Hash<D>, terms: seq<Term<D>>, ids: map<D, seq<nat>>) {
    Backward(terms) && DigestsOk(hash, terms) && Indexed(terms, ids) && Flagged(terms)
  }

  /** Term `i` points at its erased twin: itself when it has no variable. */
  ghost predicate ErasedAt<D>(terms: seq<Term<D>>, i: nat)
    requires i < |terms|
  {
    var e := terms[i].runtimeErased;
    && e < |terms| && !terms[e].containsVariable
    && (!terms[i].containsVariable ==> e == i)
    && (terms[i].containsVariable ==> terms[e].kind == ErasedKind(terms, terms[i].kind))
  }

  ghost predicate AllErased<D>(terms: seq<Term<D>>, pending: set<nat>) {
    forall i {:trigger ErasedAt(terms, i)} | 0 <= i < |terms| && i !in pending :: ErasedAt(terms, i)
  }

  /** Equal layers have one term. */
  lemma {:induction false} KindUnique<D(!new)>(hash: Hash<D>, terms: seq<Term<D>>, ids: map<D, seq<nat>>, i: nat,
      j: nat)
    requires Table(hash, terms, ids) && i < |terms| && j < |terms| && terms[i].kind == terms[j].kind
    ensures i == j
  {
    assert DigestAt(hash, terms, i) && DigestAt(hash, terms, j) && IndexedAt(terms, ids, i) && IndexedAt(terms, ids, j);
    assert ids[terms[i].digest] == [i] && ids[terms[j].digest] == [j];
  }

  // ---------- Erasure ----------

  /** The erased twin of a term means the erased type of the term. */
  lemma {:induction false} ErasedMeaning<D(!new)>(terms: seq<Term<D>>, i: nat)
    requires Backward(terms) && Flagged(terms) && AllErased(terms, {}) && i < |terms|
    ensures terms[i].runtimeErased < |terms|
    ensures Meaning(terms, terms[i].runtimeErased) == Erasure.Erased(Meaning(terms, i))
    decreases i
  {
    assert ErasedAt(terms, i) && FlagAt(terms, i);
    var k, e := terms[i].kind, terms[i].runtimeErased;
    forall c: nat | Part(k, c)
      ensures c < i && terms[c].runtimeErased < |terms| && Meaning(terms, terms[c].runtimeErased) ==
          Erasure.Erased(Meaning(terms, c))
    {
      ErasedMeaning(terms, c);
    }
    if !k.VariableTerm? {
      ErasedBuild(MapKind(k, Below(terms, i)));
      MapKindTwice(k, Below(terms, i), EraseAll());
      ErasedLayer(terms, i);
    }
  }

  /** What is known of the parts when the whole is erased. */
  ghost predicate PartsErased<D>(terms: seq<Term<D>>, i: nat)
    requires i < |terms|
  {
    forall c: nat | Part(terms[i].kind, c) ::
      c < i && terms[c].runtimeErased < |terms| && Meaning(terms, terms[c].runtimeErased) ==
          Erasure.Erased(Meaning(terms, c))
  }

  /** The step from the parts to the whole. */
  lemma {:induction false} ErasedLayer<D(!new)>(terms: seq<Term<D>>, i: nat)
    requires Backward(terms) && Flagged(terms) && AllErased(terms, {}) && i < |terms| && !terms[i].kind.VariableTerm?
    requires PartsErased(terms, i)
    ensures terms[i].runtimeErased < |terms|
    ensures Meaning(terms, terms[i].runtimeErased) ==
        Build(MapKind(terms[i].kind, Compose(Below(terms, i), EraseAll())))
  {
    assert ErasedAt(terms, i);
    if terms[i].containsVariable {
      ErasedTwin(terms, i, terms[i].runtimeErased);
    } else {
      ErasedSame(terms, i);
    }
  }

  lemma {:induction false} ErasedTwin<D(!new)>(terms: seq<Term<D>>, i: nat, e: nat)
    requires Backward(terms) && i < |terms| && e < |terms| && PartsErased(terms, i) && !terms[i].kind.VariableTerm?
    requires terms[e].kind == ErasedKind(terms, terms[i].kind)
    ensures Meaning(terms, e) == Build(MapKind(terms[i].kind, Compose(Below(terms, i), EraseAll())))
  {
    var k := terms[i].kind;
    MapKindTwice(k, ErasedId(terms), Below(terms, e));
    forall c: nat | Part(k, c)
      ensures Compose(ErasedId(terms), Below(terms, e))(c) == Compose(Below(terms, i), EraseAll())(c)
    {
      PartOfMap(k, ErasedId(terms), c);
      assert Part(terms[e].kind, ErasedId(terms)(c));
    }
    MapKindAgree(k, Compose(ErasedId(terms), Below(terms, e)), Compose(Below(terms, i), EraseAll()));
  }

  lemma {:induction false} ErasedSame<D(!new)>(terms: seq<Term<D>>, i: nat)
    requires Flagged(terms) && AllErased(terms, {}) && i < |terms| && PartsErased(terms, i) &&
        !terms[i].containsVariable
    ensures Meaning(terms, i) == Build(MapKind(terms[i].kind, Compose(Below(terms, i), EraseAll())))
  {
    var k := terms[i].kind;
    assert FlagAt(terms, i);
    forall c: nat | Part(k, c) ensures Below(terms, i)(c) == Compose(Below(terms, i), EraseAll())(c) {
      assert ErasedAt(terms, c);
    }
    MapKindAgree(k, Below(terms, i), Compose(Below(terms, i), EraseAll()));
  }

  lemma {:induction false} PartOfMap<A, B>(k: Kind<A>, f: A -> B, c: A)
    requires Part(k, c)
    ensures Part(MapKind(k, f), f(c))
  {
    match k
    case VariantSetTerm(variants) =>
      var i :| 0 <= i < |variants| && variants[i].TaggedTerm? && variants[i].payload == c;
      assert MapKind(k, f).variants[i] == MapVariant(variants[i], f);
    case ObjectTerm(fields, _, _) =>
      var i :| 0 <= i < |fields| && fields[i].ty == c;
      assert MapKind(k, f).fields[i].ty == f(c);
    case FunctionTerm(args, _, result) =>
      if c != result {
        var i :| 0 <= i < |args| && args[i] == c;
        assert MapAll(args, f)[i] == f(c);
      }
    case UnionTerm(members) =>
      var i :| 0 <= i < |members| && members[i] == c;
      assert MapAll(members, f)[i] == f(c);
    case _ =>
  }

  // ---------- Canonical terms ----------

  lemma {:induction false} CanonicalTidy<D>(terms: seq<Term<D>>, i: nat)
    requires Canonical(terms, i)
    ensures TidyLayer(MapKind(terms[i].kind, Below(terms, i)))
  {
    var k := terms[i].kind;
    if k.ObjectTerm? {
      assert Names(MapFields(k.fields, Below(terms, i))) == Names(k.fields);
    } else if k.VariantSetTerm? {
      PayloadsTidy(terms, i, k.variants);
    }
  }

  lemma {:induction false} PayloadsTidy<D>(terms: seq<Term<D>>, i: nat, variants: seq<VariantTerm<nat>>)
    requires Canonical(terms, i) && terms[i].kind == VariantSetTerm(variants)
    ensures TidyLayer(MapKind(terms[i].kind, Below(terms, i)))
  {
    forall j | 0 <= j < |variants| && variants[j].TaggedTerm? ensures Below(terms, i)(variants[j].payload).Object? {
      assert Part(terms[i].kind, variants[j].payload);
    }
  }

  /** For a canonical term the stored flag is the variable test of its type. */
  lemma {:induction false} FlagMeaning<D(!new)>(terms: seq<Term<D>>, i: nat)
    requires Flagged(terms) && Canonical(terms, i)
    ensures terms[i].containsVariable <==> Erasure.ContainsVar(Meaning(terms, i))
    decreases i
  {
    var k := terms[i].kind;
    var layer := MapKind(k, Below(terms, i));
    assert FlagAt(terms, i);
    CanonicalTidy(terms, i);
    ContainsBuild(layer);
    forall c: nat | Part(k, c) ensures terms[c].containsVariable <==> Erasure.ContainsVar(Below(terms, i)(c)) {
      FlagMeaning(terms, c);
    }
    if terms[i].containsVariable && !k.VariableTerm? {
      var c: nat :| Part(k, c) && c < |terms| && terms[c].containsVariable;
      PartOfMap(k, Below(terms, i), c);
    }
    if ty :| Part(layer, ty) && Erasure.ContainsVar(ty) {
      var c := PartFrom(k, Below(terms, i), ty);
    }
  }

  /** A part of a mapped layer comes from a part. */
  lemma {:induction false} PartFrom<A, B>(k: Kind<A>, f: A -> B, b: B) returns (c: A)
    requires Part(MapKind(k, f), b)
    ensures Part(k, c) && f(c) == b
  {
    match k
    case VariantSetTerm(variants) =>
      var mapped := MapKind(k, f).variants;
      var i :| 0 <= i < |mapped| && mapped[i].TaggedTerm? && mapped[i].payload == b;
      c := variants[i].payload;
    case ObjectTerm(fields, _, _) =>
      var mapped := MapKind(k, f).fields;
      var i :| 0 <= i < |mapped| && mapped[i].ty == b;
      c := fields[i].ty;
    case FunctionTerm(args, _, result) =>
      if f(result) == b {
        c := result;
      } else {
        var i :| 0 <= i < |args| && MapAll(args, f)[i] == b;
        c := args[i];
      }
    case UnionTerm(members) =>
      var i :| 0 <= i < |members| && MapAll(members, f)[i] == b;
      c := members[i];
    case MapTerm(key, value) => c := if f(key) == b then key else value;
    case ListTerm(item) => c := item;
    case SetTerm(item) => c := item;
  }

  /** A layer is determined by the layer it is mapped to, if parts are. */
  lemma {:induction false} MapKindInjective<A, B>(a: Kind<A>, b: Kind<A>, f: A -> B, g: A -> B)
    requires MapKind(a, f) == MapKind(b, g)
    requires forall x, y | Part(a, x) && Part(b, y) && f(x) == g(y) :: x == y
    ensures a == b
  {
    match a
    case VariantSetTerm(variants) =>
      assert |variants| == |b.variants|;
      forall i | 0 <= i < |variants| ensures variants[i] == b.variants[i] {
        assert MapVariant(variants[i], f) == MapKind(a, f).variants[i] == MapKind(b, g).variants[i] ==
            MapVariant(b.variants[i], g);
        if variants[i].TaggedTerm? { assert Part(a, variants[i].payload) && Part(b, b.variants[i].payload); }
      }
    case ObjectTerm(fields, _, _) =>
      assert |fields| == |b.fields|;
      forall i | 0 <= i < |fields| ensures fields[i] == b.fields[i] {
        assert MapKind(a, f).fields[i] == MapKind(b, g).fields[i];
        assert Part(a, fields[i].ty) && Part(b, b.fields[i].ty);
      }
    case FunctionTerm(args, _, result) =>
      assert Part(a, result) && Part(b, b.result);
      SequenceInjective(a, b, args, b.args, f, g);
    case UnionTerm(members) => SequenceInjective(a, b, members, b.members, f, g);
    case MapTerm(key, value) => assert Part(a, key) && Part(b, b.key) && Part(a, value) && Part(b, b.value);
    case ListTerm(item) => assert Part(a, item) && Part(b, b.item);
    case SetTerm(item) => assert Part(a, item) && Part(b, b.item);
    case _ =>
  }

  lemma {:induction false} SequenceInjective<A, B>(a: Kind<A>, b: Kind<A>, s: seq<A>, t: seq<A>, f: A -> B, g: A -> B)
    requires MapAll(s, f) == MapAll(t, g)
    requires forall x, y | Part(a, x) && Part(b, y) && f(x) == g(y) :: x == y
    requires (forall x | x in s :: Part(a, x)) && forall y | y in t :: Part(b, y)
    ensures s == t
  {
    assert |s| == |MapAll(s, f)| == |MapAll(t, g)| == |t|;
    forall i | 0 <= i < |s| ensures s[i] == t[i] {
      assert f(s[i]) == MapAll(s, f)[i] == MapAll(t, g)[i] == g(t[i]);
      assert Part(a, s[i]) && Part(b, t[i]);
    }
  }

  /** Two canonical terms that mean the same type are the same term. */
  lemma {:induction false} CanonicalUnique<D(!new)>(hash: Hash<D>, terms: seq<Term<D>>, ids: map<D, seq<nat>>, i: nat,
      j: nat)
    requires Table(hash, terms, ids) && Canonical(terms, i) && Canonical(terms, j) &&
        Meaning(terms, i) == Meaning(terms, j)
    ensures i == j
    decreases i
  {
    var a, b := terms[i].kind, terms[j].kind;
    CanonicalTidy(terms, i);
    CanonicalTidy(terms, j);
    BuildInjective(MapKind(a, Below(terms, i)), MapKind(b, Below(terms, j)));
    forall x: nat, y: nat | Part(a, x) && Part(b, y) && Below(terms, i)(x) == Below(terms, j)(y) ensures x == y {
      CanonicalUnique(hash, terms, ids, x, y);
    }
    MapKindInjective(a, b, Below(terms, i), Below(terms, j));
    KindUnique(hash, terms, ids, i, j);
  }

  /** Interning gets stuck only on a full table or on a collision: two different messages with one digest. */
  lemma {:induction false} StuckMeans<D(!new)>(hash: Hash<D>, terms: seq<Term<D>>, ids: map<D, seq<nat>>)
    requires Stuck(hash, terms, ids)
    ensures |terms| > U32_MAX || exists a: Kind<Option<D>>, b: Kind<Option<D>> :: a != b && hash(a) == hash(b)
  {
    var k: Kind<nat> :| KnownParts(terms, k) && Refused(hash, terms, ids, k);
    var digest := DigestOfKind(hash, terms, k);
    if |terms| <= U32_MAX {
      var i := ids[digest][0];
      var a, b := MapKind(terms[i].kind, DigestOf(terms)), MapKind(k, DigestOf(terms));
      assert DigestAt(hash, terms, i);
      if a == b {
        forall x: nat, y: nat | Part(terms[i].kind, x) && Part(k, y) && DigestOf(terms)(x) == DigestOf(terms)(y)
          ensures x == y
        {
          assert IndexedAt(terms, ids, x) && IndexedAt(terms, ids, y);
          assert ids[terms[x].digest] == [x] && ids[terms[y].digest] == [y];
        }
        MapKindInjective(terms[i].kind, k, DigestOf(terms), DigestOf(terms));
      }
    }
  }
}
