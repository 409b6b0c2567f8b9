/** The canonical order of variants, computed without building the keys it compares. */
module VariantOrder {
  import opened Wrappers
  import opened Types
  import B = Bytes
  import Sorting

  const COLON: B.Byte := 58
  const ZERO: B.Byte := 48
  const U64_LIMIT: nat := 0x1_0000_0000_0000_0000
  const SUFFIX_BYTES: nat := 21

  // ---------- Decimal numbers ----------

  /** The decimal digits of a number, as bytes. */
  function Decimal(n: nat): (r: seq<B.Byte>)
    ensures r != [] && forall i | 0 <= i < |r| :: ZERO <= r[i] <= ZERO + 9
  {
    if n < 10 then [ZERO + n] else Decimal(n / 10) + [ZERO + n % 10]
  }

  /** Digits read in base ten. */
  function Numeral(digits: seq<B.Byte>): int {
    if digits == [] then 0 else 10 * Numeral(digits[..|digits| - 1]) + (digits[|digits| - 1] - ZERO)
  }

  /** The digits read back as the number, and there is no leading zero. */
  lemma {:induction false} DecimalReads(n: nat)
    ensures Numeral(Decimal(n)) == n
    ensures |Decimal(n)| > 1 ==> Decimal(n)[0] != ZERO
  {
    var digits := Decimal(n);
    if n < 10 {
      assert digits[..0] == [];
    } else {
      DecimalReads(n / 10);
      assert digits[..|digits| - 1] == Decimal(n / 10);
      if n < 100 { assert Decimal(n / 10)[0] == ZERO + n / 10; }
    }
  }

  lemma {:induction false} DecimalInjective(a: nat, b: nat)
    requires Decimal(a) == Decimal(b)
    ensures a == b
  {
    var da, db := Decimal(a), Decimal(b);
    assert da[|da| - 1] == ZERO + a % 10 && db[|db| - 1] == ZERO + b % 10;
    if a >= 10 && b >= 10 {
      assert Decimal(a / 10) == da[..|da| - 1] && Decimal(b / 10) == db[..|db| - 1];
      DecimalInjective(a / 10, b / 10);
    }
  }

  function Pow10(n: nat): nat { if n == 0 then 1 else 10 * Pow10(n - 1) }

  lemma {:induction false} Pow10Bound()
    ensures U64_LIMIT <= Pow10(20)
  {
    assert Pow10(10) == 10_000_000_000;
    assert Pow10(15) == 1_000_000_000_000_000;
    assert Pow10(20) == 100_000_000_000_000_000_000;
  }

  lemma {:induction false} Pow10Step(value: nat, n: nat)
    requires value < Pow10(n) && n > 0
    ensures value / 10 < Pow10(n - 1) && (value / 10 > 0 ==> n > 1)
  {
  }

  /** The last digit of what is left goes in front of the digits that are written. */
  lemma {:induction false} DigitStep(number: nat, value: nat, digits: seq<B.Byte>, next: seq<B.Byte>)
    requires Decimal(number) == Decimal(value) + digits && next == [ZERO + value % 10] + digits
    ensures Decimal(number) == if value < 10 then next else Decimal(value / 10) + next
  {
  }

  /** A colon and the digits of a 64-bit number, written from the end of a 21-byte buffer. */
  method DecimalSuffix(number: nat) returns (bytes: array<B.Byte>, start: nat)
    requires number < U64_LIMIT
    ensures fresh(bytes) && bytes.Length == SUFFIX_BYTES && start <= SUFFIX_BYTES
    ensures bytes[start..] == [COLON] + Decimal(number)
  {
    bytes := new B.Byte[SUFFIX_BYTES](_ => 0);
    start := bytes.Length;
    var value: nat := number;
    Pow10Bound();
    ghost var digits: seq<B.Byte> := [];
    while true
      invariant 2 <= start <= bytes.Length && value < Pow10(start - 1)
      invariant bytes[start..] == digits && Decimal(number) == Decimal(value) + digits
      decreases value
    {
      start := start - 1;
      bytes[start] := ZERO + value % 10;
      ghost var next := [ZERO + value % 10] + digits;
      assert bytes[start..] == next;
      DigitStep(number, value, digits, next);
      Pow10Step(value, start);
      digits := next;
      value := value / 10;
      if value == 0 {
        break;
      }
    }
    start := start - 1;
    bytes[start] := COLON;
    assert bytes[start..] == [COLON] + digits;
  }

  // ---------- Comparing joined bytes ----------

  lemma {:induction false} CompareFrom(a: seq<nat>, b: seq<nat>, i: nat)
    requires i <= |a| && i <= |b| && a[..i] == b[..i]
    ensures B.Compare(a, b) == B.Compare(a[i..], b[i..])
  {
    if i > 0 {
      assert a[0] == a[..i][0] == b[..i][0] == b[0];
      assert a[1..][..i - 1] == a[..i][1..] && b[1..][..i - 1] == b[..i][1..];
      CompareFrom(a[1..], b[1..], i - 1);
      assert a[1..][i - 1..] == a[i..] && b[1..][i - 1..] == b[i..];
    }
  }

  function CompareNat(a: nat, b: nat): Ordering { if a < b then Less else if b < a then Greater else Equal }

  /** Compares `leftHead + leftTail` with `rightHead + rightTail` without joining them. */
  method CompareJoined(leftHead: seq<B.Byte>, leftTail: seq<B.Byte>, rightHead: seq<B.Byte>, rightTail: seq<B.Byte>)
    returns (r: Ordering)
    ensures r == B.Compare(leftHead + leftTail, rightHead + rightTail)
  {
    ghost var a, b := leftHead + leftTail, rightHead + rightTail;
    var leftLength, rightLength := |leftHead| + |leftTail|, |rightHead| + |rightTail|;
    for i := 0 to if leftLength < rightLength then leftLength else rightLength
      invariant a[..i] == b[..i]
    {
      var left := if i < |leftHead| then leftHead[i] else leftTail[i - |leftHead|];
      var right := if i < |rightHead| then rightHead[i] else rightTail[i - |rightHead|];
      assert left == a[i] && right == b[i];
      CompareFrom(a, b, i);
      if left != right {
        return CompareNat(left, right);
      }
      assert a[..i + 1] == a[..i] + [a[i]] && b[..i + 1] == b[..i] + [b[i]];
    }
    CompareFrom(a, b, if leftLength < rightLength then leftLength else rightLength);
    return CompareNat(leftLength, rightLength);
  }

  // ---------- The order of variants ----------

  /** The bytes of the tag, a colon and the number of fields: what tagged variants are sorted by. */
  function SortKey(tag: Name, count: nat): (r: seq<B.Byte>) { tag + ([COLON] + Decimal(count)) }

  method CompareTagged(leftTag: Name, leftCount: nat, rightTag: Name, rightCount: nat) returns (r: Ordering)
    requires leftCount < U64_LIMIT && rightCount < U64_LIMIT
    ensures r == B.Compare(SortKey(leftTag, leftCount), SortKey(rightTag, rightCount))
  {
    var leftSuffix, leftStart := DecimalSuffix(leftCount);
    var rightSuffix, rightStart := DecimalSuffix(rightCount);
    r := CompareJoined(leftTag, leftSuffix[leftStart..], rightTag, rightSuffix[rightStart..]);
  }

  /** Bare tags first, by tag; then tagged variants by their key. */
  function CompareVariants(left: Variant, right: Variant): (r: Ordering) {
    match (left, right)
    case (Tag(a), Tag(b)) => B.Compare(a, b)
    case (Tag(_), Tagged(_, _)) => Less
    case (Tagged(_, _), Tag(_)) => Greater
    case (Tagged(a, p), Tagged(b, q)) => B.Compare(SortKey(a, |p.fields|), SortKey(b, |q.fields|))
  }

  method CompareCanonically(left: Variant, right: Variant) returns (r: Ordering)
    requires left.Tagged? ==> |left.payload.fields| < U64_LIMIT
    requires right.Tagged? ==> |right.payload.fields| < U64_LIMIT
    ensures r == CompareVariants(left, right)
  {
    match (left, right)
    case (Tag(a), Tag(b)) => r := B.Compare(a, b);
    case (Tag(_), Tagged(_, _)) => r := Less;
    case (Tagged(_, _), Tag(_)) => r := Greater;
    case (Tagged(a, p), Tagged(b, q)) => r := CompareTagged(a, |p.fields|, b, |q.fields|);
  }

  predicate VariantLeq(left: Variant, right: Variant) { CompareVariants(left, right) != Greater }

  /** The digits hold no colon, so the last colon separates tag and count. */
  lemma {:induction false} LastColon(tag: Name, count: nat, i: nat)
    requires |tag| <= i < |SortKey(tag, count)|
    ensures SortKey(tag, count)[i] == COLON <==> i == |tag|
  {
    if i > |tag| { assert SortKey(tag, count)[i] == Decimal(count)[i - |tag| - 1]; }
  }

  lemma {:induction false} SortKeyInjective(a: Name, m: nat, b: Name, n: nat)
    requires SortKey(a, m) == SortKey(b, n)
    ensures a == b && m == n
  {
    LastColon(a, m, if |a| < |b| then |b| else |a|);
    LastColon(b, n, if |a| < |b| then |b| else |a|);
    assert |a| == |b|;
    assert SortKey(a, m)[..|a|] == a && SortKey(b, n)[..|b|] == b;
    assert SortKey(a, m)[|a| + 1..] == Decimal(m) && SortKey(b, n)[|b| + 1..] == Decimal(n);
    DecimalInjective(m, n);
  }

  /** Ties: the same bare tag, or the same tag with as many fields. */
  lemma {:induction false} CompareTies(left: Variant, right: Variant)
    ensures CompareVariants(left, right) == Equal <==>
      left.tag == right.tag && (left.Tagged? <==> right.Tagged?) &&
          (left.Tagged? ==> |left.payload.fields| == |right.payload.fields|)
  {
    match (left, right)
    case (Tag(a), Tag(b)) => B.CompareEqual(a, b);
    case (Tagged(a, p), Tagged(b, q)) =>
      B.CompareEqual(SortKey(a, |p.fields|), SortKey(b, |q.fields|));
      if SortKey(a, |p.fields|) == SortKey(b, |q.fields|) { SortKeyInjective(a, |p.fields|, b, |q.fields|); }
    case _ =>
  }

  /** Keys compare as tags do, unless one tag continues the other: then by the next byte and the colon. */
  lemma {:induction false} SortKeyOrder(a: Name, m: nat, b: Name, n: nat)
    requires a != b
    ensures !(a <= b) && !(b <= a) ==> B.Compare(SortKey(a, m), SortKey(b, n)) == B.Compare(a, b)
    ensures a <= b && b[|a|] != COLON ==> (B.Compare(SortKey(a, m), SortKey(b, n)) == Less <==> COLON < b[|a|])
    decreases |a|
  {
    var x, y := SortKey(a, m), SortKey(b, n);
    if a != [] && b != [] && a[0] == b[0] {
      assert a == [a[0]] + a[1..] && b == [b[0]] + b[1..];
      SortKeyOrder(a[1..], m, b[1..], n);
      assert x[1..] == SortKey(a[1..], m) && y[1..] == SortKey(b[1..], n);
    } else if a == [] {
      assert x[0] == COLON && (b != [] ==> y[0] == b[0]);
    }
  }

  /** In canonical order bare tags come first, by their bytes, and then tagged variants, by their keys. */
  lemma {:induction false} CanonicalOrder(variants: seq<Variant>, i: nat, j: nat)
    requires i < j < |variants|
    ensures var s := Sorting.Sort(variants, VariantLeq);
      && (s[i].Tagged? ==> s[j].Tagged?)
      && (s[i].Tag? && s[j].Tag? ==> B.LexLeq(s[i].tag, s[j].tag))
      && (s[i].Tagged? && s[j].Tagged? ==>
            B.LexLeq(SortKey(s[i].tag, |s[i].payload.fields|), SortKey(s[j].tag, |s[j].payload.fields|)))
  {
    VariantPreorder();
    Sorting.SortSorted(variants, VariantLeq);
  }

  lemma {:induction false} VariantTotal(left: Variant, right: Variant)
    ensures VariantLeq(left, right) || VariantLeq(right, left)
    ensures CompareVariants(left, right) == Less <==> CompareVariants(right, left) == Greater
  {
    match (left, right)
    case (Tag(a), Tag(b)) => B.CompareEqual(a, b);
    case (Tagged(a, p), Tagged(b, q)) => B.CompareEqual(SortKey(a, |p.fields|), SortKey(b, |q.fields|));
    case _ =>
  }

  lemma {:induction false} VariantTransitive(a: Variant, b: Variant, c: Variant)
    requires VariantLeq(a, b) && VariantLeq(b, c)
    ensures VariantLeq(a, c)
  {
    if a.Tag? && c.Tag? {
      B.LexTransitive(a.tag, b.tag, c.tag);
    } else if a.Tagged? && b.Tagged? && c.Tagged? {
      B.LexTransitive(SortKey(a.tag, |a.payload.fields|), SortKey(b.tag, |b.payload.fields|),
          SortKey(c.tag, |c.payload.fields|));
    }
  }

  /** The order is a total preorder. */
  lemma {:induction false} VariantPreorder()
    ensures Sorting.TotalPreorder(VariantLeq)
  {
    forall a, b ensures VariantLeq(a, b) || VariantLeq(b, a) { VariantTotal(a, b); }
    forall a, b, c | VariantLeq(a, b) && VariantLeq(b, c) ensures VariantLeq(a, c) { VariantTransitive(a, b, c); }
  }
}
