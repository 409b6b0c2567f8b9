/** Byte strings: lexicographic order, 32-byte digests and fixed-width big-endian integers. */
module Bytes {
  import opened Wrappers
  import Sorting

  type Byte = b: nat | b < 256

  type Digest = d: seq<Byte> | |d| == 32 witness seq(32, _ => 0)

  function Raw(d: Digest): (r: seq<Byte>) { d }

  /** Lexicographic comparison, a proper prefix being smaller. */
  function Compare(a: seq<nat>, b: seq<nat>): (r: Ordering) {
    if a == [] then (if b == [] then Equal else Less)
    else if b == [] then Greater
    else if a[0] < b[0] then Less
    else if b[0] < a[0] then Greater
    else Compare(a[1..], b[1..])
  }

  predicate LexLeq(a: seq<nat>, b: seq<nat>) { Compare(a, b) != Greater }

  lemma {:induction false} CompareEqual(a: seq<nat>, b: seq<nat>)
    ensures Compare(a, b) == Equal <==> a == b
    ensures Compare(a, b) == Less <==> Compare(b, a) == Greater
  {
    if a != [] && b != [] {
      CompareEqual(a[1..], b[1..]);
      assert a == [a[0]] + a[1..] && b == [b[0]] + b[1..];
    }
  }

  /** The first difference is at `i`, and there `a` ends or is smaller. */
  predicate SmallerAt(a: seq<nat>, b: seq<nat>, i: nat) {
    i <= |a| && i < |b| && a[..i] == b[..i] && (i < |a| ==> a[i] < b[i])
  }

  lemma {:induction false} CompareLess(a: seq<nat>, b: seq<nat>)
    ensures Compare(a, b) == Less <==> exists i: nat :: SmallerAt(a, b, i)
  {
    if a == [] && b != [] {
      assert SmallerAt(a, b, 0);
    } else if a != [] && b != [] {
      if a[0] < b[0] {
        assert SmallerAt(a, b, 0);
      } else {
        CompareLess(a[1..], b[1..]);
        if i: nat :| SmallerAt(a[1..], b[1..], i) && a[0] == b[0] {
          assert a[..i + 1] == [a[0]] + a[1..][..i] && b[..i + 1] == [b[0]] + b[1..][..i];
          assert SmallerAt(a, b, i + 1);
        }
        if i: nat :| SmallerAt(a, b, i) {
          assert a[..i][0] == b[..i][0];
          assert a[1..][..i - 1] == a[..i][1..] && b[1..][..i - 1] == b[..i][1..];
          assert SmallerAt(a[1..], b[1..], i - 1);
        }
      }
    }
  }

  lemma {:induction false} LexTransitive(a: seq<nat>, b: seq<nat>, c: seq<nat>)
    requires LexLeq(a, b) && LexLeq(b, c)
    ensures LexLeq(a, c)
  {
    if a != [] && b != [] && c != [] && a[0] == b[0] == c[0] {
      LexTransitive(a[1..], b[1..], c[1..]);
    }
  }

  /** The order on digests used by every canonical sort. */
  predicate DigestLeq(a: Digest, b: Digest) { LexLeq(a, b) }

  lemma {:induction false} DigestOrder()
    ensures Sorting.Total(DigestLeq)
  {
    forall a: Digest, b: Digest ensures DigestLeq(a, b) || DigestLeq(b, a) { CompareEqual(a, b); }
    forall a: Digest, b: Digest | DigestLeq(a, b) && DigestLeq(b, a) ensures a == b { CompareEqual(a, b); }
    forall a: Digest, b: Digest, c: Digest | DigestLeq(a, b) && DigestLeq(b, c) ensures DigestLeq(a, c) {
      LexTransitive(a, b, c);
    }
  }

  // ---------- Big-endian integers ----------

  function BigEndian(n: nat, width: nat): (r: seq<Byte>)
    ensures |r| == width
  {
    if width == 0 then [] else BigEndian(n / 256, width - 1) + [n % 256]
  }

  ghost function Pow256(width: nat): (r: nat)
    ensures r > 0
  {
    if width == 0 then 1 else 256 * Pow256(width - 1)
  }

  /** Bytes read as a number, the first byte being the most significant. */
  function BigEndianValue(bytes: seq<Byte>): nat {
    if bytes == [] then 0 else 256 * BigEndianValue(bytes[..|bytes| - 1]) + bytes[|bytes| - 1]
  }

  /** A number that fits is read back. */
  lemma {:induction false} BigEndianReads(n: nat, width: nat)
    requires n < Pow256(width)
    ensures BigEndianValue(BigEndian(n, width)) == n
  {
    if width > 0 {
      BigEndianReads(n / 256, width - 1);
      assert BigEndian(n, width)[..width - 1] == BigEndian(n / 256, width - 1);
    }
  }

  lemma {:induction false} BigEndianInjective(a: nat, b: nat, width: nat)
    requires a < Pow256(width) && b < Pow256(width) && BigEndian(a, width) == BigEndian(b, width)
    ensures a == b
  {
    if width > 0 {
      var x, y := BigEndian(a, width), BigEndian(b, width);
      assert x[..width - 1] == BigEndian(a / 256, width - 1);
      assert y[..width - 1] == BigEndian(b / 256, width - 1);
      assert x[width - 1] == a % 256 && y[width - 1] == b % 256;
      BigEndianInjective(a / 256, b / 256, width - 1);
    }
  }

  /** A `u64` count as the eight bytes fed to a hasher. */
  function Count64(n: nat): (r: seq<Byte>)
    ensures |r| == 8
  {
    BigEndian(n, 8)
  }

  const U64_LIMIT: nat := 0x1_0000_0000_0000_0000

  lemma {:induction false} Count64Injective(a: nat, b: nat)
    requires a < U64_LIMIT && b < U64_LIMIT && Count64(a) == Count64(b)
    ensures a == b
  {
    assert Pow256(8) == U64_LIMIT by {
      assert Pow256(2) == 0x1_0000;
      assert Pow256(4) == 0x1_0000_0000;
      assert Pow256(6) == 0x1_0000_0000_0000;
    }
    BigEndianInjective(a, b, 8);
  }

  /** Equal messages with equally long heads have equal heads and tails. */
  lemma {:induction false} CutAt(a: seq<Byte>, b: seq<Byte>, c: seq<Byte>, d: seq<Byte>)
    requires a + b == c + d && |a| == |c|
    ensures a == c && b == d
  {
    assert (a + b)[..|a|] == a && (c + d)[..|c|] == c;
    assert (a + b)[|a|..] == b && (c + d)[|c|..] == d;
  }

  // ---------- Hashing ----------

  /** A hash function; nothing is assumed about it except where collisions are excluded. */
  type Hash = seq<Byte> -> Digest

  /** No two of the given messages collide. */
  ghost predicate CollisionFree(h: Hash, messages: set<seq<Byte>>) {
    forall a, b | a in messages && b in messages && h(a) == h(b) :: a == b
  }
}
