/**
 The FNV-1a checksum of program images: each step of it is one-to-one on the
 32-bit hash, so a change of a single byte always shows.
 */
module Fnv {
  import opened Basics

  const OFFSET: nat := 2166136261
  const PRIME: nat := 16777619
  /** The inverse of the prime modulo 2^32. */
  const INVERSE: nat := 899433627

  // -------------------------------------------------------------------- exclusive or

  function Xor(a: nat, b: nat): (x: nat) {
    if a == 0 && b == 0 then 0 else 2 * Xor(a / 2, b / 2) + (a + b) % 2
  }

  /** The lowest bits are taken apart from the rest. */
  lemma XorBits(x: nat, i: nat, y: nat, j: nat)
    requires i < 2 && j < 2
    ensures Xor(2 * x + i, 2 * y + j) == 2 * Xor(x, y) + (i + j) % 2
  {
    assert (2 * x + i) / 2 == x && (2 * y + j) / 2 == y;
    assert (2 * x + i + (2 * y + j)) % 2 == (i + j) % 2;
  }

  lemma XorBack(u: nat, y: nat, j: nat, x: nat, i: nat)
    requires i < 2 && j < 2 && Xor(u, y) == x
    ensures Xor(2 * u + (i + j) % 2, 2 * y + j) == 2 * x + i
  {
    XorBits(u, (i + j) % 2, y, j);
  }

  lemma XorTwiceBits(x: nat, i: nat, y: nat, j: nat)
    requires i < 2 && j < 2 && Xor(Xor(x, y), y) == x
    ensures Xor(Xor(2 * x + i, 2 * y + j), 2 * y + j) == 2 * x + i
  {
    XorBits(x, i, y, j);
    XorBack(Xor(x, y), y, j, x, i);
  }

  lemma {:induction false} XorTwice(a: nat, b: nat)
    ensures Xor(Xor(a, b), b) == a
    decreases a + b
  {
    if a > 0 || b > 0 {
      XorTwice(a / 2, b / 2);
      XorTwiceBits(a / 2, a % 2, b / 2, b % 2);
    }
  }

  lemma {:induction false} XorCommutes(a: nat, b: nat)
    ensures Xor(a, b) == Xor(b, a)
    decreases a + b
  {
    if a > 0 || b > 0 {
      XorCommutes(a / 2, b / 2);
    }
  }

  function Power2(k: nat): (p: nat)
    ensures p > 0
  {
    if k == 0 then 1 else 2 * Power2(k - 1)
  }

  lemma {:induction false} XorBound(a: nat, b: nat, k: nat)
    requires a < Power2(k) && b < Power2(k)
    ensures Xor(a, b) < Power2(k)
    decreases k
  {
    if k > 0 {
      XorBound(a / 2, b / 2, k - 1);
    }
  }

  lemma XorFits(h: u32, d: byte)
    ensures Xor(h, d) < B32
  {
    assert Power2(8) == 256;
    assert Power2(16) == 65536;
    assert Power2(24) == 16777216;
    assert Power2(32) == B32;
    XorBound(h, d, 32);
  }

  // ------------------------------------------------------------------------- the hash

  function Mix(h: u32, d: byte): (r: u32) { Xor(h, d) * PRIME % B32 }

  function Hash(data: seq<byte>): (h: u32) {
    if data == [] then OFFSET else Mix(Hash(data[..|data| - 1]), data[|data| - 1])
  }

  lemma MulBack(x: nat)
    requires x < B32
    ensures (x * PRIME % B32) * INVERSE % B32 == x
  {
    var q, r := x * PRIME / B32, x * PRIME % B32;
    assert PRIME * INVERSE == 3513497 * B32 + 1;
    assert x * PRIME == q * B32 + r;
    assert r * INVERSE == x * PRIME * INVERSE - q * B32 * INVERSE;
    assert x * PRIME * INVERSE == x * (PRIME * INVERSE);
    assert r * INVERSE == (x * 3513497 - q * INVERSE) * B32 + x;
    Remainder(x * 3513497 - q * INVERSE, x, r * INVERSE);
  }

  lemma Remainder(k: int, r: nat, n: nat)
    requires n == k * B32 + r && r < B32
    ensures n % B32 == r
  {
  }

  /** One step loses nothing: equal results for equal bytes mean equal hashes, and for equal hashes equal bytes. */
  lemma MixOneToOne(h: u32, d: byte, h': u32, d': byte)
    requires Mix(h, d) == Mix(h', d')
    ensures h == h' <==> d == d'
  {
    XorFits(h, d);
    XorFits(h', d');
    MulBack(Xor(h, d));
    MulBack(Xor(h', d'));
    XorTwice(h, d);
    XorTwice(h', d');
    XorCommutes(h, d);
    XorCommutes(h', d');
    XorTwice(d, h);
    XorTwice(d', h');
  }

  /** Two sequences of one length that differ at position i and nowhere else. */
  predicate OneByteApart(a: seq<byte>, b: seq<byte>, i: nat) {
    |a| == |b| && i < |a| && a[i] != b[i] && forall j :: 0 <= j < |a| && j != i ==> a[j] == b[j]
  }

  lemma {:induction false} OneByteShows(a: seq<byte>, b: seq<byte>, i: nat)
    requires OneByteApart(a, b, i)
    ensures Hash(a) != Hash(b)
    decreases |a|
  {
    var n := |a| - 1;
    if i == n {
      assert a[..n] == b[..n];
    } else {
      OneByteShows(a[..n], b[..n], i);
    }
    if Hash(a) == Hash(b) {
      MixOneToOne(Hash(a[..n]), a[n], Hash(b[..n]), b[n]);
    }
  }

  lemma {:induction false} XorZero(a: nat)
    ensures Xor(a, 0) == a
  {
    if a > 0 {
      XorZero(a / 2);
    }
  }

  lemma XorLowest(h: nat)
    requires h % 2 == 1
    ensures Xor(h, 0) == h && Xor(h, 1) == h - 1
  {
    XorZero(h);
    XorZero(h / 2);
    XorBits(h / 2, 1, 0, 1);
  }

  lemma MixLowest(h: u32, d: byte)
    requires h % 2 == 1 && d < 2
    ensures Mix(h, d) == (h - d) * PRIME % B32
  {
    XorLowest(h);
  }

  lemma FirstProducts(h: nat, d: nat)
    requires h == OFFSET && d < 2
    ensures (h - d) * PRIME % B32 == if d == 0 then 0x050c5d1f else 0x040c5b8c
  {
  }

  /** Published values of the 32-bit FNV-1a hash: of nothing, of a byte 0 and of a byte 1. */
  lemma PublishedValues(data: seq<byte>)
    requires |data| == 1 && data[0] < 2
    ensures Hash([]) == 0x811c9dc5 && Hash(data) == if data[0] == 0 then 0x050c5d1f else 0x040c5b8c
  {
    assert data[..0] == [];
    var h := Hash(data[..0]);
    MixLowest(h, data[0]);
    FirstProducts(h, data[0]);
  }

  method ImageChecksum(data: seq<byte>) returns (hash: u32)
    ensures hash == Hash(data)
  {
    hash := OFFSET;
    var i := 0;
    while i < |data|
      invariant i <= |data| && hash == Hash(data[..i])
    {
      assert data[..i + 1][..i] == data[..i];
      hash := Xor(hash, data[i]) * PRIME % B32;
      i := i + 1;
    }
    assert data[..|data|] == data;
  }
}
