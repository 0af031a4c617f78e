/** Machine words, values that may be missing, and a few facts about sequences. */
module Basics {
  const B16: nat := 0x1_0000
  const B32: nat := 0x1_0000_0000
  const B64: nat := 0x1_0000_0000_0000_0000

  const PAGE: nat := 4096

  /** The largest payload of a TCP segment and of a store request. */
  const TX_MAX: nat := 1280
  const BLOCK: nat := 1024

  type byte = b: int | 0 <= b < 256
  type u16 = w: int | 0 <= w < 0x1_0000
  type u32 = w: int | 0 <= w < 0x1_0000_0000
  type u64 = w: int | 0 <= w < 0x1_0000_0000_0000_0000

  datatype Option<T> = None | Some(value: T)

  predicate Distinct<T(==)>(s: seq<T>) { forall i, j :: 0 <= i < j < |s| ==> s[i] != s[j] }

  function Zeros(n: nat): (z: seq<byte>)
    ensures |z| == n && forall i :: 0 <= i < n ==> z[i] == 0
  {
    seq(n, _ => 0)
  }

  /** The index of the first c, or the length. */
  function IndexOf<T(==)>(s: seq<T>, c: T): (n: nat)
    ensures n <= |s| && (n < |s| ==> s[n] == c)
    ensures forall i :: 0 <= i < n ==> s[i] != c
  {
    if s == [] || s[0] == c then 0 else 1 + IndexOf(s[1..], c)
  }

  lemma {:induction false} IndexOfMore<T>(s: seq<T>, c: T, more: seq<T>)
    requires IndexOf(s, c) < |s|
    ensures IndexOf(s + more, c) == IndexOf(s, c)
  {
    if s[0] != c {
      assert (s + more)[1..] == s[1..] + more;
      IndexOfMore(s[1..], c, more);
    }
  }

  lemma {:induction false} IndexOfAt<T>(w: seq<T>, c: T, rest: seq<T>)
    requires c !in w && (rest == [] || rest[0] == c)
    ensures IndexOf(w + rest, c) == |w|
  {
    if w != [] {
      assert (w + rest)[1..] == w[1..] + rest;
      IndexOfAt(w[1..], c, rest);
    } else {
      assert w + rest == rest;
    }
  }

  /** The parts of a sequence between the separators. */
  function Split<T(==)>(s: seq<T>, sep: T): (ps: seq<seq<T>>)
    ensures |ps| > 0
  {
    if s == [] then [[]]
    else
      var ps := Split(s[1..], sep);
      if s[0] == sep then [[]] + ps else [[s[0]] + ps[0]] + ps[1..]
  }

  lemma {:induction false} SplitOf<T>(w: seq<T>, sep: T, rest: seq<T>)
    requires sep !in w
    ensures Split(w, sep) == [w]
    ensures Split(w + [sep] + rest, sep) == [w] + Split(rest, sep)
  {
    if w == [] {
      assert (w + [sep] + rest)[1..] == rest;
    } else {
      SplitOf(w[1..], sep, rest);
      assert [w[0]] + w[1..] == w;
      assert [w[1..]][1..] == [];
      assert (w + [sep] + rest)[1..] == w[1..] + [sep] + rest;
      assert ([w[1..]] + Split(rest, sep))[1..] == Split(rest, sep);
    }
  }

  lemma Regroup<T>(a: seq<T>, b: seq<T>, c: seq<T>)
    ensures (a + b) + c == a + (b + c)
  {
  }

  lemma SlicePieces<T>(s: seq<T>, pos: nat, a: seq<T>, b: seq<T>)
    requires pos + |a| + |b| <= |s| && s[pos..pos + |a| + |b|] == a + b
    ensures s[pos..pos + |a|] == a && s[pos + |a|..pos + |a| + |b|] == b
  {
    var t := s[pos..pos + |a| + |b|];
    assert t[..|a|] == a && t[|a|..] == b;
  }

  /** A piece stands at a position of a sequence. */
  predicate At(s: seq<byte>, pos: nat, piece: seq<byte>) { pos + |piece| <= |s| && s[pos..pos + |piece|] == piece }

  lemma AtPieces(s: seq<byte>, pos: nat, a: seq<byte>, b: seq<byte>)
    requires At(s, pos, a + b)
    ensures At(s, pos, a) && At(s, pos + |a|, b)
  {
    SlicePieces(s, pos, a, b);
  }

  lemma AtByte(s: seq<byte>, pos: nat, piece: seq<byte>, i: nat)
    requires At(s, pos, piece) && i < |piece|
    ensures s[pos + i] == piece[i]
  {
    assert s[pos..pos + |piece|][i] == piece[i];
  }

  // ----------------------------------------------------- words in memory, lowest byte first

  function Power256(n: nat): (p: nat)
    ensures p > 0
  {
    if n == 0 then 1 else 256 * Power256(n - 1)
  }

  function PutWord(v: nat, n: nat): (s: seq<byte>)
    ensures |s| == n
    decreases n, v
  {
    if n == 0 then [] else [v % 256] + PutWord(v / 256, n - 1)
  }

  function WordOf(s: seq<byte>): (v: nat) { if s == [] then 0 else s[0] + 256 * WordOf(s[1..]) }

  /** A word written is the word read back. */
  lemma {:induction false} WordOfPut(v: nat, n: nat)
    requires v < Power256(n)
    ensures WordOf(PutWord(v, n)) == v
    decreases n
  {
    if n > 0 {
      WordOfPut(v / 256, n - 1);
      assert PutWord(v, n)[1..] == PutWord(v / 256, n - 1);
    }
  }

  lemma Powers256()
    ensures Power256(2) == B16 && Power256(4) == B32 && Power256(8) == B64
  {
    assert Power256(1) == 256;
    assert Power256(3) == 0x100_0000;
    assert Power256(5) == 0x100_0000_0000 && Power256(6) == 0x1_0000_0000_0000;
    assert Power256(7) == 0x100_0000_0000_0000;
  }
}
