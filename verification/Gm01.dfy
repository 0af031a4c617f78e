/**
 GM01 program files: how the packer lays one out and what the loader accepts.
 */
module Gm01 {
  import opened Basics
  import opened Fnv

  const API: nat := 2
  const X86_64: nat := 1
  const HEADER: nat := 24
  const IMAGE_MAX: nat := 65536
  const BASE: nat := 0x4000_0000

  // -------------------------------------------------------------------- the format

  /** A 32-bit word in memory order. */
  function Put32(v: u32): (s: seq<byte>)
    ensures |s| == 4
  {
    [v % 256, v / 0x100 % 256, v / 0x1_0000 % 256, v / 0x100_0000]
  }

  function Get32(data: seq<byte>, i: nat): (v: u32)
    requires i + 4 <= |data|
  {
    var a: int, b: int, c: int, d: int := data[i], data[i + 1], data[i + 2], data[i + 3];
    a + b * 0x100 + c * 0x1_0000 + d * 0x100_0000
  }

  lemma GetPut32(v: u32)
    ensures Get32(Put32(v), 0) == v
  {
    var m, n := v / 0x100, v / 0x1_0000;
    assert v == m * 0x100 + v % 256;
    assert n == m / 0x100 && m == n * 0x100 + m % 256;
    assert v / 0x100_0000 == n / 0x100 && n == n / 0x100 * 0x100 + n % 256;
  }

  lemma DigitsUnique(a: byte, m: nat, b: byte, n: nat)
    requires a + 256 * m == b + 256 * n
    ensures a == b && m == n
  {
  }

  /** Different words in memory read as different numbers, and the other way round. */
  lemma Get32OneToOne(a: seq<byte>, b: seq<byte>, i: nat)
    requires i + 4 <= |a| && i + 4 <= |b|
    ensures Get32(a, i) == Get32(b, i) <==> a[i..i + 4] == b[i..i + 4]
  {
    var x, y := a[i..i + 4], b[i..i + 4];
    SliceGet(a, i);
    SliceGet(b, i);
    if Get32(a, i) == Get32(b, i) {
      var a1: int, a2: int, a3: int := x[1], x[2], x[3];
      var b1: int, b2: int, b3: int := y[1], y[2], y[3];
      DigitsUnique(x[0], a1 + 256 * (a2 + 256 * a3), y[0], b1 + 256 * (b2 + 256 * b3));
      DigitsUnique(x[1], a2 + 256 * a3, y[1], b2 + 256 * b3);
      DigitsUnique(x[2], a3, y[2], b3);
    }
  }

  /** The bytes `GM01`, which read as the magic number. */
  const Magic: seq<byte> := [0x47, 0x4d, 0x30, 0x31]
  const MAGIC: nat := 0x3130_4d47

  function HeaderOf(arch: u32, size: u32, entry: u32, sum: u32): (h: seq<byte>)
    ensures |h| == HEADER
  {
    Magic + Put32(API) + Put32(arch) + Put32(size) + Put32(entry) + Put32(sum)
  }

  function FileOf(arch: u32, image: seq<byte>, entry: u32): (f: seq<byte>)
    requires |image| < B32
  {
    HeaderOf(arch, |image|, entry, Hash(image)) + image
  }

  /** What the loader accepts from a faithful store. */
  predicate Loadable(f: seq<byte>) {
    && HEADER <= |f| <= HEADER + IMAGE_MAX
    && Get32(f, 0) == MAGIC && Get32(f, 4) == API && Get32(f, 8) == X86_64
    && 0 < Get32(f, 12) <= IMAGE_MAX && |f| == HEADER + Get32(f, 12)
    && Get32(f, 16) < Get32(f, 12)
    && Hash(f[HEADER..]) == Get32(f, 20)
  }

  lemma HeaderFields(arch: u32, size: u32, entry: u32, sum: u32, rest: seq<byte>)
    ensures var f := HeaderOf(arch, size, entry, sum) + rest;
            && Get32(f, 0) == MAGIC && Get32(f, 4) == API && Get32(f, 8) == arch
            && Get32(f, 12) == size && Get32(f, 16) == entry && Get32(f, 20) == sum
  {
    GetPut32(API);
    GetPut32(arch);
    GetPut32(size);
    GetPut32(entry);
    GetPut32(sum);
    var f := HeaderOf(arch, size, entry, sum) + rest;
    SixWords(Magic, Put32(API), Put32(arch), Put32(size), Put32(entry), Put32(sum), rest);
    SliceGet(f, 4);
    SliceGet(f, 8);
    SliceGet(f, 12);
    SliceGet(f, 16);
    SliceGet(f, 20);
  }

  lemma SixWords(a: seq<byte>, b: seq<byte>, c: seq<byte>, d: seq<byte>, e: seq<byte>, f: seq<byte>, rest: seq<byte>)
    requires |a| == |b| == |c| == |d| == |e| == |f| == 4
    ensures var s := a + b + c + d + e + f + rest;
            && s[..4] == a && s[4..8] == b && s[8..12] == c && s[12..16] == d && s[16..20] == e && s[20..24] == f
  {
  }

  lemma SliceGet(f: seq<byte>, i: nat)
    requires i + 4 <= |f|
    ensures Get32(f, i) == Get32(f[i..i + 4], 0)
  {
  }

  /** Every x86_64 file the packer can write is accepted. */
  lemma PackedIsLoadable(image: seq<byte>, entry: u32)
    requires 0 < |image| <= IMAGE_MAX && entry < |image|
    ensures var f := FileOf(X86_64, image, entry);
            Loadable(f) && f[HEADER..] == image && Get32(f, 16) == entry
  {
    HeaderFields(X86_64, |image|, entry, Hash(image), image);
    assert FileOf(X86_64, image, entry)[HEADER..] == image;
  }

  // -------------------------------------------------------------------- corruption

  lemma SameWord(f: seq<byte>, g: seq<byte>, i: nat, at: nat)
    requires OneByteApart(f, g, i) && at + 4 <= |f|
    ensures Get32(f, at) == Get32(g, at) <==> !(at <= i < at + 4)
  {
    Get32OneToOne(f, g, at);
    if at <= i < at + 4 {
      assert f[at..at + 4][i - at] != g[at..at + 4][i - at];
    } else {
      assert f[at..at + 4] == g[at..at + 4];
    }
  }

  /**
   A file with one byte changed is accepted exactly if the byte belongs to the
   entry offset, which no checksum covers, and the new offset is in the image.
   Any one changed byte of the image, or of the rest of the header, is noticed.
   */
  lemma OneByteCorruption(f: seq<byte>, g: seq<byte>, i: nat)
    requires Loadable(f) && OneByteApart(f, g, i)
    ensures Loadable(g) <==> 16 <= i < 20 && Get32(g, 16) < Get32(g, 12)
  {
    SameWord(f, g, i, 0);
    SameWord(f, g, i, 4);
    SameWord(f, g, i, 8);
    SameWord(f, g, i, 12);
    SameWord(f, g, i, 20);
    if i >= HEADER {
      assert OneByteApart(f[HEADER..], g[HEADER..], i - HEADER);
      OneByteShows(f[HEADER..], g[HEADER..], i - HEADER);
    } else {
      assert f[HEADER..] == g[HEADER..];
    }
  }

  /** Such a corruption: the entry offset of a two-byte image changes from 0 to 1. */
  lemma AcceptedCorruption()
    ensures var f, g := FileOf(X86_64, [1, 2], 0), FileOf(X86_64, [1, 2], 1);
            Loadable(f) && Loadable(g) && OneByteApart(f, g, 16)
  {
    var image: seq<byte> := [1, 2];
    PackedIsLoadable(image, 0);
    PackedIsLoadable(image, 1);
    EntryApart(Magic + Put32(API) + Put32(X86_64) + Put32(2), Put32(Hash(image)), image);
  }

  lemma EntryApart(front: seq<byte>, sum: seq<byte>, image: seq<byte>)
    requires |front| == 16
    ensures OneByteApart(front + Put32(0) + sum + image, front + Put32(1) + sum + image, 16)
  {
    var f, g := front + Put32(0) + sum + image, front + Put32(1) + sum + image;
    assert Put32(0) == [0, 0, 0, 0] && Put32(1) == [1, 0, 0, 0];
  }
}
