/**
 ELF executables byte by byte, and what the packer makes of them: the fields of
 the headers it reads are those that were written, and every byte of the image
 comes from the segment that should have put it there.
 */
module ElfFile {
  import opened Basics
  import opened Fnv
  import opened Gm01
  import opened Packer

  // ------------------------------------------------------------------------- layout

  /** The header of a 64-bit ELF file, field by field. */
  datatype Ehdr = Ehdr(class_: byte, order: byte, current: byte, pad: seq<byte>, kind: u16, machine: u16, version: u32,
                       entry: u64, phoff: u64, shoff: u64, flags: u32, ehsize: u16, phentsize: u16, phnum: u16,
                       sections: seq<byte>)

  function Ident(h: Ehdr): seq<byte> { [0x7f, 0x45, 0x4c, 0x46, h.class_, h.order, h.current] + h.pad }

  function Places(h: Ehdr): seq<byte> { PutWord(h.entry, 8) + (PutWord(h.phoff, 8) + PutWord(h.shoff, 8)) }

  function Sizes(h: Ehdr): seq<byte> {
    PutWord(h.flags, 4) + (PutWord(h.ehsize, 2) + (PutWord(h.phentsize, 2) + (PutWord(h.phnum, 2) + h.sections)))
  }

  function EhdrBytes(h: Ehdr): seq<byte> {
    Ident(h) + (PutWord(h.kind, 2) + (PutWord(h.machine, 2) + (PutWord(h.version, 4) + (Places(h) + Sizes(h)))))
  }

  predicate EhdrAt(file: seq<byte>, h: Ehdr) { |h.pad| == 9 && |h.sections| == 6 && At(file, 0, EhdrBytes(h)) }

  /** A program header. */
  datatype Phdr = Phdr(kind: u32, flags: u32, offset: u64, vaddr: u64, paddr: u64, filesz: u64, memsz: u64, align: u64)

  function PhdrBytes(p: Phdr): (s: seq<byte>)
    ensures |s| == PHDR
  {
    PutWord(p.kind, 4) + (PutWord(p.flags, 4) + (PutWord(p.offset, 8) + (PutWord(p.vaddr, 8) + (PutWord(p.paddr, 8)
    + (PutWord(p.filesz, 8) + (PutWord(p.memsz, 8) + PutWord(p.align, 8)))))))
  }

  /** The program headers stand one behind the other where the header says. */
  predicate PhdrsAt(file: seq<byte>, h: Ehdr, ps: seq<Phdr>) {
    && |ps| == h.phnum && |file| < B64 / 2 && h.phoff + PHDR * |ps| <= |file|
    && forall i :: 0 <= i < |ps| ==> At(file, h.phoff + i * PHDR, PhdrBytes(ps[i]))
  }

  // ------------------------------------------------------------------- reading fields

  lemma WordAt(file: seq<byte>, at: nat, v: nat, n: nat)
    requires v < Power256(n) && At(file, at, PutWord(v, n))
    ensures Le(file, at, n) == v
  {
    WordOfPut(v, n);
  }

  /** What the packer wants of a header: a current 64-bit executable, lowest byte first, for a machine it knows. */
  predicate Wanted(h: Ehdr) {
    && h.class_ == 2 && h.order == 1 && h.current == 1 && h.kind == 2 && h.version == 1
    && h.phentsize == 56 && h.phnum > 0 && h.machine in {62, 183, 243}
  }

  lemma IdentRead(file: seq<byte>, h: Ehdr)
    requires |h.pad| == 9 && At(file, 0, Ident(h))
    ensures file[..4] == [0x7f, 0x45, 0x4c, 0x46] && file[4] == h.class_ && file[5] == h.order && file[6] == h.current
  {
    AtByte(file, 0, Ident(h), 0);
    AtByte(file, 0, Ident(h), 1);
    AtByte(file, 0, Ident(h), 2);
    AtByte(file, 0, Ident(h), 3);
    AtByte(file, 0, Ident(h), 4);
    AtByte(file, 0, Ident(h), 5);
    AtByte(file, 0, Ident(h), 6);
  }

  lemma PlacesRead(file: seq<byte>, h: Ehdr)
    requires At(file, 24, Places(h))
    ensures Le(file, 24, 8) == h.entry && Le(file, 32, 8) == h.phoff
  {
    Powers256();
    AtPieces(file, 24, PutWord(h.entry, 8), PutWord(h.phoff, 8) + PutWord(h.shoff, 8));
    AtPieces(file, 32, PutWord(h.phoff, 8), PutWord(h.shoff, 8));
    WordAt(file, 24, h.entry, 8);
    WordAt(file, 32, h.phoff, 8);
  }

  lemma SizesRead(file: seq<byte>, h: Ehdr)
    requires At(file, 48, Sizes(h))
    ensures Le(file, 54, 2) == h.phentsize && Le(file, 56, 2) == h.phnum
  {
    Powers256();
    var tail := PutWord(h.phnum, 2) + h.sections;
    AtPieces(file, 48, PutWord(h.flags, 4), PutWord(h.ehsize, 2) + (PutWord(h.phentsize, 2) + tail));
    AtPieces(file, 52, PutWord(h.ehsize, 2), PutWord(h.phentsize, 2) + tail);
    AtPieces(file, 54, PutWord(h.phentsize, 2), tail);
    AtPieces(file, 56, PutWord(h.phnum, 2), h.sections);
    WordAt(file, 54, h.phentsize, 2);
    WordAt(file, 56, h.phnum, 2);
  }

  lemma KindRead(file: seq<byte>, h: Ehdr)
    requires EhdrAt(file, h)
    ensures Le(file, 16, 2) == h.kind && Le(file, 18, 2) == h.machine && Le(file, 20, 4) == h.version
    ensures At(file, 0, Ident(h)) && At(file, 24, Places(h)) && At(file, 48, Sizes(h)) && |file| >= EHDR
  {
    Powers256();
    var last := Places(h) + Sizes(h);
    AtPieces(file, 0, Ident(h), PutWord(h.kind, 2) + (PutWord(h.machine, 2) + (PutWord(h.version, 4) + last)));
    AtPieces(file, 16, PutWord(h.kind, 2), PutWord(h.machine, 2) + (PutWord(h.version, 4) + last));
    AtPieces(file, 18, PutWord(h.machine, 2), PutWord(h.version, 4) + last);
    AtPieces(file, 20, PutWord(h.version, 4), last);
    AtPieces(file, 24, Places(h), Sizes(h));
    WordAt(file, 16, h.kind, 2);
    WordAt(file, 18, h.machine, 2);
    WordAt(file, 20, h.version, 4);
  }

  /** The header is accepted exactly if it is wanted, and its fields are read from their places. */
  lemma HeaderRead(file: seq<byte>, h: Ehdr)
    requires EhdrAt(file, h)
    ensures ElfOk(file) <==> Wanted(h)
    ensures Wanted(h) ==> EntryOf(file) == h.entry && Headers(file) == h.phnum && Le(file, 32, 8) == h.phoff
    ensures Wanted(h) ==> Arch(file) == if h.machine == 62 then 1 else if h.machine == 183 then 2 else 3
  {
    KindRead(file, h);
    IdentRead(file, h);
    PlacesRead(file, h);
    SizesRead(file, h);
  }

  // ----------------------------------------------------------------- program headers

  /** The bytes a program header takes from the file, if they are there. */
  function Taken(file: seq<byte>, p: Phdr): Option<seq<byte>> {
    if p.filesz == 0 then Some([])
    else if p.offset + p.filesz <= |file| then Some(file[p.offset..p.offset + p.filesz])
    else None
  }

  /** The segment a program header describes. */
  function Meant(file: seq<byte>, p: Phdr): Segment {
    Segment(p.kind == 1, p.flags % 2 == 1, p.vaddr, p.memsz, p.filesz, Taken(file, p))
  }

  lemma PhdrRead(p: Phdr)
    ensures var s := PhdrBytes(p);
            && Le(s, 0, 4) == p.kind && Le(s, 4, 4) == p.flags && Le(s, 8, 8) == p.offset && Le(s, 16, 8) == p.vaddr
            && Le(s, 32, 8) == p.filesz && Le(s, 40, 8) == p.memsz
  {
    Powers256();
    var s := PhdrBytes(p);
    assert s[0..|s|] == s;
    var last := PutWord(p.filesz, 8) + (PutWord(p.memsz, 8) + PutWord(p.align, 8));
    var mid := PutWord(p.offset, 8) + (PutWord(p.vaddr, 8) + (PutWord(p.paddr, 8) + last));
    AtPieces(s, 0, PutWord(p.kind, 4), PutWord(p.flags, 4) + mid);
    AtPieces(s, 4, PutWord(p.flags, 4), mid);
    AtPieces(s, 8, PutWord(p.offset, 8), PutWord(p.vaddr, 8) + (PutWord(p.paddr, 8) + last));
    AtPieces(s, 16, PutWord(p.vaddr, 8), PutWord(p.paddr, 8) + last);
    AtPieces(s, 24, PutWord(p.paddr, 8), last);
    AtPieces(s, 32, PutWord(p.filesz, 8), PutWord(p.memsz, 8) + PutWord(p.align, 8));
    AtPieces(s, 40, PutWord(p.memsz, 8), PutWord(p.align, 8));
    WordAt(s, 0, p.kind, 4);
    WordAt(s, 4, p.flags, 4);
    WordAt(s, 8, p.offset, 8);
    WordAt(s, 16, p.vaddr, 8);
    WordAt(s, 32, p.filesz, 8);
    WordAt(s, 40, p.memsz, 8);
  }

  lemma FieldsMean(file: seq<byte>, s: seq<byte>, p: Phdr)
    requires |file| < B64 / 2 && |s| == PHDR
    requires Le(s, 0, 4) == p.kind && Le(s, 4, 4) == p.flags && Le(s, 8, 8) == p.offset && Le(s, 16, 8) == p.vaddr
    requires Le(s, 32, 8) == p.filesz && Le(s, 40, 8) == p.memsz
    ensures SegmentOf(file, s) == Meant(file, p)
  {
    assert p.offset % B64 == p.offset;
  }

  lemma SegmentMeant(file: seq<byte>, p: Phdr)
    requires |file| < B64 / 2
    ensures SegmentOf(file, PhdrBytes(p)) == Meant(file, p)
  {
    PhdrRead(p);
    FieldsMean(file, PhdrBytes(p), p);
  }

  lemma PhdrFound(file: seq<byte>, h: Ehdr, ps: seq<Phdr>, i: nat, at: nat)
    requires PhdrsAt(file, h, ps) && i < |ps| && at == h.phoff + i * PHDR
    ensures BytesAt(file, at, PHDR) == Some(PhdrBytes(ps[i]))
  {
    assert At(file, at, PhdrBytes(ps[i]));
    assert at % B64 == at;
  }

  lemma SegmentRead(file: seq<byte>, h: Ehdr, ps: seq<Phdr>, i: nat)
    requires EhdrAt(file, h) && PhdrsAt(file, h, ps) && i < |ps| && ElfOk(file)
    ensures SegmentAt(file, i) == Some(Meant(file, ps[i]))
  {
    var at := h.phoff + i * PHDR;
    assert Le(file, 32, 8) == h.phoff by {
      HeaderRead(file, h);
    }
    assert BytesAt(file, at, PHDR) == Some(PhdrBytes(ps[i])) by {
      PhdrFound(file, h, ps, i, at);
    }
    SegmentMeant(file, ps[i]);
  }

  predicate Describe(file: seq<byte>, ps: seq<Phdr>, ss: seq<Segment>) {
    |ss| == |ps| && forall i :: 0 <= i < |ps| ==> ss[i] == Meant(file, ps[i])
  }

  function MeantAll(file: seq<byte>, ps: seq<Phdr>): (ss: seq<Segment>)
    ensures Describe(file, ps, ss)
  {
    seq(|ps|, i requires 0 <= i < |ps| => Meant(file, ps[i]))
  }

  lemma {:induction false} SegmentsOfReader(seg: Reader, file: seq<byte>, ps: seq<Phdr>, n: nat)
    requires n <= |ps| && forall i :: 0 <= i < |ps| ==> seg(i) == Some(Meant(file, ps[i]))
    ensures Segments(seg, n) == Some(MeantAll(file, ps[..n]))
    decreases n
  {
    if n == 0 {
      assert MeantAll(file, ps[..0]) == [];
    } else {
      SegmentsOfReader(seg, file, ps, n - 1);
      assert MeantAll(file, ps[..n]) == MeantAll(file, ps[..n - 1]) + [Meant(file, ps[n - 1])];
    }
  }

  /** The segments of a file are those its program headers describe. */
  lemma SegmentsRead(file: seq<byte>, h: Ehdr, ps: seq<Phdr>)
    requires EhdrAt(file, h) && PhdrsAt(file, h, ps) && ElfOk(file)
    ensures Segments(SegmentsOf(file), |ps|) == Some(MeantAll(file, ps))
  {
    var seg := SegmentsOf(file);
    forall i | 0 <= i < |ps|
      ensures seg(i) == Some(Meant(file, ps[i]))
    {
      SegmentRead(file, h, ps, i);
    }
    SegmentsOfReader(seg, file, ps, |ps|);
    assert ps[..|ps|] == ps;
  }

  // ------------------------------------------------------------------------ the image

  predicate Covers(s: Segment, a: nat) { Counts(s) && s.data.Some? && s.vaddr <= a < s.vaddr + |s.data.value| }

  /** A byte of the laid out image comes from the last segment that covers it. */
  lemma {:induction false} LaidByte(ss: seq<Segment>, a: nat, k: nat)
    requires AllFit(ss) && BASE <= a < BASE + IMAGE_MAX && k < |ss| && Covers(ss[k], a)
    requires forall j :: k < j < |ss| ==> !Covers(ss[j], a)
    ensures Laid(ss)[a - BASE] == ss[k].data.value[a - ss[k].vaddr]
    decreases |ss|
  {
    var s, front := ss[|ss| - 1], ss[..|ss| - 1];
    assert s in ss && forall u <- front :: u in ss;
    if k < |ss| - 1 {
      assert !Covers(s, a);
      LaidByte(front, a, k);
    }
  }

  /** A byte that no segment covers is zero. */
  lemma {:induction false} LaidGap(ss: seq<Segment>, a: nat)
    requires AllFit(ss) && BASE <= a < BASE + IMAGE_MAX && forall s <- ss :: !Covers(s, a)
    ensures Laid(ss)[a - BASE] == 0
    decreases |ss|
  {
    if ss != [] {
      var s, front := ss[|ss| - 1], ss[..|ss| - 1];
      assert s in ss && forall u <- front :: u in ss;
      LaidGap(front, a);
    }
  }

  /** The image ends where its highest segment does. */
  lemma {:induction false} EndReached(ss: seq<Segment>)
    ensures EndOf(ss) == BASE || exists s <- ss :: Counts(s) && EndOf(ss) == s.vaddr + s.memsz
  {
    if ss != [] {
      var s, front := ss[|ss| - 1], ss[..|ss| - 1];
      assert s in ss && forall u <- front :: u in ss;
      EndReached(front);
    }
  }

  // ---------------------------------------------------------------------- the packer

  predicate Loads(p: Phdr) { p.kind == 1 && p.memsz != 0 }

  /** A segment to be loaded lies in the arena, and what it takes from the file is there. */
  predicate InArena(file: seq<byte>, p: Phdr) {
    && BASE <= p.vaddr && p.vaddr + p.memsz <= BASE + IMAGE_MAX && p.filesz <= p.memsz
    && (p.filesz > 0 ==> p.offset + p.filesz <= |file|)
  }

  predicate Starts(p: Phdr, entry: nat) { Loads(p) && p.flags % 2 == 1 && p.vaddr <= entry < p.vaddr + p.memsz }

  /**
   An executable is packed exactly if its header is wanted, its entry is in the
   arena and in an executable segment, and every segment to be loaded lies in the
   arena and can be read.
   */
  lemma PackedExactly(file: seq<byte>, h: Ehdr, ps: seq<Phdr>)
    requires EhdrAt(file, h) && PhdrsAt(file, h, ps)
    ensures Packable(file) <==> && Wanted(h) && BASE <= h.entry < BASE + IMAGE_MAX
                                && (forall p <- ps :: Loads(p) ==> InArena(file, p))
                                && exists p <- ps :: Starts(p, h.entry)
  {
    HeaderRead(file, h);
    if Wanted(h) {
      SegmentsRead(file, h, ps);
      var ss := MeantAll(file, ps);
      AllFitExactly(file, ps, ss);
      ExecutableExactly(file, ps, ss, h.entry);
    }
  }

  lemma AllFitExactly(file: seq<byte>, ps: seq<Phdr>, ss: seq<Segment>)
    requires Describe(file, ps, ss)
    ensures AllFit(ss) <==> forall p <- ps :: Loads(p) ==> InArena(file, p)
  {
    if AllFit(ss) {
      forall p | p in ps && Loads(p)
        ensures InArena(file, p)
      {
        var i :| 0 <= i < |ps| && ps[i] == p;
        assert ss[i] in ss && Counts(ss[i]);
      }
    }
    if forall p <- ps :: Loads(p) ==> InArena(file, p) {
      forall s | s in ss && Counts(s)
        ensures Fits(s)
      {
        var i :| 0 <= i < |ss| && ss[i] == s;
        assert ps[i] in ps && Loads(ps[i]);
      }
    }
  }

  lemma ExecutableExactly(file: seq<byte>, ps: seq<Phdr>, ss: seq<Segment>, entry: nat)
    requires Describe(file, ps, ss)
    ensures Executable(ss, entry) <==> exists p <- ps :: Starts(p, entry)
  {
    if Executable(ss, entry) {
      var i :| 0 <= i < |ss| && Executes(ss[i], entry);
      assert ps[i] in ps && Starts(ps[i], entry);
    }
    if exists p <- ps :: Starts(p, entry) {
      var i :| 0 <= i < |ps| && Starts(ps[i], entry);
      assert ss[i] in ss && Executes(ss[i], entry);
    }
  }

  predicate Puts(p: Phdr, a: nat) { Loads(p) && p.vaddr <= a < p.vaddr + p.filesz }

  /** A byte is the one that the last segment putting one there takes from the file, and zero if none does. */
  predicate ByteOk(file: seq<byte>, ps: seq<Phdr>, a: nat, b: byte) {
    && (forall k :: 0 <= k < |ps| && LastPut(ps, a, k) ==> At(file, ps[k].offset + (a - ps[k].vaddr), [b]))
    && ((forall p <- ps :: !Puts(p, a)) ==> b == 0)
  }

  predicate LastPut(ps: seq<Phdr>, a: nat, k: nat)
    requires k < |ps|
  {
    Puts(ps[k], a) && forall j :: k < j < |ps| ==> !Puts(ps[j], a)
  }

  lemma ImageIs(file: seq<byte>, h: Ehdr, ps: seq<Phdr>, ss: seq<Segment>)
    requires EhdrAt(file, h) && PhdrsAt(file, h, ps) && Packable(file) && ss == MeantAll(file, ps)
    ensures AllFit(ss) && |ImageOf(file)| == EndOf(ss) - BASE <= IMAGE_MAX && ImageOf(file) == Laid(ss)[..EndOf(ss) - BASE]
    ensures forall p <- ps :: Loads(p) ==> InArena(file, p)
  {
    HeaderRead(file, h);
    SegmentsRead(file, h, ps);
    EndInside(ss);
    AllFitExactly(file, ps, ss);
  }

  /**
   Byte by byte, what is packed: the image begins at the base and ends where the
   highest segment does, and every byte is the right one.
   */
  lemma PackedImage(file: seq<byte>, h: Ehdr, ps: seq<Phdr>, image: seq<byte>, a: nat)
    requires EhdrAt(file, h) && PhdrsAt(file, h, ps) && Packable(file) && image == ImageOf(file) && BASE <= a
    ensures a < BASE + |image| <==> exists p <- ps :: Loads(p) && a < p.vaddr + p.memsz
    ensures a < BASE + |image| ==> ByteOk(file, ps, a, image[a - BASE])
  {
    var ss := MeantAll(file, ps);
    ImageIs(file, h, ps, ss);
    BytesRight(file, ps, ss, image, a);
  }

  lemma BytesRight(file: seq<byte>, ps: seq<Phdr>, ss: seq<Segment>, image: seq<byte>, a: nat)
    requires Describe(file, ps, ss) && AllFit(ss) && (forall p <- ps :: Loads(p) ==> InArena(file, p)) && BASE <= a
    requires EndOf(ss) <= BASE + IMAGE_MAX && image == Laid(ss)[..EndOf(ss) - BASE]
    ensures a < BASE + |image| <==> exists p <- ps :: Loads(p) && a < p.vaddr + p.memsz
    ensures a < BASE + |image| ==> ByteOk(file, ps, a, image[a - BASE])
  {
    EndExactly(file, ps, ss, a);
    if a < EndOf(ss) {
      ByteRight(file, ps, ss, a, image[a - BASE]);
    }
  }

  lemma ByteRight(file: seq<byte>, ps: seq<Phdr>, ss: seq<Segment>, a: nat, b: byte)
    requires Describe(file, ps, ss) && AllFit(ss)
    requires (forall p <- ps :: Loads(p) ==> InArena(file, p)) && BASE <= a < BASE + IMAGE_MAX && b == Laid(ss)[a - BASE]
    ensures ByteOk(file, ps, a, b)
  {
    forall k | 0 <= k < |ps| && LastPut(ps, a, k)
      ensures At(file, ps[k].offset + (a - ps[k].vaddr), [b])
    {
      ByteFrom(file, ps, ss, a, k);
    }
    if forall p <- ps :: !Puts(p, a) {
      NoByte(file, ps, ss, a);
    }
  }

  lemma EndExactly(file: seq<byte>, ps: seq<Phdr>, ss: seq<Segment>, a: nat)
    requires Describe(file, ps, ss) && AllFit(ss) && BASE <= a
    ensures a < EndOf(ss) <==> exists p <- ps :: Loads(p) && a < p.vaddr + p.memsz
  {
    EndReached(ss);
    EndInside(ss);
    if a < EndOf(ss) {
      var i :| 0 <= i < |ss| && Counts(ss[i]) && EndOf(ss) == ss[i].vaddr + ss[i].memsz;
      assert ps[i] in ps && Loads(ps[i]);
    }
    if exists p <- ps :: Loads(p) && a < p.vaddr + p.memsz {
      var i :| 0 <= i < |ps| && Loads(ps[i]) && a < ps[i].vaddr + ps[i].memsz;
      assert ss[i] in ss && Counts(ss[i]);
    }
  }

  lemma PutsCovers(file: seq<byte>, p: Phdr, a: nat)
    requires Loads(p) ==> InArena(file, p)
    ensures Covers(Meant(file, p), a) <==> Puts(p, a)
  {
  }

  lemma ByteFrom(file: seq<byte>, ps: seq<Phdr>, ss: seq<Segment>, a: nat, k: nat)
    requires Describe(file, ps, ss) && AllFit(ss)
    requires (forall p <- ps :: Loads(p) ==> InArena(file, p)) && BASE <= a < BASE + IMAGE_MAX
    requires k < |ps| && LastPut(ps, a, k)
    ensures At(file, ps[k].offset + (a - ps[k].vaddr), [Laid(ss)[a - BASE]])
  {
    forall j | 0 <= j < |ps|
      ensures Covers(ss[j], a) <==> Puts(ps[j], a)
    {
      assert ps[j] in ps;
      PutsCovers(file, ps[j], a);
    }
    LaidByte(ss, a, k);
  }

  lemma NoByte(file: seq<byte>, ps: seq<Phdr>, ss: seq<Segment>, a: nat)
    requires Describe(file, ps, ss) && AllFit(ss)
    requires (forall p <- ps :: Loads(p) ==> InArena(file, p)) && BASE <= a < BASE + IMAGE_MAX
    requires forall p <- ps :: !Puts(p, a)
    ensures Laid(ss)[a - BASE] == 0
  {
    forall s | s in ss
      ensures !Covers(s, a)
    {
      var j :| 0 <= j < |ss| && ss[j] == s;
      assert ps[j] in ps;
      PutsCovers(file, ps[j], a);
    }
    LaidGap(ss, a);
  }
}
