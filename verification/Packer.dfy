/**
 The packer: an ELF executable is checked, its segments are laid over a cleared
 image, and a GM01 file is made of the result.
 */
module Packer {
  import opened Basics
  import opened Fnv
  import opened Gm01

  // -------------------------------------------------------------------- the ELF file

  const EHDR: nat := 64
  const PHDR: nat := 56

  /** A word of n bytes, the lowest first. */
  function Le(data: seq<byte>, at: nat, n: nat): (v: nat)
    requires at + n <= |data|
  {
    WordOf(data[at..at + n])
  }

  function ArchOf(machine: nat): Option<u32> {
    if machine == 62 then Some(1) else if machine == 183 then Some(2) else if machine == 243 then Some(3) else None
  }

  /** A 64-bit little-endian executable, with program headers, for a machine we know. */
  predicate ElfOk(file: seq<byte>) {
    && |file| >= EHDR
    && file[..4] == [0x7f, 0x45, 0x4c, 0x46] && file[4] == 2 && file[5] == 1 && file[6] == 1
    && Le(file, 16, 2) == 2 && Le(file, 20, 4) == 1
    && Le(file, 56, 2) != 0 && Le(file, 54, 2) == PHDR && ArchOf(Le(file, 18, 2)).Some?
  }

  function Headers(file: seq<byte>): nat
    requires ElfOk(file)
  {
    Le(file, 56, 2)
  }

  function Arch(file: seq<byte>): u32
    requires ElfOk(file)
  {
    ArchOf(Le(file, 18, 2)).value
  }

  function EntryOf(file: seq<byte>): nat
    requires ElfOk(file)
  {
    Le(file, 24, 8)
  }

  /** The bytes at an offset, if the file has them; offsets wrap at 64 bits, and the upper half of them are negative. */
  function BytesAt(file: seq<byte>, offset: nat, len: nat): Option<seq<byte>> {
    if offset % B64 < B64 / 2 && offset % B64 + len <= |file| then Some(file[offset % B64..offset % B64 + len]) else None
  }

  /** A program header, with the bytes it takes from the file if they can be read. */
  datatype Segment = Segment(load: bool, exec: bool, vaddr: nat, memsz: nat, filesz: nat, data: Option<seq<byte>>)

  function SegmentOf(file: seq<byte>, ph: seq<byte>): Segment
    requires |ph| == PHDR
  {
    Segment(Le(ph, 0, 4) == 1, Le(ph, 4, 4) % 2 == 1, Le(ph, 16, 8), Le(ph, 40, 8), Le(ph, 32, 8),
            if Le(ph, 32, 8) == 0 then Some([]) else BytesAt(file, Le(ph, 8, 8), Le(ph, 32, 8)))
  }

  function SegmentAt(file: seq<byte>, i: nat): Option<Segment>
    requires ElfOk(file)
  {
    match BytesAt(file, Le(file, 32, 8) + i * PHDR, PHDR)
    case None => None
    case Some(ph) => Some(SegmentOf(file, ph))
  }

  function SegmentsOf(file: seq<byte>): Reader
    requires ElfOk(file)
  {
    (i: nat) => SegmentAt(file, i)
  }

  /** Reads the i-th program header. */
  type Reader = nat -> Option<Segment>

  /** The first n segments, if their headers can be read. */
  function Segments(seg: Reader, n: nat): (ss: Option<seq<Segment>>) {
    if n == 0 then Some([])
    else
      match (Segments(seg, n - 1), seg(n - 1))
      case (Some(ss), Some(s)) => Some(ss + [s])
      case _ => None
  }

  lemma {:induction false} SegmentsMore(seg: Reader, i: nat, n: nat)
    requires i <= n && Segments(seg, n).Some?
    ensures Segments(seg, i).Some? && Segments(seg, i).value <= Segments(seg, n).value
    decreases n
  {
    if i < n {
      SegmentsMore(seg, i, n - 1);
    }
  }

  // ------------------------------------------------------------------------ the image

  predicate Counts(s: Segment) { s.load && s.memsz != 0 }

  /** A segment that fits: its addresses are those of the image and its bytes can be read. */
  predicate Fits(s: Segment) {
    && BASE <= s.vaddr <= BASE + IMAGE_MAX && s.memsz <= IMAGE_MAX
    && s.vaddr + s.memsz <= BASE + IMAGE_MAX && s.filesz <= s.memsz
    && s.data.Some? && |s.data.value| <= s.memsz
  }

  predicate AllFit(ss: seq<Segment>) { forall s <- ss :: Counts(s) ==> Fits(s) }

  predicate Executes(s: Segment, entry: nat) { Counts(s) && s.exec && s.vaddr <= entry < s.vaddr + s.memsz }

  /** The entry lies in an executable segment. */
  predicate Executable(ss: seq<Segment>, entry: nat) { exists s <- ss :: Executes(s, entry) }

  /** The end of the highest segment. */
  function EndOf(ss: seq<Segment>): (end: nat)
    ensures BASE <= end
  {
    if ss == [] then BASE
    else
      var s, end := ss[|ss| - 1], EndOf(ss[..|ss| - 1]);
      if Counts(s) && s.vaddr + s.memsz > end then s.vaddr + s.memsz else end
  }

  /** Bytes written over part of an image. */
  function Paste(image: seq<byte>, off: nat, data: seq<byte>): (r: seq<byte>)
    requires off + |data| <= |image|
    ensures |r| == |image|
  {
    image[..off] + data + image[off + |data|..]
  }

  /** The segments laid over a cleared arena, in order. */
  function Laid(ss: seq<Segment>): (image: seq<byte>)
    requires AllFit(ss)
    ensures |image| == IMAGE_MAX
  {
    if ss == [] then Zeros(IMAGE_MAX)
    else
      var s := ss[|ss| - 1];
      assert s in ss && forall u <- ss[..|ss| - 1] :: u in ss;
      if Counts(s) then Paste(Laid(ss[..|ss| - 1]), s.vaddr - BASE, s.data.value) else Laid(ss[..|ss| - 1])
  }

  lemma LaidAppend(ss: seq<Segment>, s: Segment)
    requires AllFit(ss) && (Counts(s) ==> Fits(s))
    ensures AllFit(ss + [s])
    ensures Laid(ss + [s]) == if Counts(s) then Paste(Laid(ss), s.vaddr - BASE, s.data.value) else Laid(ss)
    ensures EndOf(ss + [s]) == if Counts(s) && s.vaddr + s.memsz > EndOf(ss) then s.vaddr + s.memsz else EndOf(ss)
  {
    assert (ss + [s])[..|ss|] == ss;
  }

  lemma ExecutableAppend(ss: seq<Segment>, s: Segment, entry: nat)
    ensures Executable(ss + [s], entry) <==> Executable(ss, entry) || Executes(s, entry)
  {
  }

  lemma {:induction false} EndInside(ss: seq<Segment>)
    requires AllFit(ss)
    ensures EndOf(ss) <= BASE + IMAGE_MAX
    ensures forall s <- ss :: Counts(s) ==> s.vaddr + s.memsz <= EndOf(ss)
  {
    if ss != [] {
      var s := ss[|ss| - 1];
      assert s in ss && forall u <- ss[..|ss| - 1] :: u in ss;
      EndInside(ss[..|ss| - 1]);
      assert ss == ss[..|ss| - 1] + [s];
    }
  }

  lemma EntryInside(ss: seq<Segment>, entry: nat)
    requires AllFit(ss) && Executable(ss, entry) && BASE <= entry
    ensures entry < EndOf(ss) <= BASE + IMAGE_MAX
  {
    EndInside(ss);
  }

  // ---------------------------------------------------------------------- the packer

  /** When the packer produces a file. */
  predicate Packable(file: seq<byte>) {
    && ElfOk(file) && BASE <= EntryOf(file) < BASE + IMAGE_MAX
    && Segments(SegmentsOf(file), Headers(file)).Some?
    && var ss := Segments(SegmentsOf(file), Headers(file)).value; AllFit(ss) && Executable(ss, EntryOf(file))
  }

  /** The image of an executable that can be packed. */
  function ImageOf(file: seq<byte>): (image: seq<byte>)
    requires Packable(file)
    ensures EntryOf(file) - BASE < |image| <= IMAGE_MAX
  {
    var ss := Segments(SegmentsOf(file), Headers(file)).value;
    EntryInside(ss, EntryOf(file));
    Laid(ss)[..EndOf(ss) - BASE]
  }

  /** Copy one segment's bytes into the image. */
  method PasteInto(image: array<byte>, off: nat, data: seq<byte>)
    requires off + |data| <= image.Length
    modifies image
    ensures image[..] == Paste(old(image[..]), off, data)
  {
    forall i | 0 <= i < |data| {
      image[off + i] := data[i];
    }
  }

  /** Lay out one segment, keeping track of the highest end and of an executable entry; false if it does not fit. */
  method LaySegment(s: Segment, entry: nat, image: array<byte>, end: nat, exec: bool)
    returns (ok: bool, end': nat, exec': bool)
    requires image.Length == IMAGE_MAX
    modifies image
    ensures ok == (Counts(s) ==> Fits(s))
    ensures ok ==> && image[..] == (if Counts(s) then Paste(old(image[..]), s.vaddr - BASE, s.data.value) else old(image[..]))
                   && end' == (if Counts(s) && s.vaddr + s.memsz > end then s.vaddr + s.memsz else end)
                   && exec' == (exec || Executes(s, entry))
  {
    ok, end', exec' := true, end, exec;
    if !Counts(s) { return; }
    if !Fits(s) { return false, end, exec; }
    PasteInto(image, s.vaddr - BASE, s.data.value);
    var segEnd := s.vaddr + s.memsz;
    if s.exec && s.vaddr <= entry < segEnd { exec' := true; }
    if segEnd > end { end' := segEnd; }
  }

  /** The image after some segments. */
  ghost predicate LaidOut(ss: seq<Segment>, entry: nat, image: seq<byte>, end: nat, exec: bool) {
    AllFit(ss) && image == Laid(ss) && end == EndOf(ss) && exec == Executable(ss, entry)
  }

  lemma LaidOutMore(ss: seq<Segment>, s: Segment, entry: nat, image: seq<byte>, end: nat, exec: bool,
                    image': seq<byte>, end': nat, exec': bool)
    requires LaidOut(ss, entry, image, end, exec) && |image| == IMAGE_MAX && (Counts(s) ==> Fits(s))
    requires image' == if Counts(s) then Paste(image, s.vaddr - BASE, s.data.value) else image
    requires end' == if Counts(s) && s.vaddr + s.memsz > end then s.vaddr + s.memsz else end
    requires exec' == (exec || Executes(s, entry))
    ensures LaidOut(ss + [s], entry, image', end', exec')
  {
    LaidAppend(ss, s);
    ExecutableAppend(ss, s, entry);
  }

  lemma MisfitStays(seg: Reader, i: nat, n: nat)
    requires i < n && Segments(seg, i).Some?
    requires seg(i).None? || (Counts(seg(i).value) && !Fits(seg(i).value))
    ensures Segments(seg, n).None? || !AllFit(Segments(seg, n).value)
  {
    if Segments(seg, n).Some? {
      SegmentIsIn(seg, i, n);
    }
  }

  lemma SegmentIsIn(seg: Reader, i: nat, n: nat)
    requires i < n && Segments(seg, n).Some?
    ensures seg(i).Some? && seg(i).value in Segments(seg, n).value
  {
    SegmentsMore(seg, i + 1, n);
    LastIsIn(Segments(seg, i + 1).value, Segments(seg, n).value);
  }

  lemma LastIsIn(ss: seq<Segment>, ts: seq<Segment>)
    requires ss != [] && ss <= ts
    ensures ss[|ss| - 1] in ts
  {
    assert ts[|ss| - 1] == ss[|ss| - 1];
  }

  /** Lay out the segments; false at the first header or segment that cannot be read or does not fit. */
  method LayOut(seg: Reader, n: nat, entry: nat, image: array<byte>) returns (ok: bool, end: nat, exec: bool)
    requires image.Length == IMAGE_MAX && image[..] == Zeros(IMAGE_MAX)
    modifies image
    ensures ok == (Segments(seg, n).Some? && AllFit(Segments(seg, n).value))
    ensures ok ==> LaidOut(Segments(seg, n).value, entry, image[..], end, exec)
  {
    ok, end, exec := true, BASE, false;
    ghost var ss: seq<Segment> := [];
    var i := 0;
    while i < n
      invariant i <= n && Segments(seg, i) == Some(ss) && LaidOut(ss, entry, image[..], end, exec)
    {
      ok, end, exec := LayNext(seg(i), entry, image, end, exec, ss);
      if !ok {
        MisfitStays(seg, i, n);
        return;
      }
      ss := ss + [seg(i).value];
      i := i + 1;
    }
    ok := true;
  }

  /** The body of the loop. */
  method LayNext(s: Option<Segment>, entry: nat, image: array<byte>, end: nat, exec: bool, ghost ss: seq<Segment>)
    returns (ok: bool, end': nat, exec': bool)
    requires image.Length == IMAGE_MAX && LaidOut(ss, entry, image[..], end, exec)
    modifies image
    ensures ok == (s.Some? && (Counts(s.value) ==> Fits(s.value)))
    ensures ok ==> LaidOut(ss + [s.value], entry, image[..], end', exec')
  {
    if s.None? { return false, end, exec; }
    ghost var before := image[..];
    ok, end', exec' := LaySegment(s.value, entry, image, end, exec);
    if ok { LaidOutMore(ss, s.value, entry, before, end, exec, image[..], end', exec'); }
  }

  /** The file for an image. */
  method Write(arch: u32, image: array<byte>, size: nat, entry: u32) returns (bytes: seq<byte>)
    requires size <= image.Length == IMAGE_MAX
    ensures bytes == FileOf(arch, image[..size], entry)
  {
    var sum := ImageChecksum(image[..size]);
    bytes := HeaderOf(arch, size, entry, sum) + image[..size];
  }

  /** Pack an executable. */
  method Pack(file: seq<byte>) returns (packed: Option<seq<byte>>)
    ensures packed.Some? == Packable(file)
    ensures packed.Some? ==>
              packed.value == FileOf(Arch(file), ImageOf(file), EntryOf(file) - BASE)
  {
    if !ElfOk(file) { return None; }
    var entry := EntryOf(file);
    if entry < BASE || entry >= BASE + IMAGE_MAX { return None; }
    var image := new byte[IMAGE_MAX](_ => 0);
    assert image[..] == Zeros(IMAGE_MAX);
    var ok, end, exec := LayOut(SegmentsOf(file), Headers(file), entry, image);
    if !ok || !exec { return None; }
    var size := end - BASE;
    EntryInside(Segments(SegmentsOf(file), Headers(file)).value, entry);
    if entry - BASE >= size {
      assert false;
    }
    assert image[..size] == ImageOf(file);
    var bytes := Write(Arch(file), image, size, entry - BASE);
    packed := Some(bytes);
  }

  /** Whatever the packer makes of an x86_64 executable is loadable, and its image is the segments as laid out. */
  lemma EveryPackedFileLoads(file: seq<byte>)
    requires Packable(file) && Arch(file) == X86_64
    ensures var packed := FileOf(Arch(file), ImageOf(file), EntryOf(file) - BASE);
            Loadable(packed) && packed[HEADER..] == ImageOf(file) && Get32(packed, 16) == EntryOf(file) - BASE
  {
    PackedIsLoadable(ImageOf(file), EntryOf(file) - BASE);
  }

  /** Nothing packed for another machine is loadable. */
  lemma OtherMachinesRefused(file: seq<byte>)
    requires Packable(file) && Arch(file) != X86_64
    ensures !Loadable(FileOf(Arch(file), ImageOf(file), EntryOf(file) - BASE))
  {
    var image := ImageOf(file);
    HeaderFields(Arch(file), |image|, EntryOf(file) - BASE, Hash(image), image);
  }
}
