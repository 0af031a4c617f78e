/**
 Loading a program: header first, then the image block by block out of the
 store into a cleared arena, then the checksum.
 */
module Loader {
  import opened Basics
  import opened Fnv
  import opened Gm01
  import opened StoreText
  import opened StoreProtocol
  import opened StoreClient
  import opened StoreSession

  /** The store gives out the file and its size, all of it within reach of a read. */
  ghost predicate Faithful(fs: Fs, path: string, file: string, size: nat) {
    && PathOk(path) && NameValid(path) && Holds(fs, path, file) && HasSize(fs, path, size)
    && size == |file| <= LONG_MAX
  }

  /** A read that lies inside the file returns exactly those bytes. */
  lemma BlockRead(fs: Fs, ops: seq<FsOp>, path: string, file: string, offset: nat, len: nat)
    requires Faithful(fs, path, file, |file|) && offset + len <= |file| && len <= BLOCK
    ensures StoreRead(fs, ops, path, offset, len).0 == Some(file[offset..offset + len])
  {
    RemoteReadAnswers(fs, ops, path, offset, len);
    var r := fs(ops, ReadFile(path, offset, len));
    assert r.Done? && r.data == Slice(file, offset, len);
    assert Slice(file, offset, len) == file[offset..offset + len];
  }

  /** The header says the file is one of ours, of this size. */
  predicate HeaderAccepted(raw: seq<byte>, size: nat)
    requires |raw| == HEADER
  {
    && Get32(raw, 0) == MAGIC && Get32(raw, 4) == API && Get32(raw, 8) == X86_64
    && 0 < Get32(raw, 12) <= IMAGE_MAX && size == HEADER + Get32(raw, 12) && Get32(raw, 16) < Get32(raw, 12)
  }

  /** Read and check the header. */
  method LoadHeader(fs: Fs, before: seq<FsOp>, path: string, size: nat, ghost file: string)
    returns (ok: bool, raw: seq<byte>, ops: seq<FsOp>)
    ensures ok ==> |raw| == HEADER && HeaderAccepted(raw, size)
    ensures Faithful(fs, path, file, size) ==>
              (ok <==> HEADER <= size <= HEADER + IMAGE_MAX && HeaderAccepted(Bytes(file)[..HEADER], size))
    ensures Faithful(fs, path, file, size) && ok ==> raw == Bytes(file)[..HEADER]
  {
    ops, raw := before, [];
    if size < HEADER || size > HEADER + IMAGE_MAX { return false, raw, ops; }
    ok, raw, ops := ReadBlock(fs, ops, path, 0, HEADER, file);
    if ok { ok := HeaderAccepted(raw, size); }
  }

  /** Ask the store for the size of a file. */
  method AskSize(fs: Fs, before: seq<FsOp>, path: string, ghost file: string)
    returns (size: Option<nat>, ops: seq<FsOp>)
    ensures Faithful(fs, path, file, |file|) ==> size == Some(|file|)
  {
    var r := StoreSize(fs, before, path);
    size, ops := r.0, r.1;
    if Faithful(fs, path, file, |file|) {
      SizeRead(fs, before, path, file);
    }
  }

  lemma SizeRead(fs: Fs, ops: seq<FsOp>, path: string, file: string)
    requires Faithful(fs, path, file, |file|)
    ensures StoreSize(fs, ops, path).0 == Some(|file|)
  {
    SizeArrives(fs, ops, path, |file|);
  }

  /** Ask the store for part of a file. */
  method Ask(fs: Fs, before: seq<FsOp>, path: string, offset: nat, len: nat, ghost file: string)
    returns (answer: Option<string>, ops: seq<FsOp>)
    requires len <= BLOCK
    ensures Faithful(fs, path, file, |file|) && offset + len <= |file| ==> answer == Some(file[offset..offset + len])
  {
    var r := StoreRead(fs, before, path, offset, len);
    answer, ops := r.0, r.1;
    if Faithful(fs, path, file, |file|) && offset + len <= |file| {
      BlockRead(fs, before, path, file, offset, len);
    }
  }

  /** Read one block; false unless all of it comes back. */
  method ReadBlock(fs: Fs, before: seq<FsOp>, path: string, offset: nat, want: nat, ghost file: string)
    returns (ok: bool, block: seq<byte>, ops: seq<FsOp>)
    requires want <= BLOCK
    ensures ok ==> |block| == want
    ensures Faithful(fs, path, file, |file|) && offset + want <= |file| ==> ok && block == Bytes(file)[offset..offset + want]
  {
    var answer;
    answer, ops := Ask(fs, before, path, offset, want, file);
    if offset + want <= |file| { BytesSlice(file, offset, offset + want); }
    if answer.None? || |answer.value| != want { return false, [], ops; }
    return true, Bytes(answer.value), ops;
  }

  /** Store a block behind what has been loaded; what lies behind it stays clear. */
  method PutBlock(image: array<byte>, offset: nat, block: seq<byte>)
    requires offset + |block| <= image.Length && image[offset..] == Zeros(image.Length - offset)
    modifies image
    ensures image[..offset + |block|] == old(image[..offset]) + block
    ensures image[offset + |block|..] == Zeros(image.Length - offset - |block|)
  {
    forall i | 0 <= i < |block| {
      image[offset + i] := block[i];
    }
    forall i | offset + |block| <= i < image.Length ensures image[i] == 0 {
      assert old(image[i]) == old(image[offset..])[i - offset];
    }
  }

  /** Read the image into a cleared arena, a block at a time. */
  method LoadImage(fs: Fs, before: seq<FsOp>, path: string, payload: nat, image: array<byte>, ghost file: string)
    returns (ok: bool, ops: seq<FsOp>)
    requires image.Length == IMAGE_MAX && payload <= IMAGE_MAX && image[..] == Zeros(IMAGE_MAX)
    modifies image
    ensures ok ==> image[payload..] == Zeros(IMAGE_MAX - payload)
    ensures Faithful(fs, path, file, HEADER + payload) ==> ok && image[..payload] == Bytes(file)[HEADER..]
  {
    ops := before;
    ghost var faithful, bytes := Faithful(fs, path, file, HEADER + payload), Bytes(file);
    var offset: nat, remain: nat := 0, payload;
    while remain > 0
      invariant offset + remain == payload
      invariant image[offset..] == Zeros(IMAGE_MAX - offset)
      invariant faithful ==> image[..offset] == bytes[HEADER..HEADER + offset]
    {
      var want := if remain > BLOCK then BLOCK else remain;
      var block;
      ok, block, ops := ReadBlock(fs, ops, path, HEADER + offset, want, file);
      if !ok { return; }
      PutBlock(image, offset, block);
      ghost var lo, mid, hi := HEADER, HEADER + offset, HEADER + offset + want;
      if faithful { SliceJoin(bytes, lo, mid, hi); }
      offset := offset + want;
      remain := remain - want;
    }
    return true, ops;
  }

  lemma SliceJoin(s: seq<byte>, lo: nat, mid: nat, hi: nat)
    requires lo <= mid <= hi <= |s|
    ensures s[lo..mid] + s[mid..hi] == s[lo..hi]
  {
  }

  /**
   Load a program.  From a faithful store exactly the loadable files are
   accepted, and the arena then holds the image followed by zeros.  From any
   store whatever, what is accepted has its entry inside the image.
   */
  method ProgramLoad(fs: Fs, before: seq<FsOp>, path: string, image: array<byte>, ghost file: string)
    returns (ok: bool, entry: nat, payload: nat, ops: seq<FsOp>)
    requires image.Length == IMAGE_MAX
    modifies image
    ensures ok ==> entry < payload <= IMAGE_MAX && image[payload..] == Zeros(IMAGE_MAX - payload)
    ensures Faithful(fs, path, file, |file|) ==> (ok <==> Loadable(Bytes(file)))
    ensures Faithful(fs, path, file, |file|) && ok ==>
              && image[..payload] == Bytes(file)[HEADER..] && payload == |file| - HEADER && entry == Get32(Bytes(file), 16)
  {
    entry, payload := 0, 0;
    var answer, raw;
    answer, ops := AskSize(fs, before, path, file);
    if answer.None? { return false, entry, payload, ops; }
    var size := answer.value;
    ok, raw, ops := LoadHeader(fs, ops, path, size, file);
    if Faithful(fs, path, file, size) && size >= HEADER { HeaderIsPrefix(Bytes(file), size); }
    if !ok { return; }
    payload, entry := Get32(raw, 12), Get32(raw, 16);
    forall i | 0 <= i < image.Length {
      image[i] := 0;
    }
    assert image[..] == Zeros(IMAGE_MAX);
    ok, ops := LoadImage(fs, ops, path, payload, image, file);
    if !ok { return; }
    var sum := ImageChecksum(image[..payload]);
    if sum != Get32(raw, 20) { return false, entry, payload, ops; }
  }

  /** What is loadable, in terms of the header alone and the checksum. */
  lemma HeaderIsPrefix(f: seq<byte>, size: nat)
    requires size == |f| >= HEADER
    ensures Loadable(f) <==> && size <= HEADER + IMAGE_MAX && HeaderAccepted(f[..HEADER], size)
                             && Hash(f[HEADER..]) == Get32(f[..HEADER], 20)
    ensures Get32(f[..HEADER], 16) == Get32(f, 16)
  {
  }
}
