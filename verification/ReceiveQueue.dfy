/**
 The receive queue between the driver and a device that keeps to the rules: it
 fetches descriptors from the available ring in order, writes only buffers it
 holds, and returns each through the used ring.  Each descriptor has exactly
 one holder at any time, and the driver reads exactly what the device wrote.
 */
module ReceiveQueue {
  import opened Basics
  import opened Virtqueue

  /** A buffer as the device completed it. */
  datatype Frame = Frame(bytes: seq<byte>, len: nat)
  datatype Used = Used(id: nat, len: nat)

  /**
   `fetched`, `completed` and `taken` count in full what the 16-bit indices
   count modulo 2^16; `frames` and `seen` are the frames completed by the device
   and those looked at by the driver.
   */
  datatype Rx = Rx(availIdx: u16, availRing: seq<nat>, usedIdx: u16, usedRing: seq<Used>, lastUsed: u16,
                   fetchIdx: u16, held: set<nat>, bufs: seq<seq<byte>>,
                   offered: nat, fetched: nat, frames: seq<Frame>, seen: seq<Frame>)

  predicate Sized(s: Rx) {
    && |s.availRing| == SIZE && |s.usedRing| == SIZE && |s.bufs| == SIZE
    && forall d :: 0 <= d < SIZE ==> |s.bufs[d]| == BUF
  }

  type Queue = s: Rx | Sized(s) witness Init()

  /** The queue as set up: all eight descriptors are available. */
  function Init(): Rx {
    Rx(SIZE, seq(SIZE, i => i), 0, seq(SIZE, _ => Used(0, 0)), 0, 0, {}, seq(SIZE, _ => Zeros(BUF)), SIZE, 0, [], [])
  }

  // -------------------------------------------------------------------------- steps

  function Inc16(w: u16): u16 { (w + 1) % B16 }

  function Fetch(s: Queue): (t: Queue) {
    if s.fetchIdx == s.availIdx then s
    else s.(held := s.held + {s.availRing[s.fetchIdx % SIZE]}, fetchIdx := Inc16(s.fetchIdx), fetched := s.fetched + 1)
  }

  function Fill(s: Queue, id: nat, bytes: seq<byte>): (t: Queue) {
    if id in s.held && id < SIZE && |bytes| == BUF then s.(bufs := s.bufs[id := bytes]) else s
  }

  function Complete(s: Queue, id: nat, len: nat): (t: Queue) {
    if id in s.held && id < SIZE
    then s.(held := s.held - {id}, usedRing := s.usedRing[s.usedIdx % SIZE := Used(id, len)],
            usedIdx := Inc16(s.usedIdx), frames := s.frames + [Frame(s.bufs[id], len)])
    else s
  }

  /** The driver looks at the next used entry and makes its descriptor available again. */
  function Take(s: Queue): (t: Queue) {
    if s.lastUsed == s.usedIdx then s
    else
      var u := s.usedRing[s.lastUsed % SIZE];
      if u.id >= SIZE then s
      else s.(lastUsed := Inc16(s.lastUsed), availRing := s.availRing[s.availIdx % SIZE := u.id],
              availIdx := Inc16(s.availIdx), offered := s.offered + 1,
              seen := s.seen + [Frame(s.bufs[u.id], u.len)])
  }

  datatype Event = Fetched | Filled(id: nat, bytes: seq<byte>) | Completed(id: nat, len: nat) | Taken

  function Step(s: Queue, e: Event): (t: Queue) {
    match e
    case Fetched => Fetch(s)
    case Filled(id, bytes) => Fill(s, id, bytes)
    case Completed(id, len) => Complete(s, id, len)
    case Taken => Take(s)
  }

  function Run(s: Queue, es: seq<Event>): (t: Queue)
    decreases |es|
  {
    if es == [] then s else Run(Step(s, es[0]), es[1..])
  }

  // ---------------------------------------------------------------------- invariant

  /** The entries of a ring from count `from` up to count `to`. */
  function Pending(ring: seq<nat>, from: nat, to: nat): (p: seq<nat>)
    requires |ring| == SIZE && from <= to
  {
    seq(to - from, i requires 0 <= i < to - from => ring[(from + i) % SIZE])
  }

  lemma PendingPush(ring: seq<nat>, from: nat, to: nat, x: nat)
    requires |ring| == SIZE && from <= to < from + SIZE
    ensures Pending(ring[to % SIZE := x], from, to + 1) == Pending(ring, from, to) + [x]
  {
    var r := Pending(ring[to % SIZE := x], from, to + 1);
    forall i | 0 <= i < to - from ensures r[i] == Pending(ring, from, to)[i] {
      assert (from + i) % SIZE != to % SIZE;
    }
  }

  lemma PendingPop(ring: seq<nat>, from: nat, to: nat)
    requires |ring| == SIZE && from < to
    ensures Pending(ring, from, to) == [ring[from % SIZE]] + Pending(ring, from + 1, to)
  {
    var p, q := Pending(ring, from, to), Pending(ring, from + 1, to);
    forall i | 1 <= i < to - from ensures p[i] == q[i - 1] {
      assert from + i == from + 1 + (i - 1);
    }
  }

  function Ids(us: seq<Used>): (s: seq<nat>)
    ensures |s| == |us| && forall i :: 0 <= i < |us| ==> s[i] == us[i].id
  {
    seq(|us|, i requires 0 <= i < |us| => us[i].id)
  }

  const All: multiset<nat> := multiset{0, 1, 2, 3, 4, 5, 6, 7}

  function HoldersOf(avail: seq<nat>, held: set<nat>, used: seq<nat>): (m: multiset<nat>) {
    multiset(avail) + multiset(held) + multiset(used)
  }

  /** Available to the device, held by it, or returned and not yet looked at. */
  function Holders(s: Queue): (m: multiset<nat>)
    requires |s.seen| <= |s.frames| && s.fetched <= s.offered
  {
    HoldersOf(Pending(s.availRing, s.fetched, s.offered), s.held, Pending(Ids(s.usedRing), |s.seen|, |s.frames|))
  }

  lemma FetchMoves(avail: seq<nat>, held: set<nat>, used: seq<nat>, x: nat)
    requires HoldersOf([x] + avail, held, used) == All
    ensures x !in held && HoldersOf(avail, held + {x}, used) == All
  {
    var ma: multiset<nat>, mh: multiset<nat>, mu: multiset<nat> := multiset([x] + avail), multiset(held), multiset(used);
    assert ma[x] >= 1 && (ma + mh + mu)[x] <= 1;
    assert multiset(held + {x}) == multiset(held) + multiset{x};
    assert ma == multiset{x} + multiset(avail);
  }

  lemma CompleteMoves(avail: seq<nat>, held: set<nat>, used: seq<nat>, x: nat)
    requires x in held
    ensures HoldersOf(avail, held - {x}, used + [x]) == HoldersOf(avail, held, used)
  {
    assert multiset(held) == multiset(held - {x}) + multiset{x};
  }

  lemma TakeMoves(avail: seq<nat>, held: set<nat>, used: seq<nat>, x: nat)
    ensures HoldersOf(avail + [x], held, used) == HoldersOf(avail, held, [x] + used)
  {
  }

  predicate CountsOk(s: Queue) {
    && |s.seen| <= |s.frames| <= s.fetched <= s.offered == |s.seen| + SIZE
    && s.availIdx == s.offered % B16 && s.fetchIdx == s.fetched % B16
    && s.usedIdx == |s.frames| % B16 && s.lastUsed == |s.seen| % B16
    && |s.frames| + |s.held| == s.fetched
  }

  /** What the driver has looked at is what was completed, and what it has not looked at is still in its buffer. */
  predicate FramesOk(s: Queue) {
    && s.seen <= s.frames
    && forall i :: |s.seen| <= i < |s.frames| ==>
         var u := s.usedRing[i % SIZE]; u.id < SIZE && s.frames[i] == Frame(s.bufs[u.id], u.len)
  }

  predicate Sound(s: Queue) { CountsOk(s) && Holders(s) == All && FramesOk(s) }

  lemma InitSound()
    ensures Sound(Init())
  {
    var s := Init();
    assert Pending(s.availRing, 0, SIZE) == [0, 1, 2, 3, 4, 5, 6, 7];
    assert Pending(Ids(s.usedRing), 0, 0) == [];
  }

  /** Two counts at most eight apart have equal 16-bit indices only if they are equal. */
  lemma SameIndex(a: nat, b: nat)
    requires a <= b <= a + SIZE
    ensures a % B16 == b % B16 <==> a == b
  {
  }

  /** Somebody who holds a descriptor holds it alone. */
  lemma HeldAlone(s: Queue, id: nat)
    requires Sound(s) && id in s.held
    ensures id < SIZE
    ensures id !in Pending(s.availRing, s.fetched, s.offered)
    ensures id !in Pending(Ids(s.usedRing), |s.seen|, |s.frames|)
  {
    var a, u := Pending(s.availRing, s.fetched, s.offered), Pending(Ids(s.usedRing), |s.seen|, |s.frames|);
    var ma: multiset<nat>, mh: multiset<nat>, mu: multiset<nat> := multiset(a), multiset(s.held), multiset(u);
    assert Holders(s) == ma + mh + mu;
    assert mh[id] == 1;
    assert id in All && All[id] <= 1;
  }

  // The steps, with the 16-bit indices replaced by the counts they stand for.

  lemma FetchForm(s: Queue)
    requires CountsOk(s)
    ensures var n := s.fetched;
            Fetch(s) == if n == s.offered then s
                        else s.(held := s.held + {s.availRing[n % SIZE]}, fetchIdx := (n + 1) % B16, fetched := n + 1)
  {
    SameIndex(s.fetched, s.offered);
    Wrap16(s.fetched);
  }

  lemma CompleteForm(s: Queue, id: nat, len: nat)
    requires CountsOk(s) && id in s.held && id < SIZE
    ensures var n := |s.frames|;
            Complete(s, id, len) == s.(held := s.held - {id}, usedRing := s.usedRing[n % SIZE := Used(id, len)],
                                       usedIdx := (n + 1) % B16, frames := s.frames + [Frame(s.bufs[id], len)])
  {
    Wrap16(|s.frames|);
  }

  lemma TakeForm(s: Queue)
    requires CountsOk(s) && s.usedRing[|s.seen| % SIZE].id < SIZE
    ensures var n := |s.seen|;
            var u := s.usedRing[n % SIZE];
            Take(s) == if n == |s.frames| then s
                       else s.(lastUsed := (n + 1) % B16, availRing := s.availRing[s.offered % SIZE := u.id],
                               availIdx := (s.offered + 1) % B16, offered := s.offered + 1,
                               seen := s.seen + [Frame(s.bufs[u.id], u.len)])
  {
    SameIndex(|s.seen|, |s.frames|);
    Wrap16(|s.seen|);
    Wrap16(s.offered);
  }

  lemma FetchedHolders(s: Queue)
    requires Sound(s) && s.fetched < s.offered
    ensures var x := s.availRing[s.fetched % SIZE];
            && x !in s.held
            && HoldersOf(Pending(s.availRing, s.fetched + 1, s.offered), s.held + {x},
                         Pending(Ids(s.usedRing), |s.seen|, |s.frames|)) == All
  {
    PendingPop(s.availRing, s.fetched, s.offered);
    FetchMoves(Pending(s.availRing, s.fetched + 1, s.offered), s.held,
               Pending(Ids(s.usedRing), |s.seen|, |s.frames|), s.availRing[s.fetched % SIZE]);
  }

  lemma FetchedSound(s: Queue, t: Queue)
    requires Sound(s) && s.fetched < s.offered
    requires t == s.(held := s.held + {s.availRing[s.fetched % SIZE]}, fetchIdx := (s.fetched + 1) % B16,
                     fetched := s.fetched + 1)
    ensures Sound(t)
  {
    FetchedHolders(s);
  }

  lemma FetchSound(s: Queue)
    requires Sound(s)
    ensures Sound(Fetch(s))
  {
    FetchForm(s);
    if s.fetched < s.offered {
      FetchedSound(s, Fetch(s));
    }
  }

  lemma FillSound(s: Queue, id: nat, bytes: seq<byte>)
    requires Sound(s)
    ensures Sound(Fill(s, id, bytes))
  {
    if id in s.held && id < SIZE && |bytes| == BUF {
      HeldAlone(s, id);
      forall i | |s.seen| <= i < |s.frames| ensures s.usedRing[i % SIZE].id != id {
        var p := Pending(Ids(s.usedRing), |s.seen|, |s.frames|);
        assert p[i - |s.seen|] == Ids(s.usedRing)[(|s.seen| + (i - |s.seen|)) % SIZE];
        assert p[i - |s.seen|] in p;
      }
    }
  }

  lemma CompleteHolders(s: Queue, t: Queue, id: nat, len: nat)
    requires Sound(s) && id in s.held && id < SIZE && |s.frames| < |s.seen| + SIZE
    requires t.usedRing == s.usedRing[|s.frames| % SIZE := Used(id, len)] && t.held == s.held - {id}
    requires t.availRing == s.availRing && t.fetched == s.fetched && t.offered == s.offered
    requires |t.frames| == |s.frames| + 1 && t.seen == s.seen
    ensures Holders(t) == All
  {
    var n := |s.frames|;
    assert Ids(t.usedRing) == Ids(s.usedRing)[n % SIZE := id];
    PendingPush(Ids(s.usedRing), |s.seen|, n, id);
    CompleteMoves(Pending(s.availRing, s.fetched, s.offered), s.held, Pending(Ids(s.usedRing), |s.seen|, n), id);
  }

  lemma CompleteFrames(s: Queue, t: Queue, id: nat, len: nat)
    requires FramesOk(s) && id < SIZE && |s.frames| < |s.seen| + SIZE
    requires t.usedRing == s.usedRing[|s.frames| % SIZE := Used(id, len)] && t.bufs == s.bufs
    requires t.frames == s.frames + [Frame(s.bufs[id], len)] && t.seen == s.seen
    ensures FramesOk(t)
  {
    forall i | |t.seen| <= i < |t.frames|
      ensures var u := t.usedRing[i % SIZE]; u.id < SIZE && t.frames[i] == Frame(t.bufs[u.id], u.len)
    {
      if i < |s.frames| {
        OtherPlace(i, |s.frames|);
      }
    }
  }

  lemma CompletedSound(s: Queue, t: Queue, id: nat, len: nat)
    requires Sound(s) && id in s.held && id < SIZE
    requires t == s.(held := s.held - {id}, usedRing := s.usedRing[|s.frames| % SIZE := Used(id, len)],
                     usedIdx := (|s.frames| + 1) % B16, frames := s.frames + [Frame(s.bufs[id], len)])
    ensures Sound(t)
  {
    assert |s.held| > 0;
    assert CountsOk(t);
    assert Holders(t) == All by { CompleteHolders(s, t, id, len); }
    assert FramesOk(t) by { CompleteFrames(s, t, id, len); }
  }

  lemma CompleteSound(s: Queue, id: nat, len: nat)
    requires Sound(s)
    ensures Sound(Complete(s, id, len))
  {
    if id in s.held && id < SIZE {
      CompleteForm(s, id, len);
      CompletedSound(s, Complete(s, id, len), id, len);
    }
  }

  lemma TakeRings(ring: seq<nat>, from: nat, to: nat, held: set<nat>, ids: seq<nat>, seen: nat, done: nat)
    requires |ring| == |ids| == SIZE && from <= to < from + SIZE && seen < done
    ensures HoldersOf(Pending(ring[to % SIZE := ids[seen % SIZE]], from, to + 1), held, Pending(ids, seen + 1, done)) ==
            HoldersOf(Pending(ring, from, to), held, Pending(ids, seen, done))
  {
    PendingPop(ids, seen, done);
    PendingPush(ring, from, to, ids[seen % SIZE]);
    TakeMoves(Pending(ring, from, to), held, Pending(ids, seen + 1, done), ids[seen % SIZE]);
  }

  lemma TakeHolders(s: Queue, t: Queue)
    requires Sound(s) && |s.seen| < |s.frames|
    requires t.availRing == s.availRing[s.offered % SIZE := s.usedRing[|s.seen| % SIZE].id]
    requires t.usedRing == s.usedRing && t.held == s.held && t.fetched == s.fetched && t.frames == s.frames
    requires t.offered == s.offered + 1 && |t.seen| == |s.seen| + 1
    ensures Holders(t) == All
  {
    TakeRings(s.availRing, s.fetched, s.offered, s.held, Ids(s.usedRing), |s.seen|, |s.frames|);
  }

  lemma TakenSound(s: Queue, t: Queue)
    requires Sound(s) && |s.seen| < |s.frames|
    requires var u := s.usedRing[|s.seen| % SIZE];
             u.id < SIZE && t == s.(lastUsed := (|s.seen| + 1) % B16, availRing := s.availRing[s.offered % SIZE := u.id],
                                    availIdx := (s.offered + 1) % B16, offered := s.offered + 1,
                                    seen := s.seen + [Frame(s.bufs[u.id], u.len)])
    ensures Sound(t) && t.seen == s.frames[..|s.seen| + 1]
  {
    TakeHolders(s, t);
    TakenFrames(s, t.seen);
  }

  lemma TakenFrames(s: Queue, seen: seq<Frame>)
    requires FramesOk(s) && |s.seen| < |s.frames|
    requires var u := s.usedRing[|s.seen| % SIZE]; u.id < SIZE && seen == s.seen + [Frame(s.bufs[u.id], u.len)]
    ensures seen == s.frames[..|s.seen| + 1] && FramesOk(s.(seen := seen))
  {
    var n := |s.seen|;
    assert s.frames[n] == Frame(s.bufs[s.usedRing[n % SIZE].id], s.usedRing[n % SIZE].len);
    assert s.frames[..n + 1] == s.frames[..n] + [s.frames[n]];
  }

  lemma TakeSound(s: Queue)
    requires Sound(s)
    ensures Sound(Take(s))
    ensures |s.seen| == |s.frames| ==> Take(s) == s
    ensures |s.seen| < |s.frames| ==> Take(s).seen == s.frames[..|s.seen| + 1]
  {
    if |s.seen| < |s.frames| {
      assert s.frames[|s.seen|] == Frame(s.bufs[s.usedRing[|s.seen| % SIZE].id], s.usedRing[|s.seen| % SIZE].len);
      TakeForm(s);
      TakenSound(s, Take(s));
    }
  }

  lemma StepSound(s: Queue, e: Event)
    requires Sound(s)
    ensures Sound(Step(s, e))
  {
    match e
    case Fetched => FetchSound(s);
    case Filled(id, bytes) => FillSound(s, id, bytes);
    case Completed(id, len) => CompleteSound(s, id, len);
    case Taken => TakeSound(s);
  }

  lemma {:induction false} RunSound(s: Queue, es: seq<Event>)
    requires Sound(s)
    ensures Sound(Run(s, es))
    decreases |es|
  {
    if es != [] {
      StepSound(s, es[0]);
      RunSound(Step(s, es[0]), es[1..]);
    }
  }

  /** Over any run, through any wrap of the indices, the queue stays sound. */
  lemma ReachableSound(es: seq<Event>)
    ensures Sound(Run(Init(), es))
  {
    InitSound();
    RunSound(Init(), es);
  }

  /** In a sound queue every descriptor is with exactly one of the available ring, the device and the used ring. */
  lemma OneHolderEach(s: Queue, id: nat)
    requires Sound(s) && id < SIZE
    ensures var avail, used := Pending(s.availRing, s.fetched, s.offered),
                               Pending(Ids(s.usedRing), |s.seen|, |s.frames|);
            && (id in avail || id in s.held || id in used)
            && !(id in avail && id in s.held) && !(id in avail && id in used) && !(id in s.held && id in used)
            && (forall i, j :: 0 <= i < j < |avail| ==> !(avail[i] == avail[j] == id))
            && (forall i, j :: 0 <= i < j < |used| ==> !(used[i] == used[j] == id))
  {
    OneOf(Pending(s.availRing, s.fetched, s.offered), s.held, Pending(Ids(s.usedRing), |s.seen|, |s.frames|), id);
  }

  lemma OneOf(avail: seq<nat>, held: set<nat>, used: seq<nat>, id: nat)
    requires HoldersOf(avail, held, used) == All && id < SIZE
    ensures id in avail || id in held || id in used
    ensures !(id in avail && id in held) && !(id in avail && id in used) && !(id in held && id in used)
    ensures forall i, j :: 0 <= i < j < |avail| ==> !(avail[i] == avail[j] == id)
    ensures forall i, j :: 0 <= i < j < |used| ==> !(used[i] == used[j] == id)
  {
    var ma: multiset<nat>, mh: multiset<nat>, mu: multiset<nat> := multiset(avail), multiset(held), multiset(used);
    assert ma + mh + mu == All && All[id] == 1;
    OnceOnly(avail, id);
    OnceOnly(used, id);
  }

  lemma TwiceCounts(q: seq<nat>, i: nat, j: nat)
    requires i < j < |q| && q[i] == q[j]
    ensures multiset(q)[q[i]] >= 2
  {
    var a, b := q[..j], q[j..];
    assert q == a + b;
    assert a[i] == q[i] && b[0] == q[j];
    assert q[i] in a && q[i] in b;
  }

  lemma OnceOnly(q: seq<nat>, x: nat)
    requires multiset(q)[x] <= 1
    ensures forall i, j :: 0 <= i < j < |q| ==> !(q[i] == q[j] == x)
  {
    forall i, j | 0 <= i < j < |q| ensures !(q[i] == q[j] == x) {
      if q[i] == q[j] {
        TwiceCounts(q, i, j);
      }
    }
  }

  /** A used entry names a real descriptor, and what is taken from its buffer is the next frame. */
  lemma TakesNext(s: Queue)
    requires Sound(s) && s.lastUsed != s.usedIdx
    ensures s.usedRing[s.lastUsed % SIZE].id < SIZE && |s.seen| < |s.frames|
    ensures Take(s).frames == s.frames && Take(s).seen == s.frames[..|s.seen| + 1]
    ensures var u := s.usedRing[s.lastUsed % SIZE]; s.frames[|s.seen|] == Frame(s.bufs[u.id], u.len)
  {
    NextIsReal(s);
    Wrap16(|s.seen|);
    TakeSound(s);
  }

  lemma NextIsReal(s: Queue)
    requires Sound(s) && s.lastUsed != s.usedIdx
    ensures s.usedRing[s.lastUsed % SIZE].id < SIZE && |s.seen| < |s.frames|
  {
    Wrap16(|s.seen|);
  }

  lemma NothingLeft(s: Queue)
    requires Sound(s) && s.lastUsed == s.usedIdx
    ensures s.seen == s.frames
  {
    SameIndex(|s.seen|, |s.frames|);
  }
}
