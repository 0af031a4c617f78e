/**
 The driver's side of the two virtqueues (section 2.7 of the VirtIO 1.2
 specification): eight descriptors each, free-running 16-bit indices, rings of
 eight entries shared with the device.
 */
module Virtqueue {
  import opened Basics

  const SIZE: nat := 8
  const HDR: nat := 12
  const BUF: nat := 2048
  const FRAME_MAX: nat := 1518
  const NEEDS_RESET: nat := 64
  const FAILED: nat := 128

  // ---------------------------------------------------------------------- transmit

  /** A buffer handed to the device. */
  datatype Published = Published(slot: nat, bytes: seq<byte>)

  function Slots(ps: seq<Published>): (s: seq<nat>)
    ensures |s| == |ps| && forall i :: 0 <= i < |ps| ==> s[i] == ps[i].slot
  {
    seq(|ps|, i requires 0 <= i < |ps| => ps[i].slot)
  }

  /** How often descriptor d occurs. */
  function Occurrences(s: seq<nat>, d: nat): (n: nat) {
    if s == [] then 0 else Occurrences(s[..|s| - 1], d) + (if s[|s| - 1] == d then 1 else 0)
  }

  lemma OccurrencesAppend(s: seq<nat>, x: nat, d: nat)
    ensures Occurrences(s + [x], d) == Occurrences(s, d) + (if x == d then 1 else 0)
  {
    assert (s + [x])[..|s|] == s;
  }

  /** Descriptors below n that are not free. */
  function Busy(free: seq<bool>, n: nat): (b: nat)
    requires n <= |free|
    ensures b <= n
  {
    if n == 0 then 0 else Busy(free, n - 1) + (if free[n - 1] then 0 else 1)
  }

  lemma {:induction false} BusyFlip(free: seq<bool>, d: nat, n: nat)
    requires d < |free| && n <= |free| && free[d]
    ensures Busy(free[d := false], n) == Busy(free, n) + (if d < n then 1 else 0)
  {
    if n > 0 {
      BusyFlip(free, d, n - 1);
    }
  }

  /** The last buffer published for descriptor d. */
  function Latest(ps: seq<Published>, d: nat): (b: seq<byte>) {
    if ps == [] then []
    else if ps[|ps| - 1].slot == d then ps[|ps| - 1].bytes
    else Latest(ps[..|ps| - 1], d)
  }

  lemma LatestAppend(ps: seq<Published>, p: Published, d: nat)
    ensures Latest(ps + [p], d) == if p.slot == d then p.bytes else Latest(ps, d)
  {
    assert (ps + [p])[..|ps|] == ps;
  }

  /** A descriptor as the device reads it. */
  datatype Desc = Desc(addr: nat, len: nat, flags: nat, next: nat)

  /** Two buffers share a page. */
  function BufferAt(pages: seq<nat>, d: nat): nat
    requires |pages| == SIZE / 2 && d < SIZE
  {
    pages[d / 2] + d % 2 * BUF
  }

  /** On distinct pages no two buffers overlap. */
  lemma BuffersApart(pages: seq<nat>, d: nat, e: nat)
    requires |pages| == SIZE / 2 && d < e < SIZE
    requires forall i, j :: 0 <= i < j < |pages| ==> pages[i] + PAGE <= pages[j] || pages[j] + PAGE <= pages[i]
    ensures BufferAt(pages, d) + BUF <= BufferAt(pages, e) || BufferAt(pages, e) + BUF <= BufferAt(pages, d)
  {
    if d / 2 == e / 2 {
      assert d % 2 == 0 && e % 2 == 1;
    } else {
      assert d / 2 < e / 2;
    }
  }

  /** Each descriptor names its own buffer; one in flight has the length of what was published. */
  predicate DescOk(desc: seq<Desc>, pages: seq<nat>, free: seq<bool>, published: seq<Published>) {
    && |desc| == |free| == SIZE && |pages| == SIZE / 2
    && (forall d :: 0 <= d < SIZE ==> desc[d].addr == BufferAt(pages, d) && desc[d].flags == 0 && desc[d].next == 0)
    && (forall d :: 0 <= d < SIZE && !free[d] ==> desc[d].len == |Latest(published, d)| <= BUF)
  }

  lemma DescPublished(desc: seq<Desc>, pages: seq<nat>, free: seq<bool>, published: seq<Published>, p: Published)
    requires DescOk(desc, pages, free, published) && p.slot < SIZE && |p.bytes| <= BUF
    ensures DescOk(desc[p.slot := desc[p.slot].(len := |p.bytes|, flags := 0)], pages, free[p.slot := false], published + [p])
  {
    forall d | 0 <= d < SIZE ensures Latest(published + [p], d) == if p.slot == d then p.bytes else Latest(published, d) {
      LatestAppend(published, p, d);
    }
  }

  /**
   A descriptor that is not free has been published exactly once more than
   taken back, one that is free equally often; a buffer in flight still holds
   what was published.
   */
  ghost predicate HistoryOk(free: seq<bool>, bufs: seq<seq<byte>>, published: seq<Published>, reaped: seq<nat>) {
    && |free| == |bufs| == SIZE
    && |published| == |reaped| + Busy(free, SIZE)
    && (forall d :: 0 <= d < SIZE ==>
          Occurrences(Slots(published), d) == Occurrences(reaped, d) + (if free[d] then 0 else 1))
    && (forall d :: 0 <= d < SIZE && !free[d] ==> bufs[d] == Latest(published, d))
  }

  lemma TakenBack(free: seq<bool>, bufs: seq<seq<byte>>, published: seq<Published>, reaped: seq<nat>, d: nat)
    requires HistoryOk(free, bufs, published, reaped) && d < SIZE && !free[d]
    ensures HistoryOk(free[d := true], bufs, published, reaped + [d])
    ensures Busy(free[d := true], SIZE) + 1 == Busy(free, SIZE)
  {
    assert free[d := true][d := false] == free;
    BusyFlip(free[d := true], d, SIZE);
    forall e | 0 <= e < SIZE ensures Occurrences(reaped + [d], e) == Occurrences(reaped, e) + (if d == e then 1 else 0) {
      OccurrencesAppend(reaped, d, e);
    }
  }

  lemma HandedOver(free: seq<bool>, bufs: seq<seq<byte>>, published: seq<Published>, reaped: seq<nat>, p: Published)
    requires HistoryOk(free, bufs, published, reaped) && p.slot < SIZE && free[p.slot]
    ensures HistoryOk(free[p.slot := false], bufs[p.slot := p.bytes], published + [p], reaped)
  {
    BusyFlip(free, p.slot, SIZE);
    assert Slots(published + [p]) == Slots(published) + [p.slot];
    forall d | 0 <= d < SIZE
      ensures Occurrences(Slots(published + [p]), d) == Occurrences(Slots(published), d) + (if p.slot == d then 1 else 0)
      ensures Latest(published + [p], d) == if p.slot == d then p.bytes else Latest(published, d)
    {
      OccurrencesAppend(Slots(published), p.slot, d);
      LatestAppend(published, p, d);
    }
  }

  /** The device finds the last eight published descriptors in the ring, each at the place of its count. */
  predicate RingOk(ring: seq<nat>, published: seq<Published>) {
    |ring| == SIZE && forall i :: 0 <= i < |published| && |published| - SIZE <= i ==> ring[i % SIZE] == published[i].slot
  }

  lemma RingPublished(ring: seq<nat>, published: seq<Published>, p: Published)
    requires RingOk(ring, published)
    ensures RingOk(ring[|published| % SIZE := p.slot], published + [p])
  {
    var ext, n := published + [p], |published|;
    forall i | 0 <= i < |ext| && |ext| - SIZE <= i ensures ring[n % SIZE := p.slot][i % SIZE] == ext[i].slot {
      if i < n {
        OtherPlace(i, n);
      }
    }
  }

  lemma OtherPlace(i: nat, n: nat)
    requires i < n < i + SIZE
    ensures i % SIZE != n % SIZE
  {
  }

  lemma Mod16(k: nat, r: nat)
    requires r < B16
    ensures (k * B16 + r) % B16 == r
  {
  }

  lemma Mod8(k: nat, r: nat)
    ensures (k * SIZE + r) % SIZE == r % SIZE
  {
    assert r == r / SIZE * SIZE + r % SIZE;
    assert k * SIZE + r == (k + r / SIZE) * SIZE + r % SIZE;
    Rest8(k + r / SIZE, r % SIZE);
  }

  lemma Rest8(k: nat, r: nat)
    requires r < SIZE
    ensures (k * SIZE + r) % SIZE == r
  {
  }

  /** A 16-bit index counts on across its wrap, and its ring position is that of the full count. */
  lemma Wrap16(n: nat)
    ensures (n % B16 + 1) % B16 == (n + 1) % B16
    ensures n % B16 % SIZE == n % SIZE
  {
    var q, r := n / B16, n % B16;
    assert n == q * B16 + r;
    if r + 1 < B16 {
      Mod16(q, r + 1);
    } else {
      Mod16(q + 1, 0);
    }
    assert n == (q * 8192) * SIZE + r;
    Mod8(q * 8192, r);
  }

  lemma PublishKeeps(free: seq<bool>, bufs: seq<seq<byte>>, idx: u16, ring: seq<nat>, published: seq<Published>,
                     reaped: seq<nat>, p: Published)
    requires HistoryOk(free, bufs, published, reaped) && RingOk(ring, published)
    requires idx == |published| % B16 && p.slot < SIZE && free[p.slot]
    ensures HistoryOk(free[p.slot := false], bufs[p.slot := p.bytes], published + [p], reaped)
    ensures RingOk(ring[idx % SIZE := p.slot], published + [p]) && (idx + 1) % B16 == |published + [p]| % B16
  {
    Wrap16(|published|);
    RingPublished(ring, published, p);
    HandedOver(free, bufs, published, reaped, p);
  }

  /** How many places after the cursor descriptor d comes. */
  function Rank(next: nat, d: nat): (n: nat)
    requires next < SIZE && d < SIZE
    ensures n < SIZE && (next + n) % SIZE == d
  {
    if d >= next then d - next else d + SIZE - next
  }

  /** What the driver reads of the device, turn by turn, the used ring place by place: nothing is known about it. */
  datatype Device = Device(status: byte, idx: nat -> u16, id: (nat, nat) -> u32)

  /** What the driver reads on a turn, `taken` descriptors having been taken back before the first. */
  function Told(dev: Device, taken: nat, turn: nat): u32 { dev.id(turn, (taken + turn) % SIZE) }

  /** The descriptors told on the first turns. */
  function ToldUpTo(dev: Device, taken: nat, turns: nat): (ds: seq<nat>)
    ensures |ds| == turns
  {
    if turns == 0 then [] else ToldUpTo(dev, taken, turns - 1) + [Told(dev, taken, turns - 1)]
  }

  /** In some turns, each of which found the device ahead, the driver has taken back what it was told. */
  ghost predicate Reaping(dev: Device, before: seq<nat>, now: seq<nat>, turns: nat) {
    && now == before + ToldUpTo(dev, |before|, turns)
    && forall i :: 0 <= i < turns ==> dev.idx(i) != (|before| + i) % B16
  }

  lemma ReapingTurn(dev: Device, before: seq<nat>, now: seq<nat>, turns: nat, last: u16)
    requires Reaping(dev, before, now, turns) && last == |now| % B16 && last != dev.idx(turns)
    ensures dev.id(turns, last % SIZE) == Told(dev, |before|, turns)
    ensures Reaping(dev, before, now + [Told(dev, |before|, turns)], turns + 1)
  {
    Wrap16(|now|);
    Regroup(before, ToldUpTo(dev, |before|, turns), [Told(dev, |before|, turns) as nat]);
  }

  predicate InOperation(dev: Device) { dev.status / NEEDS_RESET % 2 == 0 && dev.status / FAILED % 2 == 0 }

  class TxQueue {
    var ready: bool
    var free: seq<bool>
    var next: nat
    var bufs: seq<seq<byte>>
    var desc: seq<Desc>
    var availIdx: u16
    var availRing: seq<nat>
    var lastUsed: u16
    const pages: seq<nat>

    /** Every buffer published and every descriptor taken back, since the queue was set up. */
    ghost var published: seq<Published>
    ghost var reaped: seq<nat>

    ghost predicate Sized()
      reads this
    {
      |free| == SIZE && |bufs| == SIZE && |availRing| == SIZE && next < SIZE
    }

    /** The 16-bit indices count the two histories, and the ring shows the device the latest publications. */
    ghost predicate Valid()
      reads this
    {
      && Sized()
      && availIdx == |published| % B16 && lastUsed == |reaped| % B16
      && HistoryOk(free, bufs, published, reaped) && RingOk(availRing, published)
      && DescOk(desc, pages, free, published)
    }

    constructor (pages: seq<nat>)
      requires |pages| == SIZE / 2
      ensures Valid() && this.pages == pages && published == [] && reaped == [] && ready
    {
      this.pages := pages;
      desc := seq(SIZE, d requires 0 <= d < SIZE => Desc(BufferAt(pages, d), 0, 0, 0));
      ready := true;
      free := seq(SIZE, _ => true);
      next := 0;
      bufs := seq(SIZE, _ => []);
      availIdx, lastUsed := 0, 0;
      availRing := seq(SIZE, _ => 0);
      published, reaped := [], [];
      new;
      AllFree(free, SIZE);
    }

    /** The device is in operation and asks for no reset. */
    method Alive(dev: Device) returns (ok: bool)
      modifies this`ready
      ensures ok == ready == (old(ready) && InOperation(dev))
    {
      if !ready { return false; }
      if dev.status / NEEDS_RESET % 2 == 1 || dev.status / FAILED % 2 == 1 {
        ready := false;
        return false;
      }
      return true;
    }

    /** The device broke the rules: it is not used any more. */
    method Fail()
      requires Valid()
      modifies this`ready
      ensures Valid() && !ready
    {
      ready := false;
    }

    /** Take back descriptor d. */
    method TakeBack(d: nat)
      requires Valid() && d < SIZE && !free[d]
      modifies this`free, this`lastUsed, this`reaped
      ensures Valid() && reaped == old(reaped) + [d] && free == old(free)[d := true]
      ensures Busy(free, SIZE) + 1 == Busy(old(free), SIZE)
    {
      Wrap16(|reaped|);
      TakenBack(free, bufs, published, reaped, d);
      free := free[d := true];
      lastUsed := (lastUsed + 1) % B16;
      reaped := reaped + [d];
    }

    /**
     Take back what the device says it is done with.  Whatever the device says,
     this ends: each turn takes back a descriptor that was in flight, or fails.
     */
    method ReapTx(dev: Device) returns (ok: bool, turns: nat)
      requires Valid()
      modifies this`ready, this`free, this`lastUsed, this`reaped
      ensures Valid() && |reaped| <= |published| && Reaping(dev, old(reaped), reaped, turns)
      ensures ok == ready && (ok ==> old(ready) && InOperation(dev) && lastUsed == dev.idx(turns))
      ensures !ok && old(ready) && InOperation(dev) ==> lastUsed != dev.idx(turns) && !Takeable(Told(dev, |old(reaped)|, turns))
    {
      turns := 0;
      assert reaped == reaped + ToldUpTo(dev, |reaped|, 0);
      ok := Alive(dev);
      if !ok { return; }
      var used := dev.idx(0);
      while lastUsed != used
        invariant Valid() && ready && used == dev.idx(turns) && Reaping(dev, old(reaped), reaped, turns)
        decreases Busy(free, SIZE)
      {
        ReapingTurn(dev, old(reaped), reaped, turns, lastUsed);
        var id := dev.id(turns, lastUsed % SIZE);
        if id >= SIZE || free[id] {
          ready := false;
          return false, turns;
        }
        TakeBack(id);
        turns := turns + 1;
        used := dev.idx(turns);
      }
    }

    /** A descriptor that exists and is in flight. */
    predicate Takeable(d: nat)
      requires Sized()
      reads this
    {
      d < SIZE && !free[d]
    }

    /** The first free descriptor in ring order from the cursor on; SIZE if there is none. */
    method FindFree() returns (slot: nat)
      requires Sized()
      ensures slot < SIZE ==> free[slot] && forall d :: 0 <= d < SIZE && Rank(next, d) < Rank(next, slot) ==> !free[d]
      ensures slot == SIZE ==> forall d :: 0 <= d < SIZE ==> !free[d]
      ensures slot <= SIZE
    {
      slot := next;
      var i := 0;
      while i < SIZE
        invariant i <= SIZE && slot == (next + i) % SIZE
        invariant forall d :: 0 <= d < SIZE && Rank(next, d) < i ==> !free[d]
      {
        if free[slot] { return slot; }
        slot := (slot + 1) % SIZE;
        i := i + 1;
      }
      return SIZE;
    }

    /** Fill a free descriptor's buffer and hand it to the device. */
    method Publish(slot: nat, bytes: seq<byte>)
      requires Valid() && slot < SIZE && free[slot] && |bytes| <= BUF
      modifies this`free, this`bufs, this`desc, this`availIdx, this`availRing, this`next, this`published
      ensures Valid() && published == old(published) + [Published(slot, bytes)]
      ensures free == old(free)[slot := false] && next == (slot + 1) % SIZE
    {
      PublishKeeps(free, bufs, availIdx, availRing, published, reaped, Published(slot, bytes));
      DescPublished(desc, pages, free, published, Published(slot, bytes));
      free := free[slot := false];
      desc := desc[slot := desc[slot].(len := |bytes|, flags := 0)];
      bufs := bufs[slot := bytes];
      availRing := availRing[availIdx % SIZE := slot];
      availIdx := (availIdx + 1) % B16;
      next := (slot + 1) % SIZE;
      published := published + [Published(slot, bytes)];
    }

    /** Queue a frame behind a zeroed header, if a descriptor is free. */
    method NetSend(frame: seq<byte>, dev: Device) returns (ok: bool)
      requires Valid()
      modifies this
      ensures Valid() && |published| <= |reaped| + SIZE
      ensures ok ==> && 0 < |frame| <= FRAME_MAX && ready && |published| == |old(published)| + 1
                     && old(published) == published[..|old(published)|]
                     && published[|old(published)|].bytes == seq(HDR, _ => 0) + frame
      ensures ok ==> var slot := published[|old(published)|].slot;
                     && slot < SIZE && next == (slot + 1) % SIZE
                     && forall d :: 0 <= d < SIZE && Rank(old(next), d) < Rank(old(next), slot) ==> !free[d]
      ensures !ok ==> published == old(published)
      ensures !ok && ready && 0 < |frame| <= FRAME_MAX ==> |published| == |reaped| + SIZE
    {
      if |frame| == 0 || |frame| > FRAME_MAX { return false; }
      var alive, _ := ReapTx(dev);
      if !alive { return false; }
      var slot := FindFree();
      if slot == SIZE {
        NoneFree(free, SIZE);
        return false;
      }
      Publish(slot, seq(HDR, _ => 0) + frame);
      return true;
    }

    /** A descriptor that is free is not in flight: every publication of it has been taken back. */
    lemma InFlight(d: nat)
      requires Valid() && d < SIZE
      ensures free[d] <==> Occurrences(Slots(published), d) == Occurrences(reaped, d)
      ensures |published| - |reaped| == Busy(free, SIZE) <= SIZE
    {
    }
  }

  lemma {:induction false} AllFree(free: seq<bool>, n: nat)
    requires n <= |free| && forall d :: 0 <= d < n ==> free[d]
    ensures Busy(free, n) == 0
  {
    if n > 0 {
      AllFree(free, n - 1);
    }
  }

  lemma {:induction false} NoneFree(free: seq<bool>, n: nat)
    requires n <= |free| && forall d :: 0 <= d < n ==> !free[d]
    ensures Busy(free, n) == n
  {
    if n > 0 {
      NoneFree(free, n - 1);
    }
  }
}
