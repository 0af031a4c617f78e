/**
 The poll of the receive queue.  The device goes on while the driver looks: the
 driver reads the used index, the entry and the buffer anew on every turn.
 */
module ReceivePoll {
  import opened Basics
  import opened Virtqueue
  import opened ReceiveQueue

  type Buffer = b: seq<byte> | |b| == BUF witness Zeros(BUF)

  /** What the driver finds in one turn: the used index, the next used entry and the buffer it names. */
  datatype Sight = Sight(idx: u16, id: nat, len: nat, bytes: Buffer)

  /** The driver's own variables. */
  datatype Driver = Driver(lastUsed: u16, availIdx: u16, availRing: seq<nat>)

  datatype Outcome = Looping(driver: Driver) | Returned(rc: int, data: seq<byte>, driver: Driver)

  /** The driver passes a frame on: it has a header, fits its buffer, and fits the caller's. */
  predicate Usable(f: Frame, cap: nat) { HDR <= f.len <= BUF && f.len - HDR <= cap }

  function Found(w: Sight): Frame { Frame(w.bytes, w.len) }

  /** The driver has looked at an entry and made its descriptor available again. */
  function Recycled(d: Driver, id: nat): Driver
    requires |d.availRing| == SIZE
  {
    Driver(Inc16(d.lastUsed), Inc16(d.availIdx), d.availRing[d.availIdx % SIZE := id])
  }

  /** One turn of the loop. */
  function Turn(d: Driver, w: Sight, cap: nat): Outcome
    requires |d.availRing| == SIZE
  {
    if d.lastUsed == w.idx then Returned(0, [], d)
    else if w.id >= SIZE then Returned(-1, [], d.(lastUsed := Inc16(d.lastUsed)))
    else if Usable(Found(w), cap) then Returned(1, w.bytes[HDR..w.len], Recycled(d, w.id))
    else Looping(Recycled(d, w.id))
  }

  /** The loop from turn k on, after at most `turns` turns. */
  function Poll(d: Driver, sight: nat -> Sight, cap: nat, k: nat, turns: nat): Outcome
    requires |d.availRing| == SIZE
    decreases turns
  {
    if turns == 0 then Looping(d)
    else
      var o := Turn(d, sight(k), cap);
      if o.Returned? then o else Poll(o.driver, sight, cap, k + 1, turns - 1)
  }

  /**
   A frame that the device left behind its header of twelve bytes reaches the
   caller as it came exactly if it fits; either way its descriptor is made
   available again, next in the ring.
   */
  lemma FrameDelivered(d: Driver, w: Sight, header: seq<byte>, frame: seq<byte>, rest: seq<byte>, cap: nat)
    requires |d.availRing| == SIZE && d.lastUsed != w.idx && w.id < SIZE
    requires |header| == 12 && w.bytes == header + frame + rest && w.len == 12 + |frame|
    ensures var o := Turn(d, w, cap);
            && (if |frame| <= cap then o.Returned? && o.rc == 1 && o.data == frame else o.Looping?)
            && o.driver.availRing == d.availRing[d.availIdx % 8 := w.id] && o.driver.availIdx == (d.availIdx + 1) % B16
            && o.driver.lastUsed == (d.lastUsed + 1) % B16
  {
    assert w.bytes[12..w.len] == frame;
  }

  // ------------------------------------------------------------------- any device

  /** What ends the loop at turn k: the index is caught up, the descriptor does not exist, or the frame is usable. */
  predicate Stops(last: u16, sight: nat -> Sight, cap: nat, k: nat) {
    sight(k).idx == (last + k) % B16 || sight(k).id >= SIZE || Usable(Found(sight(k)), cap)
  }

  predicate NoStop(last: u16, sight: nat -> Sight, cap: nat, from: nat, to: nat) {
    forall k: nat :: from <= k < to ==> !Stops(last, sight, cap, k)
  }

  /** How the poll ends at turn k. */
  predicate EndsAt(d: Driver, o: Outcome, w: Sight, k: nat) {
    && o.Returned?
    && (o.rc == 0 <==> w.idx == (d.lastUsed + k) % B16)
    && (o.rc == -1 <==> o.rc != 0 && w.id >= SIZE)
    && (o.rc != 0 && o.rc != -1 ==> o.rc == 1 && HDR <= w.len <= BUF && o.data == w.bytes[HDR..w.len])
    && (o.rc != 1 ==> o.data == [])
    && o.driver.lastUsed == (d.lastUsed + k + (if o.rc == 0 then 0 else 1)) % B16
    && o.driver.availIdx == (d.availIdx + k + (if o.rc == 1 then 1 else 0)) % B16
  }

  lemma AddMod(a: nat, k: nat)
    ensures (a % B16 + k) % B16 == (a + k) % B16
  {
    var q := a / B16;
    assert a + k == q * B16 + (a % B16 + k);
    ModShift(q, a % B16 + k);
  }

  lemma ModShift(q: nat, x: nat)
    ensures (q * B16 + x) % B16 == x % B16
  {
    var p := x / B16;
    assert q * B16 + x == (q + p) * B16 + x % B16;
    Mod16(q + p, x % B16);
  }

  /** The indices of a driver k turns into the loop. */
  predicate TurnsIn(d: Driver, e: Driver, k: nat) {
    && |e.availRing| == SIZE
    && e.lastUsed == (d.lastUsed + k) % B16 && e.availIdx == (d.availIdx + k) % B16
  }

  lemma OneTurnIn(d: Driver, e: Driver, sight: nat -> Sight, cap: nat, k: nat)
    requires |d.availRing| == SIZE && TurnsIn(d, e, k)
    ensures var o := Turn(e, sight(k), cap);
            && (o.Looping? <==> !Stops(d.lastUsed, sight, cap, k))
            && (o.Looping? ==> TurnsIn(d, o.driver, k + 1))
            && (o.Returned? ==> EndsAt(d, o, sight(k), k))
  {
    AddMod(d.lastUsed + k, 1);
    AddMod(d.availIdx + k, 1);
  }

  lemma {:induction false} LoopsOn(d: Driver, e: Driver, sight: nat -> Sight, cap: nat, k: nat, turns: nat)
    requires |d.availRing| == SIZE && TurnsIn(d, e, k)
    ensures var o := Poll(e, sight, cap, k, turns);
            && (o.Looping? <==> NoStop(d.lastUsed, sight, cap, k, k + turns))
            && (o.Looping? ==> TurnsIn(d, o.driver, k + turns))
    decreases turns
  {
    if turns > 0 {
      OneTurnIn(d, e, sight, cap, k);
      var o := Turn(e, sight(k), cap);
      if o.Looping? {
        LoopsOn(d, o.driver, sight, cap, k + 1, turns - 1);
      }
    }
  }

  predicate StillLooping(d: Driver, sight: nat -> Sight, cap: nat, turns: nat)
    requires |d.availRing| == SIZE
  {
    Poll(d, sight, cap, 0, turns).Looping?
  }

  /** After any number of turns the poll is still looping exactly if none of them had a reason to stop. */
  lemma LoopsExactly(d: Driver, sight: nat -> Sight, cap: nat, turns: nat)
    requires |d.availRing| == SIZE
    ensures StillLooping(d, sight, cap, turns) <==> NoStop(d.lastUsed, sight, cap, 0, turns)
  {
    LoopsOn(d, d, sight, cap, 0, turns);
  }

  /** The poll never ends exactly if there is never a reason to stop. */
  lemma NeverEndsExactly(d: Driver, sight: nat -> Sight, cap: nat)
    requires |d.availRing| == SIZE
    ensures (forall turns: nat :: StillLooping(d, sight, cap, turns))
            <==> (forall k: nat :: !Stops(d.lastUsed, sight, cap, k))
  {
    forall turns: nat ensures StillLooping(d, sight, cap, turns) <==> NoStop(d.lastUsed, sight, cap, 0, turns) {
      LoopsExactly(d, sight, cap, turns);
    }
    if forall turns: nat :: StillLooping(d, sight, cap, turns) {
      forall k: nat ensures !Stops(d.lastUsed, sight, cap, k) {
        assert StillLooping(d, sight, cap, k + 1);
      }
    }
  }

  lemma {:induction false} EndsFrom(d: Driver, e: Driver, sight: nat -> Sight, cap: nat, k: nat, least: nat, turns: nat)
    requires |d.availRing| == SIZE && TurnsIn(d, e, k) && k <= least < k + turns
    requires NoStop(d.lastUsed, sight, cap, k, least) && Stops(d.lastUsed, sight, cap, least)
    ensures Poll(e, sight, cap, k, turns).Returned?
    ensures EndsAt(d, Poll(e, sight, cap, k, turns), sight(least), least)
    decreases turns
  {
    OneTurnIn(d, e, sight, cap, k);
    var o := Turn(e, sight(k), cap);
    if k < least {
      EndsFrom(d, o.driver, sight, cap, k + 1, least, turns - 1);
    }
  }

  /** The poll ends at the least turn with a reason to stop, in the way that turn gives. */
  lemma EndsAtLeast(d: Driver, sight: nat -> Sight, cap: nat, least: nat, turns: nat)
    requires |d.availRing| == SIZE && least < turns
    requires NoStop(d.lastUsed, sight, cap, 0, least) && Stops(d.lastUsed, sight, cap, least)
    ensures EndsAt(d, Poll(d, sight, cap, 0, turns), sight(least), least)
  {
    EndsFrom(d, d, sight, cap, 0, least, turns);
  }

  // --------------------------------------------------- a device that keeps to the rules

  /** What the device does before the driver reads the index in a turn, and between that and the rest of the turn. */
  datatype Moves = Moves(before: seq<Event>, during: seq<Event>)

  predicate DeviceOnly(es: seq<Event>) { forall i :: 0 <= i < |es| ==> !es[i].Taken? }

  ghost predicate RuleKeeping(dev: nat -> Moves) {
    forall k: nat :: DeviceOnly(dev(k).before) && DeviceOnly(dev(k).during)
  }

  function AtIndex(s: Queue, m: Moves): Queue { Run(s, m.before) }

  function AtEntry(s: Queue, m: Moves): Queue { Run(AtIndex(s, m), m.during) }

  function SightIn(s: Queue, m: Moves): Sight {
    var t, u := AtIndex(s, m), AtEntry(s, m);
    var entry := u.usedRing[u.lastUsed % SIZE];
    Sight(t.usedIdx, entry.id, entry.len, if entry.id < SIZE then u.bufs[entry.id] else Zeros(BUF))
  }

  /** Turn k of a poll: what the driver finds, and the queue for the turn after it. */
  predicate Lives(dev: nat -> Moves, at: nat -> Queue, sight: nat -> Sight, k: nat) {
    sight(k) == SightIn(at(k), dev(k)) && at(k + 1) == Take(AtEntry(at(k), dev(k)))
  }

  /** `at` and `sight` tell what a poll finds that begins with queue s while the device moves as it does. */
  ghost predicate History(s: Queue, dev: nat -> Moves, at: nat -> Queue, sight: nat -> Sight) {
    at(0) == s && forall k: nat :: Lives(dev, at, sight, k)
  }

  function DriverOf(s: Queue): Driver { Driver(s.lastUsed, s.availIdx, s.availRing) }

  /** The device adds frames and leaves the driver's side alone. */
  predicate DeviceWent(s: Queue, t: Queue) {
    s.frames <= t.frames && t.seen == s.seen && DriverOf(t) == DriverOf(s)
  }

  lemma DeviceStep(s: Queue, e: Event)
    requires !e.Taken?
    ensures DeviceWent(s, Step(s, e))
  {
  }

  lemma {:induction false} DeviceRun(s: Queue, es: seq<Event>)
    requires DeviceOnly(es)
    ensures DeviceWent(s, Run(s, es))
    decreases |es|
  {
    if es != [] {
      DeviceStep(s, es[0]);
      DeviceRun(Step(s, es[0]), es[1..]);
    }
  }

  lemma TakeDriver(s: Queue)
    requires Sound(s) && s.lastUsed != s.usedIdx
    ensures s.usedRing[s.lastUsed % SIZE].id < SIZE
    ensures DriverOf(Take(s)) == Recycled(DriverOf(s), s.usedRing[s.lastUsed % SIZE].id)
  {
    TakesNext(s);
  }

  lemma StillAhead(t: Queue, u: Queue)
    requires Sound(t) && Sound(u) && DeviceWent(t, u) && t.lastUsed != t.usedIdx
    ensures u.lastUsed != u.usedIdx
  {
    NextIsReal(t);
    SameIndex(|u.seen|, |u.frames|);
  }

  /** The driver is caught up exactly if it has looked at every frame completed so far. */
  lemma CaughtUp(s: Queue)
    requires Sound(s)
    ensures s.lastUsed == s.usedIdx <==> s.seen == s.frames
  {
    SameIndex(|s.seen|, |s.frames|);
  }

  /** A turn that looks at the next frame, as it was completed. */
  predicate LooksAtNext(s: Queue, u: Queue, w: Sight) {
    && w.id < SIZE && |s.seen| < |u.frames| && u.frames[|s.seen|] == Found(w)
    && Take(u).seen == s.seen + [Found(w)] && Take(u).frames == u.frames
    && DriverOf(Take(u)) == Recycled(DriverOf(s), w.id)
  }

  lemma NextFrame(s: Queue, u: Queue, w: Sight)
    requires Sound(u) && DeviceWent(s, u) && u.lastUsed != u.usedIdx
    requires var entry := u.usedRing[u.lastUsed % SIZE];
             w.id == entry.id && w.len == entry.len && (entry.id < SIZE ==> w.bytes == u.bufs[entry.id])
    ensures LooksAtNext(s, u, w)
  {
    TakesNext(u);
    assert DriverOf(Take(u)) == Recycled(DriverOf(s), w.id) by { TakeDriver(u); }
    assert u.frames[..|s.seen| + 1] == u.frames[..|s.seen|] + [u.frames[|s.seen|]];
  }

  /** One turn, whatever the device does meanwhile: caught up, or a look at the next frame. */
  predicate TurnOk(s: Queue, m: Moves) {
    var t, u, w := AtIndex(s, m), AtEntry(s, m), SightIn(s, m);
    && DeviceWent(s, t) && DeviceWent(s, u)
    && (if w.idx == s.lastUsed then t.seen == t.frames else LooksAtNext(s, u, w))
  }

  lemma OneTurn(s: Queue, m: Moves)
    requires Sound(s) && DeviceOnly(m.before) && DeviceOnly(m.during)
    ensures TurnOk(s, m)
  {
    var t, u := AtIndex(s, m), AtEntry(s, m);
    DeviceRun(s, m.before);
    DeviceRun(t, m.during);
    RunSound(s, m.before);
    RunSound(t, m.during);
    TurnFrom(s, t, u, SightIn(s, m));
  }

  lemma TurnFrom(s: Queue, t: Queue, u: Queue, w: Sight)
    requires Sound(t) && Sound(u) && DeviceWent(s, t) && DeviceWent(t, u) && w.idx == t.usedIdx
    requires var entry := u.usedRing[u.lastUsed % SIZE];
             w.id == entry.id && w.len == entry.len && (entry.id < SIZE ==> w.bytes == u.bufs[entry.id])
    ensures if w.idx == s.lastUsed then t.seen == t.frames else LooksAtNext(s, u, w)
  {
    CaughtUp(t);
    if w.idx != s.lastUsed {
      StillAhead(t, u);
      NextFrame(s, u, w);
    }
  }

  lemma TurnSound(c: Queue, m: Moves)
    requires Sound(c)
    ensures Sound(Take(AtEntry(c, m)))
  {
    RunTwice(c, m.before, m.during);
    RunSound(c, m.before + m.during);
    TakeSound(AtEntry(c, m));
  }

  lemma {:induction false} RunTwice(s: Queue, ds: seq<Event>, es: seq<Event>)
    ensures Run(Run(s, ds), es) == Run(s, ds + es)
    decreases |ds|
  {
    if ds == [] {
      assert ds + es == es;
    } else {
      assert (ds + es)[1..] == ds[1..] + es;
      RunTwice(Step(s, ds[0]), ds[1..], es);
    }
  }

  /** What every turn keeps holds all through the poll. */
  lemma {:induction false} Throughout(inv: Queue -> bool, s: Queue, dev: nat -> Moves, at: nat -> Queue,
                                      sight: nat -> Sight, k: nat)
    requires inv(s) && History(s, dev, at, sight)
    requires forall c: Queue, m: Moves :: inv(c) ==> inv(Take(AtEntry(c, m)))
    ensures inv(at(k))
  {
    if k > 0 {
      Throughout(inv, s, dev, at, sight, k - 1);
      assert Lives(dev, at, sight, k - 1);
      assert inv(Take(AtEntry(at(k - 1), dev(k - 1))));
    }
  }

  predicate TurnAt(dev: nat -> Moves, at: nat -> Queue, k: nat) { TurnOk(at(k), dev(k)) }

  lemma EveryTurn(s: Queue, dev: nat -> Moves, at: nat -> Queue, sight: nat -> Sight, k: nat)
    requires Sound(s) && RuleKeeping(dev) && History(s, dev, at, sight)
    ensures TurnAt(dev, at, k)
  {
    ghost var sound := (q: Queue) => Sound(q);
    forall c: Queue, m: Moves | sound(c) ensures sound(Take(AtEntry(c, m))) {
      TurnSound(c, m);
    }
    Throughout(sound, s, dev, at, sight, k);
    OneTurn(at(k), dev(k));
  }

  /** k turns into the poll the driver has looked at k more frames, in order, none of them usable. */
  predicate Skipped(s: Queue, c: Queue, cap: nat, k: nat) {
    && s.seen <= c.seen <= c.frames && |c.seen| == |s.seen| + k
    && (forall i :: |s.seen| <= i < |c.seen| ==> !Usable(c.seen[i], cap))
    && TurnsIn(DriverOf(s), DriverOf(c), k)
  }

  lemma SkipOne(s: Queue, c: Queue, m: Moves, cap: nat, k: nat)
    requires Skipped(s, c, cap, k) && TurnOk(c, m)
    requires SightIn(c, m).idx != (s.lastUsed + k) % B16 && !Usable(Found(SightIn(c, m)), cap)
    ensures Skipped(s, Take(AtEntry(c, m)), cap, k + 1)
  {
    var u, w := AtEntry(c, m), SightIn(c, m);
    SkipFrame(s, c, u, w, Take(u), cap, k);
  }

  lemma SkipFrame(s: Queue, c: Queue, u: Queue, w: Sight, d: Queue, cap: nat, k: nat)
    requires Skipped(s, c, cap, k) && DeviceWent(c, u) && d.frames == u.frames && d.seen == c.seen + [Found(w)]
    requires |c.seen| < |u.frames| && u.frames[|c.seen|] == Found(w) && !Usable(Found(w), cap)
    requires DriverOf(d) == Recycled(DriverOf(c), w.id)
    ensures Skipped(s, d, cap, k + 1)
  {
    AddMod(s.lastUsed + k, 1);
    AddMod(s.availIdx + k, 1);
    assert d.seen == u.frames[..|c.seen| + 1];
  }

  lemma SkipTurn(s: Queue, dev: nat -> Moves, at: nat -> Queue, sight: nat -> Sight, cap: nat, k: nat)
    requires Skipped(s, at(k), cap, k) && TurnOk(at(k), dev(k)) && Lives(dev, at, sight, k)
    requires !Stops(s.lastUsed, sight, cap, k)
    ensures Skipped(s, at(k + 1), cap, k + 1)
  {
    SkipOne(s, at(k), dev(k), cap, k);
  }

  lemma {:induction false} SkippedSoFar(s: Queue, dev: nat -> Moves, at: nat -> Queue, sight: nat -> Sight, cap: nat, k: nat)
    requires Skipped(s, s, cap, 0) && History(s, dev, at, sight) && NoStop(s.lastUsed, sight, cap, 0, k)
    requires forall i: nat :: TurnAt(dev, at, i)
    ensures Skipped(s, at(k), cap, k)
  {
    if k > 0 {
      SkippedSoFar(s, dev, at, sight, cap, k - 1);
      assert TurnAt(dev, at, k - 1) && Lives(dev, at, sight, k - 1);
      assert !Stops(s.lastUsed, sight, cap, k - 1);
      SkipTurn(s, dev, at, sight, cap, k - 1);
    }
  }

  lemma Start(s: Queue, cap: nat)
    requires s.seen <= s.frames
    ensures Skipped(s, s, cap, 0)
  {
  }

  /** How a poll ends at a turn that finds the queue as c: caught up with the device, or with the next frame. */
  predicate EndsInOrder(c: Queue, m: Moves, o: Outcome, cap: nat) {
    var t, u := AtIndex(c, m), AtEntry(c, m);
    && o.Returned?
    && (o.rc == 0 ==> c.seen == t.frames && o.data == [])
    && (o.rc != 0 ==>
          && o.rc == 1 && |c.seen| < |u.frames|
          && var f := u.frames[|c.seen|];
             Usable(f, cap) && |f.bytes| == BUF && o.data == f.bytes[HDR..f.len] && Take(u).seen == c.seen + [f])
  }

  /**
   With a device that keeps to the rules, at work all the while: a poll that ends
   never fails.  It has gone through the frames in the order of their completion,
   skipped only unusable ones, and returns the first usable one, or 0 if it
   caught up with the device.
   */
  lemma PollInOrder(s: Queue, dev: nat -> Moves, at: nat -> Queue, sight: nat -> Sight, cap: nat, least: nat, turns: nat)
    requires Sound(s) && RuleKeeping(dev) && History(s, dev, at, sight) && least < turns
    requires NoStop(s.lastUsed, sight, cap, 0, least) && Stops(s.lastUsed, sight, cap, least)
    ensures Skipped(s, at(least), cap, least)
    ensures EndsInOrder(at(least), dev(least), Poll(DriverOf(s), sight, cap, 0, turns), cap)
  {
    Start(s, cap);
    forall k: nat ensures TurnAt(dev, at, k) {
      EveryTurn(s, dev, at, sight, k);
    }
    SkippedSoFar(s, dev, at, sight, cap, least);
    assert TurnAt(dev, at, least) && Lives(dev, at, sight, least);
    PollEndsAt(s, at(least), dev(least), sight, cap, least, turns);
  }

  lemma PollEndsAt(s: Queue, c: Queue, m: Moves, sight: nat -> Sight, cap: nat, least: nat, turns: nat)
    requires Skipped(s, c, cap, least) && TurnOk(c, m) && sight(least) == SightIn(c, m) && least < turns
    requires NoStop(s.lastUsed, sight, cap, 0, least) && Stops(s.lastUsed, sight, cap, least)
    ensures EndsInOrder(c, m, Poll(DriverOf(s), sight, cap, 0, turns), cap)
  {
    EndsAtLeast(DriverOf(s), sight, cap, least, turns);
    EndOfTurn(s, c, m, Poll(DriverOf(s), sight, cap, 0, turns), cap, least);
  }

  lemma EndOfTurn(s: Queue, c: Queue, m: Moves, o: Outcome, cap: nat, k: nat)
    requires Skipped(s, c, cap, k) && TurnOk(c, m) && EndsAt(DriverOf(s), o, SightIn(c, m), k)
    requires var w := SightIn(c, m); w.idx == c.lastUsed || w.id >= SIZE || Usable(Found(w), cap)
    ensures EndsInOrder(c, m, o, cap)
  {
  }

  // ------------------------------------------------------------- a poll without an end

  /** A device that keeps to the rules and completes every buffer with length 0, one for each turn. */
  function Runts(): nat -> Moves { k => Moves([Fetched, Completed(k % SIZE, 0)], []) }

  ghost predicate OneAtATime(s: Queue, k: nat) {
    && Sound(s) && s.fetched == |s.seen| == |s.frames| == k
    && s.availRing == Init().availRing && s.held == {}
  }

  /** The queue with one empty frame completed in it. */
  ghost predicate OneRunt(u: Queue, k: nat) {
    && Sound(u) && |u.seen| == k && |u.frames| == u.fetched == k + 1
    && u.availRing == Init().availRing && u.held == {} && u.usedRing[k % SIZE] == Used(k % SIZE, 0)
  }

  lemma RuntFetched(s: Queue, k: nat, t: Queue)
    requires OneAtATime(s, k) && t == Fetch(s)
    ensures Sound(t) && t == s.(held := {k % SIZE}, fetchIdx := (k + 1) % B16, fetched := k + 1)
  {
    FetchSound(s);
    FetchForm(s);
  }

  lemma RuntCompleted(s: Queue, k: nat, u: Queue)
    requires OneAtATime(s, k) && u == Complete(Fetch(s), k % SIZE, 0)
    ensures OneRunt(u, k)
  {
    var t := Fetch(s);
    RuntFetched(s, k, t);
    CompleteSound(t, k % SIZE, 0);
    CompleteForm(t, k % SIZE, 0);
  }

  lemma RuntTaken(u: Queue, k: nat)
    requires OneRunt(u, k)
    ensures OneAtATime(Take(u), k + 1)
  {
    TakeSound(u);
    TakeForm(u);
    SamePlace(k);
  }

  lemma RuntTurn(s: Queue, k: nat)
    requires OneAtATime(s, k)
    ensures var m := Runts()(k);
            && SightIn(s, m).idx == (k + 1) % B16 && SightIn(s, m).id < SIZE && SightIn(s, m).len == 0
            && OneAtATime(Take(AtEntry(s, m)), k + 1)
  {
    var m := Runts()(k);
    var u := Complete(Fetch(s), k % SIZE, 0);
    RunTwo(s, Fetched, Completed(k % SIZE, 0));
    assert AtIndex(s, m) == AtEntry(s, m) == u;
    RuntCompleted(s, k, u);
    assert OneAtATime(Take(u), k + 1) by {
      RuntTaken(u, k);
    }
    Wrap16(k);
  }

  lemma SamePlace(k: nat)
    ensures (k + SIZE) % SIZE == k % SIZE
  {
  }

  lemma RunTwo(s: Queue, d: Event, e: Event)
    ensures Run(s, [d, e]) == Step(Step(s, d), e)
  {
    assert [d, e][1..] == [e];
    assert Run(Step(s, d), [e]) == Run(Step(Step(s, d), e), []);
  }

  lemma {:induction false} RuntsAfter(at: nat -> Queue, sight: nat -> Sight, k: nat)
    requires History(Init(), Runts(), at, sight)
    ensures OneAtATime(at(k), k)
  {
    if k == 0 {
      InitSound();
    } else {
      RuntsAfter(at, sight, k - 1);
      assert Lives(Runts(), at, sight, k - 1);
      RuntTurn(at(k - 1), k - 1);
    }
  }

  lemma RuntGoesOn(at: nat -> Queue, sight: nat -> Sight, cap: nat, k: nat)
    requires History(Init(), Runts(), at, sight)
    ensures !Stops(0, sight, cap, k)
  {
    assert Lives(Runts(), at, sight, k);
    assert sight(k).idx == (k + 1) % B16 && sight(k).id < SIZE && sight(k).len == 0 by {
      RuntsAfter(at, sight, k);
      RuntTurn(at(k), k);
    }
    NextDiffers(k);
  }

  /** With that device the poll is still looping after every number of turns. */
  lemma PollForEver(at: nat -> Queue, sight: nat -> Sight, cap: nat)
    requires History(Init(), Runts(), at, sight)
    ensures RuleKeeping(Runts())
    ensures forall turns: nat :: StillLooping(DriverOf(Init()), sight, cap, turns)
  {
    forall k: nat ensures !Stops(0, sight, cap, k) {
      RuntGoesOn(at, sight, cap, k);
    }
    NeverEndsExactly(DriverOf(Init()), sight, cap);
  }

  function After(s: Queue, dev: nat -> Moves, k: nat): Queue {
    if k == 0 then s else Take(AtEntry(After(s, dev, k - 1), dev(k - 1)))
  }

  /** Every queue and every device have a history. */
  lemma HistoryOf(s: Queue, dev: nat -> Moves)
    ensures exists at: nat -> Queue, sight: nat -> Sight :: History(s, dev, at, sight)
  {
    var at := (k: nat) => After(s, dev, k);
    var sight := (k: nat) => SightIn(After(s, dev, k), dev(k));
    assert forall k: nat :: Lives(dev, at, sight, k);
    assert History(s, dev, at, sight);
  }

  lemma NextDiffers(k: nat)
    ensures (k + 1) % B16 != k % B16
  {
  }

  // ---------------------------------------------------------------------- the driver

  class Receiver {
    var lastUsed: u16
    var availIdx: u16
    var availRing: seq<nat>

    /** The transmit queue, reaped before every poll, with the flag that says that the device is in operation. */
    const tx: TxQueue

    constructor (tx: TxQueue)
      ensures this.tx == tx && View() == DriverOf(Init())
    {
      this.tx := tx;
      lastUsed, availIdx := 0, SIZE;
      availRing := seq(SIZE, i => i);
    }

    function View(): Driver
      reads this
    {
      Driver(lastUsed, availIdx, availRing)
    }

    /** The loop, for at most `turns` turns. */
    method Loop(sight: nat -> Sight, cap: nat, turns: nat) returns (done: bool, rc: int, data: seq<byte>)
      requires |availRing| == SIZE
      modifies this`lastUsed, this`availIdx, this`availRing
      ensures |availRing| == SIZE
      ensures (if done then Returned(rc, data, View()) else Looping(View())) == Poll(old(View()), sight, cap, 0, turns)
    {
      var k := 0;
      while k < turns
        invariant k <= turns && |availRing| == SIZE
        invariant Poll(View(), sight, cap, k, turns - k) == Poll(old(View()), sight, cap, 0, turns)
      {
        var w := sight(k);
        if lastUsed == w.idx { return true, 0, []; }
        lastUsed := Inc16(lastUsed);
        if w.id >= SIZE { return true, -1, []; }
        availRing := availRing[availIdx % SIZE := w.id];
        availIdx := Inc16(availIdx);
        if Usable(Found(w), cap) { return true, 1, w.bytes[HDR..w.len]; }
        k := k + 1;
      }
      return false, 0, [];
    }

    /**
     The next usable frame, after at most `turns` turns of the loop, with no
     assumption about the device: 1 with its contents, 0 if there is none, -1 if
     the device failed; or not done yet.
     */
    method NetPoll(txDev: Device, sight: nat -> Sight, cap: nat, turns: nat)
      returns (reaped: bool, done: bool, rc: int, data: seq<byte>)
      requires tx.Valid() && |availRing| == SIZE
      modifies this`lastUsed, this`availIdx, this`availRing, tx`ready, tx`free, tx`lastUsed, tx`reaped
      ensures tx.Valid() && |availRing| == SIZE && old(tx.reaped) <= tx.reaped
      ensures tx.ready == !(done && rc == -1)
      ensures !reaped ==> done && rc == -1 && data == [] && View() == old(View())
      ensures reaped ==>
                (if done then Returned(rc, data, View()) else Looping(View())) == Poll(old(View()), sight, cap, 0, turns)
    {
      var alive, _ := tx.ReapTx(txDev);
      if !alive { return false, true, -1, []; }
      reaped := true;
      done, rc, data := Loop(sight, cap, turns);
      if done && rc == -1 { tx.Fail(); }
    }
  }
}
