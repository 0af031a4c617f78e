/**
 What a resource's usage figures mean.

 The reference is tick by tick: a tick is held if some hold covers it.  The
 kernel keeps far less: one table of sixty ten-second buckets, tagged with the
 epoch each bucket stands for, and the tags are shared by both resources.
 `Credit` is what that table can still say about an epoch.
 */
module Accounting {
  import opened Basics
  import opened KernelModel

  const BUCKETS: nat := 60
  const BUCKET_TICKS: nat := 1000
  const WINDOW_TICKS: nat := 60000

  function Epoch(tick: nat): (e: nat) { tick / BUCKET_TICKS }

  // ------------------------------------------------------- the tick-by-tick reference

  predicate Held(hs: seq<Hold>, rid: nat, tick: nat) {
    exists i :: 0 <= i < |hs| && hs[i].res == rid && hs[i].start <= tick < hs[i].end
  }

  /** The ticks in [lo, hi) at which the resource is held, counted one by one. */
  function HeldTicks(hs: seq<Hold>, rid: nat, lo: nat, hi: nat): (n: nat)
    decreases hi
  {
    if hi <= lo then 0 else HeldTicks(hs, rid, lo, hi - 1) + (if Held(hs, rid, hi - 1) then 1 else 0)
  }

  /** Holds in the order they ended, those of one resource one after the other. */
  predicate Chronicle(hs: seq<Hold>, now: nat) {
    && (forall i :: 0 <= i < |hs| ==> IsResource(hs[i].res) && hs[i].start <= hs[i].end <= now)
    && (forall i, j :: 0 <= i < j < |hs| && hs[i].res == hs[j].res ==> hs[i].end <= hs[j].start)
  }

  // ------------------------------------------------------------- sums over holds

  function Max(a: nat, b: nat): nat { if a < b then b else a }
  function Min(a: nat, b: nat): nat { if a < b then a else b }

  /** The ticks of one hold that fall in [lo, hi). */
  function Overlap(h: Hold, lo: nat, hi: nat): (n: nat) {
    var a, b := Max(h.start, lo), Min(h.end, hi);
    if a < b then b - a else 0
  }

  function TotalIn(hs: seq<Hold>, rid: nat, lo: nat, hi: nat): (n: nat) {
    if hs == [] then 0
    else
      var h := hs[|hs| - 1];
      TotalIn(hs[..|hs| - 1], rid, lo, hi) + (if h.res == rid then Overlap(h, lo, hi) else 0)
  }

  lemma TotalAppend(hs: seq<Hold>, h: Hold, rid: nat, lo: nat, hi: nat)
    ensures TotalIn(hs + [h], rid, lo, hi) == TotalIn(hs, rid, lo, hi) + (if h.res == rid then Overlap(h, lo, hi) else 0)
  {
    assert (hs + [h])[..|hs|] == hs;
  }

  /** One more hold, disjoint from the earlier ones of its resource, adds its own ticks. */
  lemma {:induction false} HeldAppend(hs: seq<Hold>, h: Hold, rid: nat, lo: nat, hi: nat)
    requires forall i :: 0 <= i < |hs| && hs[i].res == h.res ==> hs[i].end <= h.start
    ensures HeldTicks(hs + [h], rid, lo, hi) ==
            HeldTicks(hs, rid, lo, hi) + (if h.res == rid then Overlap(h, lo, hi) else 0)
    decreases hi
  {
    if lo < hi {
      var t, ext := hi - 1, hs + [h];
      HeldAppend(hs, h, rid, lo, t);
      assert ext[|hs|] == h;
      assert forall i :: 0 <= i < |hs| ==> ext[i] == hs[i];
      assert Held(ext, rid, t) <==> Held(hs, rid, t) || (h.res == rid && h.start <= t < h.end);
    }
  }

  lemma {:induction false} HeldNone(rid: nat, lo: nat, hi: nat)
    ensures HeldTicks([], rid, lo, hi) == 0
    decreases hi
  {
    if lo < hi {
      HeldNone(rid, lo, hi - 1);
    }
  }

  lemma {:induction false} TotalIsHeld(hs: seq<Hold>, rid: nat, lo: nat, hi: nat, now: nat)
    requires Chronicle(hs, now)
    ensures TotalIn(hs, rid, lo, hi) == HeldTicks(hs, rid, lo, hi)
  {
    if hs == [] {
      HeldNone(rid, lo, hi);
    } else {
      var n := |hs| - 1;
      TotalIsHeld(hs[..n], rid, lo, hi, now);
      assert hs == hs[..n] + [hs[n]];
      HeldAppend(hs[..n], hs[n], rid, lo, hi);
    }
  }

  lemma {:induction false} TotalSplits(hs: seq<Hold>, rid: nat, lo: nat, mid: nat, hi: nat)
    requires lo <= mid <= hi
    ensures TotalIn(hs, rid, lo, hi) == TotalIn(hs, rid, lo, mid) + TotalIn(hs, rid, mid, hi)
  {
    if hs != [] {
      TotalSplits(hs[..|hs| - 1], rid, lo, mid, hi);
    }
  }

  /** Holds that ended by lo have nothing in [lo, hi). */
  lemma {:induction false} TotalAfter(hs: seq<Hold>, rid: nat, lo: nat, hi: nat)
    requires forall i :: 0 <= i < |hs| && hs[i].res == rid ==> hs[i].end <= lo
    ensures TotalIn(hs, rid, lo, hi) == 0
  {
    if hs != [] {
      TotalAfter(hs[..|hs| - 1], rid, lo, hi);
    }
  }

  // ------------------------------------------------------ what the table can tell

  function InEpoch(h: Hold, e: nat): (n: nat) { Overlap(h, e * BUCKET_TICKS, (e + 1) * BUCKET_TICKS) }

  function EpochTicks(hs: seq<Hold>, rid: nat, e: nat): (n: nat) {
    TotalIn(hs, rid, e * BUCKET_TICKS, (e + 1) * BUCKET_TICKS)
  }

  /**
   A hold reaching sixty epochs back goes through the bucket of the epoch it
   ends in on its way, and clears it for both resources.
   */
  predicate Wipes(h: Hold, e: nat) { Epoch(h.end) == e && Epoch(h.start) + BUCKETS <= e }

  /** The ticks of epoch e still on record for a resource after the given holds. */
  function Credit(hs: seq<Hold>, rid: nat, e: nat): (n: nat) {
    if hs == [] then 0
    else
      var h := hs[|hs| - 1];
      var c := Credit(hs[..|hs| - 1], rid, e);
      if h.res == rid then c + InEpoch(h, e) else if Wipes(h, e) then 0 else c
  }

  lemma CreditAppend(hs: seq<Hold>, h: Hold, rid: nat, e: nat)
    ensures Credit(hs + [h], rid, e) ==
            if h.res == rid then Credit(hs, rid, e) + InEpoch(h, e) else if Wipes(h, e) then 0 else Credit(hs, rid, e)
  {
    assert (hs + [h])[..|hs|] == hs;
  }

  /** Hold i put ticks of epoch e on record and a later hold j of the other resource wiped them. */
  predicate RobbedBy(hs: seq<Hold>, rid: nat, e: nat, i: nat, j: nat)
    requires i < j < |hs|
  {
    hs[i].res == rid && InEpoch(hs[i], e) > 0 && hs[j].res != rid && Wipes(hs[j], e)
  }

  predicate Robbed(hs: seq<Hold>, rid: nat, e: nat) {
    exists i: nat, j: nat :: i < j < |hs| && RobbedBy(hs, rid, e, i, j)
  }

  predicate Contributes(hs: seq<Hold>, rid: nat, e: nat) {
    exists i :: 0 <= i < |hs| && hs[i].res == rid && InEpoch(hs[i], e) > 0
  }

  lemma {:induction false} EpochTicksPositive(hs: seq<Hold>, rid: nat, e: nat)
    ensures EpochTicks(hs, rid, e) > 0 <==> Contributes(hs, rid, e)
  {
    if hs != [] {
      var n := |hs| - 1;
      EpochTicksPositive(hs[..n], rid, e);
      assert hs == hs[..n] + [hs[n]];
      assert Contributes(hs, rid, e) <==> Contributes(hs[..n], rid, e) || (hs[n].res == rid && InEpoch(hs[n], e) > 0);
    }
  }

  lemma RobbedAppend(hs: seq<Hold>, h: Hold, rid: nat, e: nat)
    ensures Robbed(hs + [h], rid, e) <==>
            Robbed(hs, rid, e) || (h.res != rid && Wipes(h, e) && Contributes(hs, rid, e))
  {
    var ext, n := hs + [h], |hs|;
    if Robbed(hs, rid, e) {
      var i: nat, j: nat :| i < j < |hs| && RobbedBy(hs, rid, e, i, j);
      assert RobbedBy(ext, rid, e, i, j);
    }
    if h.res != rid && Wipes(h, e) && Contributes(hs, rid, e) {
      var i :| 0 <= i < |hs| && hs[i].res == rid && InEpoch(hs[i], e) > 0;
      assert RobbedBy(ext, rid, e, i, n);
    }
    if Robbed(ext, rid, e) {
      var i: nat, j: nat :| i < j < |ext| && RobbedBy(ext, rid, e, i, j);
      if j < n {
        assert RobbedBy(hs, rid, e, i, j);
      } else {
        assert hs[i] == ext[i];
      }
    }
  }

  /** The record of an epoch never says too much, and says too little exactly if it was robbed. */
  lemma {:induction false} CreditExact(hs: seq<Hold>, rid: nat, e: nat)
    ensures Credit(hs, rid, e) <= EpochTicks(hs, rid, e)
    ensures Credit(hs, rid, e) == EpochTicks(hs, rid, e) <==> !Robbed(hs, rid, e)
  {
    if hs != [] {
      var n := |hs| - 1;
      CreditExact(hs[..n], rid, e);
      EpochTicksPositive(hs[..n], rid, e);
      assert hs == hs[..n] + [hs[n]];
      RobbedAppend(hs[..n], hs[n], rid, e);
    }
  }

  // -------------------------------------------------------------- the rolling window

  /** The oldest of the sixty epochs that end with the current one. */
  function FirstEpoch(now: nat): (e: nat) { if Epoch(now) < BUCKETS - 1 then 0 else Epoch(now) - (BUCKETS - 1) }

  predicate InWindow(e: nat, now: nat) { FirstEpoch(now) <= e <= Epoch(now) }

  function CreditSum(hs: seq<Hold>, rid: nat, lo: nat, hi: nat): (n: nat)
    decreases hi
  {
    if hi <= lo then 0 else CreditSum(hs, rid, lo, hi - 1) + Credit(hs, rid, hi - 1)
  }

  lemma {:induction false} CreditSumSplits(hs: seq<Hold>, rid: nat, lo: nat, mid: nat, hi: nat)
    requires lo <= mid <= hi
    ensures CreditSum(hs, rid, lo, hi) == CreditSum(hs, rid, lo, mid) + CreditSum(hs, rid, mid, hi)
    decreases hi
  {
    if mid < hi {
      CreditSumSplits(hs, rid, lo, mid, hi - 1);
    }
  }

  predicate AnyRobbed(hs: seq<Hold>, rid: nat, lo: nat, hi: nat) {
    exists e :: lo <= e < hi && Robbed(hs, rid, e)
  }

  lemma {:induction false} CreditSumExact(hs: seq<Hold>, rid: nat, lo: nat, hi: nat)
    requires lo <= hi
    ensures CreditSum(hs, rid, lo, hi) <= TotalIn(hs, rid, lo * BUCKET_TICKS, hi * BUCKET_TICKS)
    ensures CreditSum(hs, rid, lo, hi) == TotalIn(hs, rid, lo * BUCKET_TICKS, hi * BUCKET_TICKS)
            <==> !AnyRobbed(hs, rid, lo, hi)
    decreases hi
  {
    if lo < hi {
      CreditSumExact(hs, rid, lo, hi - 1);
      CreditExact(hs, rid, hi - 1);
      TotalSplits(hs, rid, lo * BUCKET_TICKS, (hi - 1) * BUCKET_TICKS, hi * BUCKET_TICKS);
      assert AnyRobbed(hs, rid, lo, hi) <==> AnyRobbed(hs, rid, lo, hi - 1) || Robbed(hs, rid, hi - 1);
    } else {
      TotalEmpty(hs, rid, lo * BUCKET_TICKS);
    }
  }

  lemma {:induction false} TotalEmpty(hs: seq<Hold>, rid: nat, lo: nat)
    ensures TotalIn(hs, rid, lo, lo) == 0
  {
    if hs != [] {
      TotalEmpty(hs[..|hs| - 1], rid, lo);
    }
  }

  /** A hold still going on counts from its start, or from sixty bucket lengths ago. */
  function LiveTicks(since: nat, now: nat): (n: nat)
    requires since <= now
  {
    if now > WINDOW_TICKS && since < now - WINDOW_TICKS then WINDOW_TICKS else now - since
  }

  /** A resource as its usage figures see it: the completed holds and the one going on, if any. */
  datatype Usage = Usage(holds: seq<Hold>, rid: nat, held: bool, since: nat)

  predicate UsageOk(u: Usage, now: nat) {
    && Chronicle(u.holds, now)
    && (u.held ==> u.since <= now && forall i :: 0 <= i < |u.holds| && u.holds[i].res == u.rid ==> u.holds[i].end <= u.since)
  }

  /** All holds so far, the one going on cut off at `now`. */
  function AllHolds(u: Usage, now: nat): seq<Hold> {
    if u.held then u.holds + [Hold(u.rid, u.since, now)] else u.holds
  }

  function Reported(u: Usage, now: nat): (n: nat)
    requires u.held ==> u.since <= now
  {
    CreditSum(u.holds, u.rid, FirstEpoch(now), Epoch(now) + 1) + (if u.held then LiveTicks(u.since, now) else 0)
  }

  /** The current hold began before the window. */
  predicate Overlong(u: Usage, now: nat) { u.held && u.since < FirstEpoch(now) * BUCKET_TICKS }

  lemma HeldUpToNow(u: Usage, now: nat, lo: nat)
    requires UsageOk(u, now)
    ensures HeldTicks(AllHolds(u, now), u.rid, lo, now) ==
            TotalIn(u.holds, u.rid, lo, now) + (if u.held then Overlap(Hold(u.rid, u.since, now), lo, now) else 0)
  {
    TotalIsHeld(u.holds, u.rid, lo, now, now);
    if u.held {
      HeldAppend(u.holds, Hold(u.rid, u.since, now), u.rid, lo, now);
    }
  }

  /** Nothing completed lies beyond `now`. */
  lemma TotalCutOff(u: Usage, now: nat, lo: nat, hi: nat)
    requires UsageOk(u, now) && lo <= now <= hi
    ensures TotalIn(u.holds, u.rid, lo, hi) == TotalIn(u.holds, u.rid, lo, now)
  {
    TotalSplits(u.holds, u.rid, lo, now, hi);
    TotalAfter(u.holds, u.rid, now, hi);
  }

  /**
   The rolling figure equals the tick-by-tick count over the last sixty epochs
   exactly if the current hold began inside the window and no epoch of the
   window was robbed.
   */
  lemma RecentExact(u: Usage, now: nat)
    requires UsageOk(u, now)
    ensures Reported(u, now) == HeldTicks(AllHolds(u, now), u.rid, FirstEpoch(now) * BUCKET_TICKS, now)
            <==> !Overlong(u, now) && !AnyRobbed(u.holds, u.rid, FirstEpoch(now), Epoch(now) + 1)
  {
    var lo, hi := FirstEpoch(now), Epoch(now) + 1;
    assert lo * BUCKET_TICKS <= now <= hi * BUCKET_TICKS;
    CreditSumExact(u.holds, u.rid, lo, hi);
    HeldUpToNow(u, now, lo * BUCKET_TICKS);
    TotalCutOff(u, now, lo * BUCKET_TICKS, hi * BUCKET_TICKS);
    if Overlong(u, now) {
      TotalAfter(u.holds, u.rid, lo * BUCKET_TICKS, now);
    }
  }

  /** Holds, completed or going on, of at most 59 bucket lengths. */
  predicate ShortHolds(u: Usage, now: nat) {
    && (forall i :: 0 <= i < |u.holds| ==> u.holds[i].end <= u.holds[i].start + (BUCKETS - 1) * BUCKET_TICKS)
    && (u.held ==> now <= u.since + (BUCKETS - 1) * BUCKET_TICKS)
  }

  lemma RecentExactIfShort(u: Usage, now: nat)
    requires UsageOk(u, now) && ShortHolds(u, now)
    ensures Reported(u, now) == HeldTicks(AllHolds(u, now), u.rid, FirstEpoch(now) * BUCKET_TICKS, now)
  {
    forall i | 0 <= i < |u.holds| ensures Epoch(u.holds[i].end) < Epoch(u.holds[i].start) + BUCKETS {
      assert u.holds[i].end <= u.holds[i].start + (BUCKETS - 1) * BUCKET_TICKS;
    }
    assert forall e, i: nat, j: nat :: i < j < |u.holds| ==> !RobbedBy(u.holds, u.rid, e, i, j);
    RecentExact(u, now);
  }

  /**
   The rolling figure can be wrong: UDP is held for ticks 60100 to 60200 while
   TCP is held from boot to tick 60500; once TCP is released, UDP's hundred
   ticks are gone from the table.
   */
  lemma RecentCanBeWrong()
    ensures var hs := [Hold(2, 60100, 60200), Hold(1, 0, 60500)];
            var u := Usage(hs, 2, false, 0);
            && UsageOk(u, 60500)
            && Reported(u, 60500) == 0
            && HeldTicks(AllHolds(u, 60500), 2, FirstEpoch(60500) * BUCKET_TICKS, 60500) == 100
  {
    var h, g := Hold(2, 60100, 60200), Hold(1, 0, 60500);
    var u := Usage([h, g], 2, false, 0);
    assert FirstEpoch(60500) == 1 && Epoch(60500) + 1 == 61;
    CreditIsZero(h, g, 1, 61);
    WrongHeld(h, g);
  }

  lemma WrongHeld(h: Hold, g: Hold)
    requires h == Hold(2, 60100, 60200) && g == Hold(1, 0, 60500)
    ensures HeldTicks([h, g], 2, 1000, 60500) == 100
  {
    HeldUpToNow(Usage([h, g], 2, false, 0), 60500, 1000);
    TwoHolds(h, g, 2, 1000, 60500);
  }

  lemma TwoHolds(h: Hold, g: Hold, rid: nat, lo: nat, hi: nat)
    ensures TotalIn([h, g], rid, lo, hi) ==
            (if h.res == rid then Overlap(h, lo, hi) else 0) + (if g.res == rid then Overlap(g, lo, hi) else 0)
  {
    TotalAppend([], h, rid, lo, hi);
    TotalAppend([h], g, rid, lo, hi);
    assert [] + [h] == [h] && [h] + [g] == [h, g];
  }

  lemma {:induction false} CreditIsZero(h: Hold, g: Hold, lo: nat, hi: nat)
    requires h == Hold(2, 60100, 60200) && g == Hold(1, 0, 60500) && hi <= 61
    ensures CreditSum([h, g], 2, lo, hi) == 0
    decreases hi
  {
    if lo < hi {
      CreditIsZero(h, g, lo, hi - 1);
      CreditAppend([], h, 2, hi - 1);
      CreditAppend([h], g, 2, hi - 1);
      assert [] + [h] == [h] && [h] + [g] == [h, g];
    }
  }

  /** Since boot: the sum of the completed holds and the current one is the number of held ticks. */
  function TotalHeld(hs: seq<Hold>, rid: nat): (n: nat) {
    if hs == [] then 0
    else
      var h := hs[|hs| - 1];
      TotalHeld(hs[..|hs| - 1], rid) + (if h.res == rid && h.start <= h.end then h.end - h.start else 0)
  }

  function LongestHold(hs: seq<Hold>, rid: nat): (n: nat) {
    if hs == [] then 0
    else
      var h := hs[|hs| - 1];
      var n := LongestHold(hs[..|hs| - 1], rid);
      if h.res == rid && h.end - h.start > n then h.end - h.start else n
  }

  /** It is the length of one of the holds, and none is longer. */
  lemma {:induction false} LongestHoldIsMaximum(hs: seq<Hold>, rid: nat)
    ensures forall i :: 0 <= i < |hs| && hs[i].res == rid ==> hs[i].end - hs[i].start <= LongestHold(hs, rid)
    ensures LongestHold(hs, rid) == 0
            || exists i :: 0 <= i < |hs| && hs[i].res == rid && LongestHold(hs, rid) == hs[i].end - hs[i].start
  {
    if hs != [] {
      var front := hs[..|hs| - 1];
      LongestHoldIsMaximum(front, rid);
      assert forall i :: 0 <= i < |front| ==> front[i] == hs[i];
    }
  }

  lemma {:induction false} TotalHeldIsTotal(hs: seq<Hold>, rid: nat, now: nat)
    requires Chronicle(hs, now)
    ensures TotalHeld(hs, rid) == TotalIn(hs, rid, 0, now)
  {
    if hs != [] {
      TotalHeldIsTotal(hs[..|hs| - 1], rid, now);
    }
  }

  lemma TotalSinceBoot(u: Usage, now: nat)
    requires UsageOk(u, now)
    ensures TotalHeld(u.holds, u.rid) + (if u.held then now - u.since else 0) == HeldTicks(AllHolds(u, now), u.rid, 0, now)
  {
    HeldUpToNow(u, now, 0);
    TotalHeldIsTotal(u.holds, u.rid, now);
  }

  // ----------------------------------------------------------------- over runs

  function UsageOf(s: Table, rid: nat): Usage
    requires IsResource(rid)
  {
    Usage(s.log.holds, rid, s.locks[rid - 1].owner != 0, s.locks[rid - 1].since)
  }

  predicate Recorded(s: Table) { UsageOk(UsageOf(s, 1), s.ticks) && UsageOk(UsageOf(s, 2), s.ticks) }

  /** Time may pass, but nobody gets or gives up a resource. */
  predicate SameHolders(s: Table, t: Table) {
    && s.ticks <= t.ticks && t.log.holds == s.log.holds
    && (forall r :: 0 <= r < RESOURCES ==> t.locks[r].owner == s.locks[r].owner && t.locks[r].since == s.locks[r].since)
  }

  lemma SameHoldersRecorded(s: Table, t: Table)
    requires Recorded(s) && SameHolders(s, t)
    ensures Recorded(t)
  {
    assert UsageOf(t, 1) == UsageOf(s, 1) && UsageOf(t, 2) == UsageOf(s, 2);
  }

  lemma TakeRecorded(s: Table, k: nat, rid: nat)
    requires Recorded(s) && k < APPS && IsResource(rid)
    ensures Recorded(Take(s, k, rid))
  {
    var t := Take(s, k, rid);
    assert UsageOf(t, 3 - rid) == UsageOf(s, 3 - rid);
    assert UsageOk(UsageOf(t, rid), t.ticks);
  }

  lemma DropRecorded(s: Table, k: nat, rid: nat)
    requires Recorded(s) && k < APPS && IsResource(rid) && s.locks[rid - 1].owner != 0
    ensures Recorded(Drop(s, k, rid))
  {
    var t := Drop(s, k, rid);
    assert UsageOk(UsageOf(s, rid), s.ticks);
    assert Chronicle(t.log.holds, t.ticks);
    assert UsageOk(UsageOf(s, 3 - rid), s.ticks);
    assert UsageOk(UsageOf(t, 3 - rid), t.ticks);
    assert UsageOk(UsageOf(t, rid), t.ticks);
  }

  lemma GrantNextRecorded(s: Table, rid: nat)
    requires Recorded(s) && IsResource(rid)
    ensures Recorded(GrantNext(s, rid))
  {
    var t := GrantNext(s, rid);
    assert UsageOf(t, 3 - rid) == UsageOf(s, 3 - rid);
    assert UsageOk(UsageOf(s, rid), s.ticks);
    assert UsageOk(UsageOf(t, rid), t.ticks);
  }

  lemma ReleaseRecorded(s: Table, k: nat, rid: nat)
    requires Recorded(s) && k < APPS
    ensures Recorded(Release(s, k, rid))
  {
    if Owns(s, k, rid) {
      DropRecorded(s, k, rid);
      GrantNextRecorded(Drop(s, k, rid), rid);
    }
  }

  lemma FinishRecorded(s: Table, k: nat, result: int)
    requires Recorded(s) && k < APPS
    ensures Recorded(Finish(s, k, result))
  {
    ReleaseRecorded(s, k, s.apps[k].owned);
    var u := if s.apps[k].owned != 0 then Release(s, k, s.apps[k].owned) else s;
    SameHoldersRecorded(u, Finish(s, k, result));
  }

  lemma YieldRecorded(s: Table, k: nat, rax: int)
    requires Recorded(s) && k < APPS
    ensures Recorded(Yield(s, k, rax))
  {
    SameHoldersRecorded(s, Yield(s, k, rax));
  }

  lemma AcquireRecorded(s: Table, k: nat, rid: nat)
    requires Recorded(s) && k < APPS
    ensures Recorded(Acquire(s, k, rid))
  {
    if !IsResource(rid) || s.apps[k].owned != 0 || s.apps[k].waiting != 0 {
      YieldRecorded(s, k, 0);
    } else if s.locks[rid - 1].owner == 0 {
      TakeRecorded(s, k, rid);
      YieldRecorded(Take(s, k, rid), k, 1);
    } else {
      SameHoldersRecorded(s, Enqueue(s, k, rid));
    }
  }

  lemma ServiceRecorded(s: Table, call: Call)
    requires Recorded(s) && (call.Transport? ==> IsResource(call.rid))
    ensures Recorded(Service(s, call))
  {
    var k, t := s.current, Service(s, call);
    if s.apps[k].mode != Running {
      assert t == s;
    } else if s.apps[k].runtime >= MAX_TICKS {
      FinishRecorded(s, k, -200);
    } else {
      match call
      case Exit(code) => FinishRecorded(s, k, code); assert t == Finish(s, k, code);
      case AcquireCall(rdi) => AcquireRecorded(s, k, rdi % B32); assert t == Acquire(s, k, rdi % B32);
      case ReleaseCall(rdi) =>
        var rax := if Owns(s, k, rdi % B32) then 1 else 0;
        ReleaseRecorded(s, k, rdi % B32);
        YieldRecorded(Release(s, k, rdi % B32), k, rax);
        assert t == Yield(Release(s, k, rdi % B32), k, rax);
      case Transport(rid, reply) => YieldRecorded(s, k, if Owns(s, k, rid) then reply else 0);
      case Plain(reply) => YieldRecorded(s, k, reply); assert t == Yield(s, k, reply);
    }
  }

  lemma PreemptRecorded(s: Table)
    requires Recorded(s)
    ensures Recorded(Preempt(s))
  {
    var k := s.current;
    var u := Charge(s, k);
    SameHoldersRecorded(s, u);
    FinishRecorded(u, k, -200);
    SameHoldersRecorded(u, u.(apps := u.apps[k := u.apps[k].(mode := Ready)]));
  }

  lemma FaultRecorded(s: Table, vector: nat)
    requires Recorded(s)
    ensures Recorded(Fault(s, vector))
  {
    FinishRecorded(s, s.current, -100 - vector);
  }

  lemma TickRecorded(s: Table)
    requires Recorded(s)
    ensures Recorded(s.(ticks := s.ticks + 1))
  {
    SameHoldersRecorded(s, s.(ticks := s.ticks + 1));
  }

  lemma UserTickRecorded(s: Table)
    requires Recorded(s)
    ensures Recorded(Preempt(s.(ticks := s.ticks + 1)))
  {
    TickRecorded(s);
    PreemptRecorded(s.(ticks := s.ticks + 1));
  }

  lemma TrapStepRecorded(s: Table, e: Happening)
    requires Recorded(s)
    ensures Recorded(TrapStep(s, e))
  {
    var t := TrapStep(s, e);
    match e
    case Tick => TickRecorded(s); assert t == s.(ticks := s.ticks + 1);
    case UserTick => UserTickRecorded(s); assert t == Preempt(s.(ticks := s.ticks + 1));
    case Called(call) => ServiceRecorded(s, call); assert t == Service(s, call);
    case Faulted(vector) => FaultRecorded(s, vector); assert t == Fault(s, vector);
    case _ => assert t == s;
  }

  lemma PollOneSameHolders(s: Table, i: nat, now: nat, a: Attempt)
    requires i < PERIODICS
    ensures SameHolders(s, PollOne(s, i, now, a))
  {
  }

  lemma PollOneRecorded(s: Table, i: nat, now: nat, a: Attempt)
    requires Recorded(s) && i < PERIODICS
    ensures Recorded(PollOne(s, i, now, a))
  {
    PollOneSameHolders(s, i, now, a);
    SameHoldersRecorded(s, PollOne(s, i, now, a));
  }

  lemma {:induction false} PollSameHolders(s: Table, i: nat, now: nat, a: seq<Attempt>)
    requires i <= PERIODICS && |a| == PERIODICS
    ensures SameHolders(s, PollFrom(s, i, now, a))
    decreases PERIODICS - i
  {
    if i < PERIODICS {
      PollOneSameHolders(s, i, now, a[i]);
      PollSameHolders(PollOne(s, i, now, a[i]), i + 1, now, a);
    }
  }

  lemma StepRecorded(s: Table, e: Happening)
    requires Recorded(s)
    ensures Recorded(Step(s, e))
  {
    if IsTrap(e) {
      TrapStepRecorded(s, e);
    } else {
      if e.Polled? {
        PollSameHolders(s, 0, s.ticks, e.attempts);
      }
      assert SameHolders(s, LoopStep(s, e));
      SameHoldersRecorded(s, LoopStep(s, e));
    }
  }

  lemma {:induction false} RunRecorded(s: Table, es: seq<Happening>)
    requires Recorded(s)
    ensures Recorded(Run(s, es))
    decreases |es|
  {
    if es != [] {
      StepRecorded(s, es[0]);
      RunRecorded(Step(s, es[0]), es[1..]);
    }
  }

  lemma ReachableRecorded(es: seq<Happening>)
    ensures Recorded(Run(Init(), es))
  {
    RunRecorded(Init(), es);
  }
}
