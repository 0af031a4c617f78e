/**
 The usage figures against what happened: the ticks a resource is reported held
 are the ticks that passed while somebody owned it.
 */
module Ownership {
  import opened Basics
  import opened KernelModel
  import opened Accounting

  /** Held ticks since `lo`, as the completed holds and the current one tell. */
  function HeldSince(s: Table, rid: nat, lo: nat): (n: nat)
    requires IsResource(rid)
  {
    HeldOn(s.log.holds, s.locks[rid - 1].owner, s.locks[rid - 1].since, rid, lo, s.ticks)
  }

  function HeldOn(holds: seq<Hold>, owner: nat, since: nat, rid: nat, lo: nat, now: nat): (n: nat) {
    TotalIn(holds, rid, lo, now) + (if owner != 0 then Overlap(Hold(rid, since, now), lo, now) else 0)
  }

  /** The ticks from `from` to `to` that are not before `lo`. */
  function Passed(from: nat, to: nat, lo: nat): (n: nat) { Overlap(Hold(0, from, to), lo, to) }

  /** What an observer counts: the ticks, not before `lo`, that pass while the resource has an owner. */
  function OwnedTicks(s: Table, es: seq<Happening>, rid: nat, lo: nat): (n: nat)
    requires IsResource(rid)
    decreases |es|
  {
    if es == [] then 0
    else
      var t := Step(s, es[0]);
      OwnedTime(s, t, rid, lo) + OwnedTicks(t, es[1..], rid, lo)
  }

  /** Time passes, the holders stay: the current hold gets longer by that time. */
  lemma TimePasses(s: Table, t: Table, rid: nat, lo: nat)
    requires Recorded(s) && SameHolders(s, t) && IsResource(rid)
    ensures HeldSince(t, rid, lo) == HeldSince(s, rid, lo) + OwnedTime(s, t, rid, lo)
  {
    assert UsageOk(UsageOf(s, rid), s.ticks);
    if lo <= s.ticks {
      TotalCutOff(UsageOf(s, rid), s.ticks, lo, t.ticks);
    } else {
      NothingAfter(s.log.holds, rid, s.ticks, lo, t.ticks);
      NothingAfter(s.log.holds, rid, s.ticks, lo, s.ticks);
    }
  }

  lemma NothingAfter(hs: seq<Hold>, rid: nat, now: nat, lo: nat, hi: nat)
    requires Chronicle(hs, now) && now < lo
    ensures TotalIn(hs, rid, lo, hi) == 0
  {
    TotalAfter(hs, rid, lo, hi);
  }

  /** A hold that has just begun counts nothing yet. */
  lemma NoTimeYet(rid: nat, now: nat, lo: nat)
    ensures Overlap(Hold(rid, now, now), lo, now) == 0
  {
  }

  /** The hold that ends counts as before, now among the completed ones. */
  lemma EndedCounts(holds: seq<Hold>, owner: nat, since: nat, rid: nat, lo: nat, now: nat)
    requires owner != 0
    ensures HeldOn(holds + [Hold(rid, since, now)], 0, since, rid, lo, now) == HeldOn(holds, owner, since, rid, lo, now)
  {
    TotalAppend(holds, Hold(rid, since, now), rid, lo, now);
  }

  lemma OtherCounts(holds: seq<Hold>, h: Hold, owner: nat, since: nat, rid: nat, lo: nat, now: nat)
    requires h.res != rid
    ensures HeldOn(holds + [h], owner, since, rid, lo, now) == HeldOn(holds, owner, since, rid, lo, now)
  {
    TotalAppend(holds, h, rid, lo, now);
  }

  lemma DropLocks(s: Table, k: nat, rid: nat, other: nat)
    requires k < APPS && IsResource(rid) && IsResource(other)
    ensures var t := Drop(s, k, rid);
            && t.log.holds == s.log.holds + [Hold(rid, s.locks[rid - 1].since, s.ticks)] && t.ticks == s.ticks
            && t.locks[other - 1].owner == (if other == rid then 0 else s.locks[other - 1].owner)
            && t.locks[other - 1].since == s.locks[other - 1].since
  {
  }

  lemma DropKeeps(s: Table, k: nat, rid: nat, other: nat, lo: nat)
    requires k < APPS && IsResource(rid) && IsResource(other) && s.locks[rid - 1].owner != 0
    ensures HeldSince(Drop(s, k, rid), other, lo) == HeldSince(s, other, lo)
  {
    var lock, t := s.locks[other - 1], Drop(s, k, rid);
    DropLocks(s, k, rid, other);
    if other == rid {
      EndedCounts(s.log.holds, lock.owner, lock.since, rid, lo, s.ticks);
    } else {
      OtherCounts(s.log.holds, Hold(rid, s.locks[rid - 1].since, s.ticks), lock.owner, lock.since, other, lo, s.ticks);
    }
  }

  lemma GrantKeeps(s: Table, rid: nat, other: nat, lo: nat)
    requires IsResource(rid) && IsResource(other) && s.locks[rid - 1].owner == 0
    ensures HeldSince(GrantNext(s, rid), other, lo) == HeldSince(s, other, lo)
  {
    var t := GrantNext(s, rid);
    NoTimeYet(rid, s.ticks, lo);
    assert t.log.holds == s.log.holds && t.ticks == s.ticks;
    if other != rid {
      assert t.locks[other - 1] == s.locks[other - 1];
    }
  }

  /** A resource changes hands: nothing is lost and nothing counted twice. */
  lemma HandsChange(s: Table, k: nat, rid: nat, other: nat, lo: nat)
    requires k < APPS && IsResource(other)
    ensures HeldSince(Release(s, k, rid), other, lo) == HeldSince(s, other, lo) && Release(s, k, rid).ticks == s.ticks
  {
    if Owns(s, k, rid) {
      DropKeeps(s, k, rid, other, lo);
      GrantKeeps(Drop(s, k, rid), rid, other, lo);
      assert Release(s, k, rid) == GrantNext(Drop(s, k, rid), rid);
    }
  }

  lemma FinishKeeps(s: Table, k: nat, result: int, rid: nat, lo: nat)
    requires k < APPS && IsResource(rid)
    ensures HeldSince(Finish(s, k, result), rid, lo) == HeldSince(s, rid, lo) && Finish(s, k, result).ticks == s.ticks
  {
    HandsChange(s, k, s.apps[k].owned, rid, lo);
  }

  lemma TakeKeeps(s: Table, k: nat, rid: nat, other: nat, lo: nat)
    requires k < APPS && IsResource(rid) && IsResource(other) && s.locks[rid - 1].owner == 0
    ensures HeldSince(Take(s, k, rid), other, lo) == HeldSince(s, other, lo)
  {
    var t := Take(s, k, rid);
    NoTimeYet(rid, s.ticks, lo);
    assert t.log.holds == s.log.holds && t.ticks == s.ticks;
    if other != rid {
      assert t.locks[other - 1] == s.locks[other - 1];
    }
  }

  lemma AcquireKeeps(s: Table, k: nat, rid: nat, other: nat, lo: nat)
    requires k < APPS && IsResource(other)
    ensures HeldSince(Acquire(s, k, rid), other, lo) == HeldSince(s, other, lo) && Acquire(s, k, rid).ticks == s.ticks
  {
    if IsResource(rid) && s.locks[rid - 1].owner == 0 {
      TakeKeeps(s, k, rid, other, lo);
    }
  }

  lemma ServiceKeeps(s: Table, call: Call, rid: nat, lo: nat)
    requires IsResource(rid) && (call.Transport? ==> IsResource(call.rid))
    ensures HeldSince(Service(s, call), rid, lo) == HeldSince(s, rid, lo) && Service(s, call).ticks == s.ticks
  {
    var k, t := s.current, Service(s, call);
    FinishKeeps(s, k, -200, rid, lo);
    match call
    case Exit(code) => FinishKeeps(s, k, code, rid, lo);
    case AcquireCall(rdi) => AcquireKeeps(s, k, rdi % B32, rid, lo);
    case ReleaseCall(rdi) => HandsChange(s, k, rdi % B32, rid, lo);
    case _ =>
  }

  lemma PreemptKeeps(s: Table, rid: nat, lo: nat)
    requires IsResource(rid)
    ensures HeldSince(Preempt(s), rid, lo) == HeldSince(s, rid, lo) && Preempt(s).ticks == s.ticks
  {
    FinishKeeps(Charge(s, s.current), s.current, -200, rid, lo);
  }

  lemma FaultKeeps(s: Table, vector: nat, rid: nat, lo: nat)
    requires IsResource(rid)
    ensures HeldSince(Fault(s, vector), rid, lo) == HeldSince(s, rid, lo) && Fault(s, vector).ticks == s.ticks
  {
    FinishKeeps(s, s.current, -100 - vector, rid, lo);
  }

  /** The time a step takes, if the resource is owned. */
  function OwnedTime(s: Table, t: Table, rid: nat, lo: nat): (n: nat)
    requires IsResource(rid)
  {
    if s.locks[rid - 1].owner != 0 then Passed(s.ticks, t.ticks, lo) else 0
  }

  lemma UserTickCounts(s: Table, u: Table, rid: nat, lo: nat)
    requires Recorded(s) && IsResource(rid) && u == s.(ticks := s.ticks + 1)
    ensures HeldSince(Preempt(u), rid, lo) == HeldSince(s, rid, lo) + OwnedTime(s, Preempt(u), rid, lo)
  {
    TimePasses(s, u, rid, lo);
    PreemptKeeps(u, rid, lo);
  }

  lemma TrapCounts(s: Table, e: Happening, rid: nat, lo: nat)
    requires Recorded(s) && IsResource(rid)
    ensures HeldSince(TrapStep(s, e), rid, lo) == HeldSince(s, rid, lo) + OwnedTime(s, TrapStep(s, e), rid, lo)
  {
    var u, t := s.(ticks := s.ticks + 1), TrapStep(s, e);
    match e
    case Tick => TimePasses(s, u, rid, lo); assert t == u;
    case UserTick => UserTickCounts(s, u, rid, lo); assert t == Preempt(u);
    case Called(call) => ServiceKeeps(s, call, rid, lo); assert t == Service(s, call);
    case Faulted(vector) => FaultKeeps(s, vector, rid, lo); assert t == Fault(s, vector);
    case _ => assert t == s;
  }

  lemma LoopSameHolders(s: Table, e: Happening)
    ensures SameHolders(s, LoopStep(s, e))
  {
    if e.Polled? {
      PollSameHolders(s, 0, s.ticks, e.attempts);
    }
  }

  /** Every step adds the time it takes if the resource is owned, and nothing else. */
  lemma StepCounts(s: Table, e: Happening, rid: nat, lo: nat)
    requires Recorded(s) && IsResource(rid)
    ensures HeldSince(Step(s, e), rid, lo) == HeldSince(s, rid, lo) + OwnedTime(s, Step(s, e), rid, lo)
  {
    TrapCounts(s, e, rid, lo);
    LoopSameHolders(s, e);
    TimePasses(s, LoopStep(s, e), rid, lo);
  }

  lemma InitCounts(rid: nat, lo: nat)
    requires IsResource(rid)
    ensures HeldSince(Init(), rid, lo) == 0
  {
  }

  lemma {:induction false} RunCounts(s: Table, es: seq<Happening>, rid: nat, lo: nat)
    requires Recorded(s) && IsResource(rid)
    ensures HeldSince(Run(s, es), rid, lo) == HeldSince(s, rid, lo) + OwnedTicks(s, es, rid, lo)
    decreases |es|
  {
    if es != [] {
      StepCounts(s, es[0], rid, lo);
      StepRecorded(s, es[0]);
      RunCounts(Step(s, es[0]), es[1..], rid, lo);
    }
  }

  /**
   After any run from boot, the ticks at which the recorded holds cover a
   resource are exactly those that passed while it had an owner.
   */
  lemma HeldIsOwned(es: seq<Happening>, rid: nat, lo: nat)
    requires IsResource(rid)
    ensures var s := Run(Init(), es);
            HeldTicks(AllHolds(UsageOf(s, rid), s.ticks), rid, lo, s.ticks) == OwnedTicks(Init(), es, rid, lo)
  {
    ReachableRecorded(es);
    RunCounts(Init(), es, rid, lo);
    InitCounts(rid, lo);
    HeldIsHeld(Run(Init(), es), rid, lo);
  }

  lemma HeldIsHeld(s: Table, rid: nat, lo: nat)
    requires Recorded(s) && IsResource(rid)
    ensures HeldTicks(AllHolds(UsageOf(s, rid), s.ticks), rid, lo, s.ticks) == HeldSince(s, rid, lo)
  {
    assert UsageOk(UsageOf(s, rid), s.ticks);
    HeldUpToNow(UsageOf(s, rid), s.ticks, lo);
  }
}
