/**
 What every step keeps of the slots, the exclusive resources and their queues.
 */
module ResourceSafety {
  import opened Basics
  import opened KernelModel

  /** A slot is consistent in itself; only the current one may be running. */
  predicate SlotOk(a: App, isCurrent: bool) {
    && (a.mode == Blocked <==> a.waiting != 0)
    && (a.mode == Free ==> a.owned == 0)
    && (a.waiting != 0 ==> a.owned == 0)
    && a.owned <= RESOURCES && a.waiting <= RESOURCES
    && (a.mode == Running ==> isCurrent)
    && (a.mode != Free ==> a.runtime < MAX_TICKS)
  }

  predicate SlotsOk(apps: seq<App>, current: nat)
    requires |apps| == APPS
  {
    forall k :: 0 <= k < APPS ==> SlotOk(apps[k], k == current)
  }

  /** The resource's owner and queue say exactly what the slots say. */
  predicate LockOk(apps: seq<App>, lock: Lock, rid: nat)
    requires |apps| == APPS
  {
    && lock.owner <= APPS
    && (forall k :: 0 <= k < APPS ==> (apps[k].owned == rid <==> lock.owner == k + 1))
    && (forall k :: 0 <= k < APPS ==> (apps[k].waiting == rid <==> k in lock.queue))
    && (forall i :: 0 <= i < |lock.queue| ==> lock.queue[i] < APPS)
    && Distinct(lock.queue)
    && (lock.owner == 0 ==> lock.queue == [])
  }

  predicate LocksOk(s: Table) {
    LockOk(s.apps, s.locks[0], 1) && LockOk(s.apps, s.locks[1], 2)
  }

  /** First come, first served: what was asked is what was granted and then what waits; the last grant is the owner's. */
  predicate ServedInOrder(lock: Lock, requests: seq<nat>, grants: seq<nat>) {
    && requests == grants + lock.queue
    && (lock.owner != 0 ==> grants != [] && lock.owner == grants[|grants| - 1] + 1)
  }

  predicate FifoOk(s: Table, rid: nat)
    requires IsResource(rid)
  {
    ServedInOrder(s.locks[rid - 1], s.log.requests[rid - 1], s.log.grants[rid - 1])
  }

  predicate Safe(s: Table) {
    && SlotsOk(s.apps, s.current)
    && LocksOk(s)
    && FifoOk(s, 1) && FifoOk(s, 2)
  }

  /** The same, except that slot k is leaving the processor and its new mode is not set yet. */
  predicate SafeBut(s: Table, k: nat)
    requires k < APPS
  {
    && s.apps[k].mode == Running && k == s.current
    && (forall j :: 0 <= j < APPS && j != k ==> SlotOk(s.apps[j], false))
    && s.apps[k].waiting == 0 && s.apps[k].owned <= RESOURCES
    && LocksOk(s)
    && FifoOk(s, 1) && FifoOk(s, 2)
  }

  /** If a user program has the processor, the resources are consistent up to its leaving. */
  predicate TrapOk(s: Table) { s.apps[s.current].mode == Running ==> SafeBut(s, s.current) }

  lemma InitSafe()
    ensures Safe(Init())
  {
  }

  lemma SafeToBut(s: Table)
    requires Safe(s) && s.apps[s.current].mode == Running
    ensures SafeBut(s, s.current)
  {
  }

  lemma TakeSafe(s: Table, k: nat, rid: nat)
    requires k < APPS && IsResource(rid) && SafeBut(s, k)
    requires s.apps[k].owned == 0 && s.locks[rid - 1].owner == 0
    ensures SafeBut(Take(s, k, rid), k)
  {
    var t := Take(s, k, rid);
    assert t.locks[2 - rid] == s.locks[2 - rid];
    assert LockOk(t.apps, t.locks[rid - 1], rid);
    assert LockOk(t.apps, t.locks[2 - rid], 3 - rid);
  }

  /** A resource is untouched by a change of slots that neither take, give up, await nor get it. */
  lemma LockFrame(apps: seq<App>, apps': seq<App>, lock: Lock, rid: nat)
    requires |apps| == |apps'| == APPS && LockOk(apps, lock, rid)
    requires forall k :: 0 <= k < APPS ==> (apps[k].owned == rid <==> apps'[k].owned == rid)
    requires forall k :: 0 <= k < APPS ==> (apps[k].waiting == rid <==> apps'[k].waiting == rid)
    ensures LockOk(apps', lock, rid)
  {
  }

  /** Passing a resource on from slot k to the head j of its queue. */
  lemma HandOver(apps: seq<App>, apps': seq<App>, lock: Lock, rid: nat, k: nat, since: nat)
    requires |apps| == |apps'| == APPS && IsResource(rid) && LockOk(apps, lock, rid)
    requires lock.owner == k + 1 && lock.queue != [] && lock.queue[0] != k
    requires apps'[k].owned == 0 && apps'[k].waiting == apps[k].waiting
    requires apps'[lock.queue[0]].owned == rid && apps'[lock.queue[0]].waiting == 0
    requires forall n :: 0 <= n < APPS && n != k && n != lock.queue[0] ==> apps'[n] == apps[n]
    ensures LockOk(apps', Lock(lock.queue[0] + 1, lock.queue[1..], since), rid)
  {
    var q, j := lock.queue, lock.queue[0];
    assert forall i :: 0 <= i < |q[1..]| ==> q[1..][i] == q[i + 1];
    assert forall n :: n in q[1..] <==> n in q && n != j;
  }

  lemma GrantInOrder(lock: Lock, requests: seq<nat>, grants: seq<nat>, since: nat)
    requires lock.queue != [] && requests == grants + lock.queue
    ensures ServedInOrder(Lock(lock.queue[0] + 1, lock.queue[1..], since), requests, grants + [lock.queue[0]])
  {
    var q := lock.queue;
    assert q == [q[0]] + q[1..];
    assert grants + ([q[0]] + q[1..]) == (grants + [q[0]]) + q[1..];
  }

  lemma HeadIsWaiting(s: Table, k: nat, rid: nat)
    requires k < APPS && SafeBut(s, k) && IsResource(rid)
    ensures var q := s.locks[rid - 1].queue;
            q != [] ==> q[0] < APPS && q[0] != k && s.apps[q[0]].waiting == rid
  {
    var q := s.locks[rid - 1].queue;
    assert LockOk(s.apps, s.locks[rid - 1], rid);
    if q != [] {
      assert q[0] in q;
    }
  }

  lemma ReleaseLock(s: Table, k: nat, rid: nat)
    requires k < APPS && SafeBut(s, k) && Owns(s, k, rid)
    ensures LockOk(Release(s, k, rid).apps, Release(s, k, rid).locks[rid - 1], rid)
    ensures FifoOk(Release(s, k, rid), rid)
    ensures var q := s.locks[rid - 1].queue; q != [] ==> q[0] < APPS && s.apps[q[0]].waiting == rid
  {
    var t, lock := Release(s, k, rid), s.locks[rid - 1];
    HeadIsWaiting(s, k, rid);
    assert LockOk(s.apps, lock, rid) && FifoOk(s, rid);
    if lock.queue != [] {
      HandOver(s.apps, t.apps, lock, rid, k, s.ticks);
      GrantInOrder(lock, s.log.requests[rid - 1], s.log.grants[rid - 1], s.ticks);
      assert t.locks[rid - 1] == Lock(lock.queue[0] + 1, lock.queue[1..], s.ticks);
    }
  }

  /** A release leaves the other resource, and the slots but two, as they are. */
  lemma ReleaseFrame(s: Table, k: nat, rid: nat)
    requires k < APPS && SafeBut(s, k) && Owns(s, k, rid)
    ensures var t := Release(s, k, rid);
            && LockOk(t.apps, t.locks[2 - rid], 3 - rid) && FifoOk(t, 3 - rid)
            && t.apps[k] == s.apps[k].(owned := 0) && t.current == s.current
  {
    var t := Release(s, k, rid);
    ReleaseLock(s, k, rid);
    LockFrame(s.apps, t.apps, s.locks[2 - rid], 3 - rid);
    assert t.locks[2 - rid] == s.locks[2 - rid];
  }

  lemma ReleaseSlots(s: Table, k: nat, rid: nat)
    requires k < APPS && SafeBut(s, k) && Owns(s, k, rid)
    ensures forall j :: 0 <= j < APPS && j != k ==> SlotOk(Release(s, k, rid).apps[j], false)
  {
    ReleaseLock(s, k, rid);
    var q := s.locks[rid - 1].queue;
    if q != [] {
      assert SlotOk(s.apps[q[0]], false);
    }
  }

  lemma ReleaseSafe(s: Table, k: nat, rid: nat)
    requires k < APPS && SafeBut(s, k)
    ensures SafeBut(Release(s, k, rid), k)
    ensures Owns(s, k, rid) ==> Release(s, k, rid).apps[k] == s.apps[k].(owned := 0)
  {
    if Owns(s, k, rid) {
      var t := Release(s, k, rid);
      ReleaseLock(s, k, rid);
      ReleaseFrame(s, k, rid);
      ReleaseSlots(s, k, rid);
      assert LocksOk(t) && FifoOk(t, rid);
    }
  }

  lemma FinishSafe(s: Table, k: nat, result: int)
    requires k < APPS && SafeBut(s, k)
    ensures Safe(Finish(s, k, result))
    ensures Finish(s, k, result).apps[k].mode == Free
  {
    if s.apps[k].owned != 0 {
      assert LockOk(s.apps, s.locks[s.apps[k].owned - 1], s.apps[k].owned);
      assert Owns(s, k, s.apps[k].owned);
      ReleaseSafe(s, k, s.apps[k].owned);
    }
    var u := if s.apps[k].owned != 0 then Release(s, k, s.apps[k].owned) else s;
    FreeSafe(u, k, result);
  }

  lemma FreeSafe(s: Table, k: nat, result: int)
    requires k < APPS && SafeBut(s, k) && s.apps[k].owned == 0
    ensures Safe(s.(apps := s.apps[k := s.apps[k].(mode := Free, result := result)]))
  {
    var t := s.(apps := s.apps[k := s.apps[k].(mode := Free, result := result)]);
    assert LockOk(t.apps, t.locks[0], 1);
    assert LockOk(t.apps, t.locks[1], 2);
  }

  lemma YieldSafe(s: Table, k: nat, rax: int)
    requires k < APPS && SafeBut(s, k) && s.apps[k].runtime < MAX_TICKS
    ensures Safe(Yield(s, k, rax))
  {
    var t := Yield(s, k, rax);
    assert LockOk(t.apps, t.locks[0], 1);
    assert LockOk(t.apps, t.locks[1], 2);
  }

  /** Slot k joins the queue of a busy resource. */
  lemma Join(apps: seq<App>, apps': seq<App>, lock: Lock, rid: nat, k: nat)
    requires |apps| == |apps'| == APPS && k < APPS && IsResource(rid) && LockOk(apps, lock, rid)
    requires lock.owner != 0 && apps[k].waiting == 0 && apps[k].owned == 0
    requires apps' == apps[k := apps'[k]] && apps'[k].waiting == rid && apps'[k].owned == 0
    ensures LockOk(apps', lock.(queue := lock.queue + [k]), rid)
  {
  }

  lemma EnqueueSafe(s: Table, k: nat, rid: nat)
    requires k < APPS && IsResource(rid) && SafeBut(s, k) && s.apps[k].runtime < MAX_TICKS
    requires s.apps[k].owned == 0 && s.locks[rid - 1].owner != 0
    ensures Safe(Enqueue(s, k, rid))
  {
    var t := Enqueue(s, k, rid);
    Join(s.apps, t.apps, s.locks[rid - 1], rid, k);
    LockFrame(s.apps, t.apps, s.locks[2 - rid], 3 - rid);
    assert t.locks[2 - rid] == s.locks[2 - rid];
    assert LocksOk(t);
    assert FifoOk(t, rid) && FifoOk(t, 3 - rid);
    assert SlotsOk(t.apps, t.current);
  }

  lemma AcquireSafe(s: Table, k: nat, rid: nat)
    requires k < APPS && SafeBut(s, k) && s.apps[k].runtime < MAX_TICKS
    ensures Safe(Acquire(s, k, rid))
  {
    if !IsResource(rid) || s.apps[k].owned != 0 {
      YieldSafe(s, k, 0);
    } else if s.locks[rid - 1].owner == 0 {
      TakeSafe(s, k, rid);
      YieldSafe(Take(s, k, rid), k, 1);
    } else {
      EnqueueSafe(s, k, rid);
    }
  }

  lemma ReleaseKeepsRuntime(s: Table, k: nat, rid: nat)
    requires k < APPS && SafeBut(s, k)
    ensures Release(s, k, rid).apps[k].runtime == s.apps[k].runtime
  {
    ReleaseSafe(s, k, rid);
  }

  lemma ServiceSafe(s: Table, call: Call)
    requires Safe(s) && (call.Transport? ==> IsResource(call.rid))
    ensures Safe(Service(s, call))
  {
    var k := s.current;
    if s.apps[k].mode == Running {
      SafeToBut(s);
      assert SlotOk(s.apps[k], true);
      match call
      case Exit(code) => FinishSafe(s, k, code);
      case AcquireCall(rdi) => AcquireSafe(s, k, rdi % B32);
      case ReleaseCall(rdi) =>
        ReleaseSafe(s, k, rdi % B32);
        ReleaseKeepsRuntime(s, k, rdi % B32);
        YieldSafe(Release(s, k, rdi % B32), k, if Owns(s, k, rdi % B32) then 1 else 0);
      case Transport(rid, reply) => YieldSafe(s, k, if Owns(s, k, rid) then reply else 0);
      case Plain(reply) => YieldSafe(s, k, reply);
    }
  }

  lemma ChargeSafe(s: Table, k: nat)
    requires k < APPS && SafeBut(s, k)
    ensures SafeBut(Charge(s, k), k)
  {
    LockFrame(s.apps, Charge(s, k).apps, s.locks[0], 1);
    LockFrame(s.apps, Charge(s, k).apps, s.locks[1], 2);
  }

  lemma PreemptSafe(s: Table)
    requires Safe(s)
    ensures Safe(Preempt(s))
  {
    var k := s.current;
    if s.apps[k].mode == Running {
      SafeToBut(s);
      ChargeSafe(s, k);
      var u := Charge(s, k);
      if u.apps[k].runtime >= MAX_TICKS {
        FinishSafe(u, k, -200);
      } else {
        YieldSafe(u, k, u.apps[k].rax);
        assert Preempt(s) == Yield(u, k, u.apps[k].rax);
      }
    }
  }

  lemma FaultSafe(s: Table, vector: nat)
    requires Safe(s)
    ensures Safe(Fault(s, vector))
  {
    if s.apps[s.current].mode == Running {
      var k, result := s.current, -100 - vector;
      SafeToBut(s);
      FinishSafe(s, k, result);
      assert Fault(s, vector) == Finish(s, k, result);
    }
  }

  lemma OccupySafe(s: Table, k: nat, periodicId: nat, serial: nat)
    requires Safe(s) && k < APPS && s.apps[k].mode == Free
    ensures Safe(Occupy(s, k, periodicId, serial))
  {
    var t := Occupy(s, k, periodicId, serial);
    assert SlotOk(s.apps[k], k == s.current);
    LockFrame(s.apps, t.apps, s.locks[0], 1);
    LockFrame(s.apps, t.apps, s.locks[1], 2);
    assert LocksOk(t);
  }

  /** While the kernel loop has the processor, the current slot may be any slot. */
  lemma MoveCurrent(s: Table, k: nat, ticks: nat)
    requires Safe(s) && InLoop(s) && k < APPS
    ensures Safe(s.(current := k, ticks := ticks)) && InLoop(s.(current := k, ticks := ticks))
  {
    var t := s.(current := k, ticks := ticks);
    assert forall j :: 0 <= j < APPS ==> SlotOk(s.apps[j], j == s.current);
    assert LocksOk(t);
  }

  lemma StartSafe(s: Table, periodicId: nat, serial: nat, a: Attempt)
    requires Safe(s) && InLoop(s)
    ensures Safe(Start(s, periodicId, serial, a).state)
    ensures InLoop(Start(s, periodicId, serial, a).state)
  {
    var k := FirstFree(s.apps, 0);
    if k < APPS {
      var u := s.(current := k, ticks := s.ticks + a.delay);
      MoveCurrent(s, k, s.ticks + a.delay);
      OccupySafe(u, k, periodicId, serial);
    }
  }

  lemma ScheduleSafe(s: Table)
    requires Safe(s) && InLoop(s)
    ensures Safe(Schedule(s))
  {
    var t := Schedule(s);
    assert LockOk(t.apps, t.locks[0], 1);
    assert LockOk(t.apps, t.locks[1], 2);
  }

  /** Safety reads nothing of the periodic table. */
  lemma SafeFrame(s: Table, t: Table)
    requires Safe(s) && t.apps == s.apps && t.locks == s.locks && t.current == s.current
    requires t.log.requests == s.log.requests && t.log.grants == s.log.grants
    ensures Safe(t)
  {
    assert LockOk(t.apps, t.locks[0], 1);
    assert LockOk(t.apps, t.locks[1], 2);
  }

  lemma TryLaunchSafe(s: Table, i: nat, now: nat, a: Attempt)
    requires Safe(s) && InLoop(s) && i < PERIODICS
    ensures Safe(TryLaunch(s, i, now, a)) && InLoop(TryLaunch(s, i, now, a))
  {
    var r, t := Start(s, i + 1, s.log.serials[i], a), TryLaunch(s, i, now, a);
    StartSafe(s, i + 1, s.log.serials[i], a);
    match r.code
    case Busy => assert t == s;
    case _ =>
      assert t.apps == r.state.apps && t.current == r.state.current;
      SafeFrame(r.state, t);
  }

  lemma PollOneSafe(s: Table, i: nat, now: nat, a: Attempt)
    requires Safe(s) && InLoop(s) && i < PERIODICS
    ensures Safe(PollOne(s, i, now, a)) && InLoop(PollOne(s, i, now, a))
  {
    var t := PollOne(s, i, now, a);
    var u := if s.periodics[i].slot < APPS then Detach(s, i) else s;
    SafeFrame(s, u);
    if t == TryLaunch(u, i, now, a) {
      TryLaunchSafe(u, i, now, a);
    } else {
      SafeFrame(s, t);
    }
  }

  lemma {:induction false} PollFromSafe(s: Table, i: nat, now: nat, a: seq<Attempt>)
    requires Safe(s) && InLoop(s) && i <= PERIODICS && |a| == PERIODICS
    ensures Safe(PollFrom(s, i, now, a)) && InLoop(PollFrom(s, i, now, a))
    decreases PERIODICS - i
  {
    if i < PERIODICS {
      PollOneSafe(s, i, now, a[i]);
      PollFromSafe(PollOne(s, i, now, a[i]), i + 1, now, a);
    }
  }

  lemma LoopStepSafe(s: Table, e: Happening)
    requires Safe(s) && InLoop(s)
    ensures Safe(LoopStep(s, e))
  {
    var t := LoopStep(s, e);
    match e
    case RunCommand(a) => StartSafe(s, 0, 0, a); assert t == Start(s, 0, 0, a).state;
    case Scheduled => ScheduleSafe(s); assert t == Schedule(s);
    case Polled(a) => PollFromSafe(s, 0, s.ticks, a); assert t == PollFrom(s, 0, s.ticks, a);
    case _ => SafeFrame(s, t);
  }

  lemma TickSafe(s: Table)
    requires Safe(s)
    ensures Safe(s.(ticks := s.ticks + 1))
  {
    SafeFrame(s, s.(ticks := s.ticks + 1));
  }

  lemma UserTickSafe(s: Table)
    requires Safe(s)
    ensures Safe(Preempt(s.(ticks := s.ticks + 1)))
  {
    TickSafe(s);
    PreemptSafe(s.(ticks := s.ticks + 1));
  }

  lemma CalledSafe(s: Table, e: Happening)
    requires Safe(s) && e.Called?
    ensures Safe(TrapStep(s, e))
  {
    ServiceSafe(s, e.call);
    assert TrapStep(s, e) == Service(s, e.call);
  }

  lemma FaultedSafe(s: Table, e: Happening)
    requires Safe(s) && e.Faulted?
    ensures Safe(TrapStep(s, e))
  {
    FaultSafe(s, e.vector);
    assert TrapStep(s, e) == Fault(s, e.vector);
  }

  lemma TrapStepSafe(s: Table, e: Happening)
    requires Safe(s)
    ensures Safe(TrapStep(s, e))
  {
    match e
    case Tick => TickSafe(s); assert TrapStep(s, e) == s.(ticks := s.ticks + 1);
    case UserTick => UserTickSafe(s); assert TrapStep(s, e) == Preempt(s.(ticks := s.ticks + 1));
    case Called(_) => CalledSafe(s, e);
    case Faulted(_) => FaultedSafe(s, e);
    case _ => assert TrapStep(s, e) == s;
  }

  /** Every step keeps the agreement of slots, owners and queues, and the order of service. */
  lemma StepSafe(s: Table, e: Happening)
    requires Safe(s)
    ensures Safe(Step(s, e))
  {
    TrapStepSafe(s, e);
    if InLoop(s) {
      LoopStepSafe(s, e);
    }
  }

  lemma {:induction false} RunSafe(s: Table, es: seq<Happening>)
    requires Safe(s)
    ensures Safe(Run(s, es))
    decreases |es|
  {
    if es != [] {
      StepSafe(s, es[0]);
      RunSafe(Step(s, es[0]), es[1..]);
    }
  }

  // ------------------------------------------------------ consequences over runs

  /** From boot, whatever happens, no resource is ever inconsistent. */
  lemma ReachableSafe(es: seq<Happening>)
    ensures Safe(Run(Init(), es))
  {
    InitSafe();
    RunSafe(Init(), es);
  }

  /** The owner of a resource somebody waits for can run, so the applications never all wait. */
  lemma NoDeadlock(es: seq<Happening>, k: nat)
    requires k < APPS && Run(Init(), es).apps[k].mode == Blocked
    ensures var s := Run(Init(), es);
            var rid := s.apps[k].waiting;
            && IsResource(rid) && 1 <= s.locks[rid - 1].owner <= APPS
            && s.apps[s.locks[rid - 1].owner - 1].owned == rid
            && (s.apps[s.locks[rid - 1].owner - 1].mode == Ready
                || s.apps[s.locks[rid - 1].owner - 1].mode == Running)
  {
    ReachableSafe(es);
    var s := Run(Init(), es);
    var rid := s.apps[k].waiting;
    assert SlotOk(s.apps[k], k == s.current);
    assert LockOk(s.apps, s.locks[rid - 1], rid);
    assert k in s.locks[rid - 1].queue;
    var o := s.locks[rid - 1].owner - 1;
    assert s.apps[o].owned == rid;
    assert SlotOk(s.apps[o], o == s.current);
  }

  /** A slot that may ask for a resource always finds room among its waiters. */
  lemma QueueHasRoom(apps: seq<App>, lock: Lock, rid: nat, k: nat)
    requires |apps| == APPS && k < APPS && LockOk(apps, lock, rid)
    requires IsResource(rid) && apps[k].waiting == 0
    ensures |lock.queue| < APPS
  {
    var q := lock.queue;
    var all := set i: nat | 0 <= i < |q| :: q[i];
    assert k !in q;
    DistinctSize(q);
    assert (set i: nat | 0 <= i < |q| :: q[i]) <= {0, 1, 2, 3} - {k};
    SubsetSize(all, {0, 1, 2, 3} - {k});
  }

  lemma {:induction false} DistinctSize(q: seq<nat>)
    requires Distinct(q)
    ensures |set i: nat | 0 <= i < |q| :: q[i]| == |q|
  {
    var all := set i: nat | 0 <= i < |q| :: q[i];
    if q != [] {
      var n := |q| - 1;
      var front := set i: nat | 0 <= i < n :: q[..n][i];
      DistinctSize(q[..n]);
      assert front == set i: nat | 0 <= i < |q[..n]| :: q[..n][i];
      assert forall i :: 0 <= i < n ==> q[..n][i] == q[i];
      assert all == front + {q[n]};
    }
  }

  lemma SubsetSize(a: set<nat>, b: set<nat>)
    requires a <= b
    ensures |a| <= |b|
  {
    assert b == a + (b - a);
  }

  /** Requests and grants are only ever added to. */
  predicate Grows(s: Table, t: Table, rid: nat)
    requires IsResource(rid)
  {
    s.log.requests[rid - 1] <= t.log.requests[rid - 1] && s.log.grants[rid - 1] <= t.log.grants[rid - 1]
  }

  lemma {:induction false} PollFromKeepsLog(s: Table, i: nat, now: nat, a: seq<Attempt>)
    requires i <= PERIODICS && |a| == PERIODICS
    ensures PollFrom(s, i, now, a).log.requests == s.log.requests
    ensures PollFrom(s, i, now, a).log.grants == s.log.grants
    decreases PERIODICS - i
  {
    if i < PERIODICS {
      PollFromKeepsLog(PollOne(s, i, now, a[i]), i + 1, now, a);
    }
  }

  lemma FinishGrows(s: Table, k: nat, result: int, rid: nat)
    requires k < APPS && IsResource(rid)
    ensures Grows(s, Finish(s, k, result), rid)
  {
  }

  lemma ServiceGrows(s: Table, call: Call, rid: nat)
    requires IsResource(rid) && (call.Transport? ==> IsResource(call.rid))
    ensures Grows(s, Service(s, call), rid)
  {
    FinishGrows(s, s.current, -200, rid);
    if call.Exit? {
      FinishGrows(s, s.current, call.code, rid);
    }
  }

  lemma PreemptGrows(s: Table, rid: nat)
    requires IsResource(rid)
    ensures Grows(s, Preempt(s), rid)
  {
    FinishGrows(Charge(s, s.current), s.current, -200, rid);
  }

  lemma TrapStepGrows(s: Table, e: Happening, rid: nat)
    requires IsResource(rid)
    ensures Grows(s, TrapStep(s, e), rid)
  {
    var t := TrapStep(s, e);
    match e
    case Called(call) => ServiceGrows(s, call, rid); assert t == Service(s, call);
    case Faulted(vector) => FinishGrows(s, s.current, -100 - vector, rid);
    case UserTick => PreemptGrows(s.(ticks := s.ticks + 1), rid);
    case _ =>
  }

  lemma StepGrows(s: Table, e: Happening, rid: nat)
    requires IsResource(rid)
    ensures Grows(s, Step(s, e), rid)
  {
    TrapStepGrows(s, e, rid);
    if e.Polled? {
      PollFromKeepsLog(s, 0, s.ticks, e.attempts);
    }
  }

  lemma {:induction false} RunGrows(s: Table, es: seq<Happening>, rid: nat)
    requires IsResource(rid)
    ensures Grows(s, Run(s, es), rid)
    decreases |es|
  {
    if es != [] {
      StepGrows(s, es[0], rid);
      RunGrows(Step(s, es[0]), es[1..], rid);
    }
  }

  /**
   No overtaking: those who wait now are served next, in their order, before
   anybody who asks later, whichever way the resource changes hands.
   */
  lemma NoOvertaking(es: seq<Happening>, later: seq<Happening>, rid: nat)
    requires IsResource(rid)
    ensures var s := Run(Init(), es);
            var t := Run(s, later);
            var before, after := s.log.grants[rid - 1], t.log.grants[rid - 1];
            var waiting := s.locks[rid - 1].queue;
            && before <= after
            && (after <= before + waiting || before + waiting <= after)
  {
    var s := Run(Init(), es);
    var t := Run(s, later);
    ReachableSafe(es);
    RunSafe(s, later);
    RunGrows(s, later, rid);
    assert FifoOk(s, rid) && FifoOk(t, rid);
    PrefixesCompare(s.log.grants[rid - 1] + s.locks[rid - 1].queue, t.log.grants[rid - 1], t.log.requests[rid - 1]);
  }

  lemma PrefixesCompare(a: seq<nat>, b: seq<nat>, all: seq<nat>)
    requires a <= all && b <= all
    ensures a <= b || b <= a
  {
  }
}
