/**
 The kernel's tables as it keeps and updates them: circular wait queues, one
 shared bucket table for both resources, slots and periodic entries in place.
 `View` reads them as a `State`, and every operation is shown to do what the
 corresponding step of `KernelModel` says.  Where the kernel would panic over
 an inconsistent resource stands `assert false`: the place is never reached.
 */
module Kernel {
  import opened Basics
  import opened KernelModel
  import opened ResourceSafety
  import opened Accounting
  import opened UsageTable
  import opened PeriodicLaunch
  import AddressSpaces
  import Services

  datatype Resource = Resource(owner: nat, wait: seq<nat>, head: nat, len: nat, acquiredTick: nat,
                               totalTicks: nat, acquisitions: nat, maxHold: nat, recent: seq<nat>)

  predicate ResourceSized(r: Resource) {
    |r.wait| == APPS && r.head < APPS && r.len <= APPS && |r.recent| == BUCKETS
  }

  /** The circular queue read from its head. */
  function Circular(wait: seq<nat>, head: nat, len: nat): (q: seq<nat>)
    requires |wait| == APPS
  {
    seq(len, i requires 0 <= i < len => wait[(head + i) % APPS])
  }

  function Waiters(r: Resource): (q: seq<nat>)
    requires ResourceSized(r)
  {
    Circular(r.wait, r.head, r.len)
  }

  function LockOf(r: Resource): Lock
    requires ResourceSized(r)
  {
    Lock(r.owner, Waiters(r), r.acquiredTick)
  }

  /** The counters of a resource agree with its history. */
  ghost predicate CountersOk(r: Resource, holds: seq<Hold>, grants: seq<nat>, rid: nat) {
    && r.totalTicks == TotalHeld(holds, rid)
    && r.maxHold == LongestHold(holds, rid)
    && r.acquisitions == |grants|
  }

  /** Everything the kernel relies on between events. */
  predicate Sound(s: Table) { Safe(s) && Orderly(s) && Recorded(s) }

  lemma StepSound(s: Table, e: Happening)
    requires Sound(s)
    ensures Sound(Step(s, e))
  {
    StepSafe(s, e);
    StepOrderly(s, e);
    StepRecorded(s, e);
  }

  lemma TickMayTrap(s: Table)
    requires Recorded(s) && TrapOk(s)
    ensures Recorded(s.(ticks := s.ticks + 1)) && TrapOk(s.(ticks := s.ticks + 1))
  {
    SameHoldersRecorded(s, s.(ticks := s.ticks + 1));
  }

  lemma CountersAppend(holds: seq<Hold>, h: Hold, rid: nat)
    requires h.start <= h.end
    ensures TotalHeld(holds + [h], rid) == TotalHeld(holds, rid) + (if h.res == rid then h.end - h.start else 0)
    ensures LongestHold(holds + [h], rid) ==
            if h.res == rid then Max(LongestHold(holds, rid), h.end - h.start) else LongestHold(holds, rid)
  {
    assert (holds + [h])[..|holds|] == holds;
  }

  lemma WaitersAppend(r: Resource, k: nat)
    requires ResourceSized(r) && r.len < APPS
    ensures Waiters(r.(wait := r.wait[(r.head + r.len) % APPS := k], len := r.len + 1)) == Waiters(r) + [k]
  {
  }

  lemma WaitersTail(r: Resource)
    requires ResourceSized(r) && r.len > 0
    ensures Waiters(r)[0] == r.wait[r.head]
    ensures Waiters(r.(head := (r.head + 1) % APPS, len := r.len - 1)) == Waiters(r)[1..]
  {
    var r' := r.(head := (r.head + 1) % APPS, len := r.len - 1);
    forall i | 0 <= i < r'.len ensures Waiters(r')[i] == Waiters(r)[i + 1] {
      assert (r'.head + i) % APPS == (r.head + (i + 1)) % APPS;
    }
  }

  /** The rolling figure of a resource: the buckets of the window and the hold going on. */
  method RecentOf(resource: Resource, epochs: seq<nat>, now: nat) returns (recent: nat)
    requires ResourceSized(resource) && |epochs| == BUCKETS
    ensures recent == BucketSum(epochs, resource.recent, now, BUCKETS)
                      + if resource.owner != 0 && resource.acquiredTick <= now
                        then LiveTicks(resource.acquiredTick, now) else 0
  {
    var currentEpoch := now / BUCKET_TICKS;
    recent := 0;
    var i := 0;
    while i < BUCKETS
      invariant i <= BUCKETS && recent == BucketSum(epochs, resource.recent, now, i)
    {
      if epochs[i] != 0 {
        var epoch := epochs[i] - 1;
        if epoch <= currentEpoch && currentEpoch - epoch < BUCKETS { recent := recent + resource.recent[i]; }
      }
      i := i + 1;
    }
    if resource.owner != 0 && now >= resource.acquiredTick {
      var start := resource.acquiredTick;
      if now > WINDOW_TICKS && start < now - WINDOW_TICKS { start := now - WINDOW_TICKS; }
      recent := recent + (now - start);
    }
  }

  /** Current hold, total and longest hold of a resource. */
  method StatusOf(resource: Resource, now: nat) returns (live: nat, total: nat, longest: nat)
    ensures live == if resource.owner == 0 || now < resource.acquiredTick then 0 else now - resource.acquiredTick
    ensures total == resource.totalTicks + live && longest == Max(resource.maxHold, live)
  {
    live := if resource.owner == 0 || now < resource.acquiredTick then 0 else now - resource.acquiredTick;
    total := resource.totalTicks + live;
    longest := resource.maxHold;
    if live > longest { longest := live; }
  }

  /** Where the bucket of a tick ends, as far as the hold goes. */
  lemma BucketEnds(start: nat, now: nat, end: nat)
    requires start < now && end == Min((start / BUCKET_TICKS + 1) * BUCKET_TICKS, now)
    ensures start < end <= now && (end == now || end % BUCKET_TICKS == 0)
  {
  }

  class Machine {
    var apps: seq<App>
    var resources: seq<Resource>
    var periodics: seq<Periodic>
    var epochs: seq<nat>
    var next: nat
    var current: nat
    var ticks: nat
    ghost var log: History

    ghost predicate Shaped()
      reads this
    {
      && |apps| == APPS && |resources| == RESOURCES && |periodics| == PERIODICS
      && ResourceSized(resources[0]) && ResourceSized(resources[1])
      && |epochs| == BUCKETS && next < APPS && current < APPS
      && |log.requests| == RESOURCES && |log.grants| == RESOURCES
      && |log.serials| == PERIODICS && |log.tenants| == APPS
    }

    ghost function View(): (s: Table)
      requires Shaped()
      reads this
    {
      State(apps, [LockOf(resources[0]), LockOf(resources[1])], periodics, next, current, ticks, log)
    }

    ghost predicate Ledgers(holds: seq<Hold>, now: nat)
      requires Shaped()
      reads this
    {
      && LedgerOk(epochs, resources[0].recent, holds, 1, now)
      && LedgerOk(epochs, resources[1].recent, holds, 2, now)
    }

    ghost predicate Counters(holds: seq<Hold>)
      requires Shaped()
      reads this
    {
      && CountersOk(resources[0], holds, log.grants[0], 1)
      && CountersOk(resources[1], holds, log.grants[1], 2)
    }

    /** The usage figures and the bucket table agree with the history. */
    ghost predicate Booked()
      requires Shaped()
      reads this
    {
      Ledgers(log.holds, ticks) && Counters(log.holds)
    }

    ghost predicate Valid()
      reads this
    {
      Shaped() && Sound(View()) && Booked()
    }

    constructor ()
      ensures Valid() && View() == Init()
    {
      var idle := Resource(0, seq(APPS, _ => 0), 0, 0, 0, 0, 0, 0, seq(BUCKETS, _ => 0));
      apps := seq(APPS, _ => App(Free, 0, 0, 0, 0, 0, 0));
      resources := [idle, idle];
      periodics := seq(PERIODICS, _ => Periodic(false, 0, 0, 0, 0));
      epochs := seq(BUCKETS, _ => 0);
      next, current, ticks := 0, 0, 0;
      log := Init().log;
      new;
      assert Waiters(idle) == [];
      assert View().locks == Init().locks;
      InitSafe();
      InitOrderly();
    }

    // ------------------------------------------------------------ usage accounting

    /** Make the bucket of an epoch stand for that epoch, clearing what it held before for both resources. */
    method ResourceBucket(epoch: nat)
      requires Shaped()
      modifies this`epochs, this`resources
      ensures Shaped()
      ensures epochs == old(epochs)[epoch % BUCKETS := epoch + 1]
      ensures forall r :: 0 <= r < RESOURCES ==>
                resources[r] == old(resources)[r].(recent := old(resources)[r].recent[
                  epoch % BUCKETS := Entry(old(epochs), old(resources)[r].recent, epoch)])
    {
      var bucket := epoch % BUCKETS;
      if epochs[bucket] == epoch + 1 { return; }
      epochs := epochs[bucket := epoch + 1];
      var i := 0;
      while i < RESOURCES
        invariant i <= RESOURCES && |resources| == RESOURCES
        invariant epochs == old(epochs)[bucket := epoch + 1]
        invariant forall r :: 0 <= r < RESOURCES ==>
                    resources[r] == if r < i then old(resources)[r].(recent := old(resources)[r].recent[bucket := 0])
                                    else old(resources)[r]
      {
        resources := resources[i := resources[i].(recent := resources[i].recent[bucket := 0])];
        i := i + 1;
      }
    }

    /** One turn of the loop below: the ticks of hold h that fall into the bucket of `start`. */
    method SpreadTurn(r: nat, start: nat, now: nat, ghost hs: seq<Hold>, ghost h: Hold) returns (end: nat)
      requires Shaped() && r < RESOURCES && h.res == r + 1 && h.start <= h.end == now
      requires RecordFrom(h) <= start < now && (start == RecordFrom(h) || start % BUCKET_TICKS == 0)
      requires Chronicle(hs, now)
      requires forall i :: 0 <= i < |hs| && hs[i].res == r + 1 ==> hs[i].end <= h.start
      requires Recording(epochs, resources[r].recent, resources[1 - r].recent, hs, h, RecordFrom(h), start)
      modifies this`epochs, this`resources
      ensures Shaped() && start < end <= now && (end == now || end % BUCKET_TICKS == 0)
      ensures Recording(epochs, resources[r].recent, resources[1 - r].recent, hs, h, RecordFrom(h), end)
      ensures forall i :: 0 <= i < RESOURCES ==> resources[i] == old(resources)[i].(recent := resources[i].recent)
    {
      ghost var epochs0, own0, other0 := epochs, resources[r].recent, resources[1 - r].recent;
      var epoch := start / BUCKET_TICKS;
      ResourceBucket(epoch);
      var bucket := epoch % BUCKETS;
      assert resources[r].recent == own0[bucket := Entry(epochs0, own0, epoch)];
      assert resources[1 - r].recent == other0[bucket := Entry(epochs0, other0, epoch)];
      end := (epoch + 1) * BUCKET_TICKS;
      if end > now { end := now; }
      assert end == Min((Epoch(start) + 1) * BUCKET_TICKS, now);
      BucketEnds(start, now, end);
      resources := resources[r := resources[r].(recent := resources[r].recent[
        bucket := resources[r].recent[bucket] + (end - start)])];
      RecordingTurn(epochs0, own0, other0, hs, h, RecordFrom(h), start,
                    epochs, resources[r].recent, resources[1 - r].recent, end);
    }

    /** The loop of `ResourceAccount`: spread the ticks from `start` to the end of hold h over their buckets. */
    method SpreadHold(r: nat, from: nat, now: nat, ghost hs: seq<Hold>, ghost h: Hold)
      requires Shaped() && r < RESOURCES && h.res == r + 1 && h.start <= h.end == now && from == RecordFrom(h)
      requires Chronicle(hs, now)
      requires forall i :: 0 <= i < |hs| && hs[i].res == r + 1 ==> hs[i].end <= h.start
      requires Recording(epochs, resources[r].recent, resources[1 - r].recent, hs, h, from, from)
      modifies this`epochs, this`resources
      ensures Shaped()
      ensures Recording(epochs, resources[r].recent, resources[1 - r].recent, hs, h, from, now)
      ensures forall i :: 0 <= i < RESOURCES ==> resources[i] == old(resources)[i].(recent := resources[i].recent)
    {
      var start := from;
      while start < now
        invariant Shaped() && from <= start <= now
        invariant start == from || start == now || start % BUCKET_TICKS == 0
        invariant Recording(epochs, resources[r].recent, resources[1 - r].recent, hs, h, from, start)
        invariant forall i :: 0 <= i < RESOURCES ==> resources[i] == old(resources)[i].(recent := resources[i].recent)
      {
        start := SpreadTurn(r, start, now, hs, h);
      }
    }

    /** Add the hold of resource r that ends now to its totals and to the buckets it spans. */
    method ResourceAccount(r: nat, now: nat)
      requires Shaped() && r < RESOURCES
      requires resources[r].acquiredTick <= now ==>
                 && Chronicle(log.holds, now)
                 && (forall i :: 0 <= i < |log.holds| && log.holds[i].res == r + 1 ==>
                       log.holds[i].end <= resources[r].acquiredTick)
                 && Ledgers(log.holds, now)
      modifies this`epochs, this`resources
      ensures Shaped()
      ensures now < old(resources)[r].acquiredTick ==> epochs == old(epochs) && resources == old(resources)
      ensures old(resources)[r].acquiredTick <= now ==>
                var h := Hold(r + 1, old(resources)[r].acquiredTick, now);
                && Ledgers(log.holds + [h], now)
                && resources[r] == old(resources)[r].(recent := resources[r].recent,
                                                      totalTicks := old(resources)[r].totalTicks + (h.end - h.start),
                                                      maxHold := Max(old(resources)[r].maxHold, h.end - h.start))
                && resources[1 - r] == old(resources)[1 - r].(recent := resources[1 - r].recent)
    {
      var start := resources[r].acquiredTick;
      if now < start { return; }
      ghost var hs, h := log.holds, Hold(r + 1, start, now);
      RecordingBegins(epochs, resources[r].recent, resources[1 - r].recent, hs, h);
      var hold := now - start;
      resources := resources[r := resources[r].(totalTicks := resources[r].totalTicks + hold)];
      if hold > resources[r].maxHold { resources := resources[r := resources[r].(maxHold := hold)]; }
      if hold > WINDOW_TICKS { start := now - WINDOW_TICKS; }
      SpreadHold(r, start, now, hs, h);
      RecordingEnds(epochs, resources[r].recent, resources[1 - r].recent, hs, h);
    }

    /** The rolling usage of resource r, as the `resources` command prints it. */
    method ResourceRecent(r: nat, now: nat) returns (recent: nat)
      requires Valid() && r < RESOURCES && ticks <= now
      ensures recent == Reported(UsageOf(View(), r + 1), now)
      ensures recent == HeldTicks(AllHolds(UsageOf(View(), r + 1), now), r + 1, FirstEpoch(now) * BUCKET_TICKS, now)
              <==> && !Overlong(UsageOf(View(), r + 1), now)
                   && !AnyRobbed(log.holds, r + 1, FirstEpoch(now), Epoch(now) + 1)
    {
      recent := RecentOf(resources[r], epochs, now);
      RecentMeans(r, now);
      RecentExact(UsageOf(View(), r + 1), now);
    }

    /** Current hold, total and longest hold of resource r, as the `resources` command prints them. */
    method ResourceStatus(r: nat, now: nat) returns (live: nat, total: nat, longest: nat)
      requires Valid() && r < RESOURCES && ticks <= now
      ensures total == HeldTicks(AllHolds(UsageOf(View(), r + 1), now), r + 1, 0, now)
      ensures longest == LongestHold(AllHolds(UsageOf(View(), r + 1), now), r + 1)
      ensures live == if resources[r].owner == 0 then 0 else now - resources[r].acquiredTick
    {
      live, total, longest := StatusOf(resources[r], now);
      FiguresMean(r, now);
    }

    lemma FiguresMean(r: nat, now: nat)
      requires Valid() && r < RESOURCES && ticks <= now
      ensures var u := UsageOf(View(), r + 1);
              && (u.held ==> u.since <= now)
              && var live := if u.held then now - u.since else 0;
                 && resources[r].totalTicks + live == HeldTicks(AllHolds(u, now), r + 1, 0, now)
                 && Max(resources[r].maxHold, live) == LongestHold(AllHolds(u, now), r + 1)
    {
      var u := UsageOf(View(), r + 1);
      RecentMeans(r, now);
      TotalSinceBoot(u, now);
      CountersOf(r);
      if u.held { CountersAppend(u.holds, Hold(r + 1, u.since, now), r + 1); }
    }

    lemma CountersOf(r: nat)
      requires Shaped() && Booked() && r < RESOURCES
      ensures resources[r].totalTicks == TotalHeld(log.holds, r + 1)
      ensures resources[r].maxHold == LongestHold(log.holds, r + 1)
    {
      assert Counters(log.holds);
    }

    lemma RecentMeans(r: nat, now: nat)
      requires Shaped() && Booked() && Recorded(View()) && r < RESOURCES && ticks <= now
      ensures UsageOk(UsageOf(View(), r + 1), now)
      ensures BucketSum(epochs, resources[r].recent, now, BUCKETS) ==
              CreditSum(log.holds, r + 1, FirstEpoch(now), Epoch(now) + 1)
    {
      LedgerLater(epochs, resources[r].recent, log.holds, r + 1, ticks, now);
      BucketSumIsWindow(epochs, resources[r].recent, log.holds, r + 1, now);
      assert UsageOk(UsageOf(View(), r + 1), ticks);
    }

    // ------------------------------------------------------------------ resources

    method ResourceWait(r: nat, slot: nat) returns (ok: bool)
      requires Shaped() && r < RESOURCES
      modifies this`resources
      ensures Shaped() && ok == (old(resources)[r].len < APPS)
      ensures !ok ==> resources == old(resources)
      ensures ok ==> && LockOf(resources[r]) == LockOf(old(resources)[r]).(queue := Waiters(old(resources)[r]) + [slot])
                     && resources[r].recent == old(resources)[r].recent
                     && resources[r].totalTicks == old(resources)[r].totalTicks
                     && resources[r].maxHold == old(resources)[r].maxHold
                     && resources[r].acquisitions == old(resources)[r].acquisitions
                     && resources[1 - r] == old(resources)[1 - r]
    {
      if resources[r].len >= APPS { return false; }
      WaitersAppend(resources[r], slot);
      var tail := (resources[r].head + resources[r].len) % APPS;
      resources := resources[r := resources[r].(wait := resources[r].wait[tail := slot], len := resources[r].len + 1)];
      return true;
    }

    /** The oldest waiter of a resource is a slot that waits for it and owns nothing. */
    ghost predicate HeadWaits(rid: nat)
      requires Shaped() && IsResource(rid)
      reads this
    {
      var q := Waiters(resources[rid - 1]);
      q != [] ==> && q[0] < APPS && apps[q[0]].mode == Blocked
                  && apps[q[0]].waiting == rid && apps[q[0]].owned == 0
    }

    method ResourceGrantNext(rid: nat, now: nat)
      requires Shaped() && IsResource(rid) && Booked() && HeadWaits(rid) && now == ticks
      modifies this`resources, this`apps, this`log
      ensures Shaped() && Booked() && View() == GrantNext(old(View()), rid)
    {
      var r := rid - 1;
      if resources[r].len == 0 { return; }
      WaitersTail(resources[r]);
      var slot := resources[r].wait[resources[r].head];
      resources := resources[r := resources[r].(head := (resources[r].head + 1) % APPS, len := resources[r].len - 1)];
      if slot >= APPS {
        assert false;
      }
      if apps[slot].mode != Blocked || apps[slot].waiting != rid || apps[slot].owned != 0 {
        assert false;
      }
      resources := resources[r := resources[r].(owner := slot + 1, acquiredTick := now,
                                                acquisitions := resources[r].acquisitions + 1)];
      apps := apps[slot := apps[slot].(waiting := 0, owned := rid, rax := 1, mode := Ready)];
      log := log.(grants := log.grants[r := log.grants[r] + [slot]]);
    }

    /** Take a resource whose hold h is already in the books away from slot k. */
    method Vacate(k: nat, rid: nat, ghost h: Hold)
      requires Shaped() && k < APPS && IsResource(rid)
      requires h == Hold(rid, resources[rid - 1].acquiredTick, ticks)
      requires Ledgers(log.holds + [h], ticks) && Counters(log.holds + [h])
      modifies this`resources, this`apps, this`log
      ensures Shaped() && Booked() && View() == Drop(old(View()), k, rid)
    {
      resources := resources[rid - 1 := resources[rid - 1].(owner := 0)];
      apps := apps[k := apps[k].(owned := 0)];
      log := log.(holds := log.holds + [h]);
    }

    /** The hold that slot k gives up now goes into the books. */
    method EndHold(k: nat, rid: nat, now: nat)
      requires Shaped() && Booked() && Recorded(View()) && k < APPS && Owns(View(), k, rid) && now == ticks
      modifies this`resources, this`epochs, this`apps, this`log
      ensures Shaped() && Booked() && View() == Drop(old(View()), k, rid)
    {
      ghost var s := View();
      ghost var h := Hold(rid, resources[rid - 1].acquiredTick, now);
      assert UsageOk(UsageOf(s, rid), now);
      CountersAppend(log.holds, h, 1);
      CountersAppend(log.holds, h, 2);
      ResourceAccount(rid - 1, now);
      assert View() == s;
      Vacate(k, rid, h);
    }

    method ResourceReleaseApp(k: nat, rid: nat) returns (ok: bool)
      requires Shaped() && Booked() && Recorded(View()) && k < APPS && SafeBut(View(), k)
      modifies this`resources, this`epochs, this`apps, this`log
      ensures Shaped() && Booked() && View() == Release(old(View()), k, rid)
      ensures ok == Owns(old(View()), k, rid)
    {
      if !IsResource(rid) || apps[k].owned != rid || resources[rid - 1].owner != k + 1 { return false; }
      var now := ticks;
      ReleaseLock(View(), k, rid);
      EndHold(k, rid, now);
      ResourceGrantNext(rid, now);
      return true;
    }

    method ResourceReclaim(k: nat)
      requires Shaped() && Booked() && Recorded(View()) && k < APPS && SafeBut(View(), k)
      modifies this`resources, this`epochs, this`apps, this`log
      ensures Shaped() && Booked()
      ensures View() == if old(apps)[k].owned != 0 then Release(old(View()), k, old(apps)[k].owned) else old(View())
    {
      var rid := apps[k].owned;
      if rid != 0 {
        assert LockOk(View().apps, View().locks[rid - 1], rid);
        var ok := ResourceReleaseApp(k, rid);
        if !ok {
          assert false;
        }
      }
    }

    /** Whether slot k owns the resource; the two records of it must agree. */
    method ResourceOwned(k: nat, rid: nat) returns (owned: bool)
      requires Shaped() && k < APPS && LocksOk(View())
      ensures owned == Owns(View(), k, rid)
    {
      if !IsResource(rid) || apps[k].owned != rid { return false; }
      assert LockOk(View().apps, View().locks[rid - 1], rid);
      if resources[rid - 1].owner != k + 1 {
        assert false;
      }
      return true;
    }

    /** True if the caller now waits; otherwise its answer is left in `rax`. */
    method ResourceAcquireService(k: nat, rid: nat) returns (blocked: bool, rax: int)
      requires Shaped() && Booked() && k < APPS && SafeBut(View(), k)
      modifies this`resources, this`apps, this`log
      ensures Shaped() && Booked()
      ensures Acquire(old(View()), k, rid) == if blocked then View() else Yield(View(), k, rax)
    {
      if !IsResource(rid) || apps[k].owned != 0 || apps[k].waiting != 0 { return false, 0; }
      var r := rid - 1;
      if resources[r].owner == 0 {
        resources := resources[r := resources[r].(owner := k + 1, acquiredTick := ticks,
                                                  acquisitions := resources[r].acquisitions + 1)];
        apps := apps[k := apps[k].(owned := rid)];
        log := log.(requests := log.requests[r := log.requests[r] + [k]],
                    grants := log.grants[r := log.grants[r] + [k]]);
        return false, 1;
      }
      assert LockOk(View().apps, View().locks[r], rid);
      QueueHasRoom(apps, LockOf(resources[r]), rid, k);
      var ok := ResourceWait(r, k);
      if !ok {
        assert false;
      }
      apps := apps[k := apps[k].(waiting := rid, mode := Blocked)];
      log := log.(requests := log.requests[r := log.requests[r] + [k]]);
      return true, 0;
    }

    // ------------------------------------------------------- interrupts and services

    /** Time passes. */
    method Elapse(n: nat)
      requires Shaped() && Booked() && Recorded(View())
      modifies this`ticks
      ensures Shaped() && Booked() && View() == old(View()).(ticks := old(ticks) + n)
    {
      assert Chronicle(log.holds, ticks);
      LedgerLater(epochs, resources[0].recent, log.holds, 1, ticks, ticks + n);
      LedgerLater(epochs, resources[1].recent, log.holds, 2, ticks, ticks + n);
      ticks := ticks + n;
    }

    /** Termination, by exit, fault or timeout alike: give back what is owned, free the slot. */
    method ProgramFinish(k: nat, result: int)
      requires Shaped() && Booked() && Recorded(View()) && k < APPS && SafeBut(View(), k)
      modifies this`resources, this`epochs, this`apps, this`log
      ensures Shaped() && Booked() && View() == Finish(old(View()), k, result)
    {
      ResourceReclaim(k);
      apps := apps[k := apps[k].(mode := Free, result := result)];
    }

    method ProgramYield(k: nat, rax: int)
      requires Shaped() && Booked() && k < APPS
      modifies this`apps
      ensures Shaped() && Booked() && View() == Yield(old(View()), k, rax)
    {
      apps := apps[k := apps[k].(rax := rax, mode := Ready)];
    }

    method CountTick()
      requires Shaped() && Booked() && Recorded(View()) && TrapOk(View())
      modifies this`ticks
      ensures Shaped() && Booked() && Recorded(View()) && TrapOk(View())
      ensures View() == old(View()).(ticks := old(ticks) + 1)
    {
      ghost var s := View();
      TickMayTrap(s);
      Elapse(1);
      assert View() == s.(ticks := s.ticks + 1);
    }

    /** The timer interrupt, taken in the kernel or in a user program. */
    method TimerInterrupt(ring3: bool) returns (switched: bool)
      requires Shaped() && Booked() && Recorded(View()) && TrapOk(View())
      modifies this
      ensures Shaped() && Booked()
      ensures var u := old(View()).(ticks := old(ticks) + 1); View() == if ring3 then Preempt(u) else u
      ensures switched == (ring3 && old(apps)[old(current)].mode == Running)
    {
      CountTick();
      switched := ProgramPreempt(ring3);
    }

    method ProgramPreempt(ring3: bool) returns (switched: bool)
      requires Shaped() && Booked() && Recorded(View()) && TrapOk(View())
      modifies this`resources, this`epochs, this`apps, this`log
      ensures Shaped() && Booked() && View() == if ring3 then Preempt(old(View())) else old(View())
      ensures switched == (ring3 && old(apps)[old(current)].mode == Running)
    {
      var k := current;
      if apps[k].mode != Running || !ring3 { return false; }
      ChargeSafe(View(), k);
      SameHoldersRecorded(View(), Charge(View(), k));
      apps := apps[k := apps[k].(runtime := apps[k].runtime + 1)];
      if apps[k].runtime >= MAX_TICKS {
        ProgramFinish(k, -200);
      } else {
        apps := apps[k := apps[k].(mode := Ready)];
      }
      return true;
    }

    /** A fault is the program's only in ring 3; one in the kernel is left to the caller. */
    method ProgramFault(vector: nat, ring3: bool) returns (handled: bool)
      requires Shaped() && Booked() && Recorded(View()) && TrapOk(View())
      modifies this`resources, this`epochs, this`apps, this`log
      ensures Shaped() && Booked() && View() == if ring3 then Fault(old(View()), vector) else old(View())
      ensures handled == (ring3 && old(apps)[old(current)].mode == Running)
    {
      if apps[current].mode != Running || !ring3 { return false; }
      ProgramFinish(current, -100 - vector);
      return true;
    }

    /** What the registers come to for slot k, by what it owns. */
    ghost function Outcome(r: Services.Regs, mem: AddressSpaces.Memory, w: Services.Answers, k: nat): (o: Services.Served)
      requires Shaped() && AddressSpaces.UserMemory(mem) && k < APPS
      reads this
      ensures o.call.Transport? ==> IsResource(o.call.rid)
    {
      Services.Outcome(r, mem, w, Owns(View(), k, Services.UDP), Owns(View(), k, Services.TCP))
    }

    /**
     A service call by its registers: `mem` is the program's memory, `w` what the
     world answers.  Only calls of a running program out of ring 3 are let in; the
     caller of one that is loses the processor.
     */
    method ProgramService(r: Services.Regs, mem: AddressSpaces.Memory, w: Services.Answers, ring3: bool)
      returns (switched: bool, request: Services.Request, m: AddressSpaces.Memory)
      requires Shaped() && Booked() && Recorded(View()) && TrapOk(View()) && AddressSpaces.UserMemory(mem)
      modifies this`resources, this`epochs, this`apps, this`log
      ensures Shaped() && Booked() && switched == (ring3 && old(apps)[old(current)].mode == Running)
      ensures View() == if ring3 then Service(old(View()), old(Outcome(r, mem, w, current)).call) else old(View())
      ensures if switched && old(apps)[old(current)].runtime < MAX_TICKS
              then var o := old(Outcome(r, mem, w, current)); request == o.request && m == o.mem
              else request == Services.Silent && m == mem
    {
      switched, request, m := false, Services.Silent, mem;
      if apps[current].mode != Running || !ring3 { return; }
      if apps[current].runtime >= MAX_TICKS {
        ProgramFinish(current, -200);
        return true, request, m;
      }
      var udp := ResourceOwned(current, Services.UDP);
      var tcp := ResourceOwned(current, Services.TCP);
      var o := Services.Dispatch(r, mem, w, udp, tcp);
      switched := Serve(o.call);
      request, m := o.request, o.mem;
    }

    method Serve(call: Call) returns (switched: bool)
      requires Shaped() && Booked() && Recorded(View()) && TrapOk(View())
      requires call.Transport? ==> IsResource(call.rid)
      modifies this`resources, this`epochs, this`apps, this`log
      ensures Shaped() && Booked() && View() == Service(old(View()), call)
      ensures switched == (old(apps)[old(current)].mode == Running)
    {
      var k := current;
      if apps[k].mode != Running { return false; }
      if apps[k].runtime >= MAX_TICKS {
        ProgramFinish(k, -200);
        return true;
      }
      switched := true;
      match call
      case Exit(code) =>
        ProgramFinish(k, code);
      case AcquireCall(rdi) =>
        var blocked, rax := ResourceAcquireService(k, rdi % B32);
        if !blocked { ProgramYield(k, rax); }
      case ReleaseCall(rdi) =>
        var ok := ResourceReleaseApp(k, rdi % B32);
        ProgramYield(k, if ok then 1 else 0);
      case Transport(rid, reply) =>
        var owned := ResourceOwned(k, rid);
        ProgramYield(k, if owned then reply else 0);
      case Plain(reply) =>
        ProgramYield(k, reply);
    }

    // ---------------------------------------------------------- starting, scheduling

    /** Load a program into the first free slot; `a` says whether the load succeeds and how long it takes. */
    method ProgramStartPath(periodicId: nat, a: Attempt, ghost serial: nat) returns (code: StartCode, slot: nat)
      requires Shaped() && Booked() && Recorded(View())
      modifies this`apps, this`current, this`ticks, this`log
      ensures Shaped() && Booked()
      ensures StartResult(View(), code, slot) == Start(old(View()), periodicId, serial, a)
    {
      slot := 0;
      while slot < APPS && apps[slot].mode != Free
        invariant slot <= APPS && FirstFree(apps, 0) == FirstFree(apps, slot)
      {
        slot := slot + 1;
      }
      if slot == APPS { return Busy, APPS; }
      current := slot;
      Elapse(a.delay);
      if !a.ok { return Failed, APPS; }
      apps := apps[slot := App(Ready, 0, 0, 0, periodicId, 0, -1)];
      log := log.(tenants := log.tenants[slot := serial]);
      return Started, slot;
    }

    /** Give the processor to a slot. */
    method Activate(slot: nat)
      requires Shaped() && Booked() && slot < APPS
      modifies this`apps, this`current, this`next
      ensures Shaped() && Booked()
      ensures View() == old(View()).(next := (slot + 1) % APPS, current := slot,
                                     apps := old(apps)[slot := old(apps)[slot].(mode := Running)])
    {
      next := (slot + 1) % APPS;
      current := slot;
      apps := apps[slot := apps[slot].(mode := Running)];
    }

    /** Give the processor to the next ready slot in round-robin order; false if there is none. */
    method ProgramSchedule() returns (ran: bool)
      requires Shaped() && Booked()
      modifies this`apps, this`current, this`next
      ensures Shaped() && Booked() && View() == Schedule(old(View()))
      ensures ran == (FirstReady(old(View()), 0) < APPS)
    {
      ghost var s := View();
      var i := 0;
      while i < APPS
        invariant i <= APPS && View() == s && FirstReady(s, 0) == FirstReady(s, i)
      {
        var slot := (next + i) % APPS;
        if apps[slot].mode == Ready {
          Activate(slot);
          return true;
        }
        i := i + 1;
      }
      return false;
    }

    // ---------------------------------------------------------------- periodic launch

    /** `wellFormed` stands for the tests of the program name and of the length of its arguments. */
    method PeriodicAdd(seconds: nat, count: nat, wellFormed: bool) returns (ok: bool)
      requires Shaped() && Booked()
      modifies this`periodics, this`log
      ensures Shaped() && Booked() && View() == Add(old(View()), seconds, count, wellFormed)
      ensures ok == AddAccepted(old(View()), seconds, count, wellFormed)
    {
      if seconds == 0 || count == 0 || seconds > (B64 - 1) / TICK_HZ || !wellFormed { return false; }
      var i := 0;
      while i < PERIODICS && periodics[i].active
        invariant i <= PERIODICS && FirstIdle(periodics, 0) == FirstIdle(periodics, i)
      {
        i := i + 1;
      }
      if i == PERIODICS { return false; }
      var interval := seconds * TICK_HZ;
      var now := ticks;
      if now > B64 - 1 - interval { return false; }
      periodics := periodics[i := Periodic(true, interval, now + interval, count, APPS)];
      log := log.(bookings := log.bookings + [Booking(count, interval, now)],
                  serials := log.serials[i := |log.bookings| + 1]);
      return true;
    }

    method PeriodicCancel(id: nat) returns (ok: bool)
      requires Shaped() && Booked()
      modifies this`periodics, this`log
      ensures Shaped() && Booked() && View() == Cancel(old(View()), id)
      ensures ok == (id < PERIODICS && old(periodics)[id].active)
    {
      if id >= PERIODICS || !periodics[id].active { return false; }
      periodics := periodics[id := periodics[id].(active := false)];
      log := log.(cancelled := log.cancelled + {log.serials[id]});
      return true;
    }

    /** The body of the loop of `PeriodicPoll`. */
    method PollEntry(i: nat, now: nat, a: Attempt)
      requires Shaped() && Booked() && Recorded(View()) && i < PERIODICS
      modifies this`apps, this`periodics, this`current, this`ticks, this`log
      ensures Shaped() && Booked() && View() == PollOne(old(View()), i, now, a)
    {
      if !periodics[i].active { return; }
      if periodics[i].slot < APPS {
        var slot := periodics[i].slot;
        if apps[slot].periodicId == i + 1 && apps[slot].mode != Free { return; }
        periodics := periodics[i := periodics[i].(slot := APPS)];
        if periodics[i].remaining == 0 {
          periodics := periodics[i := periodics[i].(active := false)];
          log := log.(completed := log.completed + {log.serials[i]});
          return;
        }
      }
      if now < periodics[i].nextTick { return; }
      LaunchEntry(i, now, a);
    }

    method LaunchEntry(i: nat, now: nat, a: Attempt)
      requires Shaped() && Booked() && Recorded(View()) && i < PERIODICS
      modifies this`apps, this`periodics, this`current, this`ticks, this`log
      ensures Shaped() && Booked() && View() == TryLaunch(old(View()), i, now, a)
    {
      ghost var serial := log.serials[i];
      var p := periodics[i];
      var code, slot := ProgramStartPath(i + 1, a, serial);
      match code
      case Busy =>
      case Failed =>
        periodics := periodics[i := p.(nextTick := now + p.interval)];
      case Started =>
        periodics := periodics[i := p.(slot := slot, remaining := (p.remaining + B32 - 1) % B32,
                                       nextTick := now + p.interval)];
        log := log.(launches := log.launches + [Launch(serial, slot, now)]);
    }

    method PollTurn(i: nat, now: nat, attempts: seq<Attempt>, ghost s: Table)
      requires Shaped() && Booked() && Recorded(View()) && |attempts| == PERIODICS && i < PERIODICS
      requires PollFrom(s, 0, now, attempts) == PollFrom(View(), i, now, attempts)
      modifies this`apps, this`periodics, this`current, this`ticks, this`log
      ensures Shaped() && Booked() && Recorded(View())
      ensures PollFrom(s, 0, now, attempts) == PollFrom(View(), i + 1, now, attempts)
    {
      PollOneRecorded(View(), i, now, attempts[i]);
      PollEntry(i, now, attempts[i]);
    }

    method PeriodicPoll(attempts: seq<Attempt>)
      requires Shaped() && Booked() && Recorded(View()) && |attempts| == PERIODICS
      modifies this`apps, this`periodics, this`current, this`ticks, this`log
      ensures Shaped() && Booked() && View() == Poll(old(View()), attempts)
    {
      var now := ticks;
      ghost var s := View();
      var i := 0;
      while i < PERIODICS
        invariant i <= PERIODICS && Shaped() && Booked() && Recorded(View())
        invariant PollFrom(s, 0, now, attempts) == PollFrom(View(), i, now, attempts)
      {
        PollTurn(i, now, attempts, s);
        i := i + 1;
      }
    }

    // ------------------------------------------------------------------------- runs

    /** Handle whatever comes next, from the processor or from the kernel loop. */
    method Handle(e: Happening)
      requires Valid()
      modifies this
      ensures Valid() && View() == Step(old(View()), e)
    {
      ghost var s := View();
      StepSound(s, e);
      if IsTrap(e) {
        if apps[current].mode == Running { SafeToBut(s); }
        HandleTrap(e);
      } else if apps[current].mode != Running {
        HandleInLoop(e);
      }
      assert View() == Step(s, e);
    }

    method HandleTrap(e: Happening)
      requires Shaped() && Booked() && Recorded(View()) && TrapOk(View())
      modifies this
      ensures Shaped() && Booked() && View() == TrapStep(old(View()), e)
    {
      ghost var s := View();
      match e
      case Tick =>
        var _ := TimerInterrupt(false);
        assert TrapStep(s, e) == s.(ticks := s.ticks + 1);
      case UserTick =>
        var _ := TimerInterrupt(true);
        assert TrapStep(s, e) == Preempt(s.(ticks := s.ticks + 1));
      case Called(call) =>
        var _ := Serve(call);
        assert TrapStep(s, e) == Service(s, call);
      case Faulted(vector) =>
        var _ := ProgramFault(vector, true);
        assert TrapStep(s, e) == Fault(s, vector);
      case _ =>
    }

    method HandleInLoop(e: Happening)
      requires Shaped() && Booked() && Recorded(View())
      modifies this
      ensures Shaped() && Booked() && View() == LoopStep(old(View()), e)
    {
      match e
      case RunCommand(a) =>
        var _, _ := ProgramStartPath(0, a, 0);
      case Scheduled =>
        var _ := ProgramSchedule();
      case Polled(attempts) =>
        PeriodicPoll(attempts);
      case Added(seconds, count, wellFormed) =>
        var _ := PeriodicAdd(seconds, count, wellFormed);
      case Cancelled(id) =>
        var _ := PeriodicCancel(id);
      case _ =>
    }
  }
}
