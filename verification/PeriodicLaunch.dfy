/**
 Periodic launches over whole runs: every reservation launches at most as often
 as it was booked for, never beside itself and never early, whatever becomes of
 the slots and table entries it used.
 */
module PeriodicLaunch {
  import opened Basics
  import opened KernelModel
  import opened ResourceSafety

  /** The launches made for reservation u. */
  function Count(ls: seq<Launch>, u: nat): (n: nat) {
    if ls == [] then 0 else Count(ls[..|ls| - 1], u) + (if ls[|ls| - 1].serial == u then 1 else 0)
  }

  /** An active entry owes exactly the launches its reservation has not had yet. */
  predicate EntryOk(p: Periodic, u: nat, log: History) {
    && 1 <= u <= |log.bookings| && u !in log.completed && u !in log.cancelled
    && log.bookings[u - 1].interval == p.interval
    && Count(log.launches, u) + p.remaining == log.bookings[u - 1].count
    && p.remaining < B32 && p.slot <= APPS
    && (p.remaining == 0 ==> p.slot < APPS)
    && log.bookings[u - 1].made + p.interval <= p.nextTick
    && (forall n :: 0 <= n < |log.launches| && log.launches[n].serial == u ==>
          log.launches[n].tick + p.interval <= p.nextTick)
  }

  predicate EntriesOk(ps: seq<Periodic>, log: History)
    requires |ps| == PERIODICS && |log.serials| == PERIODICS
  {
    && (forall i :: 0 <= i < PERIODICS && ps[i].active ==> EntryOk(ps[i], log.serials[i], log))
    && (forall i, j :: 0 <= i < j < PERIODICS && ps[i].active && ps[j].active ==> log.serials[i] != log.serials[j])
  }

  /** A live application belongs to an entry's reservation exactly if the entry points at it. */
  predicate TenantOk(p: Periodic, i: nat, u: nat, a: App, k: nat, tenant: nat) {
    p.active && a.mode != Free ==> (tenant == u <==> p.slot == k && a.periodicId == i + 1)
  }

  predicate TenantsOk(apps: seq<App>, ps: seq<Periodic>, log: History)
    requires |apps| == APPS && |ps| == PERIODICS && |log.serials| == PERIODICS && |log.tenants| == APPS
  {
    && (forall i, k :: 0 <= i < PERIODICS && 0 <= k < APPS ==>
          TenantOk(ps[i], i, log.serials[i], apps[k], k, log.tenants[k]))
    && (forall k :: 0 <= k < APPS ==> log.tenants[k] <= |log.bookings|)
    && (forall k, l :: 0 <= k < l < APPS && apps[k].mode != Free && apps[l].mode != Free && log.tenants[k] != 0 ==>
          log.tenants[k] != log.tenants[l])
  }

  /** Reservation b has reached its first deadline by the time of launch l. */
  predicate NotBefore(l: Launch, b: Booking) { b.made + b.interval <= l.tick }

  /**
   Launches are booked ones, none is made before its reservation is an interval
   old, and those of one reservation are at least its interval apart.
   */
  predicate LaunchesOk(log: History) {
    && (forall n :: 0 <= n < |log.launches| ==>
          && 1 <= log.launches[n].serial <= |log.bookings|
          && NotBefore(log.launches[n], log.bookings[log.launches[n].serial - 1]))
    && (forall m, n :: 0 <= m < n < |log.launches| && log.launches[m].serial == log.launches[n].serial ==>
          log.launches[m].tick + log.bookings[log.launches[m].serial - 1].interval <= log.launches[n].tick)
  }

  /** Reservation u is in the table. */
  predicate Listed(ps: seq<Periodic>, log: History, u: nat)
    requires |ps| == PERIODICS && |log.serials| == PERIODICS
  {
    exists i :: 0 <= i < PERIODICS && ps[i].active && log.serials[i] == u
  }

  /** No reservation is lost: each is in the table, ran to its end, or was cancelled. */
  predicate AllAccounted(ps: seq<Periodic>, log: History)
    requires |ps| == PERIODICS && |log.serials| == PERIODICS
  {
    && (forall u :: 1 <= u <= |log.bookings| ==> u in log.completed || u in log.cancelled || Listed(ps, log, u))
    && (forall u <- log.completed :: 1 <= u <= |log.bookings|
                                     && Count(log.launches, u) == log.bookings[u - 1].count)
    && (forall u <- log.cancelled :: 1 <= u <= |log.bookings|
                                     && Count(log.launches, u) <= log.bookings[u - 1].count)
  }

  predicate Orderly(s: Table) {
    && EntriesOk(s.periodics, s.log)
    && TenantsOk(s.apps, s.periodics, s.log)
    && LaunchesOk(s.log)
    && AllAccounted(s.periodics, s.log)
  }

  lemma InitOrderly()
    ensures Orderly(Init())
  {
  }

  // ------------------------------------------------ steps that launch nothing

  /** t differs from s only in slots that did not come alive and in what the periodic table never reads. */
  predicate SameTenants(s: Table, t: Table) {
    && t.periodics == s.periodics
    && t.log.bookings == s.log.bookings && t.log.serials == s.log.serials && t.log.tenants == s.log.tenants
    && t.log.launches == s.log.launches && t.log.completed == s.log.completed && t.log.cancelled == s.log.cancelled
    && (forall k :: 0 <= k < APPS ==>
          t.apps[k].periodicId == s.apps[k].periodicId && (t.apps[k].mode != Free ==> s.apps[k].mode != Free))
  }

  lemma SameTenantsTenants(s: Table, t: Table)
    requires TenantsOk(s.apps, s.periodics, s.log) && SameTenants(s, t)
    ensures TenantsOk(t.apps, t.periodics, t.log)
  {
    assert forall i, k :: 0 <= i < PERIODICS && 0 <= k < APPS ==>
      TenantOk(s.periodics[i], i, s.log.serials[i], s.apps[k], k, s.log.tenants[k]);
  }

  lemma SameTenantsOrderly(s: Table, t: Table)
    requires Orderly(s) && SameTenants(s, t)
    ensures Orderly(t)
  {
    assert EntriesOk(t.periodics, t.log) by {
      assert forall i :: 0 <= i < PERIODICS && s.periodics[i].active ==> EntryOk(s.periodics[i], s.log.serials[i], s.log);
    }
    SameTenantsTenants(s, t);
    assert AllAccounted(t.periodics, t.log) by {
      assert forall u :: Listed(s.periodics, s.log, u) ==> Listed(t.periodics, t.log, u);
    }
  }

  lemma ReleaseSameTenants(s: Table, k: nat, rid: nat)
    requires k < APPS && SafeBut(s, k)
    ensures SameTenants(s, Release(s, k, rid))
  {
    if Owns(s, k, rid) {
      ReleaseLock(s, k, rid);
    }
  }

  lemma FinishSameTenants(s: Table, k: nat, result: int)
    requires k < APPS && SafeBut(s, k)
    ensures SameTenants(s, Finish(s, k, result))
  {
    ReleaseSameTenants(s, k, s.apps[k].owned);
  }

  lemma ServiceSameTenants(s: Table, call: Call)
    requires Safe(s) && (call.Transport? ==> IsResource(call.rid))
    ensures SameTenants(s, Service(s, call))
  {
    if s.apps[s.current].mode == Running {
      SafeToBut(s);
      FinishSameTenants(s, s.current, -200);
      match call
      case Exit(code) => FinishSameTenants(s, s.current, code);
      case ReleaseCall(rdi) => ReleaseSameTenants(s, s.current, rdi % B32);
      case _ =>
    }
  }

  lemma PreemptSameTenants(s: Table)
    requires Safe(s)
    ensures SameTenants(s, Preempt(s))
  {
    if s.apps[s.current].mode == Running {
      SafeToBut(s);
      ChargeSafe(s, s.current);
      FinishSameTenants(Charge(s, s.current), s.current, -200);
    }
  }

  lemma TrapSameTenants(s: Table, e: Happening)
    requires Safe(s)
    ensures SameTenants(s, TrapStep(s, e))
  {
    var u, t := s.(ticks := s.ticks + 1), TrapStep(s, e);
    match e
    case UserTick => SafeFrame(s, u); PreemptSameTenants(u); assert t == Preempt(u);
    case Called(call) => ServiceSameTenants(s, call); assert t == Service(s, call);
    case Faulted(vector) =>
      if s.apps[s.current].mode == Running {
        SafeToBut(s);
        FinishSameTenants(s, s.current, -100 - vector);
      }
    case _ =>
  }

  // --------------------------------------------------------- changes of the table

  lemma OccupyTenants(s: Table, k: nat)
    requires Orderly(s) && k < APPS && s.apps[k].mode == Free
    ensures var t := Occupy(s, k, 0, 0); TenantsOk(t.apps, t.periodics, t.log)
  {
    assert forall i, j :: 0 <= i < PERIODICS && 0 <= j < APPS ==>
      TenantOk(s.periodics[i], i, s.log.serials[i], s.apps[j], j, s.log.tenants[j]);
    assert forall i :: 0 <= i < PERIODICS && s.periodics[i].active ==> EntryOk(s.periodics[i], s.log.serials[i], s.log);
  }

  lemma OccupyOrderly(s: Table, k: nat)
    requires Orderly(s) && k < APPS && s.apps[k].mode == Free
    ensures Orderly(Occupy(s, k, 0, 0))
  {
    var t := Occupy(s, k, 0, 0);
    assert EntriesOk(t.periodics, t.log) by {
      assert forall i :: 0 <= i < PERIODICS && s.periodics[i].active ==> EntryOk(s.periodics[i], s.log.serials[i], s.log);
    }
    OccupyTenants(s, k);
    assert AllAccounted(t.periodics, t.log) by {
      assert forall u :: Listed(s.periodics, s.log, u) ==> Listed(t.periodics, t.log, u);
    }
  }

  lemma {:induction false} CountAbsent(ls: seq<Launch>, u: nat)
    requires forall n :: 0 <= n < |ls| ==> ls[n].serial != u
    ensures Count(ls, u) == 0
  {
    if ls != [] {
      CountAbsent(ls[..|ls| - 1], u);
    }
  }

  lemma CountAppend(ls: seq<Launch>, l: Launch, u: nat)
    ensures Count(ls + [l], u) == Count(ls, u) + (if l.serial == u then 1 else 0)
  {
    assert (ls + [l])[..|ls|] == ls;
  }

  /** Replacing entry i keeps the table in order if the new entry is. */
  lemma EntryReplaced(s: Table, t: Table, i: nat)
    requires Orderly(s) && i < PERIODICS
    requires t.apps == s.apps && t.log == s.log
    requires t.periodics == s.periodics[i := t.periodics[i]] && t.periodics[i].active && s.periodics[i].active
    requires EntryOk(t.periodics[i], t.log.serials[i], t.log)
    requires forall k :: 0 <= k < APPS ==>
               TenantOk(t.periodics[i], i, t.log.serials[i], t.apps[k], k, t.log.tenants[k])
    ensures Orderly(t)
  {
    assert forall u :: Listed(s.periodics, s.log, u) ==> Listed(t.periodics, t.log, u) by {
      forall u | Listed(s.periodics, s.log, u) ensures Listed(t.periodics, t.log, u) {
        var j :| 0 <= j < PERIODICS && s.periodics[j].active && s.log.serials[j] == u;
        assert t.periodics[j].active;
      }
    }
    assert TenantsOk(t.apps, t.periodics, t.log);
    assert EntriesOk(t.periodics, t.log);
  }

  lemma DetachOrderly(s: Table, i: nat)
    requires Orderly(s) && i < PERIODICS && s.periodics[i].active
    requires !StillRunning(s, i) && s.periodics[i].remaining != 0
    ensures Orderly(Detach(s, i))
  {
    assert EntryOk(s.periodics[i], s.log.serials[i], s.log);
    forall k | 0 <= k < APPS
      ensures TenantOk(Detach(s, i).periodics[i], i, s.log.serials[i], s.apps[k], k, s.log.tenants[k])
    {
      assert TenantOk(s.periodics[i], i, s.log.serials[i], s.apps[k], k, s.log.tenants[k]);
    }
    EntryReplaced(s, Detach(s, i), i);
  }

  lemma RetiredAccounted(s: Table, t: Table, i: nat)
    requires AllAccounted(s.periodics, s.log) && i < PERIODICS
    requires EntryOk(s.periodics[i], s.log.serials[i], s.log)
    requires t.periodics == s.periodics[i := t.periodics[i]] && !t.periodics[i].active
    requires || t.log == s.log.(cancelled := s.log.cancelled + {s.log.serials[i]})
             || (t.log == s.log.(completed := s.log.completed + {s.log.serials[i]}) && s.periodics[i].remaining == 0)
    ensures AllAccounted(t.periodics, t.log)
  {
    forall v | 1 <= v <= |t.log.bookings| && v !in t.log.completed && v !in t.log.cancelled
      ensures Listed(t.periodics, t.log, v)
    {
      assert Listed(s.periodics, s.log, v);
      var j :| 0 <= j < PERIODICS && s.periodics[j].active && s.log.serials[j] == v;
      assert t.periodics[j].active;
    }
  }

  /** Entry i leaves the table, its reservation being recorded as run to its end or as cancelled. */
  lemma EntryRetired(s: Table, t: Table, i: nat)
    requires Orderly(s) && i < PERIODICS && s.periodics[i].active
    requires t.apps == s.apps
    requires t.periodics == s.periodics[i := t.periodics[i]] && !t.periodics[i].active
    requires || t.log == s.log.(cancelled := s.log.cancelled + {s.log.serials[i]})
             || (t.log == s.log.(completed := s.log.completed + {s.log.serials[i]}) && s.periodics[i].remaining == 0)
    ensures Orderly(t)
  {
    assert EntryOk(s.periodics[i], s.log.serials[i], s.log);
    RetiredEntries(s, t, i);
    RetiredTenants(s, t, i);
    RetiredAccounted(s, t, i);
  }

  lemma RetiredEntries(s: Table, t: Table, i: nat)
    requires EntriesOk(s.periodics, s.log) && i < PERIODICS && s.periodics[i].active
    requires t.periodics == s.periodics[i := t.periodics[i]] && !t.periodics[i].active
    requires || t.log == s.log.(cancelled := s.log.cancelled + {s.log.serials[i]})
             || t.log == s.log.(completed := s.log.completed + {s.log.serials[i]})
    ensures EntriesOk(t.periodics, t.log)
  {
    forall j | 0 <= j < PERIODICS && t.periodics[j].active ensures EntryOk(t.periodics[j], t.log.serials[j], t.log) {
      assert EntryOk(s.periodics[j], s.log.serials[j], s.log);
    }
  }

  lemma RetiredTenants(s: Table, t: Table, i: nat)
    requires TenantsOk(s.apps, s.periodics, s.log) && i < PERIODICS && t.apps == s.apps
    requires t.periodics == s.periodics[i := t.periodics[i]] && !t.periodics[i].active
    requires t.log.serials == s.log.serials && t.log.tenants == s.log.tenants && t.log.bookings == s.log.bookings
    ensures TenantsOk(t.apps, t.periodics, t.log)
  {
    assert forall j, k :: 0 <= j < PERIODICS && 0 <= k < APPS ==>
      TenantOk(s.periodics[j], j, s.log.serials[j], s.apps[k], k, s.log.tenants[k]);
  }

  /** Cancelling keeps the table in order and leaves every application alone. */
  lemma CancelOrderly(s: Table, id: nat)
    requires Orderly(s)
    ensures Orderly(Cancel(s, id)) && Cancel(s, id).apps == s.apps
  {
    if id < PERIODICS && s.periodics[id].active {
      EntryRetired(s, Cancel(s, id), id);
    }
  }

  /** A new reservation takes an idle entry; its number is new to everything recorded. */
  lemma AddOrderly(s: Table, seconds: nat, count: nat, wellFormed: bool)
    requires Orderly(s) && count < B32
    ensures Orderly(Add(s, seconds, count, wellFormed))
  {
    if AddAccepted(s, seconds, count, wellFormed) {
      var t := Add(s, seconds, count, wellFormed);
      var i, u := FirstIdle(s.periodics, 0), |s.log.bookings| + 1;
      AddEntries(s, seconds, count, wellFormed);
      AddTenants(s, seconds, count, wellFormed);
      AddAccounted(s, t, i, u);
    }
  }

  lemma AddEntries(s: Table, seconds: nat, count: nat, wellFormed: bool)
    requires EntriesOk(s.periodics, s.log) && LaunchesOk(s.log) && AllAccounted(s.periodics, s.log) && count < B32
    requires AddAccepted(s, seconds, count, wellFormed)
    ensures var t := Add(s, seconds, count, wellFormed); EntriesOk(t.periodics, t.log)
  {
    var t := Add(s, seconds, count, wellFormed);
    CountAbsent(s.log.launches, |s.log.bookings| + 1);
    forall j | 0 <= j < PERIODICS && t.periodics[j].active ensures EntryOk(t.periodics[j], t.log.serials[j], t.log) {
      assert j != FirstIdle(s.periodics, 0) ==> EntryOk(s.periodics[j], s.log.serials[j], s.log);
    }
  }

  lemma AddTenants(s: Table, seconds: nat, count: nat, wellFormed: bool)
    requires TenantsOk(s.apps, s.periodics, s.log) && AddAccepted(s, seconds, count, wellFormed)
    ensures var t := Add(s, seconds, count, wellFormed); TenantsOk(t.apps, t.periodics, t.log)
  {
    assert forall j, k :: 0 <= j < PERIODICS && 0 <= k < APPS ==>
      TenantOk(s.periodics[j], j, s.log.serials[j], s.apps[k], k, s.log.tenants[k]);
  }

  lemma AddAccounted(s: Table, t: Table, i: nat, u: nat)
    requires AllAccounted(s.periodics, s.log) && i < PERIODICS && !s.periodics[i].active
    requires u == |s.log.bookings| + 1 && |t.log.bookings| == u && s.log.bookings <= t.log.bookings
    requires t.log.launches == s.log.launches
    requires t.log.completed == s.log.completed && t.log.cancelled == s.log.cancelled
    requires t.periodics == s.periodics[i := t.periodics[i]] && t.periodics[i].active
    requires t.log.serials == s.log.serials[i := u]
    ensures AllAccounted(t.periodics, t.log)
  {
    forall v | 1 <= v <= |t.log.bookings| && v !in t.log.completed && v !in t.log.cancelled
      ensures Listed(t.periodics, t.log, v)
    {
      if v == u {
        assert t.periodics[i].active;
      } else {
        assert Listed(s.periodics, s.log, v);
        var j :| 0 <= j < PERIODICS && s.periodics[j].active && s.log.serials[j] == v;
        assert t.periodics[j].active;
      }
    }
  }

  /** A launch that fails to load moves the deadline and nothing else. */
  lemma FailedLaunchOrderly(s: Table, i: nat, now: nat)
    requires Orderly(s) && i < PERIODICS && s.periodics[i].active && s.periodics[i].nextTick <= now
    ensures var p := s.periodics[i];
            Orderly(s.(periodics := s.periodics[i := p.(nextTick := now + p.interval)]))
  {
    var p := s.periodics[i];
    var t := s.(periodics := s.periodics[i := p.(nextTick := now + p.interval)]);
    assert EntryOk(p, s.log.serials[i], s.log);
    forall k | 0 <= k < APPS
      ensures TenantOk(t.periodics[i], i, t.log.serials[i], t.apps[k], k, t.log.tenants[k])
    {
      assert TenantOk(p, i, s.log.serials[i], s.apps[k], k, s.log.tenants[k]);
    }
    EntryReplaced(s, t, i);
  }

  /** The state after entry i has launched into slot k. */
  function Launched(s: Table, i: nat, k: nat, now: nat): (t: Table)
    requires i < PERIODICS && k < APPS
  {
    var p := s.periodics[i];
    Occupy(s, k, i + 1, s.log.serials[i]).(
      periodics := s.periodics[i := p.(slot := k, nextTick := now + p.interval,
                                       remaining := (p.remaining + B32 - 1) % B32)],
      log := s.log.(tenants := s.log.tenants[k := s.log.serials[i]],
                    launches := s.log.launches + [Launch(s.log.serials[i], k, now)]))
  }

  /** Entry i may launch: nothing of its own is alive and its deadline has passed. */
  predicate MayLaunch(s: Table, i: nat, now: nat)
    requires i < PERIODICS
  {
    var p := s.periodics[i];
    p.active && p.slot == APPS && p.nextTick <= now
  }

  lemma LaunchedEntries(s: Table, i: nat, k: nat, now: nat)
    requires Orderly(s) && i < PERIODICS && k < APPS && MayLaunch(s, i, now)
    ensures EntriesOk(Launched(s, i, k, now).periodics, Launched(s, i, k, now).log)
  {
    var t := Launched(s, i, k, now);
    var u := s.log.serials[i];
    assert EntryOk(s.periodics[i], u, s.log);
    forall j | 0 <= j < PERIODICS && t.periodics[j].active
      ensures EntryOk(t.periodics[j], t.log.serials[j], t.log)
    {
      assert EntryOk(s.periodics[j], s.log.serials[j], s.log);
      CountAppend(s.log.launches, Launch(u, k, now), s.log.serials[j]);
    }
  }

  lemma LaunchedTenants(s: Table, i: nat, k: nat, now: nat)
    requires Orderly(s) && i < PERIODICS && k < APPS && MayLaunch(s, i, now) && s.apps[k].mode == Free
    ensures TenantsOk(Launched(s, i, k, now).apps, Launched(s, i, k, now).periodics, Launched(s, i, k, now).log)
  {
    var t := Launched(s, i, k, now);
    assert EntryOk(s.periodics[i], s.log.serials[i], s.log);
    assert forall j, l :: 0 <= j < PERIODICS && 0 <= l < APPS ==>
      TenantOk(s.periodics[j], j, s.log.serials[j], s.apps[l], l, s.log.tenants[l]);
  }

  lemma LaunchedLaunches(s: Table, i: nat, k: nat, now: nat)
    requires LaunchesOk(s.log) && i < PERIODICS && k < APPS && MayLaunch(s, i, now)
    requires EntryOk(s.periodics[i], s.log.serials[i], s.log)
    ensures LaunchesOk(Launched(s, i, k, now).log)
  {
    var log := Launched(s, i, k, now).log;
    var l := Launch(s.log.serials[i], k, now);
    assert log.launches == s.log.launches + [l] && log.bookings == s.log.bookings;
    assert NotBefore(l, log.bookings[l.serial - 1]);
  }

  lemma LaunchedAccounted(s: Table, i: nat, k: nat, now: nat)
    requires AllAccounted(s.periodics, s.log) && i < PERIODICS && k < APPS
    requires EntryOk(s.periodics[i], s.log.serials[i], s.log)
    ensures AllAccounted(Launched(s, i, k, now).periodics, Launched(s, i, k, now).log)
  {
    var t, u := Launched(s, i, k, now), s.log.serials[i];
    forall v | v in t.log.completed || v in t.log.cancelled
      ensures Count(t.log.launches, v) == Count(s.log.launches, v)
    {
      CountAppend(s.log.launches, Launch(u, k, now), v);
    }
    forall v | Listed(s.periodics, s.log, v) ensures Listed(t.periodics, t.log, v) {
      var j :| 0 <= j < PERIODICS && s.periodics[j].active && s.log.serials[j] == v;
      assert t.periodics[j].active;
    }
  }

  lemma LaunchedOrderly(s: Table, i: nat, k: nat, now: nat)
    requires Orderly(s) && i < PERIODICS && k < APPS && MayLaunch(s, i, now) && s.apps[k].mode == Free
    ensures Orderly(Launched(s, i, k, now))
  {
    assert EntryOk(s.periodics[i], s.log.serials[i], s.log);
    LaunchedEntries(s, i, k, now);
    LaunchedTenants(s, i, k, now);
    LaunchedLaunches(s, i, k, now);
    LaunchedAccounted(s, i, k, now);
  }

  lemma TryLaunchForm(s: Table, i: nat, now: nat, a: Attempt)
    requires i < PERIODICS
    ensures var k := FirstFree(s.apps, 0);
            var p := s.periodics[i];
            var u := s.(current := k, ticks := s.ticks + a.delay);
            TryLaunch(s, i, now, a) ==
            if k == APPS then s
            else if a.ok then Launched(u, i, k, now)
            else u.(periodics := s.periodics[i := p.(nextTick := now + p.interval)])
  {
  }

  /** Entry i, allowed to launch in s, is allowed to in u, where time has passed. */
  lemma LaunchLater(s: Table, u: Table, t: Table, i: nat, k: nat, now: nat, ok: bool)
    requires Orderly(s) && i < PERIODICS && MayLaunch(s, i, now) && k < APPS && s.apps[k].mode == Free
    requires u == s.(current := k, ticks := u.ticks)
    requires var p := u.periodics[i];
             t == if ok then Launched(u, i, k, now) else u.(periodics := u.periodics[i := p.(nextTick := now + p.interval)])
    ensures Orderly(t)
  {
    SameTenantsOrderly(s, u);
    if ok {
      LaunchedOrderly(u, i, k, now);
    } else {
      FailedLaunchOrderly(u, i, now);
    }
  }

  lemma TryLaunchOrderly(s: Table, i: nat, now: nat, a: Attempt)
    requires Orderly(s) && i < PERIODICS && MayLaunch(s, i, now)
    ensures Orderly(TryLaunch(s, i, now, a))
  {
    TryLaunchForm(s, i, now, a);
    var k, t := FirstFree(s.apps, 0), TryLaunch(s, i, now, a);
    if k < APPS {
      LaunchLater(s, s.(current := k, ticks := s.ticks + a.delay), t, i, k, now, a.ok);
    } else {
      assert t == s;
    }
  }

  lemma PollOneOrderly(s: Table, i: nat, now: nat, a: Attempt)
    requires Orderly(s) && i < PERIODICS
    ensures Orderly(PollOne(s, i, now, a))
  {
    var p, t := s.periodics[i], PollOne(s, i, now, a);
    if p.active && !StillRunning(s, i) {
      assert EntryOk(p, s.log.serials[i], s.log);
      if p.remaining == 0 {
        EntryRetired(s, Complete(s, i), i);
      } else {
        DetachOrderly(s, i);
        var u := if p.slot < APPS then Detach(s, i) else s;
        if now < p.nextTick {
          assert t == u;
        } else {
          TryLaunchOrderly(u, i, now, a);
          assert t == TryLaunch(u, i, now, a);
        }
      }
    }
  }

  lemma {:induction false} PollFromOrderly(s: Table, i: nat, now: nat, a: seq<Attempt>)
    requires Orderly(s) && i <= PERIODICS && |a| == PERIODICS
    ensures Orderly(PollFrom(s, i, now, a))
    decreases PERIODICS - i
  {
    if i < PERIODICS {
      PollOneOrderly(s, i, now, a[i]);
      PollFromOrderly(PollOne(s, i, now, a[i]), i + 1, now, a);
    }
  }

  lemma RunCommandOrderly(s: Table, a: Attempt)
    requires Orderly(s)
    ensures Orderly(Start(s, 0, 0, a).state)
  {
    var k := FirstFree(s.apps, 0);
    if k < APPS {
      var u := s.(current := k, ticks := s.ticks + a.delay);
      SameTenantsOrderly(s, u);
      OccupyOrderly(u, k);
    }
  }

  lemma StepOrderly(s: Table, e: Happening)
    requires Safe(s) && Orderly(s)
    ensures Orderly(Step(s, e))
  {
    var t := Step(s, e);
    if IsTrap(e) {
      TrapSameTenants(s, e);
      SameTenantsOrderly(s, t);
    } else if InLoop(s) {
      match e
      case RunCommand(a) => RunCommandOrderly(s, a); assert t == Start(s, 0, 0, a).state;
      case Scheduled => SameTenantsOrderly(s, t);
      case Polled(a) => PollFromOrderly(s, 0, s.ticks, a); assert t == PollFrom(s, 0, s.ticks, a);
      case Added(seconds, count, ok) => AddOrderly(s, seconds, count, ok); assert t == Add(s, seconds, count, ok);
      case Cancelled(id) => CancelOrderly(s, id); assert t == Cancel(s, id);
    }
  }

  lemma {:induction false} RunOrderly(s: Table, es: seq<Happening>)
    requires Safe(s) && Orderly(s)
    ensures Safe(Run(s, es)) && Orderly(Run(s, es))
    decreases |es|
  {
    if es != [] {
      StepSafe(s, es[0]);
      StepOrderly(s, es[0]);
      RunOrderly(Step(s, es[0]), es[1..]);
    }
  }

  lemma ReachableOrderly(es: seq<Happening>)
    ensures Safe(Run(Init(), es)) && Orderly(Run(Init(), es))
  {
    InitSafe();
    InitOrderly();
    RunOrderly(Init(), es);
  }

  // ------------------------------------------------------ consequences over runs

  /** Reservation u is booked: it was accepted at some time. */
  predicate Booked(s: Table, u: nat) { 1 <= u <= |s.log.bookings| }

  /** No reservation launches more often than booked; one that ran to its end launched exactly as often. */
  lemma LaunchesAsBooked(es: seq<Happening>, u: nat)
    requires Booked(Run(Init(), es), u)
    ensures var s := Run(Init(), es);
            && Count(s.log.launches, u) <= s.log.bookings[u - 1].count
            && (u in s.log.completed ==> Count(s.log.launches, u) == s.log.bookings[u - 1].count)
            && (u in s.log.completed || u in s.log.cancelled || Listed(s.periodics, s.log, u))
  {
    ReachableOrderly(es);
    var s := Run(Init(), es);
    if Listed(s.periodics, s.log, u) {
      var i :| 0 <= i < PERIODICS && s.periodics[i].active && s.log.serials[i] == u;
      assert EntryOk(s.periodics[i], u, s.log);
    }
  }

  /** Two applications of one reservation are never alive together. */
  lemma NeverBesideItself(es: seq<Happening>, j: nat, k: nat)
    requires j < k < APPS
    ensures var s := Run(Init(), es);
            s.apps[j].mode != Free && s.apps[k].mode != Free && s.log.tenants[j] != 0 ==>
              s.log.tenants[j] != s.log.tenants[k]
  {
    ReachableOrderly(es);
    var s := Run(Init(), es);
    assert TenantsOk(s.apps, s.periodics, s.log);
  }

  /** Every launch is at least the interval after its reservation was made and after every earlier launch of it. */
  lemma NeverEarly(es: seq<Happening>, n: nat)
    requires n < |Run(Init(), es).log.launches|
    ensures var log := Run(Init(), es).log;
            var l := log.launches[n];
            && 1 <= l.serial <= |log.bookings|
            && var b := log.bookings[l.serial - 1];
               && b.made + b.interval <= l.tick
               && forall m :: 0 <= m < n && log.launches[m].serial == l.serial ==> log.launches[m].tick + b.interval <= l.tick
  {
    ReachableLaunches(es);
    LaunchIsDue(Run(Init(), es).log, n);
  }

  lemma ReachableLaunches(es: seq<Happening>)
    ensures LaunchesOk(Run(Init(), es).log)
  {
    ReachableOrderly(es);
  }

  lemma LaunchIsDue(log: History, n: nat)
    requires LaunchesOk(log) && n < |log.launches|
    ensures var l := log.launches[n];
            && 1 <= l.serial <= |log.bookings|
            && var b := log.bookings[l.serial - 1];
               && b.made + b.interval <= l.tick
               && forall m :: 0 <= m < n && log.launches[m].serial == l.serial ==> log.launches[m].tick + b.interval <= l.tick
  {
    assert NotBefore(log.launches[n], log.bookings[log.launches[n].serial - 1]);
  }

  /** u is booked but no longer in the table. */
  predicate Gone(s: Table, u: nat) { Booked(s, u) && !Listed(s.periodics, s.log, u) }

  lemma TryLaunchGone(s: Table, i: nat, now: nat, a: Attempt, u: nat)
    requires i < PERIODICS && s.periodics[i].active && Gone(s, u)
    ensures Gone(TryLaunch(s, i, now, a), u)
    ensures Count(TryLaunch(s, i, now, a).log.launches, u) == Count(s.log.launches, u)
  {
    var t := TryLaunch(s, i, now, a);
    TryLaunchForm(s, i, now, a);
    CountAppend(s.log.launches, Launch(s.log.serials[i], FirstFree(s.apps, 0), now), u);
    assert forall j :: 0 <= j < PERIODICS ==> t.periodics[j].active == s.periodics[j].active;
  }

  lemma PollOneGone(s: Table, i: nat, now: nat, a: Attempt, u: nat)
    requires i < PERIODICS && Gone(s, u)
    ensures Gone(PollOne(s, i, now, a), u)
    ensures Count(PollOne(s, i, now, a).log.launches, u) == Count(s.log.launches, u)
  {
    var p, t := s.periodics[i], PollOne(s, i, now, a);
    var v := if p.slot < APPS then Detach(s, i) else s;
    assert forall j :: 0 <= j < PERIODICS ==> v.periodics[j].active == s.periodics[j].active;
    assert Gone(v, u);
    if p.active && t == TryLaunch(v, i, now, a) {
      TryLaunchGone(v, i, now, a, u);
    }
  }

  lemma {:induction false} PollFromGone(s: Table, i: nat, now: nat, a: seq<Attempt>, u: nat)
    requires i <= PERIODICS && |a| == PERIODICS && Gone(s, u)
    ensures Gone(PollFrom(s, i, now, a), u)
    ensures Count(PollFrom(s, i, now, a).log.launches, u) == Count(s.log.launches, u)
    decreases PERIODICS - i
  {
    if i < PERIODICS {
      PollOneGone(s, i, now, a[i], u);
      PollFromGone(PollOne(s, i, now, a[i]), i + 1, now, a, u);
    }
  }

  lemma StepGone(s: Table, e: Happening, u: nat)
    requires Safe(s) && Gone(s, u)
    ensures Gone(Step(s, e), u) && Count(Step(s, e).log.launches, u) == Count(s.log.launches, u)
  {
    var t := Step(s, e);
    if IsTrap(e) {
      TrapSameTenants(s, e);
    } else if e.Polled? {
      PollFromGone(s, 0, s.ticks, e.attempts, u);
    }
  }

  lemma {:induction false} RunGone(s: Table, es: seq<Happening>, u: nat)
    requires Safe(s) && Gone(s, u)
    ensures Gone(Run(s, es), u) && Count(Run(s, es).log.launches, u) == Count(s.log.launches, u)
    decreases |es|
  {
    if es != [] {
      StepGone(s, es[0], u);
      StepSafe(s, es[0]);
      RunGone(Step(s, es[0]), es[1..], u);
    }
  }

  /** A reservation that was cancelled, or ran to its end, never launches again, whoever takes over its entry. */
  lemma RetiredStaysRetired(es: seq<Happening>, later: seq<Happening>, u: nat)
    requires u in Run(Init(), es).log.cancelled || u in Run(Init(), es).log.completed
    ensures Count(Run(Run(Init(), es), later).log.launches, u) == Count(Run(Init(), es).log.launches, u)
  {
    var s := Run(Init(), es);
    ReachableOrderly(es);
    assert forall i :: 0 <= i < PERIODICS && s.periodics[i].active ==> EntryOk(s.periodics[i], s.log.serials[i], s.log);
    assert Gone(s, u);
    RunGone(s, later, u);
  }

  predicate Alive(s: Table, u: nat) {
    exists k :: 0 <= k < APPS && s.apps[k].mode != Free && s.log.tenants[k] == u
  }

  predicate Room(s: Table) {
    exists k :: 0 <= k < APPS && s.apps[k].mode == Free
  }

  lemma StillRunningIsAlive(s: Table, i: nat)
    requires Orderly(s) && i < PERIODICS && s.periodics[i].active
    ensures StillRunning(s, i) <==> Alive(s, s.log.serials[i])
  {
    var p, u := s.periodics[i], s.log.serials[i];
    assert forall k :: 0 <= k < APPS ==> TenantOk(p, i, u, s.apps[k], k, s.log.tenants[k]);
  }

  predicate Due(s: Table, i: nat, now: nat, a: Attempt)
    requires i < PERIODICS
  {
    var p := s.periodics[i];
    !Alive(s, s.log.serials[i]) && p.remaining > 0 && now >= p.nextTick && Room(s) && a.ok
  }

  lemma TryLaunchCounts(s: Table, i: nat, now: nat, a: Attempt)
    requires i < PERIODICS && 0 < s.periodics[i].remaining < B32
    ensures var t, u := TryLaunch(s, i, now, a), s.log.serials[i];
            var n := if Room(s) && a.ok then 1 else 0;
            && Count(t.log.launches, u) == Count(s.log.launches, u) + n
            && t.periodics[i].remaining == s.periodics[i].remaining - n
            && t.periodics[i].active == s.periodics[i].active
  {
    TryLaunchForm(s, i, now, a);
    CountAppend(s.log.launches, Launch(s.log.serials[i], FirstFree(s.apps, 0), now), s.log.serials[i]);
    assert Room(s) <==> FirstFree(s.apps, 0) < APPS;
  }

  lemma PollOneCounts(s: Table, i: nat, now: nat, a: Attempt)
    requires Orderly(s) && i < PERIODICS && s.periodics[i].active
    ensures var t, u := PollOne(s, i, now, a), s.log.serials[i];
            var n := if Due(s, i, now, a) then 1 else 0;
            && Count(t.log.launches, u) == Count(s.log.launches, u) + n
            && t.periodics[i].remaining == s.periodics[i].remaining - n
            && (t.periodics[i].active <==> Alive(s, u) || s.periodics[i].remaining > 0)
  {
    var p, t := s.periodics[i], PollOne(s, i, now, a);
    assert EntryOk(p, s.log.serials[i], s.log);
    StillRunningIsAlive(s, i);
    if !StillRunning(s, i) && p.remaining > 0 {
      var v := if p.slot < APPS then Detach(s, i) else s;
      if now < p.nextTick {
        assert t == v;
      } else {
        assert Room(v) == Room(s);
        TryLaunchCounts(v, i, now, a);
        assert t == TryLaunch(v, i, now, a);
      }
    } else if p.remaining == 0 && !StillRunning(s, i) {
      assert t == Complete(s, i);
    }
  }

  /**
   A poll launches entry i exactly when its deadline has passed, nothing it
   launched is alive, launches are owed, a slot is free and the image loads.
   In every other case no launch is made and none is used up; the entry goes
   once its last application has.
   */
  lemma LaunchExactlyWhenDue(es: seq<Happening>, i: nat, now: nat, a: Attempt)
    requires i < PERIODICS && Run(Init(), es).periodics[i].active
    ensures var s := Run(Init(), es);
            var t, u := PollOne(s, i, now, a), s.log.serials[i];
            var n := if Due(s, i, now, a) then 1 else 0;
            && Count(t.log.launches, u) == Count(s.log.launches, u) + n
            && t.periodics[i].remaining == s.periodics[i].remaining - n
            && (t.periodics[i].active <==> Alive(s, u) || s.periodics[i].remaining > 0)
  {
    ReachableOrderly(es);
    PollOneCounts(Run(Init(), es), i, now, a);
  }
}
