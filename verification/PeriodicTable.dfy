/**
 What booking, cancelling and polling do to the table of periodic launches, in
 seconds and ticks.
 */
module PeriodicTable {
  import opened Basics
  import opened KernelModel
  import opened ResourceSafety
  import opened PeriodicLaunch

  /** All entries but i are the same. */
  predicate OthersSame(s: Table, t: Table, i: nat) {
    forall j :: 0 <= j < PERIODICS && j != i ==> t.periodics[j] == s.periodics[j] && t.log.serials[j] == s.log.serials[j]
  }

  /** A new reservation of n seconds: first due a hundred times n ticks from now, for as many launches as asked. */
  predicate BookedAt(s: Table, t: Table, i: nat, seconds: nat, count: nat) {
    && i < PERIODICS && !s.periodics[i].active && OthersSame(s, t, i)
    && t.periodics[i].active && t.periodics[i].remaining == count
    && t.periodics[i].interval == 100 * seconds && t.periodics[i].nextTick == s.ticks + 100 * seconds
    && t.log.bookings == s.log.bookings + [Booking(count, 100 * seconds, s.ticks)]
    && t.log.serials[i] == |t.log.bookings|
  }

  /**
   A reservation is made exactly if it asks for at least one second and one
   launch, its first deadline fits 64 bits, its program is well formed and an
   entry is idle; a refused one changes nothing.
   */
  lemma AddBooks(s: Table, seconds: nat, count: nat, wellFormed: bool)
    requires seconds < B64 && count < B32
    ensures var t := Add(s, seconds, count, wellFormed);
            var accepted := seconds > 0 && count > 0 && wellFormed && s.ticks + 100 * seconds < B64
                            && exists i :: 0 <= i < PERIODICS && !s.periodics[i].active;
            && (accepted ==> exists i :: BookedAt(s, t, i, seconds, count) && t.apps == s.apps && t.locks == s.locks)
            && (!accepted ==> t == s)
  {
    var t, i := Add(s, seconds, count, wellFormed), FirstIdle(s.periodics, 0);
    if AddAccepted(s, seconds, count, wellFormed) {
      assert BookedAt(s, t, i, seconds, count);
    }
  }

  /** A cancellation takes out exactly the entry named, and leaves its program alone. */
  lemma CancelExact(s: Table, id: nat)
    ensures var t := Cancel(s, id);
            && t.apps == s.apps && t.locks == s.locks && t.log.launches == s.log.launches && OthersSame(s, t, id)
            && (id < PERIODICS ==> !t.periodics[id].active)
            && (id < PERIODICS && s.periodics[id].active ==> t.log.cancelled == s.log.cancelled + {s.log.serials[id]})
            && (id >= PERIODICS || !s.periodics[id].active ==> t == s)
  {
  }

  /**
   After polling entry i its next deadline is an interval from now if a launch
   was tried, successfully or not, and is as it was otherwise.
   */
  lemma NextDeadline(s: Table, i: nat, now: nat, a: Attempt)
    requires Orderly(s) && i < PERIODICS && s.periodics[i].active
    ensures var p, q := s.periodics[i], PollOne(s, i, now, a).periodics[i];
            var tried := !Alive(s, s.log.serials[i]) && p.remaining > 0 && now >= p.nextTick && Room(s);
            q.nextTick == (if tried then now + p.interval else p.nextTick) && q.interval == p.interval
  {
    var p, t := s.periodics[i], PollOne(s, i, now, a);
    assert EntryOk(p, s.log.serials[i], s.log);
    StillRunningIsAlive(s, i);
    if !StillRunning(s, i) && p.remaining > 0 && now >= p.nextTick {
      var v := if p.slot < APPS then Detach(s, i) else s;
      assert Room(s) <==> FirstFree(v.apps, 0) < APPS;
      TryLaunchForm(v, i, now, a);
      assert t == TryLaunch(v, i, now, a);
    }
  }

  // ------------------------------------------------------------------- a whole poll

  /** The state of a poll when entry i is about to be looked at. */
  function PollTo(s: Table, i: nat, now: nat, a: seq<Attempt>): (t: Table)
    requires i <= PERIODICS && |a| == PERIODICS
  {
    if i == 0 then s else PollOne(PollTo(s, i - 1, now, a), i - 1, now, a[i - 1])
  }

  lemma {:induction false} PollReaches(s: Table, i: nat, now: nat, a: seq<Attempt>)
    requires i <= PERIODICS && |a| == PERIODICS
    ensures PollFrom(s, 0, now, a) == PollFrom(PollTo(s, i, now, a), i, now, a)
  {
    if i > 0 {
      PollReaches(s, i - 1, now, a);
    }
  }

  /** What entry i and its reservation look like. */
  predicate SameEntry(s: Table, t: Table, i: nat)
    requires i < PERIODICS
  {
    && t.periodics[i] == s.periodics[i] && t.log.serials == s.log.serials
    && Count(t.log.launches, s.log.serials[i]) == Count(s.log.launches, s.log.serials[i])
  }

  lemma TryLeavesOther(s: Table, j: nat, now: nat, a: Attempt, i: nat)
    requires i < PERIODICS && j < PERIODICS && i != j && s.log.serials[i] != s.log.serials[j]
    ensures SameEntry(s, TryLaunch(s, j, now, a), i)
  {
    TryLaunchForm(s, j, now, a);
    CountAppend(s.log.launches, Launch(s.log.serials[j], FirstFree(s.apps, 0), now), s.log.serials[i]);
  }

  /** Polling another entry leaves entry i alone. */
  lemma PollLeavesOther(s: Table, j: nat, now: nat, a: Attempt, i: nat)
    requires Orderly(s) && i < PERIODICS && j < PERIODICS && i != j && s.periodics[i].active
    ensures SameEntry(s, PollOne(s, j, now, a), i)
  {
    var p, t := s.periodics[j], PollOne(s, j, now, a);
    var v := if p.slot < APPS then Detach(s, j) else s;
    if p.active {
      assert s.log.serials[i] != s.log.serials[j];
      if t == TryLaunch(v, j, now, a) {
        TryLeavesOther(v, j, now, a, i);
      }
    }
  }

  lemma {:induction false} PollToKeeps(s: Table, i: nat, n: nat, now: nat, a: seq<Attempt>)
    requires Orderly(s) && n <= i < PERIODICS && |a| == PERIODICS && s.periodics[i].active
    ensures Orderly(PollTo(s, n, now, a)) && SameEntry(s, PollTo(s, n, now, a), i)
  {
    if n > 0 {
      PollToKeeps(s, i, n - 1, now, a);
      PollOneOrderly(PollTo(s, n - 1, now, a), n - 1, now, a[n - 1]);
      PollLeavesOther(PollTo(s, n - 1, now, a), n - 1, now, a[n - 1], i);
    }
  }

  /** What later entries leave of entry i: its reservation and its launches. */
  predicate SameLaunches(s: Table, t: Table, i: nat, u: nat)
    requires i < PERIODICS
  {
    && t.periodics[i] == s.periodics[i] && t.log.serials[i] == s.log.serials[i]
    && Count(t.log.launches, u) == Count(s.log.launches, u)
  }

  /** A reservation that is not in entry j is launched by no poll of entry j. */
  lemma PollLeavesSerial(s: Table, j: nat, now: nat, a: Attempt, i: nat, u: nat)
    requires i < PERIODICS && j < PERIODICS && i != j && s.log.serials[j] != u
    ensures SameLaunches(s, PollOne(s, j, now, a), i, u) && PollOne(s, j, now, a).log.serials == s.log.serials
  {
    var p, t := s.periodics[j], PollOne(s, j, now, a);
    var v := if p.slot < APPS then Detach(s, j) else s;
    if p.active && t == TryLaunch(v, j, now, a) {
      TryLaunchForm(v, j, now, a);
      CountAppend(v.log.launches, Launch(v.log.serials[j], FirstFree(v.apps, 0), now), u);
    }
  }

  lemma {:induction false} PollRestKeeps(s: Table, j: nat, now: nat, a: seq<Attempt>, i: nat, u: nat)
    requires i < j <= PERIODICS && |a| == PERIODICS
    requires forall l :: j <= l < PERIODICS ==> !s.periodics[l].active || s.log.serials[l] != u
    ensures SameLaunches(s, PollFrom(s, j, now, a), i, u)
    decreases PERIODICS - j
  {
    if j < PERIODICS {
      var t := PollOne(s, j, now, a[j]);
      if s.periodics[j].active {
        PollLeavesSerial(s, j, now, a[j], i, u);
      }
      PollOneElsewhere(s, j, now, a[j]);
      PollRestKeeps(t, j + 1, now, a, i, u);
    }
  }

  lemma PollOneElsewhere(s: Table, j: nat, now: nat, a: Attempt)
    requires j < PERIODICS
    ensures var t := PollOne(s, j, now, a);
            t.log.serials == s.log.serials && forall l :: 0 <= l < PERIODICS && l != j ==> t.periodics[l] == s.periodics[l]
  {
    var p, t := s.periodics[j], PollOne(s, j, now, a);
    var v := if p.slot < APPS then Detach(s, j) else s;
    TryLaunchForm(v, j, now, a);
  }

  /**
   A poll looks at every entry, against the tick at its beginning: each active
   entry launches exactly if it is due when its turn comes, and exactly one
   launch is used up.
   */
  lemma PollLaunchesExactly(s: Table, a: seq<Attempt>, i: nat)
    requires Orderly(s) && |a| == PERIODICS && i < PERIODICS && s.periodics[i].active
    ensures var u, v, t := s.log.serials[i], PollTo(s, i, s.ticks, a), Poll(s, a);
            var n := if Due(v, i, s.ticks, a[i]) then 1 else 0;
            && v.periodics[i] == s.periodics[i]
            && Count(t.log.launches, u) == Count(s.log.launches, u) + n
            && t.periodics[i].remaining == s.periodics[i].remaining - n
  {
    var u, now, v := s.log.serials[i], s.ticks, PollTo(s, i, s.ticks, a);
    PollToKeeps(s, i, i, now, a);
    PollOneCounts(v, i, now, a[i]);
    var w := PollOne(v, i, now, a[i]);
    PollOneElsewhere(v, i, now, a[i]);
    PollReaches(s, i, now, a);
    forall l | i < l < PERIODICS ensures !w.periodics[l].active || w.log.serials[l] != u {
      assert v.periodics[l].active ==> v.log.serials[i] != v.log.serials[l];
    }
    PollRestKeeps(w, i + 1, now, a, i, u);
  }
}
