/**
 The round-robin scheduler over whole runs: one application at a time has the
 processor, and one that is ready gets it within four turns.
 */
module Scheduling {
  import opened Basics
  import opened KernelModel
  import opened ResourceSafety

  /** At most one slot runs, none does while the kernel loop is in control, and live slots are within their budget. */
  lemma OneRuns(es: seq<Happening>, j: nat, k: nat)
    requires j < APPS && k < APPS
    ensures var s := Run(Init(), es);
            && (s.apps[j].mode == Running && s.apps[k].mode == Running ==> j == k)
            && (InLoop(s) ==> s.apps[k].mode != Running)
            && (s.apps[k].mode != Free ==> s.apps[k].runtime < MAX_TICKS)
  {
    ReachableSafe(es);
    var s := Run(Init(), es);
    assert SlotOk(s.apps[j], j == s.current);
    assert SlotOk(s.apps[k], k == s.current);
  }

  /** How many places after the cursor slot k comes. */
  function Distance(s: Table, k: nat): (d: nat)
    requires k < APPS
    ensures d < APPS && (s.next + d) % APPS == k
  {
    if k >= s.next then k - s.next else k + APPS - s.next
  }

  lemma {:induction false} FirstReadyWithin(s: Table, k: nat, i: nat)
    requires k < APPS && s.apps[k].mode == Ready && i <= Distance(s, k)
    ensures FirstReady(s, i) < APPS
    ensures i <= Distance(s, FirstReady(s, i)) <= Distance(s, k)
    decreases APPS - i
  {
    if s.apps[(s.next + i) % APPS].mode != Ready {
      FirstReadyWithin(s, k, i + 1);
    }
  }

  /** The slot the scheduler picks is the ready one next after the cursor; it picks none only if none is ready. */
  lemma FirstReadyIsFirst(s: Table)
    ensures var r := FirstReady(s, 0);
            && (r == APPS <==> forall k :: 0 <= k < APPS ==> s.apps[k].mode != Ready)
            && (r < APPS ==> s.apps[r].mode == Ready)
            && (r < APPS ==> forall k :: 0 <= k < APPS && s.apps[k].mode == Ready ==> Distance(s, r) <= Distance(s, k))
  {
    forall k | 0 <= k < APPS && s.apps[k].mode == Ready
      ensures FirstReady(s, 0) < APPS && Distance(s, FirstReady(s, 0)) <= Distance(s, k)
    {
      FirstReadyWithin(s, k, 0);
    }
  }

  /** A turn either goes to slot k or brings the cursor nearer to it. */
  lemma TurnGetsNearer(s: Table, k: nat)
    requires k < APPS && s.apps[k].mode == Ready
    ensures var t := Schedule(s);
            || t.apps[k].mode == Running
            || (t.apps[k].mode == Ready && Distance(t, k) < Distance(s, k))
  {
    FirstReadyWithin(s, k, 0);
  }

  lemma FinishKeepsReady(s: Table, j: nat, result: int, k: nat)
    requires j < APPS && k < APPS && j != k && SafeBut(s, j) && s.apps[k].mode == Ready
    ensures Finish(s, j, result).apps[k].mode == Ready && Finish(s, j, result).next == s.next
  {
  }

  lemma ServiceKeepsReady(s: Table, call: Call, k: nat)
    requires Safe(s) && k < APPS && s.apps[k].mode == Ready && s.apps[s.current].mode == Running
    requires call.Transport? ==> IsResource(call.rid)
    ensures Service(s, call).apps[k].mode == Ready && Service(s, call).next == s.next
  {
    SafeToBut(s);
    FinishKeepsReady(s, s.current, -200, k);
    if call.Exit? {
      FinishKeepsReady(s, s.current, call.code, k);
    }
  }

  lemma PreemptKeepsReady(s: Table, k: nat)
    requires Safe(s) && k < APPS && s.apps[k].mode == Ready && s.apps[s.current].mode == Running
    ensures Preempt(s).apps[k].mode == Ready && Preempt(s).next == s.next
  {
    SafeToBut(s);
    ChargeSafe(s, s.current);
    FinishKeepsReady(Charge(s, s.current), s.current, -200, k);
  }

  lemma TrapKeepsReady(s: Table, e: Happening, k: nat)
    requires Safe(s) && k < APPS && s.apps[k].mode == Ready
    ensures TrapStep(s, e).apps[k].mode == Ready && TrapStep(s, e).next == s.next
  {
    var u := s.(ticks := s.ticks + 1);
    if s.apps[s.current].mode == Running {
      match e
      case UserTick => SafeFrame(s, u); PreemptKeepsReady(u, k); assert TrapStep(s, e) == Preempt(u);
      case Faulted(vector) =>
        SafeToBut(s);
        FinishKeepsReady(s, s.current, -100 - vector, k);
        assert TrapStep(s, e) == Fault(s, vector);
      case Called(call) => ServiceKeepsReady(s, call, k); assert TrapStep(s, e) == Service(s, call);
      case _ =>
    }
  }

  /** A poll leaves live slots alone. */
  lemma PollOneKeepsLive(s: Table, i: nat, now: nat, a: Attempt, k: nat)
    requires i < PERIODICS && k < APPS && s.apps[k].mode != Free
    ensures PollOne(s, i, now, a).apps[k] == s.apps[k] && PollOne(s, i, now, a).next == s.next
  {
  }

  lemma {:induction false} PollKeepsLive(s: Table, i: nat, now: nat, a: seq<Attempt>, k: nat)
    requires i <= PERIODICS && |a| == PERIODICS && k < APPS && s.apps[k].mode != Free
    ensures PollFrom(s, i, now, a).apps[k] == s.apps[k] && PollFrom(s, i, now, a).next == s.next
    decreases PERIODICS - i
  {
    if i < PERIODICS {
      PollOneKeepsLive(s, i, now, a[i], k);
      PollKeepsLive(PollOne(s, i, now, a[i]), i + 1, now, a, k);
    }
  }

  lemma StepKeepsReady(s: Table, e: Happening, k: nat)
    requires Safe(s) && k < APPS && s.apps[k].mode == Ready
    requires !(e.Scheduled? && InLoop(s))
    ensures Step(s, e).apps[k].mode == Ready && Step(s, e).next == s.next
  {
    TrapKeepsReady(s, e, k);
    if e.Polled? {
      PollKeepsLive(s, 0, s.ticks, e.attempts, k);
    }
  }

  predicate IsTurn(s: Table, e: Happening) { e.Scheduled? && InLoop(s) }

  /** Each step serves the ready slot k or leaves it ready, and each turn that passes it by brings it nearer. */
  lemma StepServes(s: Table, e: Happening, k: nat)
    requires Safe(s) && k < APPS && s.apps[k].mode == Ready
    ensures Safe(Step(s, e))
    ensures var t := Step(s, e);
            || (IsTurn(s, e) && t.apps[k].mode == Running)
            || (t.apps[k].mode == Ready && Distance(t, k) + (if IsTurn(s, e) then 1 else 0) <= Distance(s, k))
  {
    StepSafe(s, e);
    if IsTurn(s, e) {
      TurnGetsNearer(s, k);
      assert Step(s, e) == Schedule(s);
    } else {
      StepKeepsReady(s, e, k);
      assert Distance(Step(s, e), k) == Distance(s, k);
    }
  }

  /** The scheduler turns taken in a run. */
  function Turns(s: Table, es: seq<Happening>): (n: nat)
    decreases |es|
  {
    if es == [] then 0
    else (if IsTurn(s, es[0]) then 1 else 0) + Turns(Step(s, es[0]), es[1..])
  }

  /** Some turn of the run goes to slot k. */
  predicate Served(s: Table, es: seq<Happening>, k: nat)
    requires k < APPS
    decreases |es|
  {
    && es != []
    && (|| (IsTurn(s, es[0]) && Step(s, es[0]).apps[k].mode == Running)
        || Served(Step(s, es[0]), es[1..], k))
  }

  /** A ready slot is served within as many turns as its distance from the cursor, plus one. */
  lemma {:induction false} ServedWithinDistance(s: Table, es: seq<Happening>, k: nat)
    requires Safe(s) && k < APPS && s.apps[k].mode == Ready && Turns(s, es) > Distance(s, k)
    ensures Served(s, es, k)
    decreases |es|
  {
    var t := Step(s, es[0]);
    StepServes(s, es[0], k);
    if t.apps[k].mode == Ready {
      ServedWithinDistance(t, es[1..], k);
    }
  }

  /** From any reachable state, four turns are enough for every slot that is ready. */
  lemma NobodyStarves(es: seq<Happening>, later: seq<Happening>, k: nat)
    requires k < APPS && Run(Init(), es).apps[k].mode == Ready
    requires Turns(Run(Init(), es), later) >= APPS
    ensures Served(Run(Init(), es), later, k)
  {
    ReachableSafe(es);
    ServedWithinDistance(Run(Init(), es), later, k);
  }

  // --------------------------------------------------------- leaving a user program

  predicate LeavesUser(e: Event) { e.UserTick? || e.Called? || e.Faulted? }

  lemma ServiceLeaves(s: Table, call: Call)
    requires Safe(s) && s.apps[s.current].mode == Running && (call.Transport? ==> IsResource(call.rid))
    ensures InLoop(Service(s, call)) && Service(s, call).current == s.current
  {
    SafeToBut(s);
    FinishSafe(s, s.current, -200);
    match call
    case Exit(code) => FinishSafe(s, s.current, code);
    case ReleaseCall(rdi) => ReleaseSafe(s, s.current, rdi % B32);
    case _ =>
  }

  /** Whatever a program does or suffers, and at the latest at the next tick, the kernel loop is in control again. */
  lemma KernelRegainsControl(s: Table, e: Happening)
    requires Safe(s) && LeavesUser(e)
    ensures InLoop(Step(s, e))
  {
    var u := s.(ticks := s.ticks + 1);
    if s.apps[s.current].mode == Running {
      SafeToBut(s);
      match e
      case UserTick =>
        TickSafe(s);
        SafeToBut(u);
        ChargeSafe(u, u.current);
        FinishSafe(Charge(u, u.current), u.current, -200);
      case Called(call) => ServiceLeaves(s, call); assert Step(s, e) == Service(s, call);
      case Faulted(vector) => FinishSafe(s, s.current, -100 - vector);
    }
  }

  /** Slot j was waiting for resource rid and has just been given it. */
  predicate Woken(a: App, b: App, rid: nat) {
    a.mode == Blocked && a.waiting == rid && b == a.(waiting := 0, owned := rid, rax := 1, mode := Ready)
  }

  lemma ReleaseUndisturbed(s: Table, k: nat, rid: nat, j: nat)
    requires k < APPS && SafeBut(s, k) && j < APPS && j != k
    ensures Release(s, k, rid).apps[j] == s.apps[j] || Woken(s.apps[j], Release(s, k, rid).apps[j], rid)
  {
    if Owns(s, k, rid) {
      ReleaseLock(s, k, rid);
    }
  }

  lemma FinishUndisturbed(s: Table, k: nat, result: int, j: nat)
    requires k < APPS && SafeBut(s, k) && j < APPS && j != k
    ensures var b := Finish(s, k, result).apps[j];
            b == s.apps[j] || Woken(s.apps[j], b, s.apps[k].owned)
  {
    ReleaseUndisturbed(s, k, s.apps[k].owned, j);
  }

  lemma ServiceUndisturbed(s: Table, call: Call, j: nat)
    requires Safe(s) && s.apps[s.current].mode == Running && j < APPS && j != s.current
    requires call.Transport? ==> IsResource(call.rid)
    ensures var b := Service(s, call).apps[j];
            b == s.apps[j] || Woken(s.apps[j], b, s.apps[s.current].owned)
  {
    SafeToBut(s);
    FinishUndisturbed(s, s.current, -200, j);
    match call
    case Exit(code) => FinishUndisturbed(s, s.current, code, j);
    case ReleaseCall(rdi) => ReleaseUndisturbed(s, s.current, rdi % B32, j);
    case _ =>
  }

  lemma PreemptUndisturbed(s: Table, j: nat)
    requires Safe(s) && s.apps[s.current].mode == Running && j < APPS && j != s.current
    ensures var b := Preempt(s).apps[j];
            b == s.apps[j] || Woken(s.apps[j], b, s.apps[s.current].owned)
  {
    SafeToBut(s);
    ChargeSafe(s, s.current);
    FinishUndisturbed(Charge(s, s.current), s.current, -200, j);
  }

  lemma FaultUndisturbed(s: Table, vector: nat, j: nat)
    requires Safe(s) && s.apps[s.current].mode == Running && j < APPS && j != s.current
    ensures var b := Fault(s, vector).apps[j];
            b == s.apps[j] || Woken(s.apps[j], b, s.apps[s.current].owned)
  {
    SafeToBut(s);
    FinishUndisturbed(s, s.current, -100 - vector, j);
  }

  /**
   When a program returns, faults, times out or calls the kernel, the other
   slots stay as they are, except that one waiting for what the program owned
   may get it.
   */
  lemma OthersUndisturbed(s: Table, e: Happening, j: nat)
    requires Safe(s) && LeavesUser(e) && j < APPS && j != s.current
    ensures var b := Step(s, e).apps[j];
            b == s.apps[j] || Woken(s.apps[j], b, s.apps[s.current].owned)
  {
    var u := s.(ticks := s.ticks + 1);
    if s.apps[s.current].mode == Running {
      match e
      case UserTick => TickSafe(s); PreemptUndisturbed(u, j); assert Step(s, e) == Preempt(u);
      case Called(call) => ServiceUndisturbed(s, call, j); assert Step(s, e) == Service(s, call);
      case Faulted(vector) => FaultUndisturbed(s, vector, j); assert Step(s, e) == Fault(s, vector);
    }
  }

  /** The thousandth tick of execution ends a program, with result -200, its resource given back. */
  lemma DeadlineEnds(s: Table)
    requires Safe(s) && s.apps[s.current].mode == Running && s.apps[s.current].runtime == MAX_TICKS - 1
    ensures var a := Step(s, UserTick).apps[s.current];
            a.mode == Free && a.result == -200 && a.owned == 0
  {
    var u := s.(ticks := s.ticks + 1);
    TickSafe(s);
    SafeToBut(u);
    ChargeSafe(u, u.current);
    FinishSafe(Charge(u, u.current), u.current, -200);
    assert Step(s, UserTick) == Finish(Charge(u, u.current), u.current, -200);
    var t := Step(s, UserTick);
    assert SlotOk(t.apps[s.current], s.current == t.current);
  }
}
