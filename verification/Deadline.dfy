/**
 The execution deadline over whole runs: exactly when it ends a program, and
 exactly when an owner keeps its resource.
 */
module Deadline {
  import opened Basics
  import opened KernelModel
  import opened ResourceSafety
  import opened Scheduling

  // ------------------------------------------------------------------- what is charged

  lemma FinishChargesNobody(s: Table, j: nat, result: int, k: nat)
    requires j < APPS && k < APPS
    ensures Finish(s, j, result).apps[k].runtime == s.apps[k].runtime
  {
  }

  lemma ServiceChargesNobody(s: Table, call: Call, k: nat)
    requires k < APPS && (call.Transport? ==> IsResource(call.rid))
    ensures Service(s, call).apps[k].runtime == s.apps[k].runtime
  {
    FinishChargesNobody(s, s.current, -200, k);
    match call
    case Exit(code) => FinishChargesNobody(s, s.current, code, k);
    case _ =>
  }

  lemma LoopChargesNobody(s: Table, e: Happening, k: nat)
    requires k < APPS && s.apps[k].mode != Free
    ensures LoopStep(s, e).apps[k].runtime == s.apps[k].runtime
  {
    if e.Polled? {
      PollKeepsLive(s, 0, s.ticks, e.attempts, k);
    }
  }

  /** Only a tick in ring 3 is charged to a program. */
  lemma ChargedInRing3Only(s: Table, e: Happening, k: nat)
    requires k < APPS && s.apps[k].mode != Free && !e.UserTick?
    ensures Step(s, e).apps[k].runtime == s.apps[k].runtime
  {
    match e
    case Called(call) => ServiceChargesNobody(s, call, k); assert Step(s, e) == Service(s, call);
    case Faulted(vector) => FinishChargesNobody(s, s.current, -100 - vector, k); assert Step(s, e) == Fault(s, vector);
    case Tick =>
    case _ => LoopChargesNobody(s, e, k);
  }

  /** The program in slot k has the processor. */
  predicate Has(s: Table, k: nat)
    requires k < APPS
  {
    s.current == k && s.apps[k].mode == Running
  }

  /** The ticks of the step that are charged to slot k. */
  function Charges(s: Table, e: Happening, k: nat): nat
    requires k < APPS
  {
    if e.UserTick? && Has(s, k) then 1 else 0
  }

  /** The ticks of a run that are charged to slot k. */
  function Charged(s: Table, es: seq<Happening>, k: nat): nat
    requires k < APPS
    decreases |es|
  {
    if es == [] then 0 else Charges(s, es[0], k) + Charged(Step(s, es[0]), es[1..], k)
  }

  // ------------------------------------------------------------------- staying alive

  /** The program in slot k returns or faults. */
  predicate Leaves(s: Table, e: Happening, k: nat)
    requires k < APPS
  {
    Has(s, k) && (e.Faulted? || (e.Called? && e.call.Exit?))
  }

  /** As long as it is alive, the program in slot k neither returns nor faults. */
  predicate NeverLeaves(s: Table, es: seq<Happening>, k: nat)
    requires k < APPS
    decreases |es|
  {
    es == [] || s.apps[k].mode == Free || (!Leaves(s, es[0], k) && NeverLeaves(Step(s, es[0]), es[1..], k))
  }

  /** The program in slot k is alive all through the run. */
  predicate Stays(s: Table, es: seq<Happening>, k: nat)
    requires k < APPS
    decreases |es|
  {
    s.apps[k].mode != Free && (es == [] || Stays(Step(s, es[0]), es[1..], k))
  }

  /** What one step does to the life of slot k. */
  predicate LifeGoes(s: Table, t: Table, e: Happening, k: nat)
    requires k < APPS
  {
    && (t.apps[k].mode != Free <==> !Leaves(s, e, k) && s.apps[k].runtime + Charges(s, e, k) < MAX_TICKS)
    && (t.apps[k].mode != Free ==> t.apps[k].runtime == s.apps[k].runtime + Charges(s, e, k))
  }

  lemma WithinDeadline(s: Table, k: nat)
    requires Safe(s) && k < APPS && s.apps[k].mode != Free
    ensures s.apps[k].runtime < MAX_TICKS
  {
    assert SlotOk(s.apps[k], k == s.current);
  }

  lemma OwnTickLife(s: Table, k: nat)
    requires Safe(s) && k < APPS && Has(s, k)
    ensures LifeGoes(s, Step(s, UserTick), UserTick, k)
  {
    var u := s.(ticks := s.ticks + 1);
    assert Step(s, UserTick) == Preempt(u);
  }

  lemma OwnCallLife(s: Table, call: Call, k: nat)
    requires Safe(s) && k < APPS && Has(s, k) && (call.Transport? ==> IsResource(call.rid))
    ensures LifeGoes(s, Step(s, Called(call)), Called(call), k)
  {
    WithinDeadline(s, k);
    ServiceChargesNobody(s, call, k);
    assert Step(s, Called(call)) == Service(s, call);
  }

  lemma OwnFaultLife(s: Table, vector: nat, k: nat)
    requires Safe(s) && k < APPS && Has(s, k)
    ensures LifeGoes(s, Step(s, Faulted(vector)), Faulted(vector), k)
  {
    assert Step(s, Faulted(vector)) == Fault(s, vector);
  }

  lemma OtherTrapLife(s: Table, e: Happening, k: nat)
    requires Safe(s) && k < APPS && s.apps[k].mode != Free && IsTrap(e) && !Has(s, k)
    ensures LifeGoes(s, Step(s, e), e, k)
  {
    WithinDeadline(s, k);
    if e.Tick? {
      assert Step(s, e) == s.(ticks := s.ticks + 1);
    } else if k == s.current {
      assert Step(s, e).apps == s.apps;
    } else {
      OthersUndisturbed(s, e, k);
    }
  }

  lemma LoopLife(s: Table, e: Happening, k: nat)
    requires Safe(s) && k < APPS && s.apps[k].mode != Free && !IsTrap(e)
    ensures LifeGoes(s, Step(s, e), e, k)
  {
    WithinDeadline(s, k);
    LoopKeepsLive(s, e, k);
  }

  /** What the kernel loop does leaves live slots alone, but for giving one the processor. */
  lemma LoopKeepsLive(s: Table, e: Happening, k: nat)
    requires k < APPS && s.apps[k].mode != Free
    ensures var a := LoopStep(s, e).apps[k]; a == s.apps[k] || a == s.apps[k].(mode := Running)
  {
    if e.Polled? {
      PollKeepsLive(s, 0, s.ticks, e.attempts, k);
    }
  }

  lemma StepLife(s: Table, e: Happening, k: nat)
    requires Safe(s) && k < APPS && s.apps[k].mode != Free
    ensures LifeGoes(s, Step(s, e), e, k)
  {
    if !IsTrap(e) {
      LoopLife(s, e, k);
    } else if !Has(s, k) {
      OtherTrapLife(s, e, k);
    } else {
      WithinDeadline(s, k);
      match e
      case Tick => assert Step(s, e) == s.(ticks := s.ticks + 1);
      case UserTick => OwnTickLife(s, k);
      case Called(call) => OwnCallLife(s, call, k);
      case Faulted(vector) => OwnFaultLife(s, vector, k);
    }
  }

  /**
   Over any run, a live program stays alive exactly if it neither returns nor
   faults and is charged fewer ticks than it has left; while it stays, its
   execution time is exactly what it was charged.
   */
  lemma {:induction false} DeadlineExact(s: Table, es: seq<Happening>, k: nat)
    requires Safe(s) && k < APPS && s.apps[k].mode != Free
    ensures Stays(s, es, k) <==> NeverLeaves(s, es, k) && s.apps[k].runtime + Charged(s, es, k) < MAX_TICKS
    ensures Stays(s, es, k) ==> Run(s, es).apps[k].runtime == s.apps[k].runtime + Charged(s, es, k)
    decreases |es|
  {
    if es == [] {
      WithinDeadline(s, k);
    } else {
      var t := Step(s, es[0]);
      StepLife(s, es[0], k);
      StepSafe(s, es[0]);
      if t.apps[k].mode != Free {
        DeadlineExact(t, es[1..], k);
      }
    }
  }

  // ------------------------------------------------------------- keeping a resource

  /** The program in slot k gives resource rid back: by releasing it, returning or faulting. */
  predicate Gives(s: Table, e: Happening, k: nat, rid: nat)
    requires k < APPS
  {
    Leaves(s, e, k) || (Has(s, k) && e.Called? && e.call.ReleaseCall? && e.call.rdi % B32 == rid)
  }

  predicate NeverGives(s: Table, es: seq<Happening>, k: nat, rid: nat)
    requires k < APPS
    decreases |es|
  {
    es == [] || !Owns(s, k, rid) || (!Gives(s, es[0], k, rid) && NeverGives(Step(s, es[0]), es[1..], k, rid))
  }

  /** Slot k owns the resource all through the run. */
  predicate Keeps(s: Table, es: seq<Happening>, k: nat, rid: nat)
    requires k < APPS
    decreases |es|
  {
    Owns(s, k, rid) && (es == [] || Keeps(Step(s, es[0]), es[1..], k, rid))
  }

  predicate HoldGoes(s: Table, t: Table, e: Happening, k: nat, rid: nat)
    requires k < APPS
  {
    t.apps[k].owned == rid <==> !Gives(s, e, k, rid) && s.apps[k].runtime + Charges(s, e, k) < MAX_TICKS
  }

  /** An owner is alive and waits for nothing, and what its slot says is what the resource says. */
  lemma OwnerIsLive(s: Table, k: nat, rid: nat)
    requires Safe(s) && k < APPS && IsResource(rid) && s.apps[k].owned == rid
    ensures Owns(s, k, rid) && s.apps[k].mode != Free && s.apps[k].mode != Blocked && s.apps[k].runtime < MAX_TICKS
  {
    assert LockOk(s.apps, s.locks[rid - 1], rid);
    assert SlotOk(s.apps[k], k == s.current);
  }

  lemma OwnTickHold(s: Table, k: nat, rid: nat)
    requires Safe(s) && k < APPS && Has(s, k) && Owns(s, k, rid)
    ensures HoldGoes(s, Step(s, UserTick), UserTick, k, rid)
  {
    var u := s.(ticks := s.ticks + 1);
    TickSafe(s);
    SafeToBut(u);
    ChargeSafe(u, k);
    assert Step(s, UserTick) == Preempt(u);
    FinishSafe(Charge(u, k), k, -200);
  }

  lemma OwnCallHold(s: Table, call: Call, k: nat, rid: nat)
    requires Safe(s) && k < APPS && Has(s, k) && Owns(s, k, rid) && (call.Transport? ==> IsResource(call.rid))
    ensures HoldGoes(s, Step(s, Called(call)), Called(call), k, rid)
  {
    OwnerIsLive(s, k, rid);
    SafeToBut(s);
    assert Step(s, Called(call)) == Service(s, call);
    match call
    case Exit(code) => FinishSafe(s, k, code);
    case ReleaseCall(rdi) => ReleaseSafe(s, k, rdi % B32);
    case _ =>
  }

  lemma OwnFaultHold(s: Table, vector: nat, k: nat, rid: nat)
    requires Safe(s) && k < APPS && Has(s, k) && Owns(s, k, rid)
    ensures HoldGoes(s, Step(s, Faulted(vector)), Faulted(vector), k, rid)
  {
    SafeToBut(s);
    assert Step(s, Faulted(vector)) == Fault(s, vector);
    FinishSafe(s, k, -100 - vector);
  }

  lemma OtherHold(s: Table, e: Happening, k: nat, rid: nat)
    requires Safe(s) && k < APPS && Owns(s, k, rid) && (!IsTrap(e) || !Has(s, k))
    ensures HoldGoes(s, Step(s, e), e, k, rid)
  {
    OwnerIsLive(s, k, rid);
    if !IsTrap(e) {
      LoopKeepsLive(s, e, k);
    } else if e.Tick? {
      assert Step(s, e) == s.(ticks := s.ticks + 1);
    } else if k == s.current {
      assert Step(s, e).apps == s.apps;
    } else {
      OthersUndisturbed(s, e, k);
    }
  }

  lemma StepHold(s: Table, e: Happening, k: nat, rid: nat)
    requires Safe(s) && k < APPS && Owns(s, k, rid)
    ensures HoldGoes(s, Step(s, e), e, k, rid)
  {
    if !IsTrap(e) || !Has(s, k) {
      OtherHold(s, e, k, rid);
    } else {
      OwnerIsLive(s, k, rid);
      match e
      case Tick => assert Step(s, e) == s.(ticks := s.ticks + 1);
      case UserTick => OwnTickHold(s, k, rid);
      case Called(call) => OwnCallHold(s, call, k, rid);
      case Faulted(vector) => OwnFaultHold(s, vector, k, rid);
    }
  }

  /**
   Over any run, an owner keeps its resource exactly if it does not release it,
   return or fault, and is charged fewer ticks than it has left.
   */
  lemma {:induction false} OwnerKeepsExactly(s: Table, es: seq<Happening>, k: nat, rid: nat)
    requires Safe(s) && k < APPS && Owns(s, k, rid)
    ensures Keeps(s, es, k, rid) <==>
            NeverGives(s, es, k, rid) && s.apps[k].runtime + Charged(s, es, k) < MAX_TICKS
    decreases |es|
  {
    OwnerIsLive(s, k, rid);
    if es != [] {
      var t := Step(s, es[0]);
      StepHold(s, es[0], k, rid);
      StepLife(s, es[0], k);
      StepSafe(s, es[0]);
      if t.apps[k].owned == rid {
        OwnerIsLive(t, k, rid);
        OwnerKeepsExactly(t, es[1..], k, rid);
      }
    }
  }
}
