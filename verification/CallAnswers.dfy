/**
 What a program is told: the answer of each service call against what the call
 did to the ownership of resources, and the result a program ends with.
 */
module CallAnswers {
  import opened Basics
  import opened KernelModel
  import opened ResourceSafety
  import opened Scheduling
  import opened Deadline

  /** Another slot owns the resource. */
  predicate Elsewhere(s: Table, k: nat, rid: nat) {
    exists j :: 0 <= j < APPS && j != k && Owns(s, j, rid)
  }

  lemma OwnedElsewhere(s: Table, k: nat, rid: nat)
    requires Safe(s) && k < APPS && IsResource(rid) && s.apps[k].owned == 0
    ensures Elsewhere(s, k, rid) <==> s.locks[rid - 1].owner != 0
  {
    assert LockOk(s.apps, s.locks[rid - 1], rid);
    if s.locks[rid - 1].owner != 0 {
      assert Owns(s, s.locks[rid - 1].owner - 1, rid);
    }
  }

  /**
   An acquire blocks exactly if the caller owns nothing and another slot owns the
   resource, and it then waits last in the queue.  Otherwise the answer is 1
   exactly if the call made it the owner, which it does exactly if the caller
   owned nothing and the resource exists and was free.
   */
  lemma AcquireAnswered(s: Table, rdi: nat)
    requires Safe(s) && s.apps[s.current].mode == Running
    ensures var k, rid, t := s.current, rdi % B32, Step(s, Called(AcquireCall(rdi)));
            && (t.apps[k].mode == Blocked <==> s.apps[k].owned == 0 && Elsewhere(s, k, rid))
            && (t.apps[k].mode == Blocked ==>
                  IsResource(rid) && t.apps[k].waiting == rid && t.locks[rid - 1].queue == s.locks[rid - 1].queue + [k])
            && (t.apps[k].mode != Blocked ==>
                  && t.apps[k].mode == Ready
                  && t.apps[k].rax == (if s.apps[k].owned == 0 && t.apps[k].owned != 0 then 1 else 0)
                  && (s.apps[k].owned == 0 && t.apps[k].owned != 0 <==>
                        s.apps[k].owned == 0 && IsResource(rid) && !Elsewhere(s, k, rid))
                  && (s.apps[k].owned == 0 && t.apps[k].owned != 0 ==> Owns(t, k, rid)))
  {
    var k, rid := s.current, rdi % B32;
    WithinDeadline(s, k);
    assert SlotOk(s.apps[k], true);
    assert Step(s, Called(AcquireCall(rdi))) == Acquire(s, k, rid);
    if IsResource(rid) && s.apps[k].owned == 0 {
      OwnedElsewhere(s, k, rid);
    }
  }

  /**
   A release answers 1 exactly if the caller owned the resource before and does
   not after; it then belongs to the slot that waited longest, which is ready with
   the answer 1, or to nobody.  Answered 0, nothing changes hands.
   */
  lemma ReleaseAnswered(s: Table, rdi: nat)
    requires Safe(s) && s.apps[s.current].mode == Running
    ensures var k, rid, t := s.current, rdi % B32, Step(s, Called(ReleaseCall(rdi)));
            && t.apps[k].mode == Ready
            && t.apps[k].rax == (if Owns(s, k, rid) && !Owns(t, k, rid) then 1 else 0)
            && (Owns(s, k, rid) ==> !Owns(t, k, rid) && HandedOn(s, t, rid))
            && (!Owns(s, k, rid) ==> t.locks == s.locks && forall j :: 0 <= j < APPS ==> t.apps[j].owned == s.apps[j].owned)
  {
    var k, rid := s.current, rdi % B32;
    WithinDeadline(s, k);
    SafeToBut(s);
    var u := Release(s, k, rid);
    assert Step(s, Called(ReleaseCall(rdi))) == Yield(u, k, if Owns(s, k, rid) then 1 else 0);
    if Owns(s, k, rid) {
      ReleaseHandsOn(s, k, rid);
    }
  }

  /** What was owned belongs to the slot that waited longest, or to nobody. */
  predicate HandedOn(s: Table, t: Table, rid: nat)
    requires IsResource(rid)
  {
    var q := s.locks[rid - 1].queue;
    if q == [] then t.locks[rid - 1].owner == 0
    else
      && q[0] < APPS && Owns(t, q[0], rid) && t.apps[q[0]].mode == Ready && t.apps[q[0]].rax == 1
      && t.locks[rid - 1].queue == q[1..]
  }

  lemma ReleaseHandsOn(s: Table, k: nat, rid: nat)
    requires k < APPS && SafeBut(s, k) && Owns(s, k, rid)
    ensures var u := Release(s, k, rid); u.apps[k].owned == 0 && HandedOn(s, u, rid)
    ensures s.locks[rid - 1].queue != [] ==> s.locks[rid - 1].queue[0] != k
  {
    ReleaseLock(s, k, rid);
  }

  /** A call that ends its program leaves the code as the result; what it owned is handed on. */
  lemma ExitResult(s: Table, code: int)
    requires Safe(s) && s.apps[s.current].mode == Running
    ensures var k, t := s.current, Step(s, Called(Exit(code)));
            t.apps[k].mode == Free && t.apps[k].result == code && GaveAll(s, t, k)
  {
    var k := s.current;
    WithinDeadline(s, k);
    assert Step(s, Called(Exit(code))) == Finish(s, k, code);
    FinishGives(s, k, code);
  }

  /** A fault leaves minus a hundred and its vector. */
  lemma FaultResult(s: Table, vector: nat)
    requires Safe(s) && s.apps[s.current].mode == Running
    ensures var k, t := s.current, Step(s, Faulted(vector));
            t.apps[k].mode == Free && t.apps[k].result == -100 - vector && GaveAll(s, t, k)
  {
    var k := s.current;
    assert Step(s, Faulted(vector)) == Finish(s, k, -100 - vector);
    FinishGives(s, k, -100 - vector);
  }

  predicate GaveAll(s: Table, t: Table, k: nat)
    requires k < APPS
  {
    t.apps[k].owned == 0 && (IsResource(s.apps[k].owned) ==> HandedOn(s, t, s.apps[k].owned))
  }

  lemma FinishGives(s: Table, k: nat, result: int)
    requires Safe(s) && k < APPS && k == s.current && s.apps[k].mode == Running
    ensures GaveAll(s, Finish(s, k, result), k)
  {
    SafeToBut(s);
    var rid := s.apps[k].owned;
    if rid != 0 {
      assert SlotOk(s.apps[k], true);
      OwnerIsLive(s, k, rid);
      ReleaseHandsOn(s, k, rid);
    }
  }

  /** The other calls answer what the clock or the network answered; a transport answers only its owner. */
  lemma OthersAnswered(s: Table, call: Call)
    requires Safe(s) && s.apps[s.current].mode == Running
    requires call.Plain? || (call.Transport? && IsResource(call.rid))
    ensures var k, t := s.current, Step(s, Called(call));
            && t.apps[k].mode == Ready && t.locks == s.locks && t.ticks == s.ticks
            && (forall j :: 0 <= j < APPS && j != k ==> t.apps[j] == s.apps[j])
            && t.apps[k].rax == (if call.Transport? && !Owns(s, k, call.rid) then 0 else call.reply)
  {
    WithinDeadline(s, s.current);
    assert Step(s, Called(call)) == Service(s, call);
  }

  /** A command starts a program in the lowest free slot, fresh: no time used, nothing owned, no result yet. */
  lemma CommandStarts(s: Table, a: Attempt)
    requires InLoop(s)
    ensures var k, t := FirstFree(s.apps, 0), Step(s, RunCommand(a));
            && (k == APPS ==> t == s)
            && (k < APPS && !a.ok ==> t.apps == s.apps)
            && (k < APPS && a.ok ==>
                  && t.apps[k].mode == Ready && t.apps[k].runtime == 0 && t.apps[k].owned == 0 && t.apps[k].waiting == 0
                  && t.apps[k].periodicId == 0 && t.apps[k].result == -1
                  && forall j :: 0 <= j < APPS && j != k ==> t.apps[j] == s.apps[j])
  {
    assert Step(s, RunCommand(a)) == Start(s, 0, 0, a).state;
  }

  /** Timer ticks count one each, a load counts the ticks it takes, and calls and turns take none. */
  lemma TimeCounts(s: Table, e: Happening)
    requires !e.Polled?
    ensures Step(s, e).ticks == s.ticks + (if e.Tick? || e.UserTick? then 1
                                           else if e.RunCommand? && InLoop(s) && FirstFree(s.apps, 0) < APPS then e.a.delay
                                           else 0)
  {
    var u := s.(ticks := s.ticks + 1);
    match e
    case UserTick => assert Step(s, e) == Preempt(u);
    case Called(call) => assert Step(s, e) == Service(s, call);
    case Faulted(vector) => assert Step(s, e) == Fault(s, vector);
    case _ =>
  }
}
