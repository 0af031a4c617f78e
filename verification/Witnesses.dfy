/**
 Runs from boot in which the kernel does not do what its documentation says.
 */
module Witnesses {
  import opened KernelModel
  import opened Scheduling
  import opened Accounting

  lemma {:induction false} RunOn(s: Table, ds: seq<Happening>, es: seq<Happening>)
    ensures Run(s, ds + es) == Run(Run(s, ds), es)
    decreases |ds|
  {
    if ds == [] {
      assert ds + es == es;
    } else {
      assert (ds + es)[1..] == ds[1..] + es;
      RunOn(Step(s, ds[0]), ds[1..], es);
    }
  }

  lemma RunTwo(s: Table, d: Happening, e: Happening)
    ensures Run(s, [d, e]) == Step(Step(s, d), e)
  {
    assert [d, e][1..] == [e];
    assert Run(Step(s, d), [e]) == Run(Step(Step(s, d), e), []);
  }

  lemma RunThree(s: Table, d: Happening, e: Happening, f: Happening)
    ensures Run(s, [d, e, f]) == Step(Step(Step(s, d), e), f)
  {
    assert [d, e, f][1..] == [e, f];
    RunTwo(Step(s, d), e, f);
  }

  const Loaded: Happening := RunCommand(Attempt(true, 0))

  /** A load that takes its time and fails. */
  function Waste(delay: nat): Happening { RunCommand(Attempt(false, delay)) }

  // ------------------------------------------------------------ a figure that is wrong

  /**
   Two programs, in slots 0 and 1: what they own, where the scheduler's cursor
   stands, the time, since when the resources are held, and the completed holds.
   */
  predicate Two(s: Table, tcp: bool, udp: bool, next: nat, ticks: nat, since1: nat, since2: nat, holds: seq<Hold>) {
    && InLoop(s) && s.next == next && s.ticks == ticks && s.log.holds == holds
    && ReadyOwning(s.apps[0], if tcp then 1 else 0) && ReadyOwning(s.apps[1], if udp then 2 else 0)
    && s.apps[2].mode == Free && s.apps[3].mode == Free
    && s.locks[0].owner == (if tcp then 1 else 0) && s.locks[1].owner == (if udp then 2 else 0)
    && (tcp ==> s.locks[0].since == since1) && (udp ==> s.locks[1].since == since2)
    && s.locks[0].queue == [] && s.locks[1].queue == []
  }

  predicate ReadyOwning(a: App, rid: nat) { a.mode == Ready && a.owned == rid && a.waiting == 0 && a.runtime == 0 }

  lemma LoadGoes(s: Table)
    requires InLoop(s) && FirstFree(s.apps, 0) < APPS
    ensures var k := FirstFree(s.apps, 0); Step(s, Loaded) == Occupy(s.(current := k), k, 0, 0)
  {
    assert s.(ticks := s.ticks + 0) == s;
  }

  /** One program, in slot 0. */
  predicate One(s: Table) {
    && InLoop(s) && s.next == 0 && s.ticks == 0 && s.log.holds == [] && s.log.grants[0] == []
    && ReadyOwning(s.apps[0], 0) && s.apps[1].mode == Free && s.apps[2].mode == Free && s.apps[3].mode == Free
    && s.locks[0] == Lock(0, [], 0) && s.locks[1] == Lock(0, [], 0)
  }

  lemma OneLoaded()
    ensures One(Step(Init(), Loaded))
  {
    assert FirstFree(Init().apps, 0) == 0;
    LoadGoes(Init());
  }

  lemma SecondLoaded(s: Table)
    requires One(s)
    ensures Two(Step(s, Loaded), false, false, 0, 0, 0, 0, []) && Step(s, Loaded).log.grants[0] == []
  {
    assert FirstFree(s.apps, 0) == 1;
    LoadGoes(s);
  }

  lemma TwoLoaded()
    ensures var s := Run(Init(), [Loaded, Loaded]); Two(s, false, false, 0, 0, 0, 0, []) && s.log.grants[0] == []
  {
    RunTwo(Init(), Loaded, Loaded);
    OneLoaded();
    SecondLoaded(Step(Init(), Loaded));
  }

  lemma Wasted(s: Table, tcp: bool, udp: bool, next: nat, ticks: nat, since1: nat, since2: nat, holds: seq<Hold>, d: nat)
    requires Two(s, tcp, udp, next, ticks, since1, since2, holds)
    ensures Two(Run(s, [Waste(d)]), tcp, udp, next, ticks + d, since1, since2, holds)
  {
    assert FirstFree(s.apps, 0) == 2;
    assert Run(s, [Waste(d)]) == Run(Step(s, Waste(d)), []);
  }

  /** One turn of the program whose turn it is. */
  function Turn(call: Call): seq<Happening>
    requires call.Transport? ==> IsResource(call.rid)
  {
    [Scheduled, Called(call)]
  }

  lemma TurnIs(s: Table, call: Call)
    requires InLoop(s) && (call.Transport? ==> IsResource(call.rid))
    ensures Run(s, Turn(call)) == Service(Schedule(s), call)
  {
    RunTwo(s, Scheduled, Called(call));
    assert Step(s, Scheduled) == Schedule(s);
    assert Step(Schedule(s), Called(call)) == Service(Schedule(s), call);
  }

  lemma PicksSlot(s: Table)
    requires s.apps[0].mode == Ready && s.apps[1].mode == Ready && s.apps[2].mode == Free && s.apps[3].mode == Free
    ensures var k := if s.next == 1 then 1 else 0;
            Schedule(s) == s.(next := k + 1, current := k, apps := s.apps[k := s.apps[k].(mode := Running)])
  {
    FirstReadyIsFirst(s);
    assert s.next == 1 ==> Distance(s, 1) < Distance(s, 0);
    assert s.next != 1 ==> Distance(s, 0) < Distance(s, 1);
  }

  lemma TakesTcp(s: Table, udp: bool, next: nat, ticks: nat, since2: nat, holds: seq<Hold>)
    requires Two(s, false, udp, next, ticks, 0, since2, holds) && next != 1
    ensures Two(Run(s, Turn(AcquireCall(1))), true, udp, 1, ticks, ticks, since2, holds)
  {
    TurnIs(s, AcquireCall(1));
    PicksSlot(s);
  }

  lemma TakesUdp(s: Table, tcp: bool, ticks: nat, since1: nat, holds: seq<Hold>)
    requires Two(s, tcp, false, 1, ticks, since1, 0, holds)
    ensures Two(Run(s, Turn(AcquireCall(2))), tcp, true, 2, ticks, since1, ticks, holds)
  {
    TurnIs(s, AcquireCall(2));
    PicksSlot(s);
  }

  lemma GivesUdp(s: Table, tcp: bool, ticks: nat, since1: nat, since2: nat, holds: seq<Hold>)
    requires Two(s, tcp, true, 1, ticks, since1, since2, holds)
    ensures Two(Run(s, Turn(ReleaseCall(2))), tcp, false, 2, ticks, since1, 0, holds + [Hold(2, since2, ticks)])
  {
    TurnIs(s, ReleaseCall(2));
    PicksSlot(s);
  }

  lemma GivesTcp(s: Table, udp: bool, next: nat, ticks: nat, since1: nat, since2: nat, holds: seq<Hold>)
    requires Two(s, true, udp, next, ticks, since1, since2, holds) && next != 1
    ensures Two(Run(s, Turn(ReleaseCall(1))), false, udp, 1, ticks, 0, since2, holds + [Hold(1, since1, ticks)])
  {
    TurnIs(s, ReleaseCall(1));
    PicksSlot(s);
  }

  lemma Passes(s: Table, tcp: bool, udp: bool, next: nat, ticks: nat, since1: nat, since2: nat, holds: seq<Hold>)
    requires Two(s, tcp, udp, next, ticks, since1, since2, holds) && next != 1
    ensures Two(Run(s, Turn(Plain(0))), tcp, udp, 1, ticks, since1, since2, holds)
  {
    TurnIs(s, Plain(0));
    PicksSlot(s);
  }

  /** Slot 0 takes TCP; 601 seconds later slot 1 holds UDP for a second; three seconds later TCP is released. */
  function LosingRun(): seq<Happening> {
    [Loaded, Loaded] + Turn(AcquireCall(1)) + [Waste(60100)] + Turn(AcquireCall(2)) + [Waste(100)]
    + Turn(Plain(0)) + Turn(ReleaseCall(2)) + [Waste(300)] + Turn(ReleaseCall(1))
  }

  lemma LosingRunGoes()
    ensures var s := Run(Init(), LosingRun());
            s.ticks == 60500 && s.log.holds == [Hold(2, 60100, 60200), Hold(1, 0, 60500)] && s.locks[1].owner == 0
  {
    var r1 := [Loaded, Loaded];
    TwoLoaded();
    TakesTcp(Run(Init(), r1), false, 0, 0, 0, []);
    var r2 := r1 + Turn(AcquireCall(1));
    RunOn(Init(), r1, Turn(AcquireCall(1)));
    Wasted(Run(Init(), r2), true, false, 1, 0, 0, 0, [], 60100);
    var r3 := r2 + [Waste(60100)];
    RunOn(Init(), r2, [Waste(60100)]);
    TakesUdp(Run(Init(), r3), true, 60100, 0, []);
    var r4 := r3 + Turn(AcquireCall(2));
    RunOn(Init(), r3, Turn(AcquireCall(2)));
    LosingRunEnds(r4);
  }

  lemma LosingRunEnds(r4: seq<Happening>)
    requires Two(Run(Init(), r4), true, true, 2, 60100, 0, 60100, [])
    ensures var s := Run(Init(), r4 + [Waste(100)] + Turn(Plain(0)) + Turn(ReleaseCall(2)) + [Waste(300)] + Turn(ReleaseCall(1)));
            s.ticks == 60500 && s.log.holds == [Hold(2, 60100, 60200), Hold(1, 0, 60500)] && s.locks[1].owner == 0
  {
    var r6 := r4 + [Waste(100)] + Turn(Plain(0));
    LosingRunWaits(r4);
    GivesUdp(Run(Init(), r6), true, 60200, 0, 60100, []);
    var r7 := r6 + Turn(ReleaseCall(2));
    RunOn(Init(), r6, Turn(ReleaseCall(2)));
    var holds := [Hold(2, 60100, 60200)];
    assert [] + holds == holds;
    Wasted(Run(Init(), r7), true, false, 2, 60200, 0, 0, holds, 300);
    var r8 := r7 + [Waste(300)];
    RunOn(Init(), r7, [Waste(300)]);
    GivesTcp(Run(Init(), r8), false, 2, 60500, 0, 0, holds);
    RunOn(Init(), r8, Turn(ReleaseCall(1)));
  }

  lemma LosingRunWaits(r4: seq<Happening>)
    requires Two(Run(Init(), r4), true, true, 2, 60100, 0, 60100, [])
    ensures Two(Run(Init(), r4 + [Waste(100)] + Turn(Plain(0))), true, true, 1, 60200, 0, 60100, [])
  {
    Wasted(Run(Init(), r4), true, true, 2, 60100, 0, 60100, [], 100);
    var r5 := r4 + [Waste(100)];
    RunOn(Init(), r4, [Waste(100)]);
    Passes(Run(Init(), r5), true, true, 2, 60200, 0, 60100, []);
    RunOn(Init(), r5, Turn(Plain(0)));
  }

  predicate LosesTicks(s: Table) {
    && UsageOk(UsageOf(s, 2), s.ticks)
    && Reported(UsageOf(s, 2), s.ticks) == 0
    && HeldTicks(AllHolds(UsageOf(s, 2), s.ticks), 2, FirstEpoch(s.ticks) * BUCKET_TICKS, s.ticks) == 100
  }

  /** A run from boot after which the figure for UDP is 0 though it was held for a hundred ticks of the window. */
  lemma RecentIsWrongAfterARun()
    ensures exists es :: LosesTicks(Run(Init(), es))
  {
    LosingRunGoes();
    RecentCanBeWrong();
    var s := Run(Init(), LosingRun());
    assert UsageOf(s, 2) == Usage([Hold(2, 60100, 60200), Hold(1, 0, 60500)], 2, false, UsageOf(s, 2).since);
    assert LosesTicks(s);
  }

  // -------------------------------------------------------- an owner that never gives up

  /** Slot 0 owns TCP, has used no processor time, and slot 1 waits for it; nobody else ever had it. */
  predicate Hogged(s: Table) {
    && InLoop(s) && ReadyOwning(s.apps[0], 1) && s.locks[0].owner == 1 && s.locks[0].since == 0
    && s.apps[1].mode == Blocked && s.apps[1].waiting == 1 && s.log.grants[0] == [0]
    && s.apps[2].mode == Free && s.apps[3].mode == Free
  }

  function HogSetup(): seq<Happening> { [Loaded, Loaded] + Turn(AcquireCall(1)) + Turn(AcquireCall(1)) }

  /** Slot 0 gets its turn and makes a service call, in which a tick passes. */
  function HogRound(): seq<Happening> { [Scheduled, Tick, Called(Plain(0))] }

  function HogRun(n: nat): seq<Happening> { if n == 0 then HogSetup() else HogRun(n - 1) + HogRound() }

  lemma HogSetupGoes()
    ensures Hogged(Run(Init(), HogSetup())) && Run(Init(), HogSetup()).ticks == 0
  {
    var r1 := [Loaded, Loaded];
    TwoLoaded();
    var s := Run(Init(), r1);
    TakesTcp(s, false, 0, 0, 0, []);
    TurnIs(s, AcquireCall(1));
    PicksSlot(s);
    var t := Run(s, Turn(AcquireCall(1)));
    assert t.log.grants[0] == [0];
    TurnIs(t, AcquireCall(1));
    PicksSlot(t);
    RunOn(Init(), r1, Turn(AcquireCall(1)));
    RunOn(Init(), r1 + Turn(AcquireCall(1)), Turn(AcquireCall(1)));
  }

  lemma HogRoundGoes(s: Table)
    requires Hogged(s)
    ensures Hogged(Run(s, HogRound())) && Run(s, HogRound()).ticks == s.ticks + 1
  {
    RunThree(s, Scheduled, Tick, Called(Plain(0)));
    FirstReadyIsFirst(s);
    assert FirstReady(s, 0) == 0;
    var u := Step(s, Scheduled);
    assert u.current == 0 && u.apps[0].mode == Running;
    var v := Step(u, Tick);
    assert Step(v, Called(Plain(0))) == Yield(v, 0, 0);
  }

  /**
   A program that only makes service calls keeps its resource for any number of
   ticks: it is never charged for them, so its deadline never comes, and the
   program that waits is never served.
   */
  lemma {:induction false} OwnerKeepsForEver(n: nat)
    ensures Hogged(Run(Init(), HogRun(n))) && Run(Init(), HogRun(n)).ticks == n
  {
    if n == 0 {
      HogSetupGoes();
    } else {
      OwnerKeepsForEver(n - 1);
      HogGoesOn(HogRun(n - 1), n - 1);
    }
  }

  lemma HogGoesOn(es: seq<Happening>, n: nat)
    requires Hogged(Run(Init(), es)) && Run(Init(), es).ticks == n
    ensures Hogged(Run(Init(), es + HogRound())) && Run(Init(), es + HogRound()).ticks == n + 1
  {
    HogRoundGoes(Run(Init(), es));
    RunOn(Init(), es, HogRound());
  }
}
