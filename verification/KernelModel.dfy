/**
 The application side of the kernel as a step system over values.

 A `State` holds the four application slots, the two exclusive resources
 (each with its waiters as a plain queue), the periodic-launch table, the
 round-robin cursor and the tick counter.  The last field is the history of
 the run: who asked, who was granted, which holds were completed and which
 launches were made.  The kernel never reads the history; the properties of
 whole runs are stated with it.
 */
module KernelModel {
  import opened Basics

  const APPS: nat := 4
  const RESOURCES: nat := 2
  const PERIODICS: nat := 4
  const MAX_TICKS: nat := 1000
  const TICK_HZ: nat := 100

  datatype Mode = Free | Ready | Running | Blocked

  /** `owned` and `waiting` are resource numbers, 0 for none; `rax` is the last answer the kernel left for the program. */
  datatype App = App(mode: Mode, runtime: nat, owned: nat, waiting: nat,
                     periodicId: nat, rax: int, result: int)

  /** `owner` is a slot number plus one, 0 for none. */
  datatype Lock = Lock(owner: nat, queue: seq<nat>, since: nat)

  datatype Periodic = Periodic(active: bool, interval: nat, nextTick: nat,
                               remaining: nat, slot: nat)

  datatype Hold = Hold(res: nat, start: nat, end: nat)
  datatype Launch = Launch(serial: nat, slot: nat, tick: nat)
  datatype Booking = Booking(count: nat, interval: nat, made: nat)

  /**
   Reservations are numbered from 1 in the order they were made; `serials[i]`
   is the reservation now in table entry i and `tenants[k]` the reservation
   that launched the application now in slot k (0: started by hand).
   */
  datatype History = History(requests: seq<seq<nat>>, grants: seq<seq<nat>>, holds: seq<Hold>,
                             bookings: seq<Booking>, serials: seq<nat>, tenants: seq<nat>,
                             launches: seq<Launch>, completed: set<nat>, cancelled: set<nat>)

  datatype State = State(apps: seq<App>, locks: seq<Lock>, periodics: seq<Periodic>,
                         next: nat, current: nat, ticks: nat, log: History)

  /** The sizes of the static tables and the ranges of the indices into them. */
  predicate Sized(s: State) {
    && |s.apps| == APPS && |s.locks| == RESOURCES && |s.periodics| == PERIODICS
    && s.next < APPS && s.current < APPS
    && |s.log.requests| == RESOURCES && |s.log.grants| == RESOURCES
    && |s.log.serials| == PERIODICS && |s.log.tenants| == APPS
  }

  type Table = s: State | Sized(s) witness Init()

  function Init(): State {
    State(seq(APPS, _ => App(Free, 0, 0, 0, 0, 0, 0)),
          seq(RESOURCES, _ => Lock(0, [], 0)),
          seq(PERIODICS, _ => Periodic(false, 0, 0, 0, 0)),
          0, 0, 0,
          History([[], []], [[], []], [], [], [0, 0, 0, 0], [0, 0, 0, 0], [], {}, {}))
  }

  // ---------------------------------------------------------------- resources

  predicate IsResource(rid: nat) { 1 <= rid <= RESOURCES }

  /** Hand a free resource to a slot that asks for it. */
  function Take(s: Table, k: nat, rid: nat): (t: Table)
    requires k < APPS && IsResource(rid)
  {
    s.(apps := s.apps[k := s.apps[k].(owned := rid)],
       locks := s.locks[rid - 1 := s.locks[rid - 1].(owner := k + 1, since := s.ticks)],
       log := s.log.(requests := s.log.requests[rid - 1 := s.log.requests[rid - 1] + [k]],
                     grants := s.log.grants[rid - 1 := s.log.grants[rid - 1] + [k]]))
  }

  /** Put a slot behind the waiters of a busy resource. */
  function Enqueue(s: Table, k: nat, rid: nat): (t: Table)
    requires k < APPS && IsResource(rid)
  {
    s.(apps := s.apps[k := s.apps[k].(waiting := rid, mode := Blocked)],
       locks := s.locks[rid - 1 := s.locks[rid - 1].(queue := s.locks[rid - 1].queue + [k])],
       log := s.log.(requests := s.log.requests[rid - 1 := s.log.requests[rid - 1] + [k]]))
  }

  /** Make the oldest waiter, if there is one, the owner. */
  function GrantNext(s: Table, rid: nat): (t: Table)
    requires IsResource(rid)
  {
    var lock := s.locks[rid - 1];
    if lock.queue == [] then s
    else
      var k := lock.queue[0];
      if k >= APPS then s
      else
        s.(apps := s.apps[k := s.apps[k].(waiting := 0, owned := rid, rax := 1, mode := Ready)],
           locks := s.locks[rid - 1 := Lock(k + 1, lock.queue[1..], s.ticks)],
           log := s.log.(grants := s.log.grants[rid - 1 := s.log.grants[rid - 1] + [k]]))
  }

  /** End the current hold of a resource and take it away from slot k. */
  function Drop(s: Table, k: nat, rid: nat): (t: Table)
    requires k < APPS && IsResource(rid)
  {
    s.(apps := s.apps[k := s.apps[k].(owned := 0)],
       locks := s.locks[rid - 1 := s.locks[rid - 1].(owner := 0)],
       log := s.log.(holds := s.log.holds + [Hold(rid, s.locks[rid - 1].since, s.ticks)]))
  }

  predicate Owns(s: Table, k: nat, rid: nat)
    requires k < APPS
  {
    IsResource(rid) && s.apps[k].owned == rid && s.locks[rid - 1].owner == k + 1
  }

  function Release(s: Table, k: nat, rid: nat): (t: Table)
    requires k < APPS
  {
    if Owns(s, k, rid) then GrantNext(Drop(s, k, rid), rid) else s
  }

  // ---------------------------------------------------- leaving a user program

  function Yield(s: Table, k: nat, rax: int): (t: Table)
    requires k < APPS
  {
    s.(apps := s.apps[k := s.apps[k].(rax := rax, mode := Ready)])
  }

  function Finish(s: Table, k: nat, result: int): (t: Table)
    requires k < APPS
  {
    var u := if s.apps[k].owned != 0 then Release(s, k, s.apps[k].owned) else s;
    u.(apps := u.apps[k := u.apps[k].(mode := Free, result := result)])
  }

  function Acquire(s: Table, k: nat, rid: nat): (t: Table)
    requires k < APPS
  {
    if !IsResource(rid) || s.apps[k].owned != 0 || s.apps[k].waiting != 0 then Yield(s, k, 0)
    else if s.locks[rid - 1].owner == 0 then Yield(Take(s, k, rid), k, 1)
    else Enqueue(s, k, rid)
  }

  /** A service call as the dispatcher sees it; `reply` stands for what the transport or the clock answers. */
  datatype Call =
    | Exit(code: int)
    | AcquireCall(rdi: nat)
    | ReleaseCall(rdi: nat)
    | Transport(rid: nat, reply: int)
    | Plain(reply: int)

  function Service(s: Table, call: Call): (t: Table)
    requires call.Transport? ==> IsResource(call.rid)
  {
    var k := s.current;
    if s.apps[k].mode != Running then s
    else if s.apps[k].runtime >= MAX_TICKS then Finish(s, k, -200)
    else
      match call
      case Exit(code) => Finish(s, k, code)
      case AcquireCall(rdi) => Acquire(s, k, rdi % B32)
      case ReleaseCall(rdi) =>
        Yield(Release(s, k, rdi % B32), k, if Owns(s, k, rdi % B32) then 1 else 0)
      case Transport(rid, reply) => Yield(s, k, if Owns(s, k, rid) then reply else 0)
      case Plain(reply) => Yield(s, k, reply)
  }

  function Fault(s: Table, vector: nat): (t: Table) {
    if s.apps[s.current].mode != Running then s else Finish(s, s.current, -100 - vector)
  }

  /** One more tick of processor time used by slot k. */
  function Charge(s: Table, k: nat): (t: Table)
    requires k < APPS
  {
    s.(apps := s.apps[k := s.apps[k].(runtime := s.apps[k].runtime + 1)])
  }

  function Preempt(s: Table): (t: Table) {
    var k := s.current;
    if s.apps[k].mode != Running then s
    else
      var u := Charge(s, k);
      if u.apps[k].runtime >= MAX_TICKS then Finish(u, k, -200)
      else u.(apps := u.apps[k := u.apps[k].(mode := Ready)])
  }

  // -------------------------------------------------------- starting, scheduling

  /** The first slot at or after k that is free, or APPS. */
  function FirstFree(apps: seq<App>, k: nat): (r: nat)
    requires |apps| == APPS && k <= APPS
    ensures k <= r <= APPS
    ensures r < APPS ==> apps[r].mode == Free
    ensures forall j :: k <= j < r ==> apps[j].mode != Free
    decreases APPS - k
  {
    if k == APPS || apps[k].mode == Free then k else FirstFree(apps, k + 1)
  }

  datatype StartCode = Busy | Failed | Started

  /** What loading an image came to, and the ticks that went by meanwhile. */
  datatype Attempt = Attempt(ok: bool, delay: nat)

  datatype StartResult = StartResult(state: Table, code: StartCode, slot: nat)

  /** Put a freshly loaded program into slot k. */
  function Occupy(s: Table, k: nat, periodicId: nat, serial: nat): (t: Table)
    requires k < APPS
  {
    s.(apps := s.apps[k := App(Ready, 0, 0, 0, periodicId, 0, -1)],
       log := s.log.(tenants := s.log.tenants[k := serial]))
  }

  function Start(s: Table, periodicId: nat, serial: nat, a: Attempt): (r: StartResult) {
    var k := FirstFree(s.apps, 0);
    if k == APPS then StartResult(s, Busy, APPS)
    else
      var u := s.(current := k, ticks := s.ticks + a.delay);
      if !a.ok then StartResult(u, Failed, APPS)
      else StartResult(Occupy(u, k, periodicId, serial), Started, k)
  }

  /** The first slot in round-robin order from the cursor, i places on, that is ready, or APPS. */
  function FirstReady(s: Table, i: nat): (r: nat)
    requires i <= APPS
    ensures r <= APPS
    ensures r < APPS ==> s.apps[r].mode == Ready
    decreases APPS - i
  {
    if i == APPS then APPS
    else if s.apps[(s.next + i) % APPS].mode == Ready then (s.next + i) % APPS
    else FirstReady(s, i + 1)
  }

  function Schedule(s: Table): (t: Table) {
    var k := FirstReady(s, 0);
    if k == APPS then s
    else s.(next := (k + 1) % APPS, current := k, apps := s.apps[k := s.apps[k].(mode := Running)])
  }

  // ------------------------------------------------------------ periodic launch

  function FirstIdle(ps: seq<Periodic>, i: nat): (r: nat)
    requires |ps| == PERIODICS && i <= PERIODICS
    ensures i <= r <= PERIODICS
    ensures r < PERIODICS ==> !ps[r].active
    ensures forall j :: i <= j < r ==> ps[j].active
    decreases PERIODICS - i
  {
    if i == PERIODICS || !ps[i].active then i else FirstIdle(ps, i + 1)
  }

  predicate AddAccepted(s: Table, seconds: nat, count: nat, wellFormed: bool) {
    && seconds != 0 && count != 0 && seconds <= (B64 - 1) / TICK_HZ && wellFormed
    && FirstIdle(s.periodics, 0) < PERIODICS
    && s.ticks + seconds * TICK_HZ < B64
  }

  /** `wellFormed` stands for the tests of the program name and of the length of its arguments. */
  function Add(s: Table, seconds: nat, count: nat, wellFormed: bool): (t: Table) {
    if !AddAccepted(s, seconds, count, wellFormed) then s
    else
      var i := FirstIdle(s.periodics, 0);
      var interval := seconds * TICK_HZ;
      s.(periodics := s.periodics[i := Periodic(true, interval, s.ticks + interval, count, APPS)],
         log := s.log.(bookings := s.log.bookings + [Booking(count, interval, s.ticks)],
                       serials := s.log.serials[i := |s.log.bookings| + 1]))
  }

  function Cancel(s: Table, id: nat): (t: Table) {
    if id >= PERIODICS || !s.periodics[id].active then s
    else
      s.(periodics := s.periodics[id := s.periodics[id].(active := false)],
         log := s.log.(cancelled := s.log.cancelled + {s.log.serials[id]}))
  }

  /** The application that entry i launched last is still there. */
  predicate StillRunning(s: Table, i: nat)
    requires i < PERIODICS
  {
    var p := s.periodics[i];
    p.slot < APPS && s.apps[p.slot].periodicId == i + 1 && s.apps[p.slot].mode != Free
  }

  function Detach(s: Table, i: nat): (t: Table)
    requires i < PERIODICS
  {
    s.(periodics := s.periodics[i := s.periodics[i].(slot := APPS)])
  }

  function Complete(s: Table, i: nat): (t: Table)
    requires i < PERIODICS
  {
    s.(periodics := s.periodics[i := s.periodics[i].(slot := APPS, active := false)],
       log := s.log.(completed := s.log.completed + {s.log.serials[i]}))
  }

  /** Try to launch entry i; the count is a 32-bit word and its decrement wraps. */
  function TryLaunch(s: Table, i: nat, now: nat, a: Attempt): (t: Table)
    requires i < PERIODICS
  {
    var p := s.periodics[i];
    var r := Start(s, i + 1, s.log.serials[i], a);
    match r.code
    case Busy => s
    case Failed => r.state.(periodics := s.periodics[i := p.(nextTick := now + p.interval)])
    case Started =>
      r.state.(periodics := s.periodics[i := p.(slot := r.slot, nextTick := now + p.interval,
                                                remaining := (p.remaining + B32 - 1) % B32)],
               log := r.state.log.(launches := s.log.launches + [Launch(s.log.serials[i], r.slot, now)]))
  }

  function PollOne(s: Table, i: nat, now: nat, a: Attempt): (t: Table)
    requires i < PERIODICS
  {
    var p := s.periodics[i];
    if !p.active || StillRunning(s, i) then s
    else if p.slot < APPS && p.remaining == 0 then Complete(s, i)
    else
      var u := if p.slot < APPS then Detach(s, i) else s;
      if now < p.nextTick then u else TryLaunch(u, i, now, a)
  }

  /** Entries i and up, all against the tick read on entry to the poll. */
  function PollFrom(s: Table, i: nat, now: nat, a: seq<Attempt>): (t: Table)
    requires i <= PERIODICS && |a| == PERIODICS
    decreases PERIODICS - i
  {
    if i == PERIODICS then s else PollFrom(PollOne(s, i, now, a[i]), i + 1, now, a)
  }

  function Poll(s: Table, a: seq<Attempt>): (t: Table)
    requires |a| == PERIODICS
  {
    PollFrom(s, 0, s.ticks, a)
  }

  // ----------------------------------------------------------------------- runs

  datatype Event =
    | Tick
    | UserTick
    | Called(call: Call)
    | Faulted(vector: nat)
    | RunCommand(a: Attempt)
    | Scheduled
    | Polled(attempts: seq<Attempt>)
    | Added(seconds: nat, count: nat, wellFormed: bool)
    | Cancelled(id: nat)

  predicate WellTyped(e: Event) {
    && (e.Called? && e.call.Transport? ==> IsResource(e.call.rid))
    && (e.Polled? ==> |e.attempts| == PERIODICS)
    && (e.Added? ==> e.count < B32)
  }

  type Happening = e: Event | WellTyped(e) witness Tick

  /** The processor is in the kernel loop: no user program has it. */
  predicate InLoop(s: Table) { s.apps[s.current].mode != Running }

  /** What interrupts and traps do; they come at any time. */
  function TrapStep(s: Table, e: Happening): (t: Table) {
    match e
    case Tick => s.(ticks := s.ticks + 1)
    case UserTick => Preempt(s.(ticks := s.ticks + 1))
    case Called(call) => Service(s, call)
    case Faulted(vector) => Fault(s, vector)
    case _ => s
  }

  /** What the kernel loop does. */
  function LoopStep(s: Table, e: Happening): (t: Table) {
    match e
    case RunCommand(a) => Start(s, 0, 0, a).state
    case Scheduled => Schedule(s)
    case Polled(a) => Poll(s, a)
    case Added(seconds, count, ok) => Add(s, seconds, count, ok)
    case Cancelled(id) => Cancel(s, id)
    case _ => s
  }

  predicate IsTrap(e: Event) { e.Tick? || e.UserTick? || e.Called? || e.Faulted? }

  /** One step.  What only the kernel loop does cannot happen while a user program runs. */
  function Step(s: Table, e: Happening): (t: Table) {
    if IsTrap(e) then TrapStep(s, e) else if InLoop(s) then LoopStep(s, e) else s
  }

  function Run(s: Table, es: seq<Happening>): (t: Table)
    decreases |es|
  {
    if es == [] then s else Run(Step(s, es[0]), es[1..])
  }
}
