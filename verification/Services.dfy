/**
 The service calls by their registers: what pointers and lengths are tested for,
 what is asked of the network and the store, and what is written back.  The
 program's memory is a map, so every access carries the proof that it is inside.
 */
module Services {
  import opened Basics
  import opened KernelModel
  import opened AddressSpaces

  const UDP_MAX: nat := 1024
  const PATH: nat := 191
  const TEXT: nat := 1024
  const PING_MAX: nat := 500
  const TCP: nat := 1
  const UDP: nat := 2

  datatype Regs = Regs(rax: u64, rdi: u64, rsi: u64, rdx: u64, rcx: u64, r8: u64, r9: u64)

  /**
   What the clock, the network and the store answer.  `exchange` is the datagram
   that comes back, empty if none does; `got` is what a read brings, complete or
   not; `online` says that the store is or can be connected.
   */
  datatype World = World(clock: int, gateway: seq<byte>, ping: int, exchange: seq<byte>, online: bool,
                         size: Option<u64>, got: seq<byte>, complete: bool, wrote: int)

  type Answers = w: World | |w.gateway| == 4 witness World(0, [0, 0, 0, 0], 0, [], false, None, [], false, 0)

  /** What a call asks of the rest of the kernel. */
  datatype Request =
    | Silent
    | Print(text: seq<byte>)
    | PrintNumber(n: u64)
    | Ping(ip: seq<byte>, timeout: nat)
    | Exchange(ip: seq<byte>, port: nat, data: seq<byte>, cap: nat)
    | AskSize(path: seq<byte>)
    | ReadPart(path: seq<byte>, offset: u64, len: nat)
    | WriteAll(path: seq<byte>, data: seq<byte>, append: bool)

  /** A call served: what it is to the scheduler, what was asked, and the memory afterwards. */
  datatype Served = Served(call: Call, request: Request, mem: Memory)

  /** A C `int` out of the lower half of a register. */
  function Int32(w: u64): int {
    var v := w % B32;
    if v < B32 / 2 then v else v - B32
  }

  function Bit(b: bool): int { if b then 1 else 0 }

  function Clip(data: seq<byte>, len: nat): (s: seq<byte>)
    ensures |s| <= len
  {
    if |data| <= len then data else data[..len]
  }

  // ------------------------------------------------------- what each service comes to

  ghost function WriteText(r: Regs, mem: Memory): Served {
    if IsString(mem, r.rdi, TEXT) then Served(Plain(1), Print(StringAt(mem, r.rdi, TEXT)), mem)
    else Served(Plain(0), Silent, mem)
  }

  function Gateway(r: Regs, mem: Memory, w: Answers): Served {
    if UserRange(r.rdi, 4) then Served(Plain(1), Silent, Overwritten(mem, r.rdi, w.gateway))
    else Served(Plain(0), Silent, mem)
  }

  ghost function PingHost(r: Regs, mem: Memory, w: Answers): Served
    requires UserMemory(mem)
  {
    if !UserRange(r.rdi, 4) then Served(Plain(0), Silent, mem)
    else
      RangeInMemory(mem, r.rdi, 4);
      Served(Plain(w.ping), Ping(BytesAt(mem, r.rdi, 4), if r.rsi > PING_MAX then PING_MAX else r.rsi), mem)
  }

  predicate UdpOk(r: Regs) {
    && r.rsi != 0 && r.rsi <= 65535 && r.rcx <= UDP_MAX && r.r9 <= UDP_MAX && UserRange(r.rdi, 4)
    && (r.rcx == 0 || UserRange(r.rdx, r.rcx)) && (r.r9 == 0 || UserRange(r.r8, r.r9))
  }

  ghost function UdpExchange(r: Regs, mem: Memory, w: Answers, owner: bool): Served
    requires UserMemory(mem)
  {
    if !owner || !UdpOk(r) then Served(Transport(UDP, 0), Silent, mem)
    else
      RangeInMemory(mem, r.rdi, 4);
      RangeInMemory(mem, r.rdx, r.rcx);
      var fits := 0 < |w.exchange| <= r.r9;
      Served(Transport(UDP, if fits then |w.exchange| else 0),
             Exchange(BytesAt(mem, r.rdi, 4), r.rsi, BytesAt(mem, r.rdx, r.rcx), r.r9),
             if fits then Overwritten(mem, r.r8, w.exchange) else mem)
  }

  ghost predicate StatOk(r: Regs, mem: Memory) { IsString(mem, r.rdi, PATH) && UserRange(r.rsi, 8) }

  ghost function StoreStat(r: Regs, mem: Memory, w: Answers, owner: bool): Served {
    if !owner || !StatOk(r, mem) || !w.online then Served(Transport(TCP, 0), Silent, mem)
    else Served(Transport(TCP, Bit(w.size.Some?)), AskSize(StringAt(mem, r.rdi, PATH)),
                if w.size.Some? then Overwritten(mem, r.rsi, PutWord(w.size.value, 8)) else mem)
  }

  ghost predicate ReadOk(r: Regs, mem: Memory) {
    IsString(mem, r.rdi, PATH) && r.rcx <= BLOCK && UserRange(r.rdx, r.rcx)
  }

  ghost function StoreRead(r: Regs, mem: Memory, w: Answers, owner: bool): Served {
    if !owner || !w.online || !ReadOk(r, mem) then Served(Transport(TCP, 0), Silent, mem)
    else
      var got := Clip(w.got, r.rcx);
      Served(Transport(TCP, if w.complete then |got| else 0), ReadPart(StringAt(mem, r.rdi, PATH), r.rsi, r.rcx),
             Overwritten(mem, r.rdx, got))
  }

  ghost predicate WriteOk(r: Regs, mem: Memory) {
    IsString(mem, r.rdi, PATH) && r.rdx <= BLOCK && UserRange(r.rsi, r.rdx)
  }

  ghost function StoreWrite(r: Regs, mem: Memory, w: Answers, owner: bool): Served
    requires UserMemory(mem)
  {
    if !owner || !w.online || !WriteOk(r, mem) then Served(Transport(TCP, 0), Silent, mem)
    else
      RangeInMemory(mem, r.rsi, r.rdx);
      Served(Transport(TCP, w.wrote), WriteAll(StringAt(mem, r.rdi, PATH), BytesAt(mem, r.rsi, r.rdx), r.rax == 8), mem)
  }

  /** What the registers come to, for a caller that owns UDP or TCP or neither. */
  ghost function Outcome(r: Regs, mem: Memory, w: Answers, udp: bool, tcp: bool): (o: Served)
    requires UserMemory(mem)
    ensures o.call.Transport? ==> IsResource(o.call.rid)
  {
    match r.rax
    case 0 => Served(Exit(Int32(r.rdi)), Silent, mem)
    case 1 => WriteText(r, mem)
    case 2 => Served(Plain(1), PrintNumber(r.rdi), mem)
    case 3 => Served(Plain(w.clock), Silent, mem)
    case 4 => Gateway(r, mem, w)
    case 5 => PingHost(r, mem, w)
    case 6 => StoreRead(r, mem, w, tcp)
    case 7 => StoreWrite(r, mem, w, tcp)
    case 8 => StoreWrite(r, mem, w, tcp)
    case 9 => Served(AcquireCall(r.rdi), Silent, mem)
    case 10 => Served(ReleaseCall(r.rdi), Silent, mem)
    case 11 => StoreStat(r, mem, w, tcp)
    case 12 => UdpExchange(r, mem, w, udp)
    case _ => Served(Plain(0), Silent, mem)
  }

  // ------------------------------------------------------------------- the dispatcher

  method ServeText(r: Regs, mem: Memory) returns (o: Served)
    requires UserMemory(mem)
    ensures o == WriteText(r, mem)
  {
    var ok, len := UserString(mem, r.rdi, TEXT);
    if !ok { return Served(Plain(0), Silent, mem); }
    StringIs(mem, r.rdi, TEXT, len);
    var text := CopyIn(mem, r.rdi, len);
    return Served(Plain(1), Print(text), mem);
  }

  method ServeGateway(r: Regs, mem: Memory, w: Answers) returns (o: Served)
    requires UserMemory(mem)
    ensures o == Gateway(r, mem, w)
  {
    if !UserRange(r.rdi, 4) { return Served(Plain(0), Silent, mem); }
    RangeInMemory(mem, r.rdi, 4);
    var m := CopyOut(mem, r.rdi, w.gateway);
    return Served(Plain(1), Silent, m);
  }

  method ServePing(r: Regs, mem: Memory, w: Answers) returns (o: Served)
    requires UserMemory(mem)
    ensures o == PingHost(r, mem, w)
  {
    if !UserRange(r.rdi, 4) { return Served(Plain(0), Silent, mem); }
    RangeInMemory(mem, r.rdi, 4);
    var ip := CopyIn(mem, r.rdi, 4);
    return Served(Plain(w.ping), Ping(ip, if r.rsi > PING_MAX then PING_MAX else r.rsi), mem);
  }

  method ServeExchange(r: Regs, mem: Memory, w: Answers, owner: bool) returns (o: Served)
    requires UserMemory(mem)
    ensures o == UdpExchange(r, mem, w, owner)
  {
    if !owner || !UdpOk(r) { return Served(Transport(UDP, 0), Silent, mem); }
    RangeInMemory(mem, r.rdi, 4);
    RangeInMemory(mem, r.rdx, r.rcx);
    RangeInMemory(mem, r.r8, r.r9);
    var ip := CopyIn(mem, r.rdi, 4);
    var data := CopyIn(mem, r.rdx, r.rcx);
    var request := Exchange(ip, r.rsi, data, r.r9);
    var n := |w.exchange|;
    if n == 0 || n > r.r9 { return Served(Transport(UDP, 0), request, mem); }
    var m := CopyOut(mem, r.r8, w.exchange);
    return Served(Transport(UDP, n), request, m);
  }

  /** The path of a store service, if there is one. */
  method ServePath(r: Regs, mem: Memory) returns (ok: bool, path: seq<byte>)
    requires UserMemory(mem)
    ensures ok == IsString(mem, r.rdi, PATH)
    ensures ok ==> path == StringAt(mem, r.rdi, PATH)
  {
    path := [];
    var len;
    ok, len := UserString(mem, r.rdi, PATH);
    if !ok { return; }
    StringIs(mem, r.rdi, PATH, len);
    path := CopyIn(mem, r.rdi, len);
  }

  method ServeStat(r: Regs, mem: Memory, w: Answers, owner: bool) returns (o: Served)
    requires UserMemory(mem)
    ensures o == StoreStat(r, mem, w, owner)
  {
    o := Served(Transport(TCP, 0), Silent, mem);
    if !owner { return; }
    var ok, path := ServePath(r, mem);
    if !ok || !UserRange(r.rsi, 8) || !w.online { return; }
    if w.size.None? { return Served(Transport(TCP, 0), AskSize(path), mem); }
    RangeInMemory(mem, r.rsi, 8);
    var m := CopyOut(mem, r.rsi, PutWord(w.size.value, 8));
    return Served(Transport(TCP, 1), AskSize(path), m);
  }

  method ServeRead(r: Regs, mem: Memory, w: Answers, owner: bool) returns (o: Served)
    requires UserMemory(mem)
    ensures o == StoreRead(r, mem, w, owner)
  {
    o := Served(Transport(TCP, 0), Silent, mem);
    if !owner || !w.online { return; }
    var ok, path := ServePath(r, mem);
    if !ok || r.rcx > BLOCK || !UserRange(r.rdx, r.rcx) { return; }
    RangeInMemory(mem, r.rdx, r.rcx);
    var got := Clip(w.got, r.rcx);
    var m := CopyOut(mem, r.rdx, got);
    return Served(Transport(TCP, if w.complete then |got| else 0), ReadPart(path, r.rsi, r.rcx), m);
  }

  method ServeWrite(r: Regs, mem: Memory, w: Answers, owner: bool) returns (o: Served)
    requires UserMemory(mem)
    ensures o == StoreWrite(r, mem, w, owner)
  {
    o := Served(Transport(TCP, 0), Silent, mem);
    if !owner || !w.online { return; }
    var ok, path := ServePath(r, mem);
    if !ok || r.rdx > BLOCK || !UserRange(r.rsi, r.rdx) { return; }
    RangeInMemory(mem, r.rsi, r.rdx);
    var data := CopyIn(mem, r.rsi, r.rdx);
    return Served(Transport(TCP, w.wrote), WriteAll(path, data, r.rax == 8), mem);
  }

  /** Serve a call: every byte read or written on the way is in the program's memory. */
  method Dispatch(r: Regs, mem: Memory, w: Answers, udp: bool, tcp: bool) returns (o: Served)
    requires UserMemory(mem)
    ensures o == Outcome(r, mem, w, udp, tcp)
  {
    match r.rax
    case 0 => o := Served(Exit(Int32(r.rdi)), Silent, mem);
    case 1 => o := ServeText(r, mem);
    case 2 => o := Served(Plain(1), PrintNumber(r.rdi), mem);
    case 3 => o := Served(Plain(w.clock), Silent, mem);
    case 4 => o := ServeGateway(r, mem, w);
    case 5 => o := ServePing(r, mem, w);
    case 6 => o := ServeRead(r, mem, w, tcp);
    case 7 => o := ServeWrite(r, mem, w, tcp);
    case 8 => o := ServeWrite(r, mem, w, tcp);
    case 9 => o := Served(AcquireCall(r.rdi), Silent, mem);
    case 10 => o := Served(ReleaseCall(r.rdi), Silent, mem);
    case 11 => o := ServeStat(r, mem, w, tcp);
    case 12 => o := ServeExchange(r, mem, w, udp);
    case _ => o := Served(Plain(0), Silent, mem);
  }

  // -------------------------------------------------------------------- what follows

  /** The buffer a call names for its answer. */
  function Buffer(r: Regs): (nat, nat) {
    match r.rax
    case 4 => (r.rdi, 4)
    case 6 => (r.rdx, r.rcx)
    case 11 => (r.rsi, 8)
    case 12 => (r.r8, r.r9)
    case _ => (0, 0)
  }

  /** A service changes nothing but the buffer the registers name, and takes no byte away. */
  lemma WritesWhereAsked(r: Regs, mem: Memory, w: Answers, udp: bool, tcp: bool)
    requires UserMemory(mem)
    ensures var m := Outcome(r, mem, w, udp, tcp).mem;
            UserMemory(m) && ChangedIn(mem, m, Buffer(r).0, Buffer(r).1)
  {
    match r.rax {
      case 4 => OverwrittenIn(mem, r.rdi, w.gateway, 4);
      case 6 => OverwrittenIn(mem, r.rdx, Clip(w.got, r.rcx), r.rcx);
      case 11 =>
        if w.size.Some? {
          OverwrittenIn(mem, r.rsi, PutWord(w.size.value, 8), 8);
        }
      case 12 =>
        if |w.exchange| <= r.r9 {
          OverwrittenIn(mem, r.r8, w.exchange, r.r9);
        }
      case _ =>
    }
    StillUser(mem, Outcome(r, mem, w, udp, tcp).mem);
  }

  lemma StillUser(mem: Memory, m: Memory)
    requires UserMemory(mem) && m.Keys == mem.Keys
    ensures UserMemory(m)
  {
    assert forall x: nat :: x in m <==> x in m.Keys;
  }

  predicate UsesTcp(q: Request) { q.AskSize? || q.ReadPart? || q.WriteAll? }

  /** Neither transport is asked for anything on behalf of a program that does not own it, and such a call answers 0. */
  lemma OwnersOnly(r: Regs, mem: Memory, w: Answers, udp: bool, tcp: bool)
    requires UserMemory(mem)
    ensures var o := Outcome(r, mem, w, udp, tcp);
            && (o.request.Exchange? ==> udp) && (UsesTcp(o.request) ==> tcp)
            && (r.rax == 12 && !udp ==> o == Served(Transport(UDP, 0), Silent, mem))
            && ((6 <= r.rax <= 8 || r.rax == 11) && !tcp ==> o == Served(Transport(TCP, 0), Silent, mem))
  {
  }

  /** What is asked fits the transports: a datagram and a block at most, and paths of fewer than 191 bytes without a zero. */
  lemma RequestsFit(r: Regs, mem: Memory, w: Answers, udp: bool, tcp: bool)
    requires UserMemory(mem)
    ensures var q := Outcome(r, mem, w, udp, tcp).request;
            && (q.Exchange? ==> |q.ip| == 4 && 0 < q.port <= 65535 && |q.data| <= UDP_MAX && q.cap <= UDP_MAX)
            && (q.Ping? ==> |q.ip| == 4 && q.timeout <= PING_MAX)
            && (q.Print? ==> |q.text| < TEXT && 0 !in q.text)
            && (UsesTcp(q) ==> |q.path| < PATH && 0 !in q.path)
            && (q.ReadPart? ==> q.len <= BLOCK) && (q.WriteAll? ==> |q.data| <= BLOCK)
  {
    if r.rax == 1 {
      if IsString(mem, r.rdi, TEXT) {
        StringProper(mem, r.rdi, TEXT);
      }
    } else if 6 <= r.rax <= 8 || r.rax == 11 {
      if IsString(mem, r.rdi, PATH) {
        StringProper(mem, r.rdi, PATH);
      }
    }
  }

  lemma StringProper(mem: Memory, addr: nat, max: nat)
    requires IsString(mem, addr, max)
    ensures |StringAt(mem, addr, max)| < max && 0 !in StringAt(mem, addr, max)
  {
    var i: nat :| i < max && StringEnds(mem, addr, i);
    StringIs(mem, addr, max, i);
  }

  // ------------------------------------------------------------------ what calls mean

  /** The calling program's memory, byte for byte, is what is asked with. */
  predicate Copied(mem: Memory, addr: nat, data: seq<byte>) {
    forall i :: 0 <= i < |data| ==> addr + i in mem && data[i] == mem[addr + i]
  }

  /** The 64-bit word in memory at an address, the lowest byte first. */
  function Word64(mem: Memory, addr: nat): nat
    requires InMemory(mem, addr, 8)
  {
    WordOf(BytesAt(mem, addr, 8))
  }

  lemma CopiedOut(mem: Memory, addr: nat, data: seq<byte>)
    requires InMemory(mem, addr, |data|)
    ensures Copied(Overwritten(mem, addr, data), addr, data)
  {
  }

  /** Services that need no resource: exit, text, number, clock, gateway and ping. */
  lemma PlainCallsMean(r: Regs, mem: Memory, w: Answers, udp: bool, tcp: bool)
    requires UserMemory(mem)
    ensures var o := Outcome(r, mem, w, udp, tcp);
            && (r.rax == 0 ==> o.call.Exit? && (o.call.code - r.rdi) % B32 == 0 && -0x8000_0000 <= o.call.code < 0x8000_0000)
            && (r.rax == 1 && IsString(mem, r.rdi, TEXT) ==>
                  o.call == Plain(1) && o.request.Print? && StringEnds(mem, r.rdi, |o.request.text|)
                  && Copied(mem, r.rdi, o.request.text))
            && (r.rax == 1 && !IsString(mem, r.rdi, TEXT) ==> o == Served(Plain(0), Silent, mem))
            && (r.rax == 2 ==> o == Served(Plain(1), PrintNumber(r.rdi), mem))
            && (r.rax == 3 ==> o == Served(Plain(w.clock), Silent, mem))
            && (r.rax == 4 && UserRange(r.rdi, 4) ==> o.call == Plain(1) && Copied(o.mem, r.rdi, w.gateway))
            && (r.rax == 5 && UserRange(r.rdi, 4) ==>
                  && o.call == Plain(w.ping) && o.request.Ping? && |o.request.ip| == 4 && Copied(mem, r.rdi, o.request.ip)
                  && o.request.timeout == (if r.rsi <= 500 then r.rsi else 500))
            && ((r.rax == 4 || r.rax == 5) && !UserRange(r.rdi, 4) ==> o == Served(Plain(0), Silent, mem))
            && (r.rax > 12 ==> o == Served(Plain(0), Silent, mem))
  {
    if r.rax == 1 {
      if IsString(mem, r.rdi, TEXT) {
        StringIs(mem, r.rdi, TEXT, StringLen(mem, r.rdi, TEXT));
      }
    } else if r.rax == 4 && UserRange(r.rdi, 4) {
      RangeInMemory(mem, r.rdi, 4);
      CopiedOut(mem, r.rdi, w.gateway);
    } else if r.rax == 5 && UserRange(r.rdi, 4) {
      RangeInMemory(mem, r.rdi, 4);
    }
  }

  /** Acquire and release pass their register on, and ask for nothing. */
  lemma ResourceCallsMean(r: Regs, mem: Memory, w: Answers, udp: bool, tcp: bool)
    requires UserMemory(mem) && (r.rax == 9 || r.rax == 10)
    ensures var o := Outcome(r, mem, w, udp, tcp);
            o.call == (if r.rax == 9 then AcquireCall(r.rdi) else ReleaseCall(r.rdi)) && o.request == Silent && o.mem == mem
  {
  }

  /**
   An exchange sends the bytes the program points at to the address and port it
   names; the datagram that comes back, if it fits, is in its buffer, and the
   answer is its length.
   */
  lemma ExchangeMeans(r: Regs, mem: Memory, w: Answers, tcp: bool)
    requires UserMemory(mem) && r.rax == 12 && UdpOk(r)
    ensures var o := Outcome(r, mem, w, true, tcp);
            var q := o.request;
            && q.Exchange? && |q.ip| == 4 && Copied(mem, r.rdi, q.ip) && q.port == r.rsi
            && |q.data| == r.rcx && Copied(mem, r.rdx, q.data) && q.cap == r.r9
            && (if 0 < |w.exchange| <= r.r9 then o.call == Transport(UDP, |w.exchange|) && Copied(o.mem, r.r8, w.exchange)
                else o.call == Transport(UDP, 0) && o.mem == mem)
  {
    RangeInMemory(mem, r.rdi, 4);
    RangeInMemory(mem, r.rdx, r.rcx);
    CopiedIn(mem, r.rdi, 4);
    CopiedIn(mem, r.rdx, r.rcx);
    assert Outcome(r, mem, w, true, tcp) == UdpExchange(r, mem, w, true);
    if 0 < |w.exchange| <= r.r9 {
      RangeInMemory(mem, r.r8, r.r9);
      PartInMemory(mem, r.r8, |w.exchange|, r.r9);
      CopiedOut(mem, r.r8, w.exchange);
    }
  }

  lemma CopiedIn(mem: Memory, addr: nat, len: nat)
    requires InMemory(mem, addr, len)
    ensures Copied(mem, addr, BytesAt(mem, addr, len))
  {
  }

  lemma PartInMemory(mem: Memory, addr: nat, part: nat, len: nat)
    requires InMemory(mem, addr, len) && part <= len
    ensures InMemory(mem, addr, part)
  {
  }
}
