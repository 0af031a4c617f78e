/**
 The kernel's one TCP connection as a step system over values: in-order receive
 into a bounded buffer, one outstanding payload that is retransmitted until it
 is acknowledged, and the handshake and closing around them.

 `log` records the life of the connection: where the two streams begin, what
 has been accepted and handed on, what has been put on the wire.  The code
 never reads it.
 */
module TcpModel {
  import opened Basics

  const RX_SIZE: nat := 4096
  const RETRY_TICKS: nat := 50
  const RETRY_MAX: nat := 5
  const FIRST_SEQ: nat := 0x474d_0001
  const SEQ_STEP: nat := 0x1000

  datatype State = Closed | Syn | Established | Fin | Reset

  /** A received segment that passed the tests of address, ports, length and checksum. */
  datatype Segment = Segment(seqNo: u32, ack: u32, hasSyn: bool, hasAck: bool, hasRst: bool, hasFin: bool,
                             payload: seq<byte>)

  /** A payload put on the wire. */
  datatype Data = Data(seqNo: u32, bytes: seq<byte>)

  datatype Log = Log(joined: bool, peerStart: u32, accepted: seq<byte>, taken: seq<byte>, finSeen: bool,
                     ourStart: u32, submitted: seq<byte>, finSent: bool, wire: seq<Data>, first: nat,
                     cleared: seq<u32>)

  const NoLog: Log := Log(false, 0, [], [], false, 0, [], false, [], 0, [])

  /**
   `out` is the payload not yet acknowledged, empty if there is none; `sending`
   says that a send is going on; `nextSeq` is the first number of the next connection.
   */
  datatype Conn = Conn(state: State, seqNo: u32, ack: u32, rx: seq<byte>,
                       out: seq<byte>, outSeq: u32, outTick: nat, outRetry: nat,
                       sending: bool, nextSeq: u32, log: Log)

  function Init(): Conn { Conn(Closed, 0, 0, [], [], 0, 0, 0, false, FIRST_SEQ, NoLog) }

  function Add32(a: u32, n: nat): u32 { (a + n) % B32 }

  // -------------------------------------------------------------------- receiving

  /** The test that clears the outstanding payload: a comparison of two 32-bit words, without wrap-around. */
  predicate Clears(outSeq: u32, len: nat, ack: u32) { ack >= Add32(outSeq, len) }

  function TakeAck(c: Conn, seg: Segment): Conn {
    if seg.hasAck && c.out != [] && Clears(c.outSeq, |c.out|, seg.ack)
    then c.(out := [], outRetry := 0, log := c.log.(cleared := c.log.cleared + [seg.ack]))
    else c
  }

  function TakePayload(c: Conn, seg: Segment): Conn {
    if seg.payload != [] && seg.seqNo == c.ack && |c.rx| + |seg.payload| <= RX_SIZE
    then c.(rx := c.rx + seg.payload, ack := Add32(c.ack, |seg.payload|),
            log := c.log.(accepted := c.log.accepted + seg.payload))
    else c
  }

  /** A FIN closes the connection even when it is out of order; it is counted only in order. */
  function TakeFin(c: Conn, seg: Segment): Conn {
    if !seg.hasFin then c
    else
      var inOrder := Add32(seg.seqNo, |seg.payload|) == c.ack;
      c.(ack := if inOrder then Add32(c.ack, 1) else c.ack, state := Closed, out := [],
         log := c.log.(finSeen := c.log.finSeen || inOrder))
  }

  /** `ok` says whether the acknowledgement that completes the handshake could be sent. */
  function TakeSynAck(c: Conn, seg: Segment, ok: bool): Conn {
    if seg.ack != Add32(c.seqNo, 1) then c
    else
      var d := c.(seqNo := Add32(c.seqNo, 1), ack := Add32(seg.seqNo, 1));
      if ok
      then d.(state := Established,
              log := NoLog.(joined := true, peerStart := d.ack, ourStart := d.seqNo))
      else d
  }

  function Input(c: Conn, seg: Segment, ok: bool): Conn {
    if seg.hasRst then c.(state := Reset, out := [])
    else if c.state == Syn && seg.hasSyn && seg.hasAck then TakeSynAck(c, seg, ok)
    else if c.state != Established && c.state != Fin then c
    else TakeFin(TakePayload(TakeAck(c, seg), seg), seg)
  }

  /** Hand at most `max` bytes to the reader. */
  function Read(c: Conn, max: nat): Conn {
    var n := if |c.rx| <= max then |c.rx| else max;
    c.(rx := c.rx[n..], log := c.log.(taken := c.log.taken + c.rx[..n]))
  }

  function Drop(c: Conn): Conn { c.(rx := [], log := c.log.(taken := c.log.taken + c.rx)) }

  // ---------------------------------------------------------------------- sending

  function PutOnWire(c: Conn, ok: bool): Conn {
    if ok then c.(log := c.log.(wire := c.log.wire + [Data(c.outSeq, c.out)])) else c
  }

  /** Retransmit what is overdue, or give the connection up. */
  function Poll(c: Conn, now: nat, ok: bool): Conn {
    if c.state != Established || c.out == [] || now < c.outTick + RETRY_TICKS then c
    else if c.outRetry >= RETRY_MAX then c.(state := Reset, out := [])
    else PutOnWire(c.(outRetry := c.outRetry + 1, outTick := now), ok)
  }

  predicate Sendable(c: Conn, data: seq<byte>) { c.state == Established && 0 < |data| <= TX_MAX }

  /** The first transmission of a payload; if it fails, nothing is outstanding. */
  function SendBegin(c: Conn, data: seq<byte>, now: nat, ok: bool): Conn {
    if !Sendable(c, data) then c
    else if !ok then c.(out := [], outSeq := c.seqNo, outTick := now, outRetry := 0)
    else
      var d := c.(out := data, outSeq := c.seqNo, outTick := now, outRetry := 0, sending := true,
                  seqNo := Add32(c.seqNo, |data|));
      d.(log := d.log.(submitted := d.log.submitted + data, first := |d.log.wire|,
                       wire := d.log.wire + [Data(d.outSeq, data)]))
  }

  /** The end of a send: acknowledged, or broken off after the time allowed. */
  function SendEnd(c: Conn): Conn {
    if c.out != [] then c.(state := Reset, out := [], sending := false) else c.(sending := false)
  }

  /** What a send returns. */
  predicate SendResult(c: Conn) { c.out == [] && c.state == Established }

  // ------------------------------------------------------------- opening and closing

  function Connect(c: Conn): Conn {
    Conn(Syn, c.nextSeq, 0, [], [], c.outSeq, c.outTick, c.outRetry, false, Add32(c.nextSeq, SEQ_STEP), NoLog)
  }

  function ConnectFailed(c: Conn): Conn { c.(state := Closed) }

  function Close(c: Conn, ok: bool): Conn {
    if c.state == Established && c.out == [] && ok
    then c.(seqNo := Add32(c.seqNo, 1), state := Fin, log := c.log.(finSent := true))
    else c
  }

  // ------------------------------------------------------------------------- runs

  datatype Event =
    | Arrived(seg: Segment, ok: bool)
    | Polled(now: nat, ok: bool)
    | ReadUpTo(max: nat)
    | Dropped
    | SendBegun(data: seq<byte>, now: nat, ok: bool)
    | SendEnded
    | Connected
    | GivenUp
    | CloseAsked(ok: bool)

  /** A send keeps the caller until it ends; only the network and the timer go on meanwhile. */
  predicate Possible(c: Conn, e: Event) {
    match e
    case Arrived(_, _) => true
    case Polled(_, _) => true
    case SendEnded => c.sending
    case GivenUp => !c.sending && (c.state == Syn || c.state == Reset)
    case _ => !c.sending
  }

  function Step(c: Conn, e: Event): Conn
    requires Possible(c, e)
  {
    match e
    case Arrived(seg, ok) => Input(c, seg, ok)
    case Polled(now, ok) => Poll(c, now, ok)
    case ReadUpTo(max) => Read(c, max)
    case Dropped => Drop(c)
    case SendBegun(data, now, ok) => SendBegin(c, data, now, ok)
    case SendEnded => SendEnd(c)
    case Connected => Connect(c)
    case GivenUp => ConnectFailed(c)
    case CloseAsked(ok) => Close(c, ok)
  }
}
