/**
 What every step of the connection keeps, and what follows for both streams.
 */
module TcpSafety {
  import opened Basics
  import opened TcpModel

  // -------------------------------------------------------------------- invariants

  /** What was read, dropped and is still buffered is what was accepted, and the next number awaited counts it. */
  predicate ReceiveOk(c: Conn) {
    && |c.rx| <= RX_SIZE
    && (c.state == Syn ==> c.rx == [] && !c.log.joined)
    && (c.state == Established || c.state == Fin ==> c.log.joined && !c.log.finSeen)
    && (c.log.joined ==>
          && c.log.taken + c.rx == c.log.accepted
          && c.ack == Add32(c.log.peerStart, |c.log.accepted| + (if c.log.finSeen then 1 else 0)))
  }

  /** A payload on the wire is a piece of the stream submitted, at the number of its first byte. */
  predicate Faithful(d: Data, start: u32, submitted: seq<byte>) {
    exists k: nat :: k + |d.bytes| <= |submitted| && PieceAt(d, start, submitted, k)
  }

  predicate PieceAt(d: Data, start: u32, submitted: seq<byte>, k: nat)
    requires k + |d.bytes| <= |submitted|
  {
    d.seqNo == Add32(start, k) && d.bytes == submitted[k..k + |d.bytes|]
  }

  /** The outstanding payload is the end of the stream, and all that has been sent of late is that payload. */
  predicate Outstanding(c: Conn) {
    && c.state == Established && c.sending && |c.out| <= TX_MAX && |c.out| <= |c.log.submitted|
    && c.seqNo == Add32(c.outSeq, |c.out|)
    && c.outSeq == Add32(c.log.ourStart, |c.log.submitted| - |c.out|)
    && c.out == c.log.submitted[|c.log.submitted| - |c.out|..]
    && c.outRetry <= RETRY_MAX
    && c.log.first < |c.log.wire| <= c.log.first + 1 + c.outRetry
    && (forall i :: c.log.first <= i < |c.log.wire| ==> c.log.wire[i] == Data(c.outSeq, c.out))
  }

  predicate SendOk(c: Conn) {
    && (c.out != [] ==> Outstanding(c))
    && (c.state == Established || c.state == Fin ==>
          c.seqNo == Add32(c.log.ourStart, |c.log.submitted| + (if c.log.finSent then 1 else 0)))
    && (c.state == Established ==> !c.log.finSent)
    && (forall i :: 0 <= i < |c.log.wire| ==> Faithful(c.log.wire[i], c.log.ourStart, c.log.submitted))
  }

  predicate Safe(c: Conn) { ReceiveOk(c) && SendOk(c) }

  // ------------------------------------------------------------------ receive steps

  lemma AddTwice(a: u32, m: nat, n: nat)
    ensures Add32(Add32(a, m), n) == Add32(a, m + n)
  {
  }

  lemma TakeAckSafe(c: Conn, seg: Segment)
    requires Safe(c)
    ensures Safe(TakeAck(c, seg))
  {
  }

  lemma TakePayloadSafe(c: Conn, seg: Segment)
    requires Safe(c) && (c.state == Established || c.state == Fin)
    ensures Safe(TakePayload(c, seg))
  {
    AddTwice(c.log.peerStart, |c.log.accepted|, |seg.payload|);
    assert c.log.taken + (c.rx + seg.payload) == (c.log.taken + c.rx) + seg.payload;
  }

  lemma TakeFinSafe(c: Conn, seg: Segment)
    requires Safe(c) && (c.state == Established || c.state == Fin)
    ensures Safe(TakeFin(c, seg))
  {
    AddTwice(c.log.peerStart, |c.log.accepted|, 1);
  }

  lemma InputSafe(c: Conn, seg: Segment, ok: bool)
    requires Safe(c)
    ensures Safe(Input(c, seg, ok))
  {
    if !seg.hasRst && (c.state == Established || c.state == Fin) {
      TakeAckSafe(c, seg);
      TakePayloadSafe(TakeAck(c, seg), seg);
      TakeFinSafe(TakePayload(TakeAck(c, seg), seg), seg);
    }
  }

  lemma ReadSafe(c: Conn, max: nat)
    requires Safe(c)
    ensures Safe(Read(c, max))
  {
    var n := if |c.rx| <= max then |c.rx| else max;
    assert (c.log.taken + c.rx[..n]) + c.rx[n..] == c.log.taken + c.rx;
  }

  lemma DropSafe(c: Conn)
    requires Safe(c)
    ensures Safe(Drop(c))
  {
    assert (c.log.taken + c.rx) + [] == c.log.taken + c.rx;
  }

  // --------------------------------------------------------------------- send steps

  lemma OutstandingFaithful(c: Conn)
    requires Outstanding(c)
    ensures Faithful(Data(c.outSeq, c.out), c.log.ourStart, c.log.submitted)
  {
    assert PieceAt(Data(c.outSeq, c.out), c.log.ourStart, c.log.submitted, |c.log.submitted| - |c.out|);
  }

  lemma PollSafe(c: Conn, now: nat, ok: bool)
    requires Safe(c)
    ensures Safe(Poll(c, now, ok))
  {
    if c.state == Established && c.out != [] {
      OutstandingFaithful(c);
    }
  }

  lemma FaithfulLonger(d: Data, start: u32, submitted: seq<byte>, more: seq<byte>)
    requires Faithful(d, start, submitted)
    ensures Faithful(d, start, submitted + more)
  {
    var k: nat :| k + |d.bytes| <= |submitted| && PieceAt(d, start, submitted, k);
    assert PieceAt(d, start, submitted + more, k);
  }

  lemma SendBeginSafe(c: Conn, data: seq<byte>, now: nat, ok: bool)
    requires Safe(c) && !c.sending
    ensures Safe(SendBegin(c, data, now, ok))
  {
    if Sendable(c, data) && ok {
      var d := SendBegin(c, data, now, ok);
      var s := c.log.submitted;
      AddTwice(c.log.ourStart, |s|, |data|);
      assert (s + data)[|s|..] == data;
      assert Outstanding(d);
      OutstandingFaithful(d);
      forall i | 0 <= i < |c.log.wire| ensures Faithful(d.log.wire[i], d.log.ourStart, d.log.submitted) {
        FaithfulLonger(c.log.wire[i], c.log.ourStart, s, data);
      }
    }
  }

  lemma CloseSafe(c: Conn, ok: bool)
    requires Safe(c)
    ensures Safe(Close(c, ok))
  {
    AddTwice(c.log.ourStart, |c.log.submitted|, 1);
  }

  lemma StepSafe(c: Conn, e: Event)
    requires Safe(c) && Possible(c, e)
    ensures Safe(Step(c, e))
  {
    match e
    case Arrived(seg, ok) => InputSafe(c, seg, ok);
    case Polled(now, ok) => PollSafe(c, now, ok);
    case ReadUpTo(max) => ReadSafe(c, max);
    case Dropped => DropSafe(c);
    case SendBegun(data, now, ok) => SendBeginSafe(c, data, now, ok);
    case CloseAsked(ok) => CloseSafe(c, ok);
    case _ =>
  }

  // ----------------------------------------------------------------- consequences

  predicate AllPossible(c: Conn, es: seq<Event>)
    decreases |es|
  {
    es == [] || (Possible(c, es[0]) && AllPossible(Step(c, es[0]), es[1..]))
  }

  function Run(c: Conn, es: seq<Event>): Conn
    requires AllPossible(c, es)
    decreases |es|
  {
    if es == [] then c else Run(Step(c, es[0]), es[1..])
  }

  lemma {:induction false} RunSafe(c: Conn, es: seq<Event>)
    requires Safe(c) && AllPossible(c, es)
    ensures Safe(Run(c, es))
    decreases |es|
  {
    if es != [] {
      StepSafe(c, es[0]);
      RunSafe(Step(c, es[0]), es[1..]);
    }
  }

  /**
   From boot, whatever arrives: everything on the wire belongs to one stream;
   while a payload is outstanding every transmission of it is the same bytes at
   the same number, at most six in all; between sends nothing is outstanding.
   */
  lemma SendingIsFaithful(es: seq<Event>)
    requires AllPossible(Init(), es)
    ensures var c := Run(Init(), es);
            && (forall i :: 0 <= i < |c.log.wire| ==> Faithful(c.log.wire[i], c.log.ourStart, c.log.submitted))
            && (c.out != [] ==> Outstanding(c))
            && (!c.sending ==> c.out == [])
  {
    RunSafe(Init(), es);
  }

  /** The segment carries a piece of the peer's stream, not a whole turn of the sequence numbers away. */
  predicate Consistent(seg: Segment, stream: seq<byte>, start: u32, n: nat) {
    seg.payload == [] ||
    exists k: nat :: k + |seg.payload| <= |stream| && CarriesAt(seg, stream, start, k) && k < n + B32 && n < k + B32
  }

  predicate CarriesAt(seg: Segment, stream: seq<byte>, start: u32, k: nat)
    requires k + |seg.payload| <= |stream|
  {
    seg.seqNo == Add32(start, k) && seg.payload == stream[k..k + |seg.payload|]
  }

  lemma SameNumber(start: u32, k: nat, n: nat)
    requires Add32(start, k) == Add32(start, n) && k < n + B32 && n < k + B32
    ensures k == n
  {
  }

  lemma ContinuesAt(accepted: seq<byte>, seg: Segment, stream: seq<byte>, start: u32)
    requires accepted <= stream && seg.payload != [] && seg.seqNo == Add32(start, |accepted|)
    requires Consistent(seg, stream, start, |accepted|)
    ensures accepted + seg.payload <= stream
  {
    var n := |accepted|;
    var k: nat :| k + |seg.payload| <= |stream| && CarriesAt(seg, stream, start, k) && k < n + B32 && n < k + B32;
    SameNumber(start, k, n);
    assert accepted + seg.payload == stream[..n] + stream[n..n + |seg.payload|];
  }

  /** A payload that is accepted continues what has been accepted. */
  lemma PayloadContinues(c: Conn, seg: Segment, stream: seq<byte>)
    requires Safe(c) && (c.state == Established || c.state == Fin) && c.log.accepted <= stream
    requires Consistent(seg, stream, c.log.peerStart, |c.log.accepted|)
    ensures TakePayload(c, seg).log.accepted <= stream
  {
    if seg.payload != [] && seg.seqNo == c.ack && |c.rx| + |seg.payload| <= RX_SIZE {
      ContinuesAt(c.log.accepted, seg, stream, c.log.peerStart);
    }
  }

  /** The peer keeps to one stream: all through the run its segments are consistent with it. */
  predicate PeerKeepsTo(c: Conn, es: seq<Event>, stream: seq<byte>)
    requires AllPossible(c, es)
    decreases |es|
  {
    es == [] ||
    (&& !es[0].Connected?
     && (es[0].Arrived? ==> Consistent(es[0].seg, stream, c.log.peerStart, |c.log.accepted|))
     && PeerKeepsTo(Step(c, es[0]), es[1..], stream))
  }

  lemma StepContinues(c: Conn, e: Event, stream: seq<byte>)
    requires Safe(c) && Possible(c, e) && c.log.joined && c.log.accepted <= stream && !e.Connected?
    requires e.Arrived? ==> Consistent(e.seg, stream, c.log.peerStart, |c.log.accepted|)
    ensures Step(c, e).log.joined && Step(c, e).log.accepted <= stream
  {
    if e.Arrived? && (c.state == Established || c.state == Fin) {
      TakeAckSafe(c, e.seg);
      PayloadContinues(TakeAck(c, e.seg), e.seg, stream);
    }
  }

  /**
   Once connected to a peer that keeps to one stream, through any duplicates,
   reordering and segments that do not fit: what was read, dropped and is still
   buffered is, in order, a prefix of that stream, and the acknowledged number
   counts exactly those bytes (and the FIN, if it came in order).
   */
  lemma {:induction false} ReceivedIsPrefix(c: Conn, es: seq<Event>, stream: seq<byte>)
    requires Safe(c) && c.log.joined && c.log.accepted <= stream
    requires AllPossible(c, es) && PeerKeepsTo(c, es, stream)
    ensures var d := Run(c, es);
            && d.log.taken + d.rx == d.log.accepted <= stream
            && d.ack == Add32(d.log.peerStart, |d.log.accepted| + (if d.log.finSeen then 1 else 0))
    decreases |es|
  {
    if es != [] {
      StepSafe(c, es[0]);
      StepContinues(c, es[0], stream);
      ReceivedIsPrefix(Step(c, es[0]), es[1..], stream);
    }
  }

  /** The same from boot: any run up to a connection, then any run on it. */
  lemma ReceivedFromBoot(before: seq<Event>, es: seq<Event>, stream: seq<byte>)
    requires AllPossible(Init(), before)
    requires var c := Run(Init(), before);
             && c.log.joined && c.log.accepted <= stream
             && AllPossible(c, es) && PeerKeepsTo(c, es, stream)
    ensures var d := Run(Run(Init(), before), es);
            && d.log.taken + d.rx == d.log.accepted <= stream
            && d.ack == Add32(d.log.peerStart, |d.log.accepted| + (if d.log.finSeen then 1 else 0))
  {
    RunSafe(Init(), before);
    ReceivedIsPrefix(Run(Init(), before), es, stream);
  }

  /**
   The FIN behind the peer's stream closes the connection, and it does so with
   the whole stream accepted exactly if it is in order.  One that overtakes data,
   or whose own payload does not fit, closes it with bytes missing.
   */
  lemma FinExact(c: Conn, seg: Segment, ok: bool, stream: seq<byte>)
    requires Safe(c) && (c.state == Established || c.state == Fin) && seg.hasFin && !seg.hasRst
    requires c.log.accepted <= stream && |stream| < |c.log.accepted| + B32
    requires Consistent(seg, stream, c.log.peerStart, |c.log.accepted|)
    requires Add32(seg.seqNo, |seg.payload|) == Add32(c.log.peerStart, |stream|)
    ensures var d := Input(c, seg, ok);
            && d.state == Closed && d.log.accepted <= stream
            && (d.log.finSeen <==> d.log.accepted == stream)
            && (seg.payload == [] ==> d.log.accepted == c.log.accepted)
  {
    var a := TakeAck(c, seg);
    TakeAckSafe(c, seg);
    PayloadContinues(a, seg, stream);
    TakePayloadSafe(a, seg);
    var b := TakePayload(a, seg);
    FinInOrder(b.log.peerStart, |b.log.accepted|, |stream|);
    assert Input(c, seg, ok) == TakeFin(b, seg);
  }

  lemma FinInOrder(start: u32, n: nat, end: nat)
    requires n <= end < n + B32
    ensures Add32(start, end) == Add32(start, n) <==> end == n
  {
    if Add32(start, end) == Add32(start, n) {
      SameNumber(start, end, n);
    }
  }

  // ------------------------------------------------------------- acknowledgements

  /** The events of a run that happen while a send waits. */
  predicate Waiting(es: seq<Event>) { forall i :: 0 <= i < |es| ==> es[i].Arrived? || es[i].Polled? }

  predicate AckedBy(e: Event, outSeq: u32, len: nat) { e.Arrived? && e.seg.hasAck && Clears(outSeq, len, e.seg.ack) }

  lemma WaitStep(c: Conn, e: Event)
    requires Safe(c) && Possible(c, e) && (e.Arrived? || e.Polled?)
    ensures var d := Step(c, e);
            && (c.state != Established && c.state != Syn ==> d.state != Established)
            && (c.out != [] ==>
                  || (d.state != Established && d.state != Syn)
                  || (d.out == c.out && d.outSeq == c.outSeq)
                  || AckedBy(e, c.outSeq, |c.out|))
  {
  }

  lemma {:induction false} NeverAgainEstablished(c: Conn, es: seq<Event>)
    requires Safe(c) && AllPossible(c, es) && Waiting(es) && c.state != Established && c.state != Syn
    ensures Run(c, es).state != Established
    decreases |es|
  {
    if es != [] {
      WaitStep(c, es[0]);
      StepSafe(c, es[0]);
      NeverAgainSyn(c, es[0]);
      NeverAgainEstablished(Step(c, es[0]), es[1..]);
    }
  }

  lemma NeverAgainSyn(c: Conn, e: Event)
    requires Possible(c, e) && (e.Arrived? || e.Polled?) && c.state != Syn
    ensures Step(c, e).state != Syn
  {
  }

  /** A send that returns success was acknowledged: some segment that arrived passed the test. */
  lemma {:induction false} SuccessWasAcked(c: Conn, es: seq<Event>)
    requires Safe(c) && AllPossible(c, es) && Waiting(es) && c.out != [] && SendResult(Run(c, es))
    ensures exists i :: 0 <= i < |es| && AckedBy(es[i], c.outSeq, |c.out|)
    decreases |es|
  {
    var d := Step(c, es[0]);
    StepSafe(c, es[0]);
    WaitStep(c, es[0]);
    if AckedBy(es[0], c.outSeq, |c.out|) {
    } else if d.state != Established {
      assert d.state != Syn by { NeverAgainSyn(c, es[0]); }
      NeverAgainEstablished(d, es[1..]);
    } else {
      SuccessWasAcked(d, es[1..]);
      var i :| 0 <= i < |es[1..]| && AckedBy(es[1..][i], c.outSeq, |c.out|);
      assert es[i + 1] == es[1..][i];
    }
  }

  /**
   What a peer that got j of the n bytes we submitted acknowledges.  For the
   last len bytes outstanding, and acknowledgements old and new, the test means
   what it is for, that all has arrived, exactly if the connection's numbers
   have not wrapped.
   */
  lemma AckTestExact(ourStart: u32, n: nat, len: nat)
    requires 0 < len <= n && len <= TX_MAX
    ensures (forall j: nat :: j <= n ==> (Clears(Add32(ourStart, n - len), len, Add32(ourStart, j)) <==> j == n))
            <==> ourStart + n < B32
  {
    AddTwice(ourStart, n - len, len);
    if ourStart + n >= B32 {
      StaleClears(ourStart, n, len);
      assert StaleCount(n) <= n && Clears(Add32(ourStart, n - len), len, Add32(ourStart, StaleCount(n)));
    } else {
      forall j: nat | j <= n ensures Clears(Add32(ourStart, n - len), len, Add32(ourStart, j)) <==> j == n {
        Unwrapped(ourStart, j);
        Unwrapped(ourStart, n);
      }
    }
  }

  lemma Unwrapped(a: u32, n: nat)
    requires a + n < 2 * B32
    ensures Add32(a, n) == if a + n < B32 then a + n else a + n - B32
  {
  }

  /** A count of received bytes, all of them old, whose acknowledgement passes once the numbers have wrapped. */
  function StaleCount(n: nat): (j: nat) { if n < B32 then 0 else n - B32 }

  lemma StaleClears(ourStart: u32, n: nat, len: nat)
    requires 0 < len <= n && len <= TX_MAX && ourStart + n >= B32
    ensures StaleCount(n) <= n - len && Clears(Add32(ourStart, n - len), len, Add32(ourStart, StaleCount(n)))
  {
    AddTwice(ourStart, n - len, len);
    if n < B32 {
      Unwrapped(ourStart, n);
      Unwrapped(ourStart, 0);
    } else {
      AddTwice(ourStart, n - B32, B32);
      Unwrapped(Add32(ourStart, n - B32), B32);
    }
  }

  /** A segment whose sender had received the first `got` of the n bytes submitted when it sent it. */
  predicate HonestAck(seg: Segment, got: nat, ourStart: u32, n: nat) {
    seg.hasAck ==> got <= n && seg.ack == Add32(ourStart, got)
  }

  predicate HonestAcks(es: seq<Event>, got: seq<nat>, ourStart: u32, n: nat) {
    |got| == |es| && forall i :: 0 <= i < |es| && es[i].Arrived? ==> HonestAck(es[i].seg, got[i], ourStart, n)
  }

  /** A send waits through the given events, with a peer that never acknowledges what it did not get, and succeeds. */
  predicate Succeeds(c: Conn, es: seq<Event>, got: seq<nat>) {
    && AllPossible(c, es) && Waiting(es) && SendResult(Run(c, es))
    && HonestAcks(es, got, c.log.ourStart, |c.log.submitted|)
  }

  /** One of the acknowledgements was sent with all n bytes received. */
  predicate Delivered(es: seq<Event>, got: seq<nat>, n: nat)
    requires |got| == |es|
  {
    exists i :: 0 <= i < |es| && es[i].Arrived? && es[i].seg.hasAck && got[i] == n
  }

  /** While the numbers have not wrapped, success means that everything submitted was received. */
  lemma SuccessMeansDelivered(c: Conn, es: seq<Event>, got: seq<nat>)
    requires Safe(c) && c.out != [] && Succeeds(c, es, got) && c.log.ourStart + |c.log.submitted| < B32
    ensures Delivered(es, got, |c.log.submitted|)
  {
    var start, n, len := c.log.ourStart, |c.log.submitted|, |c.out|;
    SuccessWasAcked(c, es);
    var i :| 0 <= i < |es| && AckedBy(es[i], c.outSeq, len);
    assert HonestAck(es[i].seg, got[i], start, n);
    assert Outstanding(c);
    AckTestExact(start, n, len);
  }

  /** A bare acknowledgement. */
  function BareAck(seqNo: u32, ack: u32): Segment { Segment(seqNo, ack, false, true, false, false, []) }

  /** Once they have wrapped, a bare old acknowledgement, of nothing in the payload, ends the send with success. */
  lemma WrapSucceedsUndelivered(c: Conn)
    requires Safe(c) && c.out != [] && c.log.ourStart + |c.log.submitted| >= B32
    ensures var start, n := c.log.ourStart, |c.log.submitted|;
            var e := Arrived(BareAck(c.ack, Add32(start, StaleCount(n))), true);
            StaleCount(n) <= n - |c.out| && SendResult(Step(c, e))
  {
    assert Outstanding(c);
    StaleClears(c.log.ourStart, |c.log.submitted|, |c.out|);
  }

  /**
   Every success, whatever honest acknowledgements arrive, old or new, is a
   delivery, exactly if the numbers of the connection have not wrapped.
   */
  lemma DeliveryExact(c: Conn)
    requires Safe(c) && c.out != []
    ensures (forall es, got :: Succeeds(c, es, got) ==> Delivered(es, got, |c.log.submitted|))
            <==> c.log.ourStart + |c.log.submitted| < B32
  {
    var start, n := c.log.ourStart, |c.log.submitted|;
    if start + n < B32 {
      forall es, got | Succeeds(c, es, got) ensures Delivered(es, got, n) {
        SuccessMeansDelivered(c, es, got);
      }
    } else {
      var e := Arrived(BareAck(c.ack, Add32(start, StaleCount(n))), true);
      WrapSucceedsUndelivered(c);
      OneStep(c, e);
      assert Succeeds(c, [e], [StaleCount(n)]) && !Delivered([e], [StaleCount(n)], n);
    }
  }

  lemma OneStep(c: Conn, e: Event)
    requires Possible(c, e)
    ensures AllPossible(c, [e]) && Run(c, [e]) == Step(c, e)
  {
    assert [e][1..] == [];
  }

  lemma {:induction false} RunThen(c: Conn, es: seq<Event>, e: Event)
    requires AllPossible(c, es) && Possible(Run(c, es), e)
    ensures AllPossible(c, es + [e]) && Run(c, es + [e]) == Step(Run(c, es), e)
    decreases |es|
  {
    if es == [] {
      assert es + [e] == [e];
    } else {
      assert (es + [e])[0] == es[0] && (es + [e])[1..] == es[1..] + [e];
      RunThen(Step(c, es[0]), es[1..], e);
    }
  }

  lemma {:induction false} RunJoined(c: Conn, es: seq<Event>, fs: seq<Event>)
    requires AllPossible(c, es) && AllPossible(Run(c, es), fs)
    ensures AllPossible(c, es + fs) && Run(c, es + fs) == Run(Run(c, es), fs)
    decreases |es|
  {
    if es == [] {
      assert es + fs == fs;
    } else {
      assert (es + fs)[0] == es[0] && (es + fs)[1..] == es[1..] + fs;
      RunJoined(Step(c, es[0]), es[1..], fs);
    }
  }

  // ------------------------------------------------------- a run that is not delivered

  /** Dialling again and again: each attempt starts 4096 numbers further on. */
  function Redials(k: nat): (es: seq<Event>)
    ensures |es| == k && forall i :: 0 <= i < k ==> es[i] == Connected
  {
    seq(k, _ => Connected)
  }

  lemma {:induction false} AfterRedials(c: Conn, k: nat)
    requires !c.sending && c.nextSeq + k * SEQ_STEP < B32
    ensures AllPossible(c, Redials(k))
    ensures var d := Run(c, Redials(k));
            !d.sending && d.nextSeq == c.nextSeq + k * SEQ_STEP
    decreases k
  {
    if k > 0 {
      assert Redials(k)[1..] == Redials(k - 1);
      AfterRedials(Connect(c), k - 1);
    }
  }

  predicate Idle(c: Conn, ourStart: u32, n: nat) {
    && c.state == Established && !c.sending && c.out == []
    && c.log.ourStart == ourStart && |c.log.submitted| == n && c.seqNo == Add32(ourStart, n)
  }

  /** The handshake of a new connection. */
  lemma Established1(c: Conn, iss: u32)
    requires !c.sending && c.nextSeq == iss
    ensures var es := [Connected, Arrived(Segment(1000, Add32(iss, 1), true, true, false, false, []), true)];
            AllPossible(c, es) && Idle(Run(c, es), Add32(iss, 1), 0)
  {
    var e := Arrived(Segment(1000, Add32(iss, 1), true, true, false, false, []), true);
    OneStep(Connect(c), e);
    assert [Connected, e][1..] == [e];
  }

  /** One send, acknowledged in full. */
  function SendAndAck(c: Conn, data: seq<byte>): seq<Event> {
    [SendBegun(data, 0, true), Arrived(BareAck(c.ack, Add32(c.seqNo, |data|)), true), SendEnded]
  }

  lemma AfterSend(c: Conn, data: seq<byte>, ourStart: u32, n: nat)
    requires Idle(c, ourStart, n) && 0 < |data| <= TX_MAX
    ensures AllPossible(c, SendAndAck(c, data)) && Idle(Run(c, SendAndAck(c, data)), ourStart, n + |data|)
  {
    var es := SendAndAck(c, data);
    var d := SendBegin(c, data, 0, true);
    AddTwice(ourStart, n, |data|);
    var e := Step(d, es[1]);
    assert Step(c, es[0]) == d && e.out == [];
    OneStep(e, SendEnded);
    assert es[1..] == [es[1], SendEnded] && es[1..][1..] == [SendEnded];
  }

  /** Sends of 1280 bytes each, all acknowledged. */
  lemma {:induction false} AfterSends(c: Conn, ourStart: u32, n: nat, k: nat) returns (es: seq<Event>)
    requires Idle(c, ourStart, n)
    ensures AllPossible(c, es) && Idle(Run(c, es), ourStart, n + k * TX_MAX)
    decreases k
  {
    es := [];
    if k > 0 {
      AfterSend(c, Zeros(TX_MAX), ourStart, n);
      var first := SendAndAck(c, Zeros(TX_MAX));
      var rest := AfterSends(Run(c, first), ourStart, n + TX_MAX, k - 1);
      RunJoined(c, first, rest);
      es := first + rest;
    }
  }

  /** Dialling often enough and sending four full payloads takes the numbers across the wrap. */
  lemma AcrossTheWrap() returns (es: seq<Event>)
    ensures AllPossible(Init(), es) && Idle(Run(Init(), es), 0xffff_f002, 5120)
  {
    var k := 0xb_8b2f;
    assert FIRST_SEQ + k * SEQ_STEP == 0xffff_f001;
    AfterRedials(Init(), k);
    var c := Run(Init(), Redials(k));
    Established1(c, 0xffff_f001);
    var hello := [Connected, Arrived(Segment(1000, Add32(0xffff_f001, 1), true, true, false, false, []), true)];
    RunJoined(Init(), Redials(k), hello);
    var d := Run(Init(), Redials(k) + hello);
    var sends := AfterSends(d, 0xffff_f002, 0, 4);
    RunJoined(Init(), Redials(k) + hello, sends);
    es := Redials(k) + hello + sends;
  }

  /** The numbers of the payload do not wrap, but those of the connection have. */
  predicate BehindTheWrap(es: seq<Event>) {
    && AllPossible(Init(), es)
    && var c := Run(Init(), es);
       && c.out == [7, 8, 9] && c.outSeq == 1026 && c.log.ourStart == 0xffff_f002
       && SendResult(Step(c, Arrived(BareAck(c.ack, c.log.ourStart), true)))
  }

  /**
   A run from boot that fails: after 5120 bytes sent and acknowledged, three
   bytes are sent, and a late duplicate that acknowledges nothing at all ends
   the send with success.
   */
  lemma StaleAckRun()
    ensures exists es :: BehindTheWrap(es)
  {
    var before := AcrossTheWrap();
    var c := Run(Init(), before);
    var e := SendBegun([7, 8, 9], 0, true);
    RunThen(Init(), before, e);
    RunSafe(Init(), before + [e]);
    var d := Run(Init(), before + [e]);
    assert d == SendBegin(c, [7, 8, 9], 0, true);
    WrapSucceedsUndelivered(d);
    assert Add32(d.log.ourStart, 0) == d.log.ourStart;
    assert BehindTheWrap(before + [e]);
  }
}
