/**
 What the connection does for its user: data that arrives is taken, payloads
 that are not acknowledged are sent again, and sends that are succeed.
 */
module TcpProgress {
  import opened Basics
  import opened TcpModel
  import opened TcpSafety

  predicate Open(c: Conn) { c.state == Established || c.state == Fin }

  // -------------------------------------------------------------------- one segment

  /** A payload is taken exactly if it is the next one and fits the room left; taken or not, it is all or nothing. */
  predicate Taken(c: Conn, seg: Segment) { seg.seqNo == c.ack && |c.rx| + |seg.payload| <= RX_SIZE }

  lemma InputExact(c: Conn, seg: Segment, ok: bool)
    requires Safe(c) && Open(c) && !seg.hasRst
    ensures var d, next := Input(c, seg, ok), if Taken(c, seg) then Add32(c.ack, |seg.payload|) else c.ack;
            && d.rx == (if Taken(c, seg) then c.rx + seg.payload else c.rx)
            && d.ack == (if seg.hasFin && Add32(seg.seqNo, |seg.payload|) == next then Add32(next, 1) else next)
            && d.state == (if seg.hasFin then Closed else c.state)
            && d.out == (if seg.hasFin || (seg.hasAck && seg.ack >= Add32(c.outSeq, |c.out|)) then [] else c.out)
            && d.seqNo == c.seqNo
  {
    assert c.rx + [] == c.rx;
  }

  /** A reset breaks the connection off, with nothing outstanding, and keeps what was received. */
  lemma ResetExact(c: Conn, seg: Segment, ok: bool)
    requires seg.hasRst
    ensures var d := Input(c, seg, ok); d.state == Reset && d.out == [] && d.rx == c.rx
  {
  }

  /** The handshake is completed exactly by a segment that answers our first number, and then both streams begin. */
  lemma HandshakeExact(c: Conn, seg: Segment, ok: bool)
    requires c.state == Syn
    ensures var d := Input(c, seg, ok);
            && (d.state == Established <==>
                  !seg.hasRst && seg.hasSyn && seg.hasAck && seg.ack == Add32(c.seqNo, 1) && ok)
            && (d.state == Established ==>
                  d.seqNo == Add32(c.seqNo, 1) && d.ack == Add32(seg.seqNo, 1)
                  && d.log.peerStart == d.ack && d.log.ourStart == d.seqNo && d.log.accepted == [] && d.log.submitted == [])
  {
  }

  // --------------------------------------------------------------------- whole streams

  function Concat(ps: seq<seq<byte>>): seq<byte> { if ps == [] then [] else ps[0] + Concat(ps[1..]) }

  /** The segment is the piece of the peer's stream at position pos, and no end. */
  predicate Piece(e: Event, p: seq<byte>, start: u32, pos: nat) {
    e.Arrived? && !e.seg.hasRst && !e.seg.hasFin && e.seg.payload == p && e.seg.seqNo == Add32(start, pos)
  }

  /** The segment carries nothing, or data from before position pos, and is no end. */
  predicate Duplicate(seg: Segment, start: u32, pos: nat) {
    && !seg.hasRst && !seg.hasFin
    && (seg.payload == [] || exists k: nat :: k < pos < k + B32 && seg.seqNo == Add32(start, k))
  }

  /**
   A run in which the pieces arrive in order, each when there is room for it;
   between them come duplicates, reads, sends and timers, and the connection
   stays open.
   */
  predicate Streams(c: Conn, es: seq<Event>, ps: seq<seq<byte>>, start: u32, pos: nat)
    requires AllPossible(c, es)
    decreases |es|
  {
    if es == [] then ps == []
    else
      var d := Step(c, es[0]);
      && Open(d)
      && if ps != [] && Piece(es[0], ps[0], start, pos) && |c.rx| + |ps[0]| <= RX_SIZE
         then Streams(d, es[1..], ps[1..], start, pos + |ps[0]|)
         else !es[0].Connected? && (es[0].Arrived? ==> Duplicate(es[0].seg, start, pos)) && Streams(d, es[1..], ps, start, pos)
  }

  /** The connection has accepted the first pos bytes. */
  predicate Accepted(c: Conn, start: u32, got: seq<byte>) {
    Safe(c) && Open(c) && c.log.joined && c.log.peerStart == start && c.log.accepted == got
  }

  lemma NextNumber(c: Conn, start: u32, got: seq<byte>)
    requires Accepted(c, start, got)
    ensures c.ack == Add32(start, |got|)
  {
  }

  lemma PieceTaken(c: Conn, e: Event, p: seq<byte>, start: u32, got: seq<byte>)
    requires Accepted(c, start, got) && Possible(c, e) && Piece(e, p, start, |got|) && |c.rx| + |p| <= RX_SIZE
    ensures Accepted(Step(c, e), start, got + p)
  {
    NextNumber(c, start, got);
    StepSafe(c, e);
    assert got + [] == got;
  }

  lemma OtherPasses(c: Conn, e: Event, start: u32, got: seq<byte>)
    requires Accepted(c, start, got) && Possible(c, e) && !e.Connected? && Open(Step(c, e))
    requires e.Arrived? ==> Duplicate(e.seg, start, |got|)
    ensures Accepted(Step(c, e), start, got)
  {
    NextNumber(c, start, got);
    StepSafe(c, e);
    if e.Arrived? && e.seg.payload != [] {
      var k: nat :| k < |got| < k + B32 && e.seg.seqNo == Add32(start, k);
      if Add32(start, k) == Add32(start, |got|) {
        SameNumber(start, k, |got|);
      }
    }
  }

  /**
   A peer whose stream arrives in order, in pieces that fit the room left, has
   the whole of it taken: what was read and what is still buffered is, in order,
   everything it sent.
   */
  lemma {:induction false} StreamTaken(c: Conn, es: seq<Event>, ps: seq<seq<byte>>, start: u32, got: seq<byte>)
    requires Accepted(c, start, got) && AllPossible(c, es) && Streams(c, es, ps, start, |got|)
    ensures var d := Run(c, es);
            d.log.taken + d.rx == got + Concat(ps) && d.ack == Add32(start, |got + Concat(ps)|)
    decreases |es|
  {
    if es == [] {
      assert got + [] == got;
    } else if ps != [] && Piece(es[0], ps[0], start, |got|) && |c.rx| + |ps[0]| <= RX_SIZE {
      PieceTaken(c, es[0], ps[0], start, got);
      StreamTaken(Step(c, es[0]), es[1..], ps[1..], start, got + ps[0]);
      Regroup(got, ps[0], Concat(ps[1..]));
    } else {
      OtherPasses(c, es[0], start, got);
      StreamTaken(Step(c, es[0]), es[1..], ps, start, got);
    }
  }

  // ---------------------------------------------------------------------- sending

  /** A send puts its payload on the wire at the next number, once, and holds it for acknowledgement; or does nothing. */
  lemma SendExact(c: Conn, data: seq<byte>, now: nat, ok: bool)
    requires Safe(c) && !c.sending
    ensures var d := SendBegin(c, data, now, ok);
            if c.state == Established && 0 < |data| <= TX_MAX && ok
            then && d.out == data && d.log.wire == c.log.wire + [Data(c.seqNo, data)] && d.sending
                 && d.seqNo == Add32(c.seqNo, |data|) && d.log.submitted == c.log.submitted + data
            else d.out == [] && d.log == c.log && d.seqNo == c.seqNo && d.state == c.state
  {
  }

  /** An acknowledgement of the whole payload ends the send with success. */
  lemma AckEndsSend(c: Conn, seg: Segment, ok: bool)
    requires Safe(c) && c.out != [] && !seg.hasRst && !seg.hasFin && seg.hasAck && seg.ack == Add32(c.outSeq, |c.out|)
    ensures SendResult(Input(c, seg, ok))
  {
    InputExact(c, seg, ok);
  }

  predicate Overdue(c: Conn, now: nat) { c.state == Established && c.out != [] && now >= c.outTick + RETRY_TICKS }

  /** An overdue payload is sent again, the same bytes at the same number, up to five times; then the connection is given up. */
  lemma PollExact(c: Conn, now: nat, ok: bool)
    ensures var d := Poll(c, now, ok);
            && (!Overdue(c, now) ==> d == c)
            && (Overdue(c, now) && c.outRetry < 5 ==>
                  && d.log.wire == c.log.wire + (if ok then [Data(c.outSeq, c.out)] else [])
                  && d.out == c.out && d.state == Established && d.outTick == now && d.outRetry == c.outRetry + 1)
            && (Overdue(c, now) && c.outRetry >= 5 ==> d.state == Reset && d.out == [] && d.log == c.log)
  {
  }

  /** Polls at least half a second apart, the first that long after the last transmission. */
  predicate Spaced(last: nat, nows: seq<nat>)
    decreases |nows|
  {
    nows == [] || (nows[0] >= last + 50 && Spaced(nows[0], nows[1..]))
  }

  function Polls(nows: seq<nat>): (es: seq<Event>)
    ensures |es| == |nows| && forall i :: 0 <= i < |es| ==> es[i].Polled?
  {
    if nows == [] then [] else [Polled(nows[0], true)] + Polls(nows[1..])
  }

  function Copies(d: Data, n: nat): (ds: seq<Data>)
    ensures |ds| == n && forall i :: 0 <= i < n ==> ds[i] == d
  {
    seq(n, _ => d)
  }

  /**
   A payload that is never acknowledged is sent again at each of the next polls,
   five times in all with the first retransmission; the sixth gives up.
   */
  lemma {:induction false} SentAgain(c: Conn, nows: seq<nat>)
    requires c.state == Established && c.out != [] && c.outRetry <= 5 && Spaced(c.outTick, nows)
    ensures AllPossible(c, Polls(nows))
    ensures var d, n := Run(c, Polls(nows)), |nows|;
            if n <= 5 - c.outRetry
            then d.state == Established && d.out == c.out && d.log.wire == c.log.wire + Copies(Data(c.outSeq, c.out), n)
            else d.state == Reset && d.out == [] && d.log.wire == c.log.wire + Copies(Data(c.outSeq, c.out), 5 - c.outRetry)
    decreases |nows|
  {
    if nows == [] {
      assert c.log.wire + [] == c.log.wire;
    } else {
      var e, rest := Polled(nows[0], true), Polls(nows[1..]);
      assert Polls(nows)[1..] == rest;
      var d := Poll(c, nows[0], true);
      PollExact(c, nows[0], true);
      if c.outRetry < 5 {
        SentAgain(d, nows[1..]);
        var x, m := Data(c.outSeq, c.out), if |nows| <= 5 - c.outRetry then |nows| else 5 - c.outRetry;
        assert Copies(x, m) == [x] + Copies(x, m - 1);
        Regroup(c.log.wire, [x], Copies(x, m - 1));
      } else {
        NothingMore(d, rest);
        assert c.log.wire + Copies(Data(c.outSeq, c.out), 0) == c.log.wire;
      }
    }
  }

  /** Once given up, polling does nothing. */
  lemma {:induction false} NothingMore(c: Conn, es: seq<Event>)
    requires c.state == Reset && forall i :: 0 <= i < |es| ==> es[i].Polled?
    ensures AllPossible(c, es) && Run(c, es) == c
    decreases |es|
  {
    if es != [] {
      assert Step(c, es[0]) == c;
      NothingMore(c, es[1..]);
    }
  }
}
