/**
 The connection as the kernel keeps it: a ring of 4096 bytes for what has been
 received, a copy of the payload awaiting its acknowledgement, and the loops
 that wait while packets come in.
 */
module TcpClient {
  import opened Basics
  import opened TcpModel
  import opened TcpSafety

  // --------------------------------------------------------------------- the ring

  /** The bytes of a ring from its head on. */
  ghost function Ring(a: seq<byte>, head: nat, len: nat): (s: seq<byte>)
    requires |a| == RX_SIZE
  {
    seq(len, i requires 0 <= i < len => a[(head + i) % RX_SIZE])
  }

  /** Writing n bytes behind the contents of a ring that has room for them appends them. */
  lemma RingAppend(a: seq<byte>, a': seq<byte>, head: nat, len: nat, data: seq<byte>, first: nat)
    requires |a| == |a'| == RX_SIZE && head < RX_SIZE && len + |data| <= RX_SIZE
    requires var tail := (head + len) % RX_SIZE;
             && first == (if |data| > RX_SIZE - tail then RX_SIZE - tail else |data|)
             && (forall j :: 0 <= j < first ==> a'[tail + j] == data[j])
             && (forall j :: first <= j < |data| ==> a'[j - first] == data[j])
             && (forall j :: |data| - first <= j < tail || tail + first <= j < RX_SIZE ==> a'[j] == a[j])
    ensures Ring(a', head, len + |data|) == Ring(a, head, len) + data
  {
    var r, tail := Ring(a', head, len + |data|), (head + len) % RX_SIZE;
    forall i | 0 <= i < len + |data| ensures r[i] == (Ring(a, head, len) + data)[i] {
      var x := (head + i) % RX_SIZE;
      if i < len {
        assert |data| - first <= x < tail || tail + first <= x < RX_SIZE;
      } else if i - len < first {
        assert x == tail + (i - len);
      } else {
        assert x == i - len - first;
      }
    }
  }

  /** The first n bytes of a ring, in two pieces. */
  lemma RingTake(a: seq<byte>, head: nat, len: nat, n: nat, first: nat)
    requires |a| == RX_SIZE && head < RX_SIZE && n <= len <= RX_SIZE
    requires first == if n > RX_SIZE - head then RX_SIZE - head else n
    ensures Ring(a, head, len)[..n] == a[head..head + first] + a[..n - first]
  {
    var r, t := Ring(a, head, len), a[head..head + first] + a[..n - first];
    forall i | 0 <= i < n ensures r[i] == t[i] {
      if i >= first {
        assert (head + i) % RX_SIZE == i - first;
      }
    }
  }

  lemma RingRest(a: seq<byte>, head: nat, len: nat, n: nat)
    requires |a| == RX_SIZE && head < RX_SIZE && n <= len <= RX_SIZE
    ensures Ring(a, head, len)[n..] == Ring(a, (head + n) % RX_SIZE, len - n)
  {
    forall i | 0 <= i < len - n ensures Ring(a, head, len)[n..][i] == Ring(a, (head + n) % RX_SIZE, len - n)[i] {
      SamePlace(head, n, i);
    }
  }

  lemma SamePlace(head: nat, n: nat, i: nat)
    requires head < RX_SIZE && n <= RX_SIZE && i <= RX_SIZE
    ensures (head + (n + i)) % RX_SIZE == ((head + n) % RX_SIZE + i) % RX_SIZE
  {
  }

  /** What one call of the pump brings: segments, each with the luck of what is sent for it, and a timer check. */
  datatype Round = Round(arrivals: seq<(Segment, bool)>, pollOk: bool, advance: nat)

  function ArrivalEvents(arrivals: seq<(Segment, bool)>): (es: seq<Event>) {
    if arrivals == [] then []
    else
      var last := arrivals[|arrivals| - 1];
      ArrivalEvents(arrivals[..|arrivals| - 1]) + [Arrived(last.0, last.1)]
  }

  /** Every segment of a round in turn, and then the timer. */
  function RoundEvents(round: Round, now: nat): (es: seq<Event>) {
    ArrivalEvents(round.arrivals) + [Polled(now, round.pollOk)]
  }

  function Elapsed(rounds: seq<Round>): (t: nat) {
    if rounds == [] then 0 else Elapsed(rounds[..|rounds| - 1]) + rounds[|rounds| - 1].advance
  }

  function RoundsEvents(rounds: seq<Round>, start: nat): (es: seq<Event>) {
    if rounds == [] then []
    else
      var front := rounds[..|rounds| - 1];
      RoundsEvents(front, start) + RoundEvents(rounds[|rounds| - 1], start + Elapsed(front))
  }

  lemma OneRoundMore(rounds: seq<Round>, i: nat, start: nat)
    requires i < |rounds|
    ensures RoundsEvents(rounds[..i + 1], start) ==
            RoundsEvents(rounds[..i], start) + RoundEvents(rounds[i], start + Elapsed(rounds[..i]))
    ensures Elapsed(rounds[..i + 1]) == Elapsed(rounds[..i]) + rounds[i].advance
  {
    assert rounds[..i + 1][..i] == rounds[..i];
  }

  lemma OneArrivalMore(arrivals: seq<(Segment, bool)>, i: nat)
    requires i < |arrivals|
    ensures ArrivalEvents(arrivals[..i + 1]) == ArrivalEvents(arrivals[..i]) + [Arrived(arrivals[i].0, arrivals[i].1)]
  {
    assert arrivals[..i + 1][..i] == arrivals[..i];
  }

  /** After these rounds the payload is still outstanding, and there is time left. */
  predicate Unfinished(c: Conn, rounds: seq<Round>, start: nat, timeout: nat) {
    var es := RoundsEvents(rounds, start);
    AllPossible(c, es) && Run(c, es).out != [] && Elapsed(rounds) < timeout
  }

  /** i rounds have been waited for, all of them in vain up to the last. */
  ghost predicate Awaiting(c: Conn, d: Conn, rounds: seq<Round>, start: nat, timeout: nat, i: nat, es: seq<Event>, now: nat) {
    && i <= |rounds| && AllPossible(c, es) && Waiting(es) && d == Run(c, es)
    && es == RoundsEvents(rounds[..i], start) && now == start + Elapsed(rounds[..i])
    && forall k :: 0 <= k < i ==> Unfinished(c, rounds[..k], start, timeout)
  }

  lemma AwaitingMore(c: Conn, d: Conn, rounds: seq<Round>, start: nat, timeout: nat, i: nat, es: seq<Event>, now: nat,
                     more: seq<Event>)
    requires Awaiting(c, d, rounds, start, timeout, i, es, now) && i < |rounds| && d.out != [] && now - start < timeout
    requires AllPossible(d, more) && Waiting(more) && more == RoundEvents(rounds[i], now)
    ensures Awaiting(c, Run(d, more), rounds, start, timeout, i + 1, es + more, now + rounds[i].advance)
  {
    assert Unfinished(c, rounds[..i], start, timeout);
    OneRoundMore(rounds, i, start);
    RunJoined(c, es, more);
  }

  /** Exactly the first n rounds were waited for: as many as it took, or until time was up. */
  ghost predicate Waited(c: Conn, rounds: seq<Round>, start: nat, timeout: nat, n: nat, es: seq<Event>) {
    && n <= |rounds| && es == RoundsEvents(rounds[..n], start) && AllPossible(c, es)
    && (Run(c, es).out == [] || Elapsed(rounds[..n]) >= timeout)
    && forall k :: 0 <= k < n ==> Unfinished(c, rounds[..k], start, timeout)
  }

  class Tcp {
    var state: State
    var seqNo: u32
    var ack: u32
    const rx: array<byte>
    var rxHead: nat
    var rxLen: nat
    const unacked: array<byte>
    var unackedLen: nat
    var unackedSeq: u32
    var unackedTick: nat
    var unackedRetry: nat
    var ticks: nat
    var nextSeq: u32
    ghost var sending: bool
    ghost var log: Log

    ghost predicate Sized()
      reads this
    {
      && rx.Length == RX_SIZE && unacked.Length == TX_MAX && rx != unacked
      && rxHead < RX_SIZE && rxLen <= RX_SIZE && unackedLen <= TX_MAX
    }

    ghost function View(): Conn
      requires Sized()
      reads this, rx, unacked
    {
      Conn(state, seqNo, ack, Ring(rx[..], rxHead, rxLen), unacked[..unackedLen],
           unackedSeq, unackedTick, unackedRetry, sending, nextSeq, log)
    }

    ghost predicate Valid()
      reads this, rx, unacked
    {
      Sized() && Safe(View())
    }

    constructor ()
      ensures Valid() && View() == Init() && fresh(rx) && fresh(unacked)
    {
      state, seqNo, ack := Closed, 0, 0;
      rx := new byte[RX_SIZE](_ => 0);
      unacked := new byte[TX_MAX](_ => 0);
      rxHead, rxLen, unackedLen, unackedSeq, unackedTick, unackedRetry, ticks := 0, 0, 0, 0, 0, 0, 0;
      nextSeq := FIRST_SEQ;
      sending, log := false, NoLog;
      new;
      assert Ring(rx[..], 0, 0) == [] && unacked[..0] == [];
    }

    /** Put a payload into the ring, all of it or nothing. */
    method Append(data: seq<byte>) returns (ok: bool)
      requires Sized()
      modifies this`rxLen, rx
      ensures Sized() && ok == (old(rxLen) + |data| <= RX_SIZE)
      ensures rxLen == old(rxLen) + (if ok then |data| else 0)
      ensures Ring(rx[..], rxHead, rxLen) == old(Ring(rx[..], rxHead, rxLen)) + if ok then data else []
    {
      var room := RX_SIZE - rxLen;
      if |data| > room { return false; }
      ghost var before := rx[..];
      var tail := (rxHead + rxLen) % RX_SIZE;
      var first := |data|;
      if first > RX_SIZE - tail { first := RX_SIZE - tail; }
      forall i | 0 <= i < first {
        rx[tail + i] := data[i];
      }
      forall i | 0 <= i < |data| - first {
        rx[i] := data[first + i];
      }
      RingAppend(before, rx[..], rxHead, rxLen, data, first);
      rxLen := rxLen + |data|;
      return true;
    }

    /** Take in a segment; `ok` says whether the acknowledgement that completes the handshake can be sent. */
    method Input(seg: Segment, ok: bool)
      requires Valid()
      modifies this`state, this`seqNo, this`ack, this`rxLen, this`unackedLen, this`unackedRetry, this`log, rx
      ensures Valid() && View() == TcpModel.Input(old(View()), seg, ok)
    {
      InputSafe(View(), seg, ok);
      if seg.hasRst {
        state := Reset;
        unackedLen := 0;
        return;
      }
      if state == Syn && seg.hasSyn && seg.hasAck {
        if seg.ack != Add32(seqNo, 1) { return; }
        seqNo := Add32(seqNo, 1);
        ack := Add32(seg.seqNo, 1);
        if ok {
          state := Established;
          log := NoLog.(joined := true, peerStart := ack, ourStart := seqNo);
        }
        return;
      }
      if state != Established && state != Fin { return; }
      InputData(seg);
    }

    /** The part of `Input` for an open connection. */
    method InputData(seg: Segment)
      requires Sized()
      modifies this`state, this`ack, this`rxLen, this`unackedLen, this`unackedRetry, this`log, rx
      ensures Sized()
      ensures View() == TakeFin(TakePayload(TakeAck(old(View()), seg), seg), seg)
    {
      if seg.hasAck && unackedLen != 0 && seg.ack >= Add32(unackedSeq, unackedLen) {
        unackedLen := 0;
        unackedRetry := 0;
        log := log.(cleared := log.cleared + [seg.ack]);
      }
      InputPayload(seg);
      if seg.hasFin {
        InputFin(seg);
      }
    }

    method InputPayload(seg: Segment)
      requires Sized()
      modifies this`ack, this`rxLen, this`log, rx
      ensures Sized() && View() == TakePayload(old(View()), seg)
    {
      if |seg.payload| == 0 || seg.seqNo != ack { return; }
      var fits := Append(seg.payload);
      if fits {
        ack := Add32(ack, |seg.payload|);
        log := log.(accepted := log.accepted + seg.payload);
      }
    }

    method InputFin(seg: Segment)
      requires Sized() && seg.hasFin
      modifies this`state, this`ack, this`unackedLen, this`log
      ensures Sized() && View() == TakeFin(old(View()), seg)
    {
      var inOrder := Add32(seg.seqNo, |seg.payload|) == ack;
      if inOrder { ack := Add32(ack, 1); }
      state := Closed;
      unackedLen := 0;
      log := log.(finSeen := log.finSeen || inOrder);
    }

    method Read(max: nat) returns (data: seq<byte>)
      requires Valid()
      modifies this`rxHead, this`rxLen, this`log
      ensures Valid() && View() == TcpModel.Read(old(View()), max)
      ensures log.taken == old(log.taken) + data && |data| == if old(rxLen) <= max then old(rxLen) else max
    {
      ghost var c := View();
      ReadSafe(c, max);
      var take := rxLen;
      if take > max { take := max; }
      data := CopyOut(take);
      rxHead := (rxHead + take) % RX_SIZE;
      rxLen := rxLen - take;
      if rxLen == 0 { rxHead := 0; }
      log := log.(taken := log.taken + data);
      assert View() == TcpModel.Read(c, max);
    }

    /** The first bytes of the ring, in one or two pieces. */
    method CopyOut(take: nat) returns (data: seq<byte>)
      requires Sized() && take <= rxLen
      ensures var r := Ring(rx[..], rxHead, rxLen);
              data == r[..take] && r[take..] == Ring(rx[..], (rxHead + take) % RX_SIZE, rxLen - take)
    {
      var first := take;
      if first > RX_SIZE - rxHead { first := RX_SIZE - rxHead; }
      data := rx[rxHead..rxHead + first] + rx[..take - first];
      RingTake(rx[..], rxHead, rxLen, take, first);
      RingRest(rx[..], rxHead, rxLen, take);
    }

    method Drop()
      requires Valid()
      modifies this`rxHead, this`rxLen, this`log
      ensures Valid() && View() == TcpModel.Drop(old(View())) && rxLen == 0
    {
      DropSafe(View());
      log := log.(taken := log.taken + Ring(rx[..], rxHead, rxLen));
      rxHead := 0;
      rxLen := 0;
    }

    method Poll(ok: bool)
      requires Valid()
      modifies this`state, this`unackedLen, this`unackedRetry, this`unackedTick, this`log
      ensures Valid() && View() == TcpModel.Poll(old(View()), ticks, ok)
    {
      PollSafe(View(), ticks, ok);
      if state != Established || unackedLen == 0 { return; }
      var now := ticks;
      if now < unackedTick + RETRY_TICKS { return; }
      if unackedRetry >= RETRY_MAX {
        state := Reset;
        unackedLen := 0;
        return;
      }
      unackedRetry := unackedRetry + 1;
      unackedTick := now;
      if ok { log := log.(wire := log.wire + [Data(unackedSeq, unacked[..unackedLen])]); }
    }

    /** Let the network and the retransmission timer go on until the next tick. */
    method Pump(round: Round) returns (ghost es: seq<Event>)
      requires Valid()
      modifies this`state, this`seqNo, this`ack, this`rxLen, this`unackedLen, this`unackedRetry, this`unackedTick,
               this`log, this`ticks, rx
      ensures Valid() && AllPossible(old(View()), es) && Waiting(es) && View() == Run(old(View()), es)
      ensures ticks == old(ticks) + round.advance && es == RoundEvents(round, old(ticks))
    {
      ghost var c := View();
      es := [];
      var i := 0;
      while i < |round.arrivals|
        invariant i <= |round.arrivals| && Valid() && ticks == old(ticks) && sending == old(sending)
        invariant AllPossible(c, es) && Waiting(es) && View() == Run(c, es) && es == ArrivalEvents(round.arrivals[..i])
      {
        OneArrivalMore(round.arrivals, i);
        var seg, ok := round.arrivals[i].0, round.arrivals[i].1;
        RunThen(c, es, Arrived(seg, ok));
        es := es + [Arrived(seg, ok)];
        Input(seg, ok);
        i := i + 1;
      }
      assert round.arrivals[..i] == round.arrivals;
      RunThen(c, es, Polled(ticks, round.pollOk));
      es := es + [Polled(ticks, round.pollOk)];
      Poll(round.pollOk);
      ticks := ticks + round.advance;
    }

    /** Keep a copy of a payload for retransmission. */
    method Hold(data: seq<byte>)
      requires Sized() && |data| <= TX_MAX
      modifies this`unackedLen, this`unackedSeq, this`unackedTick, this`unackedRetry, unacked
      ensures Sized()
      ensures View() == old(View()).(out := data, outSeq := seqNo, outTick := ticks, outRetry := 0)
    {
      forall i | 0 <= i < |data| {
        unacked[i] := data[i];
      }
      unackedLen := |data|;
      unackedSeq := seqNo;
      unackedTick := ticks;
      unackedRetry := 0;
      assert unacked[..unackedLen] == data;
    }

    /** The first transmission of a payload; false if there was none. */
    method SendFirst(data: seq<byte>, ok: bool) returns (begun: bool)
      requires Valid() && !sending
      modifies this`seqNo, this`unackedLen, this`unackedSeq, this`unackedTick, this`unackedRetry, this`sending,
               this`log, unacked
      ensures Valid() && View() == SendBegin(old(View()), data, ticks, ok)
      ensures begun == (Sendable(old(View()), data) && ok)
    {
      SendBeginSafe(View(), data, ticks, ok);
      if state != Established || |data| == 0 || |data| > TX_MAX { return false; }
      if unackedLen != 0 {
        assert false;
      }
      Hold(data);
      if !ok {
        unackedLen := 0;
        assert unacked[..0] == [];
        return false;
      }
      seqNo := Add32(seqNo, |data|);
      sending := true;
      log := log.(submitted := log.submitted + data, first := |log.wire|, wire := log.wire + [Data(unackedSeq, data)]);
      return true;
    }

    /** Wait until nothing is outstanding or the time allowed has passed. */
    method Await(timeout: nat, rounds: seq<Round>) returns (ghost es: seq<Event>, ghost n: nat)
      requires Valid() && |rounds| >= timeout && forall r <- rounds :: r.advance > 0
      modifies this`state, this`seqNo, this`ack, this`rxLen, this`unackedLen, this`unackedRetry, this`unackedTick,
               this`log, this`ticks, rx
      ensures Valid() && AllPossible(old(View()), es) && Waiting(es) && View() == Run(old(View()), es)
      ensures Waited(old(View()), rounds, old(ticks), timeout, n, es) && ticks == old(ticks) + Elapsed(rounds[..n])
    {
      ghost var c := View();
      es, n := [], 0;
      var start, i := ticks, 0;
      while unackedLen != 0 && ticks - start < timeout
        invariant Valid() && n == i && start + i <= ticks && sending == old(sending)
        invariant Awaiting(c, View(), rounds, start, timeout, i, es, ticks)
        decreases start + timeout - ticks
      {
        assert rounds[i] in rounds;
        ghost var d, now := View(), ticks;
        ghost var more := Pump(rounds[i]);
        AwaitingMore(c, d, rounds, start, timeout, i, es, now, more);
        es := es + more;
        i := i + 1;
        n := i;
      }
    }

    /**
     Send one payload and wait for it to be acknowledged.  On return nothing is
     outstanding, and success means that an acknowledgement passed the test.
     */
    method Send(data: seq<byte>, timeout: nat, ok: bool, rounds: seq<Round>) 
      returns (sent: bool, ghost es: seq<Event>, ghost n: nat)
      requires Valid() && !sending && |rounds| >= timeout && forall r <- rounds :: r.advance > 0
      modifies this, rx, unacked
      ensures Valid() && !sending && unackedLen == 0
      ensures var d := SendBegin(old(View()), data, old(ticks), ok);
              if Sendable(old(View()), data) && ok
              then && Waited(d, rounds, old(ticks), timeout, n, es) && Waiting(es)
                   && View() == SendEnd(Run(d, es)) && sent == SendResult(Run(d, es))
                   && (sent ==> exists i :: 0 <= i < |es| && AckedBy(es[i], old(seqNo), |data|))
              else !sent && View() == d
    {
      es, n := [], 0;
      var begun := SendFirst(data, ok);
      if !begun { return false, es, n; }
      ghost var d := View();
      es, n := Await(timeout, rounds);
      if unackedLen == 0 && state == Established {
        SuccessWasAcked(d, es);
      }
      sent := SendLast();
    }

    /** The end of a send: what is still outstanding breaks the connection off. */
    method SendLast() returns (sent: bool)
      requires Valid() && sending
      modifies this`state, this`unackedLen, this`sending
      ensures Valid() && View() == SendEnd(old(View())) && sent == SendResult(old(View())) && unackedLen == 0 && !sending
    {
      StepSafe(View(), SendEnded);
      sending := false;
      if unackedLen != 0 {
        state := Reset;
        unackedLen := 0;
        return false;
      }
      return state == Established;
    }

    /** Close after everything is acknowledged; `ok` says whether the FIN can be sent. */
    method Close(ok: bool)
      requires Valid() && !sending
      modifies this`state, this`seqNo, this`log
      ensures Valid() && View() == TcpModel.Close(old(View()), ok)
      ensures state == if old(state) == Established && ok then Fin else old(state)
      ensures seqNo == if old(state) == Established && ok then Add32(old(seqNo), 1) else old(seqNo)
    {
      CloseSafe(View(), ok);
      if state != Established { return; }
      if unackedLen != 0 {
        assert false;
      }
      if ok {
        seqNo := Add32(seqNo, 1);
        state := Fin;
        log := log.(finSent := true);
      }
    }

    /** The start of a connection; what follows is `Pump` until it is established or given up. */
    method Connect()
      requires Valid() && !sending
      modifies this`state, this`nextSeq, this`seqNo, this`ack, this`rxHead, this`rxLen, this`unackedLen, this`log
      ensures Valid() && View() == TcpModel.Connect(old(View()))
      ensures state == Syn && seqNo == old(nextSeq) && nextSeq == Add32(old(nextSeq), 4096) && rxLen == 0 && unackedLen == 0
    {
      seqNo := nextSeq;
      nextSeq := Add32(nextSeq, SEQ_STEP);
      ack := 0;
      rxHead := 0;
      rxLen := 0;
      unackedLen := 0;
      state := Syn;
      log := NoLog;
      assert Ring(rx[..], 0, 0) == [] && unacked[..0] == [];
    }
  }
}
