/**
 The table of sixty buckets and what it is worth: for every epoch of the
 window, the entry of a resource equals its `Credit`.
 */
module UsageTable {
  import opened KernelModel
  import opened Accounting

  /** What the table says about epoch e: nothing, unless the bucket stands for that very epoch. */
  function Entry(epochs: seq<nat>, recent: seq<nat>, e: nat): (n: nat)
    requires |epochs| == |recent| == BUCKETS
  {
    if epochs[e % BUCKETS] == e + 1 then recent[e % BUCKETS] else 0
  }

  /** Making bucket d % 60 stand for epoch d, with x ticks, silences the other epochs that share it. */
  lemma EntryUpdate(epochs: seq<nat>, recent: seq<nat>, d: nat, x: nat, e: nat)
    requires |epochs| == |recent| == BUCKETS
    ensures Entry(epochs[d % BUCKETS := d + 1], recent[d % BUCKETS := x], e) ==
            if e == d then x else if e % BUCKETS == d % BUCKETS then 0 else Entry(epochs, recent, e)
  {
  }

  predicate TagsOk(epochs: seq<nat>, now: nat) {
    && |epochs| == BUCKETS
    && (forall b :: 0 <= b < BUCKETS && epochs[b] != 0 ==> (epochs[b] - 1) % BUCKETS == b && epochs[b] - 1 <= Epoch(now))
  }

  ghost predicate LedgerOk(epochs: seq<nat>, recent: seq<nat>, hs: seq<Hold>, rid: nat, now: nat) {
    && TagsOk(epochs, now) && |recent| == BUCKETS
    && (forall e: nat :: InWindow(e, now) ==> Entry(epochs, recent, e) == Credit(hs, rid, e))
  }

  /** As time goes on, epochs leave the window and new ones have no holds yet. */
  lemma LedgerLater(epochs: seq<nat>, recent: seq<nat>, hs: seq<Hold>, rid: nat, now: nat, later: nat)
    requires LedgerOk(epochs, recent, hs, rid, now) && now <= later
    requires Chronicle(hs, now)
    ensures LedgerOk(epochs, recent, hs, rid, later)
  {
    forall e: nat | InWindow(e, later) ensures Entry(epochs, recent, e) == Credit(hs, rid, e) {
      if !InWindow(e, now) {
        assert e > Epoch(now);
        assert e * BUCKET_TICKS > now;
        TotalAfter(hs, rid, e * BUCKET_TICKS, (e + 1) * BUCKET_TICKS);
        CreditExact(hs, rid, e);
        assert epochs[e % BUCKETS] != 0 ==> epochs[e % BUCKETS] - 1 <= Epoch(now);
      }
    }
  }

  /** A bucket never holds more than its length, so the 32-bit counters do not overflow. */
  lemma CreditFits(hs: seq<Hold>, rid: nat, e: nat, now: nat)
    requires Chronicle(hs, now)
    ensures Credit(hs, rid, e) <= BUCKET_TICKS
  {
    CreditExact(hs, rid, e);
    TotalIsHeld(hs, rid, e * BUCKET_TICKS, (e + 1) * BUCKET_TICKS, now);
    HeldFits(hs, rid, e * BUCKET_TICKS, (e + 1) * BUCKET_TICKS);
  }

  lemma {:induction false} HeldFits(hs: seq<Hold>, rid: nat, lo: nat, hi: nat)
    requires lo <= hi
    ensures HeldTicks(hs, rid, lo, hi) <= hi - lo
    decreases hi
  {
    if lo < hi {
      HeldFits(hs, rid, lo, hi - 1);
    }
  }

  // ------------------------------------------------------------- adding one hold

  /** What recording hold h, from `from` up to `done`, has made of the entries, at time h.end. */
  ghost predicate Recording(epochs: seq<nat>, own: seq<nat>, other: seq<nat>, hs: seq<Hold>, h: Hold, from: nat, done: nat)
    requires IsResource(h.res)
  {
    && TagsOk(epochs, h.end) && |own| == |other| == BUCKETS
    && (forall e: nat :: InWindow(e, h.end) ==>
          Entry(epochs, own, e) == Credit(hs, h.res, e) + InEpoch(Hold(h.res, from, done), e))
    && (forall e: nat :: InWindow(e, h.end) ==>
          Entry(epochs, other, e) == if Wipes(h, e) && from < done then 0 else Credit(hs, 3 - h.res, e))
  }

  /** Where recording a hold begins: at most sixty bucket lengths back. */
  function RecordFrom(h: Hold): (from: nat)
    requires h.start <= h.end
    ensures h.start <= from <= h.end
    ensures Epoch(from) + BUCKETS <= Epoch(h.end) <==> Epoch(h.start) + BUCKETS <= Epoch(h.end)
    ensures Epoch(h.end) <= Epoch(from) + BUCKETS
  {
    if h.end - h.start > WINDOW_TICKS then h.end - WINDOW_TICKS else h.start
  }

  lemma RecordingBegins(epochs: seq<nat>, own: seq<nat>, other: seq<nat>, hs: seq<Hold>, h: Hold)
    requires IsResource(h.res) && h.start <= h.end
    requires LedgerOk(epochs, own, hs, h.res, h.end) && LedgerOk(epochs, other, hs, 3 - h.res, h.end)
    ensures Recording(epochs, own, other, hs, h, RecordFrom(h), RecordFrom(h))
  {
  }

  /** One turn of the recording loop: bucket `b` is made to stand for epoch e and gets the ticks up to `next`. */
  lemma RecordingTurn(epochs: seq<nat>, own: seq<nat>, other: seq<nat>, hs: seq<Hold>, h: Hold,
                      from: nat, done: nat, epochs': seq<nat>, own': seq<nat>, other': seq<nat>, next: nat)
    requires IsResource(h.res) && h.start <= h.end && from == RecordFrom(h)
    requires from <= done < h.end && (done == from || done % BUCKET_TICKS == 0)
    requires next == Min((Epoch(done) + 1) * BUCKET_TICKS, h.end)
    requires Recording(epochs, own, other, hs, h, from, done)
    requires Chronicle(hs, h.end)
    requires forall i :: 0 <= i < |hs| && hs[i].res == h.res ==> hs[i].end <= h.start
    requires |epochs'| == |own'| == |other'| == BUCKETS
    requires var b := Epoch(done) % BUCKETS;
             && epochs' == epochs[b := Epoch(done) + 1]
             && own' == own[b := Entry(epochs, own, Epoch(done)) + (next - done)]
             && other' == other[b := Entry(epochs, other, Epoch(done))]
    ensures Recording(epochs', own', other', hs, h, from, next)
  {
    var d := Epoch(done);
    assert d <= Epoch(h.end);
    forall e: nat | InWindow(e, h.end)
      ensures Entry(epochs', own', e) == Credit(hs, h.res, e) + InEpoch(Hold(h.res, from, next), e)
      ensures Entry(epochs', other', e) == if Wipes(h, e) && from < next then 0 else Credit(hs, 3 - h.res, e)
    {
      EntryUpdate(epochs, own, d, Entry(epochs, own, d) + (next - done), e);
      EntryUpdate(epochs, other, d, Entry(epochs, other, d), e);
      RecordedTicks(from, done, h.end, next, h.res, e);
      WipeIsFirst(h, from, done, e);
      if e != d && e % BUCKETS == d % BUCKETS {
        NothingYet(hs, h, e);
        assert InEpoch(Hold(h.res, from, next), e) == 0;
      }
    }
  }

  lemma RecordedTicks(from: nat, done: nat, end: nat, next: nat, rid: nat, e: nat)
    requires from <= done < end && next == Min((Epoch(done) + 1) * BUCKET_TICKS, end)
    ensures from < next && done < next
    ensures InEpoch(Hold(rid, from, next), e) ==
            InEpoch(Hold(rid, from, done), e) + (if e == Epoch(done) then next - done else 0)
  {
    var d := Epoch(done);
    assert d * BUCKET_TICKS <= done < (d + 1) * BUCKET_TICKS;
    if e < d {
      assert (e + 1) * BUCKET_TICKS <= d * BUCKET_TICKS;
    } else if e > d {
      assert e * BUCKET_TICKS >= (d + 1) * BUCKET_TICKS;
    }
  }

  /** Two epochs that share a bucket, one in the window and one touched by a hold that ends now. */
  lemma SharedBucket(e: nat, d: nat, now: nat)
    requires InWindow(e, now) && d <= Epoch(now) <= d + BUCKETS
    requires e != d && e % BUCKETS == d % BUCKETS
    ensures e == Epoch(now) == d + BUCKETS
  {
    assert 0 <= e + BUCKETS - d <= 2 * BUCKETS;
  }

  /** A hold that wipes the epoch it ends in starts by touching the epoch sixty back. */
  lemma WipeIsFirst(h: Hold, from: nat, done: nat, e: nat)
    requires h.start <= h.end && from == RecordFrom(h) && from <= done < h.end && InWindow(e, h.end)
    ensures var d := Epoch(done);
            && (Wipes(h, e) && e != d && e % BUCKETS != d % BUCKETS ==> from < done)
            && (Wipes(h, e) && e == d ==> from < done)
            && (e != d && e % BUCKETS == d % BUCKETS ==> Wipes(h, e) && Epoch(h.start) < e)
  {
    var d := Epoch(done);
    assert Epoch(from) <= d <= Epoch(h.end);
    if e != d && e % BUCKETS == d % BUCKETS {
      SharedBucket(e, d, h.end);
    }
  }

  /** The epoch in which a long hold ends has no earlier ticks of the same resource. */
  lemma NothingYet(hs: seq<Hold>, h: Hold, e: nat)
    requires forall i :: 0 <= i < |hs| && hs[i].res == h.res ==> hs[i].end <= h.start
    requires Epoch(h.start) < e
    ensures Credit(hs, h.res, e) == 0
  {
    assert h.start <= e * BUCKET_TICKS;
    TotalAfter(hs, h.res, e * BUCKET_TICKS, (e + 1) * BUCKET_TICKS);
    CreditExact(hs, h.res, e);
  }

  lemma RecordingEnds(epochs: seq<nat>, own: seq<nat>, other: seq<nat>, hs: seq<Hold>, h: Hold)
    requires IsResource(h.res) && h.start <= h.end
    requires Recording(epochs, own, other, hs, h, RecordFrom(h), h.end)
    ensures LedgerOk(epochs, own, hs + [h], h.res, h.end)
    ensures LedgerOk(epochs, other, hs + [h], 3 - h.res, h.end)
  {
    forall e: nat | InWindow(e, h.end)
      ensures Entry(epochs, own, e) == Credit(hs + [h], h.res, e)
      ensures Entry(epochs, other, e) == Credit(hs + [h], 3 - h.res, e)
    {
      CreditAppend(hs, h, h.res, e);
      CreditAppend(hs, h, 3 - h.res, e);
      assert InEpoch(Hold(h.res, RecordFrom(h), h.end), e) == InEpoch(h, e);
      assert Wipes(h, e) ==> RecordFrom(h) < h.end;
    }
  }

  // ---------------------------------------------------------- reading the window

  /** What bucket b adds to the rolling figure. */
  function BucketValue(epochs: seq<nat>, recent: seq<nat>, now: nat, b: nat): (n: nat)
    requires |epochs| == |recent| == BUCKETS && b < BUCKETS
  {
    if epochs[b] != 0 && epochs[b] - 1 <= Epoch(now) && Epoch(now) - (epochs[b] - 1) < BUCKETS then recent[b] else 0
  }

  /** What the first b buckets add up to. */
  function BucketSum(epochs: seq<nat>, recent: seq<nat>, now: nat, b: nat): (n: nat)
    requires |epochs| == |recent| == BUCKETS && b <= BUCKETS
  {
    if b == 0 then 0 else BucketSum(epochs, recent, now, b - 1) + BucketValue(epochs, recent, now, b - 1)
  }

  /** The first multiple of sixty epochs at or before the current one. */
  function Base(now: nat): (e: nat)
    ensures e % BUCKETS == 0 && e <= Epoch(now) < e + BUCKETS
  {
    Epoch(now) - Epoch(now) % BUCKETS
  }

  /** The sum over the first b buckets, as sums over the epochs they stand for. */
  function PartialSum(hs: seq<Hold>, rid: nat, now: nat, b: nat): (n: nat) {
    var base, top := Base(now), Epoch(now) + 1;
    if base + b <= top then CreditSum(hs, rid, base, base + b)
    else CreditSum(hs, rid, base, top)
         + (if base >= BUCKETS then CreditSum(hs, rid, top - BUCKETS, base + b - BUCKETS) else 0)
  }

  /** A bucket whose epoch e lies in the window adds that epoch's credit. */
  lemma BucketIsEntry(epochs: seq<nat>, recent: seq<nat>, hs: seq<Hold>, rid: nat, now: nat, b: nat, e: nat)
    requires LedgerOk(epochs, recent, hs, rid, now) && b < BUCKETS
    requires InWindow(e, now) && e % BUCKETS == b
    ensures BucketValue(epochs, recent, now, b) == Credit(hs, rid, e)
  {
    if epochs[b] != 0 {
      var d := epochs[b] - 1;
      assert d % BUCKETS == b && d <= Epoch(now);
      if d != e && Epoch(now) - d < BUCKETS {
        SharedBucket(e, d, now);
      }
    }
    assert BucketValue(epochs, recent, now, b) == Entry(epochs, recent, e);
  }

  /** In the first ten minutes the buckets beyond the current epoch are unused. */
  lemma BucketUnused(epochs: seq<nat>, recent: seq<nat>, now: nat, b: nat)
    requires TagsOk(epochs, now) && |recent| == BUCKETS && b < BUCKETS && Epoch(now) < b
    ensures BucketValue(epochs, recent, now, b) == 0
  {
  }

  /** The credit that bucket b stands for at this time. */
  function BucketCredit(hs: seq<Hold>, rid: nat, now: nat, b: nat): (n: nat) {
    if Base(now) + b <= Epoch(now) then Credit(hs, rid, Base(now) + b)
    else if Base(now) >= BUCKETS then Credit(hs, rid, Base(now) + b - BUCKETS)
    else 0
  }

  /** Which epoch of the window, if any, bucket b stands for. */
  lemma BucketEpoch(now: nat, b: nat)
    requires b < BUCKETS
    ensures var base := Base(now);
            && (base + b <= Epoch(now) ==> (base + b) % BUCKETS == b && InWindow(base + b, now))
            && (base + b > Epoch(now) && base >= BUCKETS ==>
                  (base + b - BUCKETS) % BUCKETS == b && InWindow(base + b - BUCKETS, now))
            && (base + b > Epoch(now) && base < BUCKETS ==> Epoch(now) < b)
  {
    var base := Base(now);
    assert base == base / BUCKETS * BUCKETS;
    ModBuckets(base / BUCKETS, b);
    if base >= BUCKETS {
      ModBuckets(base / BUCKETS - 1, b);
    }
  }

  lemma ModBuckets(k: nat, b: nat)
    requires b < BUCKETS
    ensures (k * BUCKETS + b) % BUCKETS == b
  {
  }

  lemma BucketIsCredit(epochs: seq<nat>, recent: seq<nat>, hs: seq<Hold>, rid: nat, now: nat, b: nat)
    requires LedgerOk(epochs, recent, hs, rid, now) && b < BUCKETS
    ensures BucketValue(epochs, recent, now, b) == BucketCredit(hs, rid, now, b)
  {
    var base := Base(now);
    BucketEpoch(now, b);
    if base + b <= Epoch(now) {
      BucketIsEntry(epochs, recent, hs, rid, now, b, base + b);
    } else if base >= BUCKETS {
      BucketIsEntry(epochs, recent, hs, rid, now, b, base + b - BUCKETS);
    } else {
      BucketUnused(epochs, recent, now, b);
    }
  }

  lemma PartialSumStep(hs: seq<Hold>, rid: nat, now: nat, b: nat)
    requires b < BUCKETS
    ensures PartialSum(hs, rid, now, b + 1) == PartialSum(hs, rid, now, b) + BucketCredit(hs, rid, now, b)
  {
    var base := Base(now);
    if base + b <= Epoch(now) {
      assert CreditSum(hs, rid, base, base + b + 1) == CreditSum(hs, rid, base, base + b) + Credit(hs, rid, base + b);
    } else if base >= BUCKETS {
      var lo, e := Epoch(now) + 1 - BUCKETS, base + b - BUCKETS;
      assert CreditSum(hs, rid, lo, e + 1) == CreditSum(hs, rid, lo, e) + Credit(hs, rid, e);
    }
  }

  /** All sixty buckets together cover the window exactly once. */
  lemma PartialSumAll(hs: seq<Hold>, rid: nat, now: nat)
    ensures PartialSum(hs, rid, now, 0) == 0
    ensures PartialSum(hs, rid, now, BUCKETS) == CreditSum(hs, rid, FirstEpoch(now), Epoch(now) + 1)
  {
    var base, top := Base(now), Epoch(now) + 1;
    assert top <= base + BUCKETS;
    if base >= BUCKETS {
      assert FirstEpoch(now) == top - BUCKETS;
      CreditSumSplits(hs, rid, top - BUCKETS, base, top);
      assert base + BUCKETS <= top ==> CreditSum(hs, rid, top - BUCKETS, base) == 0;
    } else {
      assert base == 0 == FirstEpoch(now);
    }
  }

  lemma {:induction false} BucketSumIsPartialSum(epochs: seq<nat>, recent: seq<nat>, hs: seq<Hold>, rid: nat, now: nat, b: nat)
    requires LedgerOk(epochs, recent, hs, rid, now) && b <= BUCKETS
    ensures BucketSum(epochs, recent, now, b) == PartialSum(hs, rid, now, b)
  {
    if b == 0 {
      PartialSumAll(hs, rid, now);
    } else {
      BucketSumIsPartialSum(epochs, recent, hs, rid, now, b - 1);
      BucketIsCredit(epochs, recent, hs, rid, now, b - 1);
      PartialSumStep(hs, rid, now, b - 1);
    }
  }

  /** Adding up the buckets gives the credit of the window. */
  lemma BucketSumIsWindow(epochs: seq<nat>, recent: seq<nat>, hs: seq<Hold>, rid: nat, now: nat)
    requires LedgerOk(epochs, recent, hs, rid, now)
    ensures BucketSum(epochs, recent, now, BUCKETS) == CreditSum(hs, rid, FirstEpoch(now), Epoch(now) + 1)
  {
    BucketSumIsPartialSum(epochs, recent, hs, rid, now, BUCKETS);
    PartialSumAll(hs, rid, now);
  }
}
