/**
 The Internet checksum (section 1 of RFC 1071) as the kernel computes it: a
 32-bit sum of 16-bit words, its carries folded back in, and the complement.
 */
module Checksum {
  import opened Basics

  const ONES: nat := 0xffff

  // -------------------------------------------------------------- the sum of the words

  function WordAt(data: seq<byte>, i: nat): (w: nat)
    requires i < |data|
    ensures w <= ONES
  {
    var high: int := data[i];
    var low: int := if i + 1 < |data| then data[i + 1] else 0;
    high * 256 + low
  }

  /** The sum of the 16-bit words from position i on; an odd last byte is the high half of a word. */
  function SumFrom(data: seq<byte>, i: nat): (s: nat)
    decreases |data| - i
  {
    if i >= |data| then 0 else WordAt(data, i) + SumFrom(data, i + 2)
  }

  function Sum(data: seq<byte>): (s: nat) { SumFrom(data, 0) }

  lemma {:induction false} SumBound(data: seq<byte>, i: nat)
    requires i <= |data|
    ensures 2 * SumFrom(data, i) <= ONES * (|data| - i + 1)
    decreases |data| - i
  {
    if i + 1 < |data| {
      SumBound(data, i + 2);
    } else if i < |data| {
      assert SumFrom(data, i + 2) == 0;
      var high: int := data[i];
      assert WordAt(data, i) == high * 256;
    }
  }

  /** Add a buffer's words to a 32-bit sum; for buffers of 16-bit length it cannot overflow. */
  method SumAdd(start: nat, data: seq<byte>) returns (sum: nat)
    requires |data| < B16 && start < 0x8000_0000
    ensures sum == start + Sum(data) < B32
  {
    SumBound(data, 0);
    sum := start;
    var i, len := 0, |data|;
    while len > 1
      invariant i + len == |data| && sum + SumFrom(data, i) == start + Sum(data)
    {
      sum := sum + WordAt(data, i);
      i := i + 2;
      len := len - 2;
    }
    if len > 0 {
      assert SumFrom(data, i + 2) == 0;
      sum := sum + WordAt(data, i);
    }
  }

  /** Sums over buffers of even length add up, and a word is its high byte times 256 and its low byte. */
  lemma {:induction false} SumJoins(a: seq<byte>, b: seq<byte>, i: nat)
    requires |a| % 2 == 0 && i % 2 == 0 && i <= |a|
    ensures SumFrom(a + b, i) == SumFrom(a, i) + Sum(b)
    decreases |a| - i
  {
    if i < |a| {
      SumJoins(a, b, i + 2);
      assert WordAt(a + b, i) == WordAt(a, i);
    } else {
      SumShifted(a, b, 0);
    }
  }

  lemma {:induction false} SumShifted(a: seq<byte>, b: seq<byte>, i: nat)
    ensures SumFrom(a + b, |a| + i) == SumFrom(b, i)
    decreases |b| - i
  {
    if i < |b| {
      SumShifted(a, b, i + 2);
      assert WordAt(a + b, |a| + i) == WordAt(b, i);
    }
  }

  lemma SumOfWord(high: byte, low: byte)
    ensures Sum([high, low]) == 256 * high + low && Sum([high]) == 256 * high
  {
    assert SumFrom([high, low], 2) == 0 && SumFrom([high], 2) == 0;
  }

  /** The words of the example in section 3 of RFC 1071: 0001, f203, f4f5 and f6f7 add up to 2ddf0, folded ddf2. */
  lemma Example()
    ensures Sum([0x00, 0x01, 0xf2, 0x03, 0xf4, 0xf5, 0xf6, 0xf7]) == 0x2ddf0 && Folded(0x2ddf0) == 0xddf2
  {
    SumOfWord(0x00, 0x01);
    SumOfWord(0xf2, 0x03);
    SumOfWord(0xf4, 0xf5);
    SumOfWord(0xf6, 0xf7);
    SumJoins([0x00, 0x01], [0xf2, 0x03, 0xf4, 0xf5, 0xf6, 0xf7], 0);
    SumJoins([0xf2, 0x03], [0xf4, 0xf5, 0xf6, 0xf7], 0);
    SumJoins([0xf4, 0xf5], [0xf6, 0xf7], 0);
    assert [0x00, 0x01] + [0xf2, 0x03, 0xf4, 0xf5, 0xf6, 0xf7] == [0x00, 0x01, 0xf2, 0x03, 0xf4, 0xf5, 0xf6, 0xf7];
    assert [0xf2, 0x03] + [0xf4, 0xf5, 0xf6, 0xf7] == [0xf2, 0x03, 0xf4, 0xf5, 0xf6, 0xf7];
    assert [0xf4, 0xf5] + [0xf6, 0xf7] == [0xf4, 0xf5, 0xf6, 0xf7];
  }

  // ------------------------------------------------------------------ folding carries

  /** Folding the carries back in is arithmetic modulo 65535, except that only zero gives zero. */
  function Folded(sum: nat): (f: nat)
    ensures f <= ONES && f % ONES == sum % ONES && (f == 0 <==> sum == 0)
  {
    if sum == 0 then 0 else (sum - 1) % ONES + 1
  }

  lemma FoldStep(sum: nat)
    requires sum >= B16
    ensures sum % B16 + sum / B16 < sum && Folded(sum % B16 + sum / B16) == Folded(sum)
  {
    var q, r := sum / B16, sum % B16;
    assert sum == q * B16 + r == q * ONES + (q + r);
    ModShift(q + r - 1, q);
  }

  lemma ModShift(a: nat, q: nat)
    ensures (a + q * ONES) % ONES == a % ONES
  {
    var k := a / ONES;
    assert a + q * ONES == (k + q) * ONES + a % ONES;
    DivUnique(k + q, a % ONES);
  }

  lemma DivUnique(k: nat, r: nat)
    requires r < ONES
    ensures (k * ONES + r) % ONES == r
  {
  }

  method SumFinish(sum: nat) returns (value: nat)
    requires sum < B32
    ensures value == ONES - Folded(sum)
  {
    var s: nat := sum;
    while s >= B16
      invariant Folded(s) == Folded(sum)
      decreases s
    {
      FoldStep(s);
      s := s % B16 + s / B16;
    }
    value := ONES - s;
  }

  // ------------------------------------------------------- putting a checksum in place

  /** The buffer with a 16-bit value written at a position, high byte first. */
  function Insert(data: seq<byte>, pos: nat, value: nat): (d: seq<byte>)
    requires pos + 1 < |data| && value <= ONES
    ensures |d| == |data|
  {
    data[pos := value / 256][pos + 1 := value % 256]
  }

  lemma {:induction false} SumInsert(data: seq<byte>, pos: nat, value: nat, i: nat)
    requires pos + 1 < |data| && value <= ONES && pos % 2 == 0 && i % 2 == 0
    requires data[pos] == 0 && data[pos + 1] == 0
    ensures SumFrom(Insert(data, pos, value), i) == SumFrom(data, i) + (if i <= pos then value else 0)
    decreases |data| - i
  {
    if i < |data| {
      SumInsert(data, pos, value, i + 2);
      var d := Insert(data, pos, value);
      if i == pos {
        assert WordAt(d, i) == value;
      } else {
        assert WordAt(d, i) == WordAt(data, i);
      }
    }
  }

  /** A sum passes for correct if its fold is all ones. */
  predicate Verifies(sum: nat) { ONES - Folded(sum) == 0 }

  /** That is, if it is a multiple of 65535 and not zero. */
  lemma VerifiesExactly(sum: nat)
    ensures Verifies(sum) <==> sum > 0 && sum % ONES == 0
  {
  }

  /**
   For a buffer of any contents and length, odd ones included, with its checksum
   field zero, and any sum taken before it: the checksum computed over it makes
   the whole verify once it is in place.
   */
  lemma InsertedVerifies(start: nat, data: seq<byte>, pos: nat)
    requires pos + 1 < |data| && pos % 2 == 0 && data[pos] == 0 && data[pos + 1] == 0
    ensures var c := ONES - Folded(start + Sum(data));
            Verifies(start + Sum(Insert(data, pos, c)))
  {
    var s := start + Sum(data);
    var c := ONES - Folded(s);
    SumInsert(data, pos, c, 0);
    FoldComplement(s, c);
  }

  lemma FoldComplement(s: nat, c: nat)
    requires c == ONES - Folded(s)
    ensures s + c > 0 && (s + c) % ONES == 0
  {
    var f := Folded(s);
    if s > 0 {
      var k := (s - 1) / ONES;
      assert s - 1 == k * ONES + (f - 1);
      assert s + c == k * ONES + ONES;
      assert s + c == (k + 1) * ONES + 0;
      DivUnique(k + 1, 0);
    }
  }

  /** UDP stores all ones where the checksum would be zero; that verifies as well, and is never zero. */
  lemma UdpInsertedVerifies(start: nat, data: seq<byte>, pos: nat)
    requires pos + 1 < |data| && pos % 2 == 0 && data[pos] == 0 && data[pos + 1] == 0
    ensures var c := ONES - Folded(start + Sum(data));
            var stored := if c == 0 then ONES else c;
            stored != 0 && Verifies(start + Sum(Insert(data, pos, stored)))
  {
    var s := start + Sum(data);
    var c := ONES - Folded(s);
    if c == 0 {
      SumInsert(data, pos, ONES, 0);
      FoldComplement(s, 0);
      ModShift(s, 1);
    } else {
      InsertedVerifies(start, data, pos);
    }
  }

  // ----------------------------------------------------------- the three kinds of packet

  const PROTO_TCP: nat := 6
  const PROTO_UDP: nat := 17

  function PseudoSum(src: seq<byte>, dst: seq<byte>, proto: nat, len: nat): nat { Sum(src) + Sum(dst) + proto + len }

  /** The pseudo header of TCP and UDP: both addresses, a zero, the protocol and the length of the packet. */
  function Pseudo(src: seq<byte>, dst: seq<byte>, proto: byte, len: u16): seq<byte> {
    src + (dst + ([0, proto] + [len / 256, len % 256]))
  }

  /** What is summed before and over a packet is the sum over pseudo header and packet together. */
  lemma PseudoHeaderSums(src: seq<byte>, dst: seq<byte>, proto: byte, data: seq<byte>)
    requires |src| == 4 && |dst| == 4 && |data| < B16
    ensures PseudoSum(src, dst, proto, |data|) + Sum(data) == Sum(Pseudo(src, dst, proto, |data|) + data)
  {
    var len := [|data| / 256, |data| % 256];
    SumOfWord(0, proto);
    SumOfWord(|data| / 256, |data| % 256);
    SumJoins([0, proto], len, 0);
    SumJoins(dst, [0, proto] + len, 0);
    SumJoins(src, dst + ([0, proto] + len), 0);
    SumJoins(Pseudo(src, dst, proto, |data|), data, 0);
  }

  lemma AddressSum(ip: seq<byte>)
    requires |ip| == 4
    ensures Sum(ip) <= 2 * ONES
  {
    assert SumFrom(ip, 4) == 0;
    assert SumFrom(ip, 2) == WordAt(ip, 2);
    assert Sum(ip) == WordAt(ip, 0) + WordAt(ip, 2);
  }

  /** The checksum of a header or message without pseudo header. */
  method PlainChecksum(data: seq<byte>) returns (value: nat)
    requires |data| < B16
    ensures value == ONES - Folded(Sum(data))
  {
    var sum := SumAdd(0, data);
    value := SumFinish(sum);
  }

  /** The checksum of a TCP or UDP packet with its pseudo header. */
  method PacketChecksum(src: seq<byte>, dst: seq<byte>, proto: byte, data: seq<byte>) returns (value: nat)
    requires |src| == 4 && |dst| == 4 && |data| < B16
    ensures value == ONES - Folded(PseudoSum(src, dst, proto, |data|) + Sum(data))
  {
    AddressSum(src);
    AddressSum(dst);
    var sum := SumAdd(0, src);
    sum := SumAdd(sum, dst);
    sum := sum + proto + |data|;
    sum := SumAdd(sum, data);
    value := SumFinish(sum);
  }

  /** Put the checksum of an IPv4 header in place; a receiver that checks it gets zero. */
  method FinishIpv4(header: array<byte>)
    requires header.Length == 20 && header[10] == 0 && header[11] == 0
    modifies header
    ensures Verifies(Sum(header[..])) && Sum(header[..]) > 0 && Sum(header[..]) % ONES == 0
    ensures forall i :: 0 <= i < 20 && i != 10 && i != 11 ==> header[i] == old(header[i])
  {
    ghost var before := header[..];
    var c := PlainChecksum(header[..]);
    InsertedVerifies(0, before, 10);
    header[10] := c / 256;
    header[11] := c % 256;
    assert header[..] == Insert(before, 10, c);
    VerifiesExactly(Sum(header[..]));
  }

  /** Put the checksum of a TCP segment in place. */
  method FinishTcp(src: seq<byte>, dst: seq<byte>, packet: array<byte>)
    requires |src| == 4 && |dst| == 4 && 20 <= packet.Length < B16 && packet[16] == 0 && packet[17] == 0
    modifies packet
    ensures var sum := PseudoSum(src, dst, PROTO_TCP, packet.Length) + Sum(packet[..]);
            Verifies(sum) && sum > 0 && sum % ONES == 0
    ensures forall i :: 0 <= i < packet.Length && i != 16 && i != 17 ==> packet[i] == old(packet[i])
  {
    ghost var before := packet[..];
    var c := PacketChecksum(src, dst, PROTO_TCP, packet[..]);
    InsertedVerifies(PseudoSum(src, dst, PROTO_TCP, packet.Length), before, 16);
    packet[16] := c / 256;
    packet[17] := c % 256;
    assert packet[..] == Insert(before, 16, c);
    VerifiesExactly(PseudoSum(src, dst, PROTO_TCP, packet.Length) + Sum(packet[..]));
  }

  /** Put the checksum of a UDP datagram in place; a zero is stored as all ones. */
  method FinishUdp(src: seq<byte>, dst: seq<byte>, packet: array<byte>)
    requires |src| == 4 && |dst| == 4 && 8 <= packet.Length < B16 && packet[6] == 0 && packet[7] == 0
    modifies packet
    ensures var sum := PseudoSum(src, dst, PROTO_UDP, packet.Length) + Sum(packet[..]);
            Verifies(sum) && sum > 0 && sum % ONES == 0
    ensures packet[6] != 0 || packet[7] != 0
    ensures forall i :: 0 <= i < packet.Length && i != 6 && i != 7 ==> packet[i] == old(packet[i])
  {
    ghost var before := packet[..];
    var c := PacketChecksum(src, dst, PROTO_UDP, packet[..]);
    UdpInsertedVerifies(PseudoSum(src, dst, PROTO_UDP, packet.Length), before, 6);
    if c == 0 { c := ONES; }
    packet[6] := c / 256;
    packet[7] := c % 256;
    assert packet[..] == Insert(before, 6, c);
    VerifiesExactly(PseudoSum(src, dst, PROTO_UDP, packet.Length) + Sum(packet[..]));
  }
}
