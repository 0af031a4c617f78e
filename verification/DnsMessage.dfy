/**
 DNS responses as they are laid out on the wire (sections 4.1.1 to 4.1.4 of
 RFC 1035), and what the parser makes of them: exactly the records sent.
 */
module DnsMessage {
  import opened Basics
  import opened Dns
  import opened DnsQuery
  import opened DnsResponse

  function Short(v: u16): (s: seq<byte>)
    ensures |s| == 2
  {
    [v / 256, v % 256]
  }

  /** Four bytes, the highest first. */
  function Long(v: u32): (s: seq<byte>)
    ensures |s| == 4
  {
    Short(v / B16) + Short(v % B16)
  }

  // ------------------------------------------------------------------------- layout

  /** A name on the wire: labels, and behind them a final zero or a pointer to the name asked for. */
  datatype Name = Name(front: seq<Label>, pointing: bool)

  predicate NameOk(n: Name, asked: seq<Label>) {
    (forall l <- n.front :: LabelOk(l)) && |Text(Full(n, asked))| <= NAME_MAX
  }

  /** The labels a name stands for. */
  function Full(n: Name, asked: seq<Label>): seq<Label> { n.front + if n.pointing then asked else [] }

  function Tail(n: Name): seq<byte> { if n.pointing then [0xc0, 12] else [0] }

  function NameBytes(n: Name): seq<byte>
    requires forall l <- n.front :: LabelOk(l)
  {
    Encode(n.front) + Tail(n)
  }

  datatype Entry =
    | Host(owner: Name, ttl: u32, ip: seq<byte>)
    | Canonical(owner: Name, ttl: u32, target: Name)
    | Other(owner: Name, ttl: u32, kind: u16, class_: u16, data: seq<byte>)

  /** Other records are those that are no internet address of four bytes and no internet alias. */
  predicate EntryOk(e: Entry, asked: seq<Label>) {
    && NameOk(e.owner, asked)
    && match e
       case Host(_, _, ip) => |ip| == 4
       case Canonical(_, _, target) => NameOk(target, asked) && |NameBytes(target)| < B16
       case Other(_, _, kind, class_, data) =>
         |data| < B16 && !(class_ == 1 && kind == 5) && !(class_ == 1 && kind == 1 && |data| == 4)
  }

  function KindBytes(e: Entry): (s: seq<byte>)
    ensures |s| == 4
  {
    match e
    case Host(_, _, _) => [0, 1, 0, 1]
    case Canonical(_, _, _) => [0, 5, 0, 1]
    case Other(_, _, kind, class_, _) => Short(kind) + Short(class_)
  }

  function DataBytes(e: Entry, asked: seq<Label>): (s: seq<byte>)
    requires EntryOk(e, asked)
    ensures |s| < B16
  {
    match e
    case Host(_, _, ip) => ip
    case Canonical(_, _, target) => NameBytes(target)
    case Other(_, _, _, _, data) => data
  }

  /** The ten bytes between the name of a record and its data. */
  function Fixed(e: Entry, asked: seq<Label>): (s: seq<byte>)
    requires EntryOk(e, asked)
    ensures |s| == 10
  {
    KindBytes(e) + Long(e.ttl) + Short(|DataBytes(e, asked)|)
  }

  function EntryBytes(e: Entry, asked: seq<Label>): seq<byte>
    requires EntryOk(e, asked)
  {
    NameBytes(e.owner) + (Fixed(e, asked) + DataBytes(e, asked))
  }

  predicate EntriesOk(es: seq<Entry>, asked: seq<Label>) { forall e <- es :: EntryOk(e, asked) }

  function EntriesBytes(es: seq<Entry>, asked: seq<Label>): seq<byte>
    requires EntriesOk(es, asked)
  {
    if es == [] then [] else EntryBytes(es[0], asked) + EntriesBytes(es[1..], asked)
  }

  /** The fields of a header, in the order of the standard. */
  datatype Head = Head(id: u16, qr: bool, opcode: nat, aa: bool, tc: bool, rd: bool, ra: bool, z: nat, rcode: nat,
                       questions: u16, answers: u16, others: seq<byte>)

  predicate HeadOk(h: Head) { h.opcode < 16 && h.z < 8 && h.rcode < 16 && |h.others| == 4 }

  function Bit(b: bool, weight: nat): nat { if b then weight else 0 }

  function Flags(h: Head): (f: u16)
    requires HeadOk(h)
  {
    Bit(h.qr, 0x8000) + h.opcode * 0x800 + Bit(h.aa, 0x400) + Bit(h.tc, 0x200) + Bit(h.rd, 0x100) + Bit(h.ra, 0x80)
    + h.z * 16 + h.rcode
  }

  function HeadBytes(h: Head): (s: seq<byte>)
    requires HeadOk(h)
    ensures |s| == HEADER
  {
    Short(h.id) + Short(Flags(h)) + Short(h.questions) + Short(h.answers) + h.others
  }

  /** A response: header, the name asked for with its type and class, the answers, and whatever follows. */
  datatype Message = Message(head: Head, asked: seq<Label>, question: seq<byte>, answers: seq<Entry>, more: seq<byte>)

  predicate MessageOk(m: Message) {
    && HeadOk(m.head) && (forall l <- m.asked :: LabelOk(l)) && |Text(m.asked)| <= NAME_MAX
    && |m.question| == 4 && EntriesOk(m.answers, m.asked) && m.head.answers == |m.answers|
  }

  function Packet(m: Message): seq<byte>
    requires MessageOk(m)
  {
    HeadBytes(m.head) + (Encode(m.asked) + ([0] + (m.question + (EntriesBytes(m.answers, m.asked) + m.more))))
  }

  /** What the answers say, record by record. */
  function Said(e: Entry, asked: seq<Label>): seq<Record> {
    match e
    case Host(owner, ttl, ip) => [Address(Text(Full(owner, asked)), ip, ttl)]
    case Canonical(owner, ttl, target) => [Alias(Text(Full(owner, asked)), Text(Full(target, asked)), ttl)]
    case Other(_, _, _, _, _) => []
  }

  function SaidByAll(es: seq<Entry>, asked: seq<Label>): seq<Record> {
    if es == [] then [] else Said(es[0], asked) + SaidByAll(es[1..], asked)
  }

  // ------------------------------------------------------------------ reading it back

  lemma ShortAt(packet: seq<byte>, pos: nat, v: u16)
    requires At(packet, pos, Short(v))
    ensures Word(packet, pos) == v
  {
    AtByte(packet, pos, Short(v), 0);
    AtByte(packet, pos, Short(v), 1);
  }

  /** The name asked for stands behind the header. */
  predicate Asked(packet: seq<byte>, asked: seq<Label>) {
    (forall l <- asked :: LabelOk(l)) && At(packet, HEADER, Encode(asked) + [0])
  }

  lemma AskedRead(packet: seq<byte>, asked: seq<Label>, jumps: nat)
    requires Asked(packet, asked)
    ensures Labels(packet, HEADER, jumps) == Some(asked) && After(packet, HEADER) == HEADER + |Encode(asked)| + 1
  {
    AtPieces(packet, HEADER, Encode(asked), [0]);
    AtByte(packet, HEADER + |Encode(asked)|, [0], 0);
    LabelsOfEncoding(packet, HEADER, asked, jumps);
  }

  /** A pointer to the name asked for is read as that name. */
  lemma PointerRead(packet: seq<byte>, pos: nat, asked: seq<Label>)
    requires Asked(packet, asked) && At(packet, pos, [0xc0, 12])
    ensures Labels(packet, pos, JUMPS) == Some(asked) && After(packet, pos) == pos + 2
  {
    AtByte(packet, pos, [0xc0, 12], 0);
    AtByte(packet, pos, [0xc0, 12], 1);
    assert Target(packet, pos) == HEADER;
    AskedRead(packet, asked, JUMPS - 1);
  }

  lemma TailRead(packet: seq<byte>, end: nat, n: Name, asked: seq<Label>)
    requires Asked(packet, asked) && At(packet, end, Tail(n))
    ensures Labels(packet, end, JUMPS) == Some(if n.pointing then asked else [])
    ensures After(packet, end) == end + |Tail(n)|
  {
    if n.pointing {
      PointerRead(packet, end, asked);
    } else {
      AtByte(packet, end, [0], 0);
    }
  }

  lemma LabelsRead(packet: seq<byte>, pos: nat, n: Name, asked: seq<Label>)
    requires Asked(packet, asked) && NameOk(n, asked) && At(packet, pos, NameBytes(n))
    ensures Labels(packet, pos, JUMPS) == Some(Full(n, asked)) && After(packet, pos) == pos + |NameBytes(n)|
  {
    AtPieces(packet, pos, Encode(n.front), Tail(n));
    TailRead(packet, pos + |Encode(n.front)|, n, asked);
    LabelsInFront(packet, pos, n.front, JUMPS);
  }

  lemma NameRead(packet: seq<byte>, pos: nat, n: Name, asked: seq<Label>)
    requires Asked(packet, asked) && NameOk(n, asked) && At(packet, pos, NameBytes(n))
    ensures NameAt(packet, pos) && NameText(packet, pos) == Text(Full(n, asked))
    ensures After(packet, pos) == pos + |NameBytes(n)|
  {
    LabelsRead(packet, pos, n, asked);
  }

  lemma FixedRead(packet: seq<byte>, next: nat, kind: u16, class_: u16, ttl: u32, len: u16)
    requires At(packet, next, Short(kind) + Short(class_) + Long(ttl) + Short(len))
    ensures Word(packet, next) == kind && Word(packet, next + 2) == class_ && Word(packet, next + 8) == len
    ensures Word(packet, next + 4) * B16 + Word(packet, next + 6) == ttl
  {
    AtPieces(packet, next, Short(kind) + Short(class_) + Long(ttl), Short(len));
    AtPieces(packet, next, Short(kind) + Short(class_), Long(ttl));
    AtPieces(packet, next, Short(kind), Short(class_));
    AtPieces(packet, next + 4, Short(ttl / B16), Short(ttl % B16));
    ShortAt(packet, next, kind);
    ShortAt(packet, next + 2, class_);
    ShortAt(packet, next + 4, ttl / B16);
    ShortAt(packet, next + 6, ttl % B16);
    ShortAt(packet, next + 8, len);
  }

  function KindOf(e: Entry): u16 {
    match e
    case Host(_, _, _) => 1
    case Canonical(_, _, _) => 5
    case Other(_, _, kind, _, _) => kind
  }

  function ClassOf(e: Entry): u16 { if e.Other? then e.class_ else 1 }

  lemma KindBytesAre(e: Entry)
    ensures KindBytes(e) == Short(KindOf(e)) + Short(ClassOf(e))
  {
  }

  /** The parts of a record: its owner, where its fixed part begins, what that holds, and its data. */
  datatype Parts = Parts(owner: seq<byte>, next: nat, kind: u16, class_: u16, ttl: nat, data: seq<byte>)

  function PartsAt(packet: seq<byte>, pos: nat): (p: Option<Parts>) {
    if !RecordAt(packet, pos) then None
    else
      var next := After(packet, pos);
      var len := Word(packet, next + 8);
      Some(Parts(NameText(packet, pos), next, Word(packet, next), Word(packet, next + 2),
                 Word(packet, next + 4) * B16 + Word(packet, next + 6), packet[next + 10..next + 10 + len]))
  }

  function PartsOf(e: Entry, asked: seq<Label>, pos: nat): (p: Parts)
    requires EntryOk(e, asked)
  {
    Parts(Text(Full(e.owner, asked)), pos + |NameBytes(e.owner)|, KindOf(e), ClassOf(e), e.ttl, DataBytes(e, asked))
  }

  function FixedOf(p: Parts): (s: seq<byte>)
    requires p.ttl < B32 && |p.data| < B16
    ensures |s| == 10
  {
    Short(p.kind) + Short(p.class_) + Long(p.ttl) + Short(|p.data|)
  }

  /** The fixed part and the data of a record stand behind its name. */
  predicate FixedAt(packet: seq<byte>, p: Parts) {
    && p.next + 10 + |p.data| <= |packet|
    && Word(packet, p.next) == p.kind && Word(packet, p.next + 2) == p.class_ && Word(packet, p.next + 8) == |p.data|
    && Word(packet, p.next + 4) * B16 + Word(packet, p.next + 6) == p.ttl
    && packet[p.next + 10..p.next + 10 + |p.data|] == p.data
  }

  lemma FixedFrom(packet: seq<byte>, pos: nat, p: Parts, name: seq<byte>)
    requires p.next == pos + |name| && p.ttl < B32 && |p.data| < B16 && At(packet, pos, name + (FixedOf(p) + p.data))
    ensures FixedAt(packet, p)
  {
    AtPieces(packet, pos, name, FixedOf(p) + p.data);
    AtPieces(packet, p.next, FixedOf(p), p.data);
    FixedRead(packet, p.next, p.kind, p.class_, p.ttl, |p.data|);
  }

  lemma PartsFrom(packet: seq<byte>, pos: nat, p: Parts)
    requires NameAt(packet, pos) && NameText(packet, pos) == p.owner && After(packet, pos) == p.next && FixedAt(packet, p)
    ensures PartsAt(packet, pos) == Some(p)
  {
    assert RecordAt(packet, pos);
  }

  lemma OwnerRead(packet: seq<byte>, pos: nat, e: Entry, asked: seq<Label>, p: Parts)
    requires Asked(packet, asked) && EntryOk(e, asked) && At(packet, pos, EntryBytes(e, asked)) && p == PartsOf(e, asked, pos)
    ensures NameAt(packet, pos) && NameText(packet, pos) == p.owner && After(packet, pos) == p.next
  {
    AtPieces(packet, pos, NameBytes(e.owner), Fixed(e, asked) + DataBytes(e, asked));
    NameRead(packet, pos, e.owner, asked);
  }

  lemma BytesOfParts(e: Entry, asked: seq<Label>, pos: nat, p: Parts)
    requires EntryOk(e, asked) && p == PartsOf(e, asked, pos)
    ensures EntryBytes(e, asked) == NameBytes(e.owner) + (FixedOf(p) + p.data)
  {
    KindBytesAre(e);
  }

  lemma EntryParts(packet: seq<byte>, pos: nat, e: Entry, asked: seq<Label>)
    requires Asked(packet, asked) && EntryOk(e, asked) && At(packet, pos, EntryBytes(e, asked))
    ensures PartsAt(packet, pos) == Some(PartsOf(e, asked, pos))
  {
    var p, name := PartsOf(e, asked, pos), NameBytes(e.owner);
    OwnerRead(packet, pos, e, asked, p);
    BytesOfParts(e, asked, pos, p);
    FixedFrom(packet, pos, p, name);
    PartsFrom(packet, pos, p);
  }

  /** What the record is read as, and where the next one begins. */
  predicate ReadsAs(packet: seq<byte>, pos: nat, said: seq<Record>, at: nat) {
    var r := RecordRead(packet, pos);
    r.Some? && r.value.0 == said && r.value.1 == at
  }

  lemma HostRead(packet: seq<byte>, pos: nat, p: Parts)
    requires PartsAt(packet, pos) == Some(p) && p.class_ == 1 && p.kind == 1 && |p.data| == 4
    ensures ReadsAs(packet, pos, [Address(p.owner, p.data, p.ttl)], p.next + 10 + |p.data|)
  {
  }

  lemma AliasRead(packet: seq<byte>, pos: nat, p: Parts)
    requires PartsAt(packet, pos) == Some(p) && p.class_ == 1 && p.kind == 5 && NameAt(packet, p.next + 10)
    ensures ReadsAs(packet, pos, [Alias(p.owner, NameText(packet, p.next + 10), p.ttl)], p.next + 10 + |p.data|)
  {
  }

  lemma OtherRead(packet: seq<byte>, pos: nat, p: Parts)
    requires PartsAt(packet, pos) == Some(p)
    requires !(p.class_ == 1 && p.kind == 5) && !(p.class_ == 1 && p.kind == 1 && |p.data| == 4)
    ensures ReadsAs(packet, pos, [], p.next + 10 + |p.data|)
  {
  }

  lemma DataAt(packet: seq<byte>, pos: nat, p: Parts)
    requires PartsAt(packet, pos) == Some(p)
    ensures At(packet, p.next + 10, p.data)
  {
  }

  /** The data of an alias is a name again. */
  lemma TargetRead(packet: seq<byte>, pos: nat, e: Entry, asked: seq<Label>, p: Parts)
    requires Asked(packet, asked) && EntryOk(e, asked) && e.Canonical?
    requires PartsAt(packet, pos) == Some(p) && p.data == NameBytes(e.target)
    ensures NameAt(packet, p.next + 10) && NameText(packet, p.next + 10) == Text(Full(e.target, asked))
  {
    DataAt(packet, pos, p);
    NameRead(packet, p.next + 10, e.target, asked);
  }

  lemma PartsSay(packet: seq<byte>, pos: nat, e: Entry, asked: seq<Label>, p: Parts)
    requires Asked(packet, asked) && EntryOk(e, asked) && p == PartsOf(e, asked, pos)
    requires PartsAt(packet, pos) == Some(p)
    ensures ReadsAs(packet, pos, Said(e, asked), p.next + 10 + |p.data|)
  {
    match e
    case Host(_, _, _) => HostRead(packet, pos, p);
    case Canonical(_, _, _) =>
      TargetRead(packet, pos, e, asked, p);
      AliasRead(packet, pos, p);
    case Other(_, _, _, _, _) => OtherRead(packet, pos, p);
  }

  lemma EntryLength(e: Entry, asked: seq<Label>, pos: nat)
    requires EntryOk(e, asked)
    ensures var p := PartsOf(e, asked, pos); pos + |EntryBytes(e, asked)| == p.next + 10 + |p.data|
  {
  }

  /** A record on the wire is read as what it says, and the next one begins behind it. */
  lemma EntryRead(packet: seq<byte>, pos: nat, e: Entry, asked: seq<Label>)
    requires Asked(packet, asked) && EntryOk(e, asked) && At(packet, pos, EntryBytes(e, asked))
    ensures ReadsAs(packet, pos, Said(e, asked), pos + |EntryBytes(e, asked)|)
  {
    EntryParts(packet, pos, e, asked);
    EntryLength(e, asked, pos);
    PartsSay(packet, pos, e, asked, PartsOf(e, asked, pos));
  }

  lemma OneMore(packet: seq<byte>, pos: nat, n: nat, said: seq<Record>, at: nat, more: seq<Record>)
    requires ReadsAs(packet, pos, said, at) && Answers(packet, at, n) == (more, true)
    ensures Answers(packet, pos, n + 1) == (said + more, true)
  {
    var read := ReaderOf(packet);
    assert read(pos) == RecordRead(packet, pos);
  }

  lemma EntriesPieces(packet: seq<byte>, pos: nat, es: seq<Entry>, asked: seq<Label>)
    requires es != [] && EntriesOk(es, asked) && At(packet, pos, EntriesBytes(es, asked))
    ensures EntryOk(es[0], asked) && EntriesOk(es[1..], asked)
    ensures At(packet, pos, EntryBytes(es[0], asked))
    ensures At(packet, pos + |EntryBytes(es[0], asked)|, EntriesBytes(es[1..], asked))
  {
    var first, rest := EntryBytes(es[0], asked), EntriesBytes(es[1..], asked);
    assert EntriesBytes(es, asked) == first + rest;
    AtPieces(packet, pos, first, rest);
  }

  lemma {:induction false} EntriesRead(packet: seq<byte>, pos: nat, es: seq<Entry>, asked: seq<Label>)
    requires Asked(packet, asked) && EntriesOk(es, asked) && At(packet, pos, EntriesBytes(es, asked))
    ensures Answers(packet, pos, |es|) == (SaidByAll(es, asked), true)
    decreases |es|
  {
    if es != [] {
      EntriesPieces(packet, pos, es, asked);
      var e, rest := es[0], es[1..];
      var at := pos + |EntryBytes(e, asked)|;
      var said, more := Said(e, asked), SaidByAll(rest, asked);
      assert Answers(packet, at, |rest|) == (more, true) by {
        EntriesRead(packet, at, rest, asked);
      }
      assert ReadsAs(packet, pos, said, at) by {
        EntryRead(packet, pos, e, asked);
      }
      OneMore(packet, pos, |rest|, said, at, more);
    }
  }

  /** The header is accepted exactly for a response to our one question, not truncated and without error. */
  predicate Good(h: Head, id: u16) {
    h.id == id && h.qr && h.opcode == 0 && !h.tc && h.rcode == 0 && h.questions == 1
  }

  lemma FlagsRead(h: Head)
    requires HeadOk(h)
    ensures var f := Flags(h);
            && (f / 0x8000 == 1 <==> h.qr) && f / 0x800 % 16 == h.opcode
            && (f / 0x200 % 2 == 1 <==> h.tc) && f % 16 == h.rcode
  {
    var low := Bit(h.rd, 0x100) + Bit(h.ra, 0x80) + h.z * 16 + h.rcode;
    FlagBits(Flags(h), Bit(h.qr, 1), h.opcode, Bit(h.aa, 1), Bit(h.tc, 1), low);
    Divides(low, 16, 16 * Bit(h.rd, 1) + 8 * Bit(h.ra, 1) + h.z, h.rcode);
  }

  lemma FlagBits(f: nat, qr: nat, opcode: nat, aa: nat, tc: nat, low: nat)
    requires f == qr * 0x8000 + opcode * 0x800 + aa * 0x400 + tc * 0x200 + low
    requires qr < 2 && opcode < 16 && aa < 2 && tc < 2 && low < 0x200
    ensures f / 0x8000 == qr && f / 0x800 % 16 == opcode && f / 0x200 % 2 == tc && f % 16 == low % 16
  {
    Divides(f, 0x8000, qr, opcode * 0x800 + aa * 0x400 + tc * 0x200 + low);
    Divides(f, 0x800, qr * 16 + opcode, aa * 0x400 + tc * 0x200 + low);
    Divides(f, 0x200, (qr * 32 + opcode * 2 + aa) * 2 + tc, low);
    Divides(qr * 16 + opcode, 16, qr, opcode);
    Divides((qr * 32 + opcode * 2 + aa) * 2 + tc, 2, qr * 32 + opcode * 2 + aa, tc);
    Divides(f, 16, qr * 2048 + opcode * 128 + aa * 64 + tc * 32 + low / 16, low % 16);
  }

  lemma {:induction false} Multiples(a: nat, b: nat, d: nat)
    requires a < b
    ensures a * d + d <= b * d
    decreases b
  {
    if a + 1 < b {
      Multiples(a, b - 1, d);
      assert b * d == (b - 1) * d + d;
    } else {
      assert b * d == a * d + d;
    }
  }

  lemma Divides(n: nat, d: nat, q: nat, r: nat)
    requires n == q * d + r && r < d
    ensures n / d == q && n % d == r
  {
    var k := n / d;
    assert n == k * d + n % d;
    if k < q {
      Multiples(k, q, d);
    } else if q < k {
      Multiples(q, k, d);
    }
  }

  lemma HeadRead(packet: seq<byte>, h: Head, id: u16)
    requires HeadOk(h) && At(packet, 0, HeadBytes(h))
    ensures HeaderOk(packet, id) <==> Good(h, id)
    ensures Word(packet, 6) == h.answers
  {
    AtPieces(packet, 0, Short(h.id) + Short(Flags(h)) + Short(h.questions) + Short(h.answers), h.others);
    AtPieces(packet, 0, Short(h.id) + Short(Flags(h)) + Short(h.questions), Short(h.answers));
    AtPieces(packet, 0, Short(h.id) + Short(Flags(h)), Short(h.questions));
    AtPieces(packet, 0, Short(h.id), Short(Flags(h)));
    ShortAt(packet, 0, h.id);
    ShortAt(packet, 2, Flags(h));
    ShortAt(packet, 4, h.questions);
    ShortAt(packet, 6, h.answers);
    FlagsRead(h);
  }

  lemma Layout(m: Message)
    requires MessageOk(m)
    ensures var packet := Packet(m);
            && At(packet, 0, HeadBytes(m.head)) && Asked(packet, m.asked)
            && At(packet, HEADER + |Encode(m.asked)| + 5, EntriesBytes(m.answers, m.asked))
  {
    var packet, e, answers := Packet(m), Encode(m.asked), EntriesBytes(m.answers, m.asked);
    var behind := m.question + (answers + m.more);
    assert packet[0..|packet|] == packet;
    AtPieces(packet, 0, HeadBytes(m.head), e + ([0] + behind));
    Regroup(e, [0], behind);
    AtPieces(packet, HEADER, e + [0], behind);
    AtPieces(packet, HEADER + |e| + 1, m.question, answers + m.more);
    AtPieces(packet, HEADER + |e| + 5, answers, m.more);
  }

  /**
   Every response is read back: with a good header, exactly the records of its
   answers, in their order, with their names whole, also where they are finished
   by a pointer; with any other header, nothing.
   */
  lemma ResponseRoundTrip(m: Message, id: u16)
    requires MessageOk(m)
    ensures var packet := Packet(m);
            && (Answered(packet, id) <==> Good(m.head, id))
            && Answers(packet, After(packet, HEADER) + 4, Word(packet, 6)) == (SaidByAll(m.answers, m.asked), true)
  {
    var packet := Packet(m);
    Layout(m);
    HeadRead(packet, m.head, id);
    AskedRead(packet, m.asked, JUMPS);
    EntriesRead(packet, HEADER + |Encode(m.asked)| + 5, m.answers, m.asked);
  }

  /** The parser on a whole response. */
  method ParseMessage(m: Message, id: u16) returns (found: bool, printed: seq<Record>)
    requires MessageOk(m) && |Packet(m)| < B16
    ensures printed == if Good(m.head, id) then SaidByAll(m.answers, m.asked) else []
    ensures found <==> printed != []
  {
    ResponseRoundTrip(m, id);
    found, printed := ParseResponse(Packet(m), id);
  }

  // ------------------------------------------------------------- queries are messages

  /** The header of a query: one question, and everything else zero. */
  function Asking(id: u16): (h: Head) { Head(id, false, 0, false, false, false, false, 0, 0, 1, 0, [0, 0, 0, 0]) }

  function AskingFor(ls: seq<Label>, id: u16): (m: Message) { Message(Asking(id), ls, [0, 1, 0, 1], [], []) }

  lemma AskingBytes(ls: seq<Label>, id: u16)
    requires MessageOk(AskingFor(ls, id))
    ensures Packet(AskingFor(ls, id)) == Header(id) + Encode(ls) + [0] + Question
  {
    assert HeadBytes(Asking(id)) == Header(id);
    SameBytes(Header(id), Encode(ls), [0], [0, 1, 0, 1]);
  }

  /** The query for a name is the message that asks for its internet address. */
  lemma QueryIsMessage(name: seq<byte>, id: u16)
    requires Askable(name)
    ensures var m := AskingFor(Split(Strip(name), DOT), id);
            MessageOk(m) && Query(id, Strip(name)) == Packet(m)
  {
    JoinSplit(Strip(name));
    StripShorter(name);
    AskingBytes(Split(Strip(name), DOT), id);
  }

  lemma SameBytes(a: seq<byte>, b: seq<byte>, c: seq<byte>, d: seq<byte>)
    ensures a + b + c + d == a + (b + (c + (d + ([] + []))))
  {
  }

  /** A record whose owner is just a pointer to the question is about the name that was asked for. */
  lemma PointerMeansAsked(name: seq<byte>, ttl: u32, ip: seq<byte>)
    requires Askable(name)
    ensures Said(Host(Name([], true), ttl, ip), Split(Strip(name), DOT)) == [Address(Strip(name), ip, ttl)]
  {
    var ls := Split(Strip(name), DOT);
    JoinSplit(Strip(name));
    assert [] + ls == ls;
  }
}
