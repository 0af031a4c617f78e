/**
 Going through a DNS response: header, one question, answer records.  Every
 byte looked at lies inside the packet, whatever the packet claims.
 */
module DnsResponse {
  import opened Basics
  import opened Dns

  datatype Record =
    | Address(owner: seq<byte>, ip: seq<byte>, ttl: nat)
    | Alias(owner: seq<byte>, target: seq<byte>, ttl: nat)

  function Word(packet: seq<byte>, pos: nat): (w: nat)
    requires pos + 2 <= |packet|
    ensures w < B16
  {
    var high: int, low: int := packet[pos], packet[pos + 1];
    high * 256 + low
  }

  /** A response to query `id`: the response bit set; standard opcode, not truncated, no error. */
  predicate HeaderOk(packet: seq<byte>, id: u16) {
    && |packet| >= HEADER && Word(packet, 0) == id && Word(packet, 4) == 1
    && var flags := Word(packet, 2);
       flags / 0x8000 == 1 && flags / 0x800 % 16 == 0 && flags / 0x200 % 2 == 0 && flags % 16 == 0
  }

  predicate NameAt(packet: seq<byte>, pos: nat) { pos < |packet| && Readable(packet, pos, NAME_MAX + 1) }

  function NameText(packet: seq<byte>, pos: nat): seq<byte>
    requires NameAt(packet, pos)
  {
    Text(Labels(packet, pos, JUMPS).value)
  }

  /** The fixed part of the record at a position, behind its name, is inside the packet, and so is its data. */
  predicate RecordAt(packet: seq<byte>, pos: nat) {
    && NameAt(packet, pos)
    && var next := After(packet, pos);
       next + 10 <= |packet| && next + 10 + Word(packet, next + 8) <= |packet|
  }

  /** What a record says, if it is of interest. */
  function Content(packet: seq<byte>, pos: nat): (r: seq<Record>)
    requires RecordAt(packet, pos)
  {
    var next := After(packet, pos);
    var kind, class_, len := Word(packet, next), Word(packet, next + 2), Word(packet, next + 8);
    var ttl := Word(packet, next + 4) * B16 + Word(packet, next + 6);
    if class_ != 1 then []
    else if kind == 1 && len == 4 then [Address(NameText(packet, pos), packet[next + 10..next + 14], ttl)]
    else if kind == 5 && NameAt(packet, next + 10) then [Alias(NameText(packet, pos), NameText(packet, next + 10), ttl)]
    else []
  }

  /** An alias whose target cannot be read spoils the response. */
  predicate Spoiled(packet: seq<byte>, pos: nat)
    requires RecordAt(packet, pos)
  {
    var next := After(packet, pos);
    Word(packet, next + 2) == 1 && Word(packet, next) == 5 && !NameAt(packet, next + 10)
  }

  /** What reading a record gives: what it says and where the next record begins. */
  function RecordRead(packet: seq<byte>, pos: nat): (r: Option<(seq<Record>, nat)>) {
    if !RecordAt(packet, pos) || Spoiled(packet, pos) then None
    else
      var next := After(packet, pos);
      Some((Content(packet, pos), next + 10 + Word(packet, next + 8)))
  }

  type Reader = nat -> Option<(seq<Record>, nat)>

  function ReaderOf(packet: seq<byte>): Reader { (pos: nat) => RecordRead(packet, pos) }

  /** What the next n records say, one read after the other, and whether all could be read. */
  function Gather(read: Reader, pos: nat, n: nat): (r: (seq<Record>, bool))
    decreases n
  {
    if n == 0 then ([], true)
    else
      match read(pos)
      case None => ([], false)
      case Some((said, at)) =>
        var rest := Gather(read, at, n - 1);
        (said + rest.0, rest.1)
  }

  function Answers(packet: seq<byte>, pos: nat, n: nat): (r: (seq<Record>, bool)) { Gather(ReaderOf(packet), pos, n) }

  /** Read one record: what it says, and where the next one is. */
  method ReadRecord(packet: seq<byte>, pos: nat) returns (ok: bool, said: seq<Record>, at: nat)
    requires |packet| < B16
    ensures RecordRead(packet, pos) == if ok then Some((said, at)) else None
    ensures ok ==> pos < at <= |packet|
  {
    said, at := [], 0;
    var owner, target := new byte[NAME_MAX + 1], new byte[NAME_MAX + 1];
    var len, next, size, end;
    ok, len, next := DnsName(packet, pos, owner);
    if !ok || next + 10 > |packet| { return false, [], 0; }
    var kind, class_ := Word(packet, next), Word(packet, next + 2);
    var ttl := Word(packet, next + 4) * B16 + Word(packet, next + 6);
    var dataLen := Word(packet, next + 8);
    var offset := next + 10;
    if offset + dataLen > |packet| { return false, [], 0; }
    if class_ == 1 && kind == 1 && dataLen == 4 {
      said := [Address(owner[..len], packet[offset..offset + 4], ttl)];
    } else if class_ == 1 && kind == 5 {
      ok, size, end := DnsName(packet, offset, target);
      if !ok { return false, [], 0; }
      said := [Alias(owner[..len], target[..size], ttl)];
    }
    return true, said, offset + dataLen;
  }

  /** With `printed` behind it and `left` records ahead, the reader stands at `pos`. */
  predicate Going(read: Reader, start: nat, n: nat, pos: nat, left: nat, printed: seq<Record>) {
    && Gather(read, start, n).1 == Gather(read, pos, left).1
    && Gather(read, start, n).0 == printed + Gather(read, pos, left).0
  }

  lemma GoingBegins(read: Reader, start: nat, n: nat)
    ensures Going(read, start, n, start, n, [])
  {
    assert [] + Gather(read, start, n).0 == Gather(read, start, n).0;
  }

  lemma GoingOn(read: Reader, start: nat, n: nat, pos: nat, left: nat, printed: seq<Record>)
    requires Going(read, start, n, pos, left, printed) && left > 0
    ensures match read(pos)
            case None => Gather(read, start, n) == (printed, false)
            case Some((said, at)) => Going(read, start, n, at, left - 1, printed + said)
  {
    match read(pos)
    case None => assert printed + [] == printed;
    case Some((said, at)) =>
      var rest := Gather(read, at, left - 1).0;
      assert printed + (said + rest) == (printed + said) + rest;
  }

  lemma GoingEnds(read: Reader, start: nat, n: nat, pos: nat, printed: seq<Record>)
    requires Going(read, start, n, pos, 0, printed)
    ensures Gather(read, start, n) == (printed, true)
  {
    assert printed + [] == printed;
  }

  method ReadAnswers(packet: seq<byte>, start: nat, n: nat) returns (ok: bool, printed: seq<Record>)
    requires |packet| < B16
    ensures Answers(packet, start, n) == (printed, ok)
  {
    printed := [];
    ghost var read := ReaderOf(packet);
    var pos: nat, i: nat := start, 0;
    GoingBegins(read, start, n);
    while i < n
      invariant i <= n && Going(read, start, n, pos, n - i, printed)
    {
      GoingOn(read, start, n, pos, n - i, printed);
      var good, said, at := ReadRecord(packet, pos);
      assert read(pos) == RecordRead(packet, pos);
      if !good { return false, printed; }
      printed := printed + said;
      pos := at;
      i := i + 1;
    }
    GoingEnds(read, start, n, pos, printed);
    return true, printed;
  }

  /** The response is to our one question. */
  predicate Answered(packet: seq<byte>, id: u16) {
    HeaderOk(packet, id) && NameAt(packet, HEADER) && After(packet, HEADER) + 4 <= |packet|
  }

  /**
   Print the records of interest, up to the first that cannot be read; found
   only if there are some and the whole response is well formed.
   */
  method ParseResponse(packet: seq<byte>, id: u16) returns (found: bool, printed: seq<Record>)
    requires |packet| < B16
    ensures !Answered(packet, id) ==> !found && printed == []
    ensures Answered(packet, id) ==>
              var a := Answers(packet, After(packet, HEADER) + 4, Word(packet, 6));
              printed == a.0 && (found <==> a.1 && a.0 != [])
  {
    found, printed := false, [];
    if |packet| < HEADER || Word(packet, 0) != id { return; }
    var flags := Word(packet, 2);
    if flags / 0x8000 == 0 || flags / 0x800 % 16 != 0 || flags / 0x200 % 2 != 0 || flags % 16 != 0 { return; }
    if Word(packet, 4) != 1 { return; }
    var answers := Word(packet, 6);
    var owner := new byte[NAME_MAX + 1];
    var ok, _, pos := DnsName(packet, HEADER, owner);
    if !ok || pos + 4 > |packet| { return; }
    ok, printed := ReadAnswers(packet, pos + 4, answers);
    found := ok && printed != [];
  }
}
