/**
 What a GMSTORE server owes a client, read off the client's whole byte stream.

 `Turn` is the simple parser: it looks at the bytes not yet consumed and takes
 one command line, one payload or one overlong line off them.  It knows nothing
 of how the bytes arrived or when replies could be sent.
 */
module StoreProtocol {
  import opened Basics
  import opened StoreText

  const LINE: nat := 512
  const INPUT: nat := 4096
  const OUTPUT: nat := 16384
  const LONG_MAX: nat := 0x7fff_ffff_ffff_ffff

  // ------------------------------------------------------------- the file system

  datatype FsOp =
    | ListAll
    | StatFile(path: string)
    | ReadFile(path: string, offset: nat, count: nat)
    | WriteFile(path: string, data: string, append: bool)
    | DeleteFile(path: string)

  /** `Refused`: the file could not be reached; `Broken`: it was reached, but the operation failed. */
  datatype FsResult = Refused | Broken | Done(size: nat, data: string, items: seq<string>)

  /** A file system answers each operation in the light of those before it, failures included. */
  type Fs = (seq<FsOp>, FsOp) -> FsResult

  // ---------------------------------------------------------------- command lines

  datatype Command =
    | Nothing
    | Bad(reply: string)
    | Ping
    | List
    | Stat(path: string)
    | Read(path: string, offset: nat, count: nat)
    | Put(path: string, count: nat, append: bool)
    | Delete(path: string)

  predicate PartValid(p: string) { p != "" && p != "." && p != ".." }

  /** A name is a slash and then parts that are neither empty nor `.` nor `..`, in printable characters. */
  predicate NameValid(name: string) {
    && |name| >= 2 && name[0] == '/'
    && (forall i :: 1 <= i < |name| ==> name[i] == '/' || 33 <= name[i] as int <= 126)
    && (forall p <- Split(name[1..], '/') :: PartValid(p))
  }

  predicate AllDigits(s: string) { s != "" && forall i :: 0 <= i < |s| ==> IsDigit(s[i]) }

  /** `strtoul` in base ten on a whole word: an optional sign, digits, at most 64 bits; a minus sign negates modulo 2^64. */
  function Number(s: string): (n: Option<nat>) {
    var signed := s != "" && (s[0] == '+' || s[0] == '-');
    var digits := if signed then s[1..] else s;
    if !AllDigits(digits) || DigitsValue(digits) >= B64 then None
    else if signed && s[0] == '-' then Some((B64 - DigitsValue(digits)) % B64)
    else Some(DigitsValue(digits))
  }

  function DecodeRead(path: string, a: string, b: string): Command {
    match (Number(a), Number(b))
    case (Some(offset), Some(count)) =>
      if count > BLOCK || offset > LONG_MAX then Bad("ERR read") else Read(path, offset, count)
    case _ => Bad("ERR read")
  }

  function DecodePut(path: string, a: string, append: bool): Command {
    match Number(a)
    case Some(count) => if count > BLOCK then Bad("ERR size") else Put(path, count, append)
    case None => Bad("ERR size")
  }

  function Decode(ws: seq<string>): Command {
    if |ws| > 4 then Bad("ERR syntax")
    else if |ws| == 0 then Nothing
    else if ws == ["PING"] then Ping
    else if ws == ["LIST"] then List
    else if |ws| < 2 || !NameValid(ws[1]) then Bad("ERR path")
    else if |ws| == 2 && ws[0] == "STAT" then Stat(ws[1])
    else if |ws| == 4 && ws[0] == "READ" then DecodeRead(ws[1], ws[2], ws[3])
    else if |ws| == 3 && (ws[0] == "WRITE" || ws[0] == "APPEND") then DecodePut(ws[1], ws[2], ws[0] == "APPEND")
    else if |ws| == 2 && ws[0] == "DEL" then Delete(ws[1])
    else Bad("ERR syntax")
  }

  // --------------------------------------------------------------------- replies

  function Items(items: seq<string>): (s: string) {
    if items == [] then "" else Items(items[..|items| - 1]) + "ITEM " + items[|items| - 1] + "\n"
  }

  function ListReply(r: FsResult): (s: string) {
    if r.Done? && |Items(r.items) + "OK END\n"| <= OUTPUT then Items(r.items) + "OK END\n" else "ERR list\n"
  }

  function StatReply(r: FsResult): (s: string) {
    if r.Done? then "OK " + Decimal(r.size % B64) + "\n" else "ERR missing\n"
  }

  /** A read returns at most what was asked for. */
  function Got(r: FsResult, count: nat): (s: string)
    requires r.Done?
    ensures |s| <= count
  {
    if |r.data| <= count then r.data else r.data[..count]
  }

  function ReadReply(r: FsResult, count: nat): (s: string) {
    if r.Done? then "OK " + Decimal(|Got(r, count)|) + "\n" + Got(r, count) else "ERR read\n"
  }

  function DeleteReply(r: FsResult): (s: string) {
    match r
    case Refused => "ERR missing\n"
    case Broken => "ERR delete\n"
    case Done(_, _, _) => "OK\n"
  }

  function PutReply(r: FsResult): (s: string) {
    match r
    case Refused => "ERR path\n"
    case Broken => "ERR write\n"
    case Done(_, _, _) => "OK\n"
  }

  // ------------------------------------------------------------------- the parser

  datatype Payload = Payload(path: string, count: nat, append: bool)

  /** Bytes not yet consumed, a payload still due, operations carried out and reply bytes produced so far. */
  datatype Session = Session(rest: string, due: Option<Payload>, ops: seq<FsOp>, out: string)

  function Begin(stream: string): Session { Session(stream, None, [], "") }

  function NewlineAt(s: string): (n: nat) { IndexOf(s, '\n') }

  /** As much of the stream as a server can see at once. */
  function Visible(s: string): (v: string) { if |s| <= INPUT then s else s[..INPUT] }

  predicate HasLine(s: string) { NewlineAt(Visible(s)) < |Visible(s)| }

  /** A line up to its newline, without a final carriage return. */
  function StripReturn(raw: string): (line: string) {
    if raw != "" && raw[|raw| - 1] == '\r' then raw[..|raw| - 1] else raw
  }

  predicate LineOk(line: string) {
    |line| < LINE && forall i :: 0 <= i < |line| ==> 32 <= line[i] as int <= 126
  }

  function Answer(s: Session, op: FsOp, reply: string): Session {
    s.(ops := s.ops + [op], out := s.out + reply)
  }

  function Obey(fs: Fs, s: Session, c: Command): Session {
    match c
    case Nothing => s
    case Bad(reply) => s.(out := s.out + reply + "\n")
    case Ping => s.(out := s.out + "OK PONG\n")
    case List => Answer(s, ListAll, ListReply(fs(s.ops, ListAll)))
    case Stat(path) => Answer(s, StatFile(path), StatReply(fs(s.ops, StatFile(path))))
    case Read(path, offset, count) =>
      var op := ReadFile(path, offset, count);
      Answer(s, op, ReadReply(fs(s.ops, op), count))
    case Put(path, count, append) => s.(due := Some(Payload(path, count, append)))
    case Delete(path) => Answer(s, DeleteFile(path), DeleteReply(fs(s.ops, DeleteFile(path))))
  }

  /** The payload is used up only if it could be stored; otherwise its bytes are read as commands. */
  function Store(fs: Fs, s: Session): Session
    requires s.due.Some? && |s.rest| >= s.due.value.count
  {
    var p := s.due.value;
    var op := WriteFile(p.path, s.rest[..p.count], p.append);
    var r := fs(s.ops, op);
    Answer(s, op, PutReply(r)).(due := None, rest := if r.Done? then s.rest[p.count..] else s.rest)
  }

  function TakeLine(fs: Fs, s: Session): Session
    requires HasLine(s.rest)
  {
    var nl := NewlineAt(Visible(s.rest));
    var line := StripReturn(s.rest[..nl]);
    var t := s.(rest := s.rest[nl + 1..]);
    if LineOk(line) then Obey(fs, t, Decode(Words(line))) else t.(out := t.out + "ERR syntax\n")
  }

  /** Take up a payload that is already there. */
  function Settle(fs: Fs, s: Session): Session { if s.due.Some? && Enabled(s) then Store(fs, s) else s }

  predicate Enabled(s: Session) {
    if s.due.Some? then |s.rest| >= s.due.value.count else HasLine(s.rest) || |s.rest| >= INPUT
  }

  function Turn(fs: Fs, s: Session): (t: Session)
    requires Enabled(s)
  {
    if s.due.Some? then Store(fs, s)
    else if HasLine(s.rest) then TakeLine(fs, s)
    else s.(rest := s.rest[INPUT..], out := s.out + "ERR syntax\n")
  }

  // ------------------------------------------------------- more bytes change nothing

  function More(s: Session, more: string): Session { s.(rest := s.rest + more) }

  lemma HasLineMore(s: string, more: string)
    requires HasLine(s)
    ensures HasLine(s + more) && NewlineAt(Visible(s + more)) == NewlineAt(Visible(s))
  {
    var v, w := Visible(s), Visible(s + more);
    assert v == w[..|v|];
    assert w == v + w[|v|..];
    IndexOfMore(v, '\n', w[|v|..]);
  }

  lemma ObeyMore(fs: Fs, s: Session, c: Command, more: string)
    ensures Obey(fs, More(s, more), c) == More(Obey(fs, s, c), more)
  {
  }

  lemma TakeLineMore(fs: Fs, s: Session, more: string)
    requires HasLine(s.rest)
    ensures HasLine(s.rest + more) && TakeLine(fs, More(s, more)) == More(TakeLine(fs, s), more)
  {
    var t := More(s, more);
    HasLineMore(s.rest, more);
    var nl := NewlineAt(Visible(s.rest));
    assert t.rest[..nl] == s.rest[..nl] && t.rest[nl + 1..] == s.rest[nl + 1..] + more;
    ObeyMore(fs, s.(rest := s.rest[nl + 1..]), Decode(Words(StripReturn(s.rest[..nl]))), more);
  }

  /** A turn that is possible now stays possible, and does the same, when more bytes have arrived. */
  lemma TurnMore(fs: Fs, s: Session, more: string)
    requires Enabled(s)
    ensures Enabled(More(s, more)) && Turn(fs, More(s, more)) == More(Turn(fs, s), more)
  {
    var t := More(s, more);
    if s.due.Some? {
      var n := s.due.value.count;
      assert t.rest[..n] == s.rest[..n] && t.rest[n..] == s.rest[n..] + more;
    } else if HasLine(s.rest) {
      TakeLineMore(fs, s, more);
    } else {
      assert |s.rest| >= INPUT && Visible(t.rest) == Visible(s.rest);
      assert t.rest[INPUT..] == s.rest[INPUT..] + more;
    }
  }

  predicate Follows(fs: Fs, s: Session, t: Session) { Enabled(s) && t == Turn(fs, s) }

  /** A history of turns taken on a stream of which `arrived` is all that has come in. */
  predicate History(fs: Fs, arrived: string, tr: seq<Session>) {
    && |tr| > 0 && tr[0] == Begin(arrived)
    && forall i :: 0 <= i < |tr| - 1 ==> Follows(fs, tr[i], tr[i + 1])
  }

  function Last(tr: seq<Session>): Session
    requires |tr| > 0
  {
    tr[|tr| - 1]
  }

  /** The same history, seen after more bytes have arrived. */
  function HistoryMore(tr: seq<Session>, more: string): (tr': seq<Session>)
    ensures |tr'| == |tr| && forall i :: 0 <= i < |tr| ==> tr'[i] == More(tr[i], more)
  {
    seq(|tr|, i requires 0 <= i < |tr| => More(tr[i], more))
  }

  lemma ArrivalKeepsHistory(fs: Fs, arrived: string, tr: seq<Session>, more: string)
    requires History(fs, arrived, tr)
    ensures History(fs, arrived + more, HistoryMore(tr, more))
  {
    var tr' := HistoryMore(tr, more);
    forall i | 0 <= i < |tr| - 1 ensures Follows(fs, tr'[i], tr'[i + 1]) {
      assert Follows(fs, tr[i], tr[i + 1]);
      TurnMore(fs, tr[i], more);
    }
  }

  lemma TurnKeepsHistory(fs: Fs, arrived: string, tr: seq<Session>)
    requires History(fs, arrived, tr) && Enabled(Last(tr))
    ensures History(fs, arrived, tr + [Turn(fs, Last(tr))])
  {
    var ext := tr + [Turn(fs, Last(tr))];
    forall i | 0 <= i < |ext| - 1 ensures Follows(fs, ext[i], ext[i + 1]) {
      assert i < |tr| - 1 ==> Follows(fs, tr[i], tr[i + 1]);
    }
  }

  // -------------------------------------------------------------- the whole stream

  function Measure(s: Session): (m: nat) { 2 * |s.rest| + (if s.due.Some? then 1 else 0) }

  lemma ObeyGrows(fs: Fs, s: Session, c: Command)
    ensures s.ops <= Obey(fs, s, c).ops && s.out <= Obey(fs, s, c).out && Obey(fs, s, c).rest == s.rest
  {
  }

  lemma TakeLineShrinks(fs: Fs, s: Session)
    requires HasLine(s.rest)
    ensures s.ops <= TakeLine(fs, s).ops && s.out <= TakeLine(fs, s).out && |TakeLine(fs, s).rest| < |s.rest|
  {
    var nl := NewlineAt(Visible(s.rest));
    ObeyGrows(fs, s.(rest := s.rest[nl + 1..]), Decode(Words(StripReturn(s.rest[..nl]))));
  }

  lemma TurnShrinks(fs: Fs, s: Session)
    requires Enabled(s)
    ensures Measure(Turn(fs, s)) < Measure(s)
    ensures s.ops <= Turn(fs, s).ops && s.out <= Turn(fs, s).out
  {
    if s.due.None? && HasLine(s.rest) {
      TakeLineShrinks(fs, s);
    }
  }

  /** Everything a stream asks for, up to the first command that is not complete. */
  function Whole(fs: Fs, s: Session): (t: Session)
    decreases Measure(s)
  {
    if Enabled(s) then TurnShrinks(fs, s); Whole(fs, Turn(fs, s)) else s
  }

  lemma {:induction false} WholeGrows(fs: Fs, s: Session)
    ensures s.ops <= Whole(fs, s).ops && s.out <= Whole(fs, s).out
    ensures !Enabled(Whole(fs, s))
    decreases Measure(s)
  {
    if Enabled(s) {
      TurnShrinks(fs, s);
      WholeGrows(fs, Turn(fs, s));
    }
  }

  lemma WholeStep(fs: Fs, s: Session, t: Session)
    requires Follows(fs, s, t)
    ensures Whole(fs, s) == Whole(fs, t)
  {
  }

  lemma {:induction false} WholeAlong(fs: Fs, arrived: string, tr: seq<Session>, i: nat)
    requires History(fs, arrived, tr) && i < |tr|
    ensures Whole(fs, tr[i]) == Whole(fs, Begin(arrived))
  {
    if i > 0 {
      WholeAlong(fs, arrived, tr, i - 1);
      assert Follows(fs, tr[i - 1], tr[i - 1 + 1]);
      WholeStep(fs, tr[i - 1], tr[i]);
    }
  }

  /**
   Whatever part of the stream has arrived and however many turns have been
   taken on it, the operations and replies are a prefix of those of the whole.
   */
  lemma PrefixOfWhole(fs: Fs, arrived: string, stream: string, tr: seq<Session>)
    requires arrived <= stream && History(fs, arrived, tr)
    ensures Last(tr).ops <= Whole(fs, Begin(stream)).ops
    ensures Last(tr).out <= Whole(fs, Begin(stream)).out
  {
    var more := stream[|arrived|..];
    assert arrived + more == stream;
    ArrivalKeepsHistory(fs, arrived, tr, more);
    var tr' := HistoryMore(tr, more);
    WholeAlong(fs, stream, tr', |tr| - 1);
    WholeGrows(fs, Last(tr'));
  }

  /** Once everything has arrived and nothing more can be done, it is the whole. */
  lemma DrainedIsWhole(fs: Fs, stream: string, tr: seq<Session>)
    requires History(fs, stream, tr) && !Enabled(Last(tr))
    ensures Last(tr) == Whole(fs, Begin(stream))
  {
    WholeAlong(fs, stream, tr, |tr| - 1);
  }

  /**
   Two servers that got the same stream in different pieces, and were held up
   by different clients, have done the same things, one of them perhaps more.
   */
  lemma ChunkingIsIrrelevant(fs: Fs, stream: string, arrived: string, tr: seq<Session>,
                             arrived': string, tr': seq<Session>)
    requires arrived <= stream && History(fs, arrived, tr)
    requires arrived' <= stream && History(fs, arrived', tr')
    ensures Last(tr).ops <= Last(tr').ops || Last(tr').ops <= Last(tr).ops
    ensures Last(tr).out <= Last(tr').out || Last(tr').out <= Last(tr).out
  {
    PrefixOfWhole(fs, arrived, stream, tr);
    PrefixOfWhole(fs, arrived', stream, tr');
  }
}
