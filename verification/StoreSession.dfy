/**
 Both ends together: what the client encodes is what the server decodes, and
 what the server answers is what the client gets.
 */
module StoreSession {
  import opened Basics
  import opened StoreText
  import opened StoreProtocol
  import opened StoreClient

  lemma NumberOfDecimal(n: nat)
    requires n < B64
    ensures Number(Decimal(n)) == Some(n) && StrictNumber(Decimal(n)) == Some(n)
  {
    DecimalValue(n);
  }

  lemma NewlineAfter(line: string, rest: string)
    requires '\n' !in line
    ensures NewlineAt(line + "\n" + rest) == |line|
  {
    Regroup(line, "\n", rest);
    IndexOfAt(line, '\n', "\n" + rest);
  }

  predicate Printable(line: string) { forall i :: 0 <= i < |line| ==> 32 <= line[i] as int <= 126 }

  /** A line with neither a newline nor a final return in it. */
  predicate PlainLine(line: string) {
    && |line| < LINE && (forall i :: 0 <= i < |line| ==> line[i] != '\n')
    && (line != "" ==> line[|line| - 1] != '\r')
  }

  /** A short line in front of a newline is decoded as it stands, if it is printable. */
  lemma TurnOnLine(fs: Fs, s: Session, line: string, later: string)
    requires s.due.None? && s.rest == line + "\n" + later && PlainLine(line)
    ensures Enabled(s)
    ensures Turn(fs, s) == if Printable(line) then Obey(fs, s.(rest := later), Decode(Words(line)))
                           else s.(rest := later, out := s.out + "ERR syntax\n")
  {
    var v := Visible(s.rest);
    assert v == line + "\n" + v[|line| + 1..];
    NewlineAfter(line, v[|line| + 1..]);
    assert s.rest[..|line|] == line && s.rest[|line| + 1..] == later;
    assert LineOk(line) <==> Printable(line);
  }

  lemma LineObeyed(fs: Fs, s: Session, line: string, later: string, c: Command)
    requires s.due.None? && s.rest == line + "\n" + later && PlainLine(line) && Printable(line)
    requires Decode(Words(line)) == c
    ensures Enabled(s) && Turn(fs, s) == Obey(fs, s.(rest := later), c)
  {
    TurnOnLine(fs, s, line, later);
  }

  lemma RequestSplits(path: string, data: string, append: bool, later: string)
    ensures WriteRequest(path, data, append) + later ==
            WriteWord(append) + " " + path + " " + Decimal(|data|) + "\n" + (data + later)
  {
    Regroup(WriteWord(append) + " " + path + " " + Decimal(|data|) + "\n", data, later);
  }

  lemma OneWord(a: string)
    requires IsWord(a)
    ensures Words(a) == [a]
  {
    WordsOf(a, "");
    assert a + "" == a;
  }

  lemma SmallPath(path: string)
    requires PathOk(path) && NameValid(path)
    ensures IsWord(path) && Printable(path)
  {
  }

  lemma WriteLineFits(path: string, n: nat, append: bool)
    requires PathOk(path) && NameValid(path) && n <= BLOCK
    ensures var line := WriteWord(append) + " " + path + " " + Decimal(n);
            PlainLine(line) && Printable(line)
  {
    SmallPath(path);
    DecimalFits(n);
  }

  lemma WriteDecodes(path: string, n: nat, append: bool)
    requires PathOk(path) && NameValid(path) && n <= BLOCK
    ensures Decode(Words(WriteWord(append) + " " + path + " " + Decimal(n))) == Put(path, n, append)
  {
    var a, d := WriteWord(append), Decimal(n);
    SmallPath(path);
    OneWord(a);
    WordsAppend(a, path);
    WordsAppend(a + " " + path, d);
    assert [a] + [path] + [d] == [a, path, d];
    NumberOfDecimal(n);
  }

  /** The payload of a write is stored whole, whatever its bytes are. */
  lemma StoreArrives(fs: Fs, s: Session, path: string, data: string, append: bool, later: string)
    requires s.rest == data + later && s.due == Some(Payload(path, |data|, append))
    ensures Enabled(s)
    ensures var op := WriteFile(path, data, append);
            var r := fs(s.ops, op);
            Turn(fs, s) == Session(if r.Done? then later else data + later, None, s.ops + [op], s.out + PutReply(r))
  {
    assert (data + later)[..|data|] == data && (data + later)[|data|..] == later;
  }

  lemma PutMakesDue(fs: Fs, s: Session, line: string, path: string, n: nat, append: bool, rest: string)
    requires s.due.None? && s.rest == line + "\n" + rest && PlainLine(line) && Printable(line)
    requires Decode(Words(line)) == Put(path, n, append)
    ensures Enabled(s) && Turn(fs, s) == Session(rest, Some(Payload(path, n, append)), s.ops, s.out)
  {
    assert Enabled(s) && Turn(fs, s) == Obey(fs, s.(rest := rest), Put(path, n, append)) by {
      LineObeyed(fs, s, line, rest, Put(path, n, append));
    }
    PutObeyed(fs, s.(rest := rest), path, n, append);
  }

  lemma PutObeyed(fs: Fs, s: Session, path: string, n: nat, append: bool)
    ensures Obey(fs, s, Put(path, n, append)) == s.(due := Some(Payload(path, n, append)))
  {
  }

  /** A line that asks for a write makes its payload due, and the payload is stored. */
  lemma PutArrives(fs: Fs, s: Session, line: string, path: string, data: string, append: bool, later: string)
    requires s.due.None? && s.rest == line + "\n" + (data + later) && PlainLine(line) && Printable(line)
    requires Decode(Words(line)) == Put(path, |data|, append)
    ensures Enabled(s) && Enabled(Turn(fs, s))
    ensures var op := WriteFile(path, data, append);
            var r := fs(s.ops, op);
            Turn(fs, Turn(fs, s)) ==
            Session(if r.Done? then later else data + later, None, s.ops + [op], s.out + PutReply(r))
  {
    PutMakesDue(fs, s, line, path, |data|, append, data + later);
    var t := Session(data + later, Some(Payload(path, |data|, append)), s.ops, s.out);
    StoreArrives(fs, t, path, data, append, later);
  }

  /**
   A write or append request, whatever its payload holds, reaches the file
   system as exactly that path, mode and payload; if it is stored, exactly the
   request is used up.
   */
  lemma WriteArrives(fs: Fs, s: Session, path: string, data: string, append: bool, later: string)
    requires PathOk(path) && NameValid(path) && |data| <= BLOCK
    requires s.due.None? && s.rest == WriteRequest(path, data, append) + later
    ensures Enabled(s) && Enabled(Turn(fs, s))
    ensures var op := WriteFile(path, data, append);
            var r := fs(s.ops, op);
            Turn(fs, Turn(fs, s)) ==
            Session(if r.Done? then later else data + later, None, s.ops + [op], s.out + PutReply(r))
  {
    var line := WriteWord(append) + " " + path + " " + Decimal(|data|);
    WriteLineFits(path, |data|, append);
    WriteDecodes(path, |data|, append);
    RequestSplits(path, data, append, later);
    PutArrives(fs, s, line, path, data, append, later);
  }

  /** The bytes of a payload are left for the command parser exactly if its write failed. */
  lemma PayloadLeftExactly(fs: Fs, s: Session, path: string, data: string, append: bool, later: string)
    requires s.rest == data + later && s.due == Some(Payload(path, |data|, append)) && data != ""
    ensures Enabled(s) && Turn(fs, s).due.None?
    ensures Turn(fs, s).rest == data + later <==> !fs(s.ops, WriteFile(path, data, append)).Done?
    ensures Turn(fs, s).rest == later <==> fs(s.ops, WriteFile(path, data, append)).Done?
  {
    StoreArrives(fs, s, path, data, append, later);
    assert |data + later| != |later|;
  }

  /** So a payload that is a command line is carried out as one if it could not be stored. */
  lemma PayloadObeyed(fs: Fs, s: Session, path: string, line: string, append: bool, later: string)
    requires s.rest == line + "\n" + later && s.due == Some(Payload(path, |line| + 1, append))
    requires PlainLine(line) && Printable(line)
    requires !fs(s.ops, WriteFile(path, line + "\n", append)).Done?
    ensures Enabled(s) && Enabled(Turn(fs, s))
    ensures var op := WriteFile(path, line + "\n", append);
            Turn(fs, Turn(fs, s)) ==
            Obey(fs, Session(later, None, s.ops + [op], s.out + PutReply(fs(s.ops, op))), Decode(Words(line)))
  {
    StoreArrives(fs, s, path, line + "\n", append, later);
    LineObeyed(fs, Turn(fs, s), line, later, Decode(Words(line)));
  }

  /** A file system that cannot write. */
  function ReadOnly(): Fs { (_: seq<FsOp>, op: FsOp) => if op.WriteFile? then Broken else Done(0, "", []) }

  /** A stream of one write request whose payload is a question for a size: with that file system both are carried out. */
  lemma PayloadCarriedOut()
    ensures var fs, s := ReadOnly(), Begin(WriteRequest("/a", "STAT /b\n", false));
            && Enabled(s) && Enabled(Turn(fs, s)) && Enabled(Turn(fs, Turn(fs, s)))
            && Turn(fs, Turn(fs, Turn(fs, s))).ops == [WriteFile("/a", "STAT /b\n", false), StatFile("/b")]
  {
    var fs, data := ReadOnly(), "STAT /b\n";
    var s, op := Begin(WriteRequest("/a", data, false)), WriteFile("/a", data, false);
    ShortName('a');
    ShortName('b');
    assert s.rest + "" == s.rest && data + "" == data && [] + [op] == [op];
    WriteArrives(fs, s, "/a", data, false, "");
    var t := Session(data, None, [op], "" + PutReply(Broken));
    assert Turn(fs, Turn(fs, s)) == t;
    QuestionObeyed(fs, t, op);
  }

  lemma QuestionObeyed(fs: Fs, t: Session, op: FsOp)
    requires t.due.None? && t.rest == "STAT /b\n" && t.ops == [op]
    ensures Enabled(t) && Turn(fs, t).ops == [op, StatFile("/b")]
  {
    ShortName('b');
    assert StatRequest("/b") + "" == t.rest;
    StatArrives(fs, t, "/b", "");
    assert [op] + [StatFile("/b")] == [op, StatFile("/b")];
  }

  lemma ShortName(c: char)
    requires c == 'a' || c == 'b'
    ensures PathOk("/" + [c]) && NameValid("/" + [c])
  {
    var name := "/" + [c];
    assert name[1..] == [c];
    SplitOf([c], '/', "");
  }

  lemma ReadLineFits(path: string, offset: nat, len: nat)
    requires PathOk(path) && offset < B64 && len <= BLOCK
    ensures var line := "READ " + path + " " + Decimal(offset) + " " + Decimal(len);
            PlainLine(line) && (NameValid(path) ==> Printable(line))
  {
    DecimalFits(offset);
    DecimalFits(len);
  }

  lemma ReadWords(path: string, a: string, b: string)
    requires IsWord(path) && IsWord(a) && IsWord(b)
    ensures Words("READ " + path + " " + a + " " + b) == ["READ", path, a, b]
  {
    OneWord("READ");
    WordsAppend("READ", path);
    assert "READ" + " " == "READ ";
    WordsAppend("READ " + path, a);
    WordsAppend("READ " + path + " " + a, b);
    assert ["READ"] + [path] + [a] + [b] == ["READ", path, a, b];
  }

  lemma ReadDecodes(path: string, offset: nat, len: nat)
    requires PathOk(path) && offset < B64 && len <= BLOCK
    ensures Decode(Words("READ " + path + " " + Decimal(offset) + " " + Decimal(len))) ==
            if !NameValid(path) then Bad("ERR path")
            else if offset <= LONG_MAX then Read(path, offset, len) else Bad("ERR read")
  {
    assert IsWord(path);
    ReadWords(path, Decimal(offset), Decimal(len));
    NumberOfDecimal(offset);
    NumberOfDecimal(len);
  }

  lemma ReadObeyed(fs: Fs, s: Session, line: string, path: string, offset: nat, len: nat, later: string)
    requires s.due.None? && s.rest == line + "\n" + later && PlainLine(line) && Printable(line)
    requires Decode(Words(line)) == if offset <= LONG_MAX then Read(path, offset, len) else Bad("ERR read")
    ensures Enabled(s)
    ensures var op := ReadFile(path, offset, len);
            var t := s.(rest := later);
            Turn(fs, s) == if offset <= LONG_MAX then Answer(t, op, ReadReply(fs(s.ops, op), len))
                           else t.(out := t.out + "ERR read" + "\n")
  {
    var c := if offset <= LONG_MAX then Read(path, offset, len) else Bad("ERR read");
    assert Enabled(s) && Turn(fs, s) == Obey(fs, s.(rest := later), c) by {
      LineObeyed(fs, s, line, later, c);
    }
  }

  /** A read request is answered for exactly the path, offset and length asked for; offsets beyond `LONG_MAX` are refused. */
  lemma ReadArrives(fs: Fs, s: Session, path: string, offset: nat, len: nat, later: string)
    requires PathOk(path) && NameValid(path) && offset < B64 && len <= BLOCK
    requires s.due.None? && s.rest == ReadRequest(path, offset, len) + later
    ensures Enabled(s)
    ensures var op := ReadFile(path, offset, len);
            var t := s.(rest := later);
            Turn(fs, s) == if offset <= LONG_MAX then Answer(t, op, ReadReply(fs(s.ops, op), len))
                           else t.(out := t.out + "ERR read" + "\n")
  {
    var line := "READ " + path + " " + Decimal(offset) + " " + Decimal(len);
    ReadLineFits(path, offset, len);
    ReadDecodes(path, offset, len);
    ReadObeyed(fs, s, line, path, offset, len, later);
  }

  lemma ReplyLineOf(line: string, rest: string)
    requires |line| < REQUEST && Printable(line)
    ensures ReplyLine(line + "\n" + rest) == Some((line, rest))
  {
    var s := line + "\n" + rest;
    NewlineAfter(line, rest);
    assert s[..|line|] == line && s[|line| + 1..] == rest;
    assert StripReturn(line) == line;
  }

  /** The client takes the bytes of a successful read, and nothing else, out of the reply. */
  lemma ReadAnswered(r: FsResult, len: nat)
    requires len <= BLOCK
    ensures ReadAnswer(ReadReply(r, len), len) == if r.Done? then Some(Got(r, len)) else None
  {
    if r.Done? {
      var data := Got(r, len);
      var line := "OK " + Decimal(|data|);
      DecimalFits(|data|);
      ReplyLineOf(line, data);
      assert line[3..] == Decimal(|data|);
      NumberOfDecimal(|data|);
      assert data[..|data|] == data;
    } else {
      ReplyLineOf("ERR read", "");
      assert "ERR read" + "\n" + "" == "ERR read\n";
    }
  }

  // ----------------------------------------------------------------- asking for a size

  lemma StatDecodes(path: string)
    requires PathOk(path)
    ensures Decode(Words("STAT " + path)) == if NameValid(path) then Stat(path) else Bad("ERR path")
  {
    assert IsWord(path);
    OneWord("STAT");
    WordsAppend("STAT", path);
    assert "STAT" + " " == "STAT " && ["STAT"] + [path] == ["STAT", path];
  }

  lemma StatLineFits(path: string)
    requires PathOk(path)
    ensures PlainLine("STAT " + path) && (NameValid(path) ==> Printable("STAT " + path))
  {
  }

  /** A question for a size is answered for exactly the path asked for. */
  lemma StatArrives(fs: Fs, s: Session, path: string, later: string)
    requires PathOk(path) && NameValid(path)
    requires s.due.None? && s.rest == StatRequest(path) + later
    ensures Enabled(s)
    ensures Turn(fs, s) == Answer(s.(rest := later), StatFile(path), StatReply(fs(s.ops, StatFile(path))))
  {
    StatLineFits(path);
    StatDecodes(path);
    StatObeyed(fs, s, "STAT " + path, path, later);
  }

  lemma StatObeyed(fs: Fs, s: Session, line: string, path: string, later: string)
    requires s.due.None? && s.rest == line + "\n" + later && PlainLine(line) && Printable(line)
    requires Decode(Words(line)) == Stat(path)
    ensures Enabled(s)
    ensures Turn(fs, s) == Answer(s.(rest := later), StatFile(path), StatReply(fs(s.ops, StatFile(path))))
  {
    assert Enabled(s) && Turn(fs, s) == Obey(fs, s.(rest := later), Stat(path)) by {
      LineObeyed(fs, s, line, later, Stat(path));
    }
  }

  /** The client gets the size, and none if there is no file. */
  lemma StatAnswered(r: FsResult)
    ensures SizeAnswer(StatReply(r)) == if r.Done? then Some(r.size % B64) else None
  {
    if r.Done? {
      var line := "OK " + Decimal(r.size % B64);
      DecimalFits(r.size % B64);
      ReplyLineOf(line, "");
      assert line + "\n" + "" == line + "\n" && line[3..] == Decimal(r.size % B64);
      NumberOfDecimal(r.size % B64);
    } else {
      ReplyLineOf("ERR missing", "");
      assert "ERR missing" + "\n" + "" == "ERR missing\n";
    }
  }

  /** One question against a server that has carried out `ops`: the answer, and the operations after it. */
  function RemoteSize(fs: Fs, ops: seq<FsOp>, path: string): (r: (Option<nat>, seq<FsOp>)) {
    var t := Whole(fs, Session(StatRequest(path), None, ops, ""));
    (SizeAnswer(t.out), t.ops)
  }

  lemma RemoteSizeAnswers(fs: Fs, ops: seq<FsOp>, path: string)
    requires PathOk(path) && NameValid(path)
    ensures var r := fs(ops, StatFile(path));
            RemoteSize(fs, ops, path) == (if r.Done? then Some(r.size % B64) else None, ops + [StatFile(path)])
  {
    var s := Session(StatRequest(path), None, ops, "");
    assert s.rest + "" == s.rest;
    StatArrives(fs, s, path, "");
    var t := Turn(fs, s);
    var r := fs(ops, StatFile(path));
    assert t == Session("", None, ops + [StatFile(path)], "" + StatReply(r));
    NothingLeft(fs, t);
    WholeStep(fs, s, t);
    assert "" + StatReply(r) == StatReply(r);
    StatAnswered(r);
  }

  /** The store tells this size of the file. */
  ghost predicate HasSize(fs: Fs, path: string, size: nat) {
    forall ops: seq<FsOp> :: Sized(fs(ops, StatFile(path)), size)
  }

  predicate Sized(r: FsResult, size: nat) { r.Done? && r.size == size }

  lemma SizeArrives(fs: Fs, ops: seq<FsOp>, path: string, size: nat)
    requires PathOk(path) && NameValid(path) && HasSize(fs, path, size) && size < B64
    ensures RemoteSize(fs, ops, path).0 == Some(size)
  {
    var r := fs(ops, StatFile(path));
    assert Sized(r, size) && r.size % B64 == size;
    var answer := RemoteSize(fs, ops, path);
    assert answer == (Some(size), ops + [StatFile(path)]) by {
      RemoteSizeAnswers(fs, ops, path);
    }
  }

  /** A size as the client asks for it: nothing is asked for a path it will not send. */
  function StoreSize(fs: Fs, ops: seq<FsOp>, path: string): (r: (Option<nat>, seq<FsOp>)) {
    if !PathOk(path) then (None, ops) else RemoteSize(fs, ops, path)
  }

  // ---------------------------------------------------------------- reading an object

  /** One read against a server that has carried out `ops`: the answer, and the operations after it. */
  function RemoteRead(fs: Fs, ops: seq<FsOp>, path: string, offset: nat, len: nat): (r: (Option<string>, seq<FsOp>)) {
    var t := Whole(fs, Session(ReadRequest(path, offset, len), None, ops, ""));
    (ReadAnswer(t.out, len), t.ops)
  }

  lemma NothingLeft(fs: Fs, s: Session)
    requires s.due.None? && s.rest == ""
    ensures Whole(fs, s) == s
  {
  }

  lemma RemoteReadAnswers(fs: Fs, ops: seq<FsOp>, path: string, offset: nat, len: nat)
    requires PathOk(path) && NameValid(path) && offset <= LONG_MAX && len <= BLOCK
    ensures var op := ReadFile(path, offset, len);
            var r := fs(ops, op);
            RemoteRead(fs, ops, path, offset, len) == (if r.Done? then Some(Got(r, len)) else None, ops + [op])
  {
    var s := Session(ReadRequest(path, offset, len), None, ops, "");
    assert s.rest + "" == s.rest;
    ReadArrives(fs, s, path, offset, len, "");
    var t := Turn(fs, s);
    var r := fs(ops, ReadFile(path, offset, len));
    assert t == Session("", None, ops + [ReadFile(path, offset, len)], "" + ReadReply(r, len));
    NothingLeft(fs, t);
    WholeStep(fs, s, t);
    assert "" + ReadReply(r, len) == ReadReply(r, len);
    ReadAnswered(r, len);
  }

  /** A reply the server gives to a line it refuses. */
  predicate Refusal(reply: string) { reply == "ERR path" || reply == "ERR read" || reply == "ERR syntax" }

  lemma RefusalHasNoData(reply: string, len: nat)
    requires Refusal(reply)
    ensures ReadAnswer(reply + "\n", len) == None && SizeAnswer(reply + "\n") == None
  {
    ReplyLineOf(reply, "");
    assert reply + "\n" + "" == reply + "\n" && reply[0] == 'E';
  }

  lemma BadLine(fs: Fs, s: Session, line: string, rest: string, why: string)
    requires s.due.None? && s.rest == line + "\n" + rest && s.out == "" && PlainLine(line) && Printable(line)
    requires Decode(Words(line)) == Bad(why)
    ensures Enabled(s) && Turn(fs, s) == Session(rest, None, s.ops, why + "\n")
  {
    LineObeyed(fs, s, line, rest, Bad(why));
    assert "" + why + "\n" == why + "\n";
  }

  lemma UnprintableLine(fs: Fs, s: Session, line: string, rest: string, reply: string)
    requires s.due.None? && s.rest == line + "\n" + rest && s.out == "" && PlainLine(line) && !Printable(line)
    requires reply == "ERR syntax"
    ensures Enabled(s) && Turn(fs, s) == Session(rest, None, s.ops, reply + "\n")
  {
    TurnOnLine(fs, s, line, rest);
    assert "" + "ERR syntax\n" == "ERR syntax\n" == reply + "\n";
  }

  lemma TurnRefused(fs: Fs, s: Session, line: string, rest: string, why: string, reply: string)
    requires s.due.None? && s.rest == line + "\n" + rest && s.out == "" && PlainLine(line)
    requires Decode(Words(line)) == Bad(why) && reply == if Printable(line) then why else "ERR syntax"
    ensures Enabled(s) && Turn(fs, s) == Session(rest, None, s.ops, reply + "\n")
  {
    if Printable(line) {
      BadLine(fs, s, line, rest, reply);
    } else {
      UnprintableLine(fs, s, line, rest, reply);
    }
  }

  /** A lone line that is not printable or is decoded as bad is refused, and the client gets neither data nor a size. */
  lemma LineRefused(fs: Fs, s: Session, line: string, why: string, len: nat)
    requires s.due.None? && s.rest == line + "\n" && s.out == "" && PlainLine(line)
    requires Decode(Words(line)) == Bad(why) && Refusal(why)
    ensures Whole(fs, s).ops == s.ops && ReadAnswer(Whole(fs, s).out, len) == None && SizeAnswer(Whole(fs, s).out) == None
  {
    var reply := if Printable(line) then why else "ERR syntax";
    var t := Session("", None, s.ops, reply + "\n");
    assert line + "\n" + "" == line + "\n";
    assert Enabled(s) && Turn(fs, s) == t by {
      TurnRefused(fs, s, line, "", why, reply);
    }
    NothingLeft(fs, t);
    WholeStep(fs, s, t);
    RefusalHasNoData(reply, len);
  }

  /** A name the server does not accept gets no data, and neither does an offset beyond `LONG_MAX`. */
  lemma BadReadRefused(fs: Fs, ops: seq<FsOp>, path: string, offset: nat, len: nat)
    requires PathOk(path) && offset < B64 && len <= BLOCK && !(NameValid(path) && offset <= LONG_MAX)
    ensures RemoteRead(fs, ops, path, offset, len) == (None, ops)
  {
    var line := "READ " + path + " " + Decimal(offset) + " " + Decimal(len);
    ReadLineFits(path, offset, len);
    ReadDecodes(path, offset, len);
    LineRefused(fs, Session(line + "\n", None, ops, ""), line, if NameValid(path) then "ERR read" else "ERR path", len);
  }

  lemma BadNameHasNoSize(fs: Fs, ops: seq<FsOp>, path: string)
    requires PathOk(path) && !NameValid(path)
    ensures RemoteSize(fs, ops, path) == (None, ops)
  {
    var line := "STAT " + path;
    StatLineFits(path);
    StatDecodes(path);
    LineRefused(fs, Session(line + "\n", None, ops, ""), line, "ERR path", 0);
  }

  /** A read as the client makes it: nothing is asked for a path or a length it will not send. */
  function StoreRead(fs: Fs, ops: seq<FsOp>, path: string, offset: nat, len: nat): (r: (Option<string>, seq<FsOp>)) {
    if !PathOk(path) || len > BLOCK then (None, ops) else RemoteRead(fs, ops, path, offset, len)
  }

  /** At most `count` bytes of an object, from an offset on. */
  function Slice(obj: string, offset: nat, count: nat): (s: string) {
    if offset >= |obj| then "" else if offset + count <= |obj| then obj[offset..offset + count] else obj[offset..]
  }

  /** The store holds the object: every read of it returns the bytes asked for. */
  ghost predicate Holds(fs: Fs, path: string, obj: string) {
    forall ops: seq<FsOp>, offset: nat, count: nat ::
      var r := fs(ops, ReadFile(path, offset, count)); r.Done? && r.data == Slice(obj, offset, count)
  }

  lemma BlockArrives(fs: Fs, ops: seq<FsOp>, path: string, obj: string, offset: nat)
    requires PathOk(path) && Holds(fs, path, obj) && offset <= |obj| <= LONG_MAX
    ensures RemoteRead(fs, ops, path, offset, BLOCK).0 ==
            if NameValid(path) then Some(Slice(obj, offset, BLOCK)) else None
  {
    if NameValid(path) {
      RemoteReadAnswers(fs, ops, path, offset, BLOCK);
    } else {
      BadReadRefused(fs, ops, path, offset, BLOCK);
    }
  }

  method NextBlock(fs: Fs, before: seq<FsOp>, path: string, offset: nat, ghost obj: string)
    returns (answer: Option<string>, ops: seq<FsOp>)
    requires PathOk(path) && Holds(fs, path, obj) && offset <= |obj| <= LONG_MAX
    ensures answer == if NameValid(path) then Some(Slice(obj, offset, BLOCK)) else None
  {
    BlockArrives(fs, before, path, obj, offset);
    var r := RemoteRead(fs, before, path, offset, BLOCK);
    answer, ops := r.0, r.1;
  }

  /** Print an object block by block until a block comes back short. */
  method Cat(fs: Fs, before: seq<FsOp>, path: string, ghost obj: string)
    returns (ok: bool, printed: string, ops: seq<FsOp>)
    requires Holds(fs, path, obj) && |obj| <= LONG_MAX
    ensures ok == (PathOk(path) && NameValid(path))
    ensures printed == if ok then obj else ""
  {
    ops, printed := before, "";
    ok := StorePath(path);
    if !ok { return; }
    var offset := 0;
    while true
      invariant offset <= |obj| && printed == obj[..offset] && (offset > 0 ==> NameValid(path))
      decreases |obj| - offset
    {
      var answer;
      answer, ops := NextBlock(fs, ops, path, offset, obj);
      if answer.None? { return false, printed, ops; }
      var block := answer.value;
      assert obj[..offset] + block == obj[..offset + |block|];
      printed := printed + block;
      offset := offset + |block|;
      if |block| < BLOCK { break; }
    }
    assert obj[..|obj|] == obj;
  }
}
