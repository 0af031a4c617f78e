/**
 The server's side of one connection, byte buffers and all: commands are parsed
 out of a fixed input buffer as they arrive, one at a time, and none is started
 while a reply is still waiting to be sent.  Whatever the pieces in which bytes
 come and go, the connection stays on the history of `StoreProtocol.Turn`.
 */
module StoreServer {
  import opened Basics
  import opened StoreText
  import opened StoreProtocol

  const GREETING: string := "GMSTORE 2.0\n"

  // --------------------------------------------------------------- command lines

  /** What is still to be checked of a name, from its part at `start`, its characters up to p being done. */
  predicate TailValid(name: string, start: nat, p: nat)
    requires start <= |name|
  {
    && (forall i :: p <= i < |name| ==> name[i] == '/' || 33 <= name[i] as int <= 126)
    && (forall q <- Split(name[start..], '/') :: PartValid(q))
  }

  method NameIsValid(name: string) returns (ok: bool)
    ensures ok == NameValid(name)
  {
    if |name| < 2 || name[0] != '/' { return false; }
    var p, start := 1, 1;
    while true
      invariant 1 <= start <= p <= |name|
      invariant forall i :: start <= i < p ==> name[i] != '/'
      invariant NameValid(name) <==> TailValid(name, start, p)
      decreases |name| - p
    {
      if p == |name| || name[p] == '/' {
        var part := name[start..p];
        if p == |name| {
          SplitOf(part, '/', "");
          assert part == name[start..];
        } else {
          SplitOf(part, '/', name[p + 1..]);
          assert name[start..] == part + ['/'] + name[p + 1..];
        }
        assert part in Split(name[start..], '/');
        if part == "" || part == "." || part == ".." { return false; }
        if p == |name| { return true; }
        start := p + 1;
      } else if (name[p] as int) < 33 || name[p] as int > 126 {
        return false;
      }
      p := p + 1;
    }
    return false;
  }

  method SkipBlanks(line: string, pos: nat) returns (start: nat)
    requires pos <= |line|
    ensures pos <= start <= |line| && Words(line[pos..]) == Words(line[start..])
    ensures start < |line| ==> line[start] != ' '
  {
    start := pos;
    while start < |line| && line[start] == ' '
      invariant pos <= start <= |line| && Words(line[pos..]) == Words(line[start..])
    {
      assert line[start..][0] == ' ' && line[start..][1..] == line[start + 1..];
      start := start + 1;
    }
  }

  /** The next word of a line from position `pos` on, as `strtok` finds it. */
  method NextWord(line: string, pos: nat) returns (found: bool, word: string, end: nat)
    requires pos <= |line|
    ensures pos <= end <= |line| && (found ==> pos < end)
    ensures Words(line[pos..]) == if found then [word] + Words(line[end..]) else []
  {
    var start := SkipBlanks(line, pos);
    if start == |line| { return false, "", start; }
    end := start;
    while end < |line| && line[end] != ' '
      invariant start <= end <= |line| && forall i :: start <= i < end ==> line[i] != ' '
    {
      end := end + 1;
    }
    word := line[start..end];
    FirstWord(line, start, end);
    return true, word, end;
  }

  lemma FirstWord(line: string, start: nat, end: nat)
    requires start < end <= |line| && (forall i :: start <= i < end ==> line[i] != ' ')
    requires end < |line| ==> line[end] == ' '
    ensures Words(line[start..]) == [line[start..end]] + Words(line[end..])
  {
    assert line[start..] == line[start..end] + line[end..];
    WordsOf(line[start..end], line[end..]);
  }

  method Tokenize(line: string) returns (parts: seq<string>, more: bool)
    ensures more <==> |Words(line)| > 4
    ensures !more ==> parts == Words(line)
  {
    parts := [];
    var found, word, pos := NextWord(line, 0);
    assert line[0..] == line;
    while found && |parts| < 4
      invariant |parts| <= 4 && pos <= |line|
      invariant Words(line) == parts + (if found then [word] + Words(line[pos..]) else [])
      decreases |line| - pos, if found then 1 else 0
    {
      parts := parts + [word];
      found, word, pos := NextWord(line, pos);
    }
    more := found;
  }

  /** Make out which command a line gives. */
  method DecodeLine(line: string) returns (c: Command)
    ensures c == Decode(Words(line))
  {
    var part, more := Tokenize(line);
    if more { return Bad("ERR syntax"); }
    if |part| == 0 { return Nothing; }
    if part[0] == "PING" && |part| == 1 { return Ping; }
    if part[0] == "LIST" && |part| == 1 { return List; }
    if |part| < 2 { return Bad("ERR path"); }
    var valid := NameIsValid(part[1]);
    if !valid { return Bad("ERR path"); }
    if part[0] == "STAT" && |part| == 2 { return Stat(part[1]); }
    if part[0] == "READ" && |part| == 4 {
      var offset, count := Number(part[2]), Number(part[3]);
      if offset.None? || count.None? || count.value > BLOCK || offset.value > LONG_MAX { return Bad("ERR read"); }
      return Read(part[1], offset.value, count.value);
    }
    if (part[0] == "WRITE" || part[0] == "APPEND") && |part| == 3 {
      var count := Number(part[2]);
      if count.None? || count.value > BLOCK { return Bad("ERR size"); }
      return Put(part[1], count.value, part[0] == "APPEND");
    }
    if part[0] == "DEL" && |part| == 2 { return Delete(part[1]); }
    return Bad("ERR syntax");
  }

  // ---------------------------------------------------------------- one connection

  class Client {
    const fs: Fs
    const input: array<char>
    var inputLen: nat
    const output: array<char>
    var outputPos: nat
    var outputLen: nat
    var pending: nat
    var pendingCount: nat
    var pendingPath: string
    var ops: seq<FsOp>

    /** All bytes received, all reply bytes produced, all bytes handed to the network, and the turns taken. */
    ghost var arrived: string
    ghost var produced: string
    ghost var sent: string
    ghost var turns: seq<Session>

    ghost predicate Sized()
      reads this
    {
      && input.Length == INPUT && output.Length == OUTPUT && input != output
      && inputLen <= INPUT && outputPos <= outputLen <= OUTPUT && pending <= 2
    }

    ghost function Due(): Option<Payload>
      reads this
    {
      if pending == 0 then None else Some(Payload(pendingPath, pendingCount, pending == 2))
    }

    ghost function Now(): Session
      requires Sized()
      reads this, input
    {
      Session(input[..inputLen], Due(), ops, produced)
    }

    /** What is sent and what waits to be sent is the greeting and the replies, in order. */
    ghost predicate OutputOk()
      requires Sized()
      reads this, output
    {
      && sent + output[outputPos..outputLen] == GREETING + produced
      && (outputPos == outputLen ==> outputLen == 0)
    }

    ghost predicate Valid()
      reads this, input, output
    {
      && Sized() && OutputOk()
      && History(fs, arrived, turns) && Last(turns) == Now()
    }

    constructor (fs: Fs)
      ensures Valid() && this.fs == fs && fresh(input) && fresh(output)
      ensures arrived == "" && sent == ""
    {
      this.fs := fs;
      input := new char[INPUT];
      output := new char[OUTPUT];
      inputLen, outputPos, outputLen := 0, 0, 0;
      pending, pendingCount, pendingPath := 0, 0, "";
      ops, arrived, produced, sent := [], "", "", "";
      turns := [Begin("")];
      new;
      var i := 0;
      while i < |GREETING|
        invariant i <= |GREETING| && output[..i] == GREETING[..i] && inputLen == 0
        invariant outputPos == 0 && outputLen == 0 && pending == 0
        invariant ops == [] && arrived == "" && produced == "" && sent == "" && turns == [Begin("")]
        modifies output
      {
        output[i] := GREETING[i];
        i := i + 1;
      }
      outputLen := |GREETING|;
      assert input[..0] == "";
      assert output[0..outputLen] == GREETING;
    }

    // --------------------------------------------------------------- the two buffers

    /** Remove bytes from the front of the input, moving the rest down. */
    method InputConsume(n: nat)
      requires Sized()
      modifies this`inputLen, input
      ensures Sized()
      ensures input[..inputLen] == if n >= old(inputLen) then "" else old(input[..inputLen])[n..]
    {
      if n >= inputLen {
        inputLen := 0;
        return;
      }
      ghost var before := input[..inputLen];
      forall i | 0 <= i < inputLen - n {
        input[i] := input[n + i];
      }
      inputLen := inputLen - n;
      assert input[..inputLen] == before[n..];
    }

    /** Queue reply bytes; false, and no change, if they do not fit. */
    method OutputAdd(data: string) returns (ok: bool)
      requires Sized()
      modifies this`outputLen, output
      ensures Sized() && ok == (old(outputLen) + |data| <= OUTPUT)
      ensures outputLen == old(outputLen) + if ok then |data| else 0
      ensures output[..outputLen] == old(output[..outputLen]) + if ok then data else ""
    {
      if outputLen + |data| > OUTPUT { return false; }
      ghost var before := output[..outputLen];
      forall i | 0 <= i < |data| {
        output[outputLen + i] := data[i];
      }
      outputLen := outputLen + |data|;
      assert output[..outputLen] == before + data;
      return true;
    }

    method OutputLine(text: string) returns (ok: bool)
      requires Sized()
      modifies this`outputLen, output
      ensures Sized() && ok == (old(outputLen) + |text| + 1 <= OUTPUT)
      ensures ok ==> output[..outputLen] == old(output[..outputLen]) + text + "\n"
      ensures ok ==> outputLen == old(outputLen) + |text| + 1
      ensures outputLen >= old(outputLen)
    {
      ok := OutputAdd(text);
      if !ok { return; }
      ok := OutputAdd("\n");
    }

    /** No reply is waiting to be sent. */
    ghost predicate Idle()
      reads this
    {
      outputPos == 0 && outputLen == 0
    }

    /** When nothing waits, everything produced has been sent. */
    lemma AllSent()
      requires Sized() && OutputOk() && Idle()
      ensures sent == GREETING + produced
    {
      assert output[0..0] == "";
    }

    /** The output holds exactly the reply that has been added to what was produced. */
    lemma OutputHolds(before: string, reply: string)
      requires Sized() && outputPos == 0 && outputLen > 0 && output[..outputLen] == reply
      requires sent == GREETING + before && produced == before + reply
      ensures OutputOk()
    {
      assert output[0..outputLen] == reply;
      assert (GREETING + before) + reply == GREETING + (before + reply);
    }

    /** Queue a one-line reply.  The output is empty, so it fits. */
    method Reply(text: string)
      requires Sized() && OutputOk() && Idle() && |text| < LINE
      modifies this`outputLen, this`produced, output
      ensures Sized() && OutputOk() && produced == old(produced) + text + "\n"
      ensures outputPos == 0 && output[..outputLen] == text + "\n"
    {
      AllSent();
      ghost var before := produced;
      var ok := OutputLine(text);
      if !ok {
        assert false;
      }
      produced := produced + text + "\n";
      assert output[..outputLen] == text + "\n";
      assert produced == before + (text + "\n");
      OutputHolds(before, text + "\n");
    }

    /** Store the payload of a write once all of it is there. */
    method PendingWrite()
      requires Sized() && OutputOk() && Idle()
      modifies this`inputLen, this`outputLen, this`pending, this`ops, this`produced, input, output
      ensures Sized() && OutputOk() && outputPos == 0
      ensures var s := old(Now()); Now() == if s.due.Some? && Enabled(s) then Store(fs, s) else s
    {
      if pending == 0 || inputLen < pendingCount { return; }
      ghost var s := Now();
      var op := WriteFile(pendingPath, input[..pendingCount], pending == 2);
      assert input[..pendingCount] == s.rest[..pendingCount];
      var r := fs(ops, op);
      ops := ops + [op];
      pending := 0;
      match r
      case Refused => Reply("ERR path");
      case Broken => Reply("ERR write");
      case Done(_, _, _) =>
        InputConsume(pendingCount);
        Reply("OK");
    }

    method ListCollect(items: seq<string>) returns (ok: bool)
      requires Sized() && Idle()
      modifies this`outputLen, output
      ensures Sized() && (ok ==> output[..outputLen] == Items(items) && outputLen == |Items(items)|)
      ensures ok == (|Items(items)| <= OUTPUT)
    {
      var i := 0;
      ok := true;
      while i < |items| && ok
        invariant Sized() && i <= |items|
        invariant ok ==> output[..outputLen] == Items(items[..i]) && outputLen == |Items(items[..i])|
        invariant !ok ==> |Items(items[..i])| > OUTPUT
      {
        ok := OutputLine("ITEM " + items[i]);
        assert items[..i + 1][..i] == items[..i];
        i := i + 1;
      }
      ItemsGrow(items, i);
      assert items[..|items|] == items;
    }

    /** Collect the listing; if it does not fit, an error takes its place. */
    method ReplyList()
      requires Sized() && OutputOk() && Idle()
      modifies this`outputLen, this`ops, this`produced, output
      ensures Sized() && OutputOk() && outputPos == 0
      ensures ops == old(ops) + [ListAll] && produced == old(produced) + ListReply(fs(old(ops), ListAll))
    {
      var r := fs(ops, ListAll);
      ops := ops + [ListAll];
      if !r.Done? {
        Reply("ERR list");
        return;
      }
      AllSent();
      ghost var before := produced;
      var ok := ListCollect(r.items);
      if ok { ok := OutputLine("OK END"); }
      if !ok {
        outputLen := 0;
        assert output[0..0] == "" && sent + "" == sent;
        Reply("ERR list");
        return;
      }
      produced := produced + (Items(r.items) + "OK END\n");
      OutputHolds(before, Items(r.items) + "OK END\n");
    }

    method ReplyRead(path: string, offset: nat, count: nat)
      requires Sized() && OutputOk() && Idle() && count <= BLOCK
      modifies this`outputLen, this`ops, this`produced, output
      ensures Sized() && OutputOk() && outputPos == 0
      ensures var op := ReadFile(path, offset, count);
              ops == old(ops) + [op] && produced == old(produced) + ReadReply(fs(old(ops), op), count)
    {
      var op := ReadFile(path, offset, count);
      var r := fs(ops, op);
      ops := ops + [op];
      if !r.Done? {
        Reply("ERR read");
        return;
      }
      AllSent();
      ghost var before := produced;
      var got := Got(r, count);
      DecimalLength(|got|, 4);
      assert Power10(4) == 10000;
      Reply("OK " + Decimal(|got|));
      var ok := OutputAdd(got);
      if !ok {
        assert false;
      }
      produced := produced + got;
      assert produced == before + ReadReply(r, count);
      OutputHolds(before, ReadReply(r, count));
    }

    /** Carry out one command line; a write whose payload is already there is carried out at once. */
    method Command(line: string)
      requires Sized() && OutputOk() && Idle() && pending == 0 && LineOk(line)
      modifies this`inputLen, this`outputLen, this`pending, this`pendingCount, this`pendingPath,
               this`ops, this`produced, input, output
      ensures Sized() && OutputOk() && outputPos == 0
      ensures Now() == Settle(fs, Obey(fs, old(Now()), Decode(Words(line))))
    {
      var c := DecodeLine(line);
      match c
      case Nothing =>
      case Bad(text) => Reply(text);
      case Ping => Reply("OK PONG");
      case List => ReplyList();
      case Stat(path) => ReplyStat(path);
      case Read(path, offset, count) => ReplyRead(path, offset, count);
      case Put(path, count, append) =>
        pendingPath := path;
        pending := if append then 2 else 1;
        pendingCount := count;
        PendingWrite();
      case Delete(path) => ReplyDelete(path);
    }

    method ReplyStat(path: string)
      requires Sized() && OutputOk() && Idle()
      modifies this`outputLen, this`ops, this`produced, output
      ensures Sized() && OutputOk() && outputPos == 0
      ensures var op := StatFile(path);
              ops == old(ops) + [op] && produced == old(produced) + StatReply(fs(old(ops), op))
    {
      var op := StatFile(path);
      var r := fs(ops, op);
      ops := ops + [op];
      if r.Done? {
        DecimalFits(r.size % B64);
        Reply("OK " + Decimal(r.size % B64));
      } else {
        Reply("ERR missing");
      }
    }

    method ReplyDelete(path: string)
      requires Sized() && OutputOk() && Idle()
      modifies this`outputLen, this`ops, this`produced, output
      ensures Sized() && OutputOk() && outputPos == 0
      ensures var op := DeleteFile(path);
              ops == old(ops) + [op] && produced == old(produced) + DeleteReply(fs(old(ops), op))
    {
      var op := DeleteFile(path);
      var r := fs(ops, op);
      ops := ops + [op];
      match r
      case Refused => Reply("ERR missing");
      case Broken => Reply("ERR delete");
      case Done(_, _, _) => Reply("OK");
    }

    /** Where the first newline of the input is, or its length. */
    method FindNewline() returns (nl: nat)
      requires Sized()
      ensures nl == NewlineAt(input[..inputLen])
    {
      nl := 0;
      while nl < inputLen && input[nl] != '\n'
        invariant nl <= inputLen && NewlineAt(input[..inputLen]) == nl + NewlineAt(input[nl..inputLen])
      {
        assert input[nl..inputLen][1..] == input[nl + 1..inputLen];
        nl := nl + 1;
      }
    }

    /** The line in front of the newline, and whether it is short and printable enough to be a command. */
    method CopyLine(nl: nat) returns (line: string, ok: bool)
      requires Sized() && nl <= inputLen
      ensures line == StripReturn(input[..nl]) && ok == LineOk(line)
    {
      var len := nl;
      if len != 0 && input[len - 1] == '\r' { len := len - 1; }
      line := input[..len];
      if len + 1 > LINE { return line, false; }
      var i := 0;
      while i < len && 32 <= input[i] as int <= 126
        invariant i <= len && forall j :: 0 <= j < i ==> 32 <= line[j] as int <= 126
      {
        i := i + 1;
      }
      return line, i == len;
    }

    /** Carry out a line that has been taken off the input, or refuse it. */
    method DoLine(line: string, ok: bool)
      requires Sized() && OutputOk() && Idle() && pending == 0 && ok == LineOk(line)
      modifies this`inputLen, this`outputLen, this`pending, this`pendingCount, this`pendingPath,
               this`ops, this`produced, input, output
      ensures Sized() && OutputOk() && outputPos == 0
      ensures Now() == Settle(fs, LineDone(fs, old(Now()), line))
    {
      if ok {
        Command(line);
      } else {
        Reply("ERR syntax");
      }
    }

    /** Take the line in front of the newline off the input and act on it. */
    method ActOnLine(nl: nat)
      requires Sized() && OutputOk() && Idle() && pending == 0
      requires nl == NewlineAt(input[..inputLen]) < inputLen
      modifies this`inputLen, this`outputLen, this`pending, this`pendingCount, this`pendingPath,
               this`ops, this`produced, input, output
      ensures Sized() && OutputOk() && outputPos == 0
      ensures HasLine(old(input[..inputLen])) && Now() == Settle(fs, TakeLine(fs, old(Now())))
    {
      ghost var s := Now();
      assert s.rest[..nl] == input[..nl];
      var line, ok := CopyLine(nl);
      InputConsume(nl + 1);
      TakesLine(fs, s, Now(), nl, line);
      DoLine(line, ok);
    }

    /** Act on the next line, or throw a full buffer without a newline away. */
    method TakeCommand()
      requires Sized() && OutputOk() && Idle() && pending == 0
      modifies this`inputLen, this`outputLen, this`pending, this`pendingCount, this`pendingPath,
               this`ops, this`produced, input, output
      ensures Sized() && OutputOk() && outputPos == 0
      ensures var s := old(Now()); Now() == if Enabled(s) then Settle(fs, Turn(fs, s)) else s
    {
      ghost var s := Now();
      assert Visible(s.rest) == s.rest;
      var nl := FindNewline();
      if nl < inputLen {
        ActOnLine(nl);
        assert Turn(fs, s) == TakeLine(fs, s);
      } else if inputLen == INPUT {
        inputLen := 0;
        assert s.rest[INPUT..] == "";
        Reply("ERR syntax");
      }
    }

    /** One event's worth of work: nothing while a reply waits, else at most one command. */
    method ProcessInput()
      requires Valid()
      modifies this`inputLen, this`outputLen, this`pending, this`pendingCount, this`pendingPath,
               this`ops, this`produced, this`turns, input, output
      ensures Valid()
      ensures old(outputPos < outputLen) ==> Now() == old(Now())
      ensures old(outputPos == outputLen) && Enabled(old(Now())) ==> Now() == Settle(fs, Turn(fs, old(Now())))
      ensures !Enabled(old(Now())) ==> Now() == old(Now())
    {
      if outputLen != outputPos { return; }
      ghost var s := Now();
      if pending != 0 {
        PendingWrite();
        assert Now() == if Enabled(s) then Turn(fs, s) else s;
      } else {
        TakeCommand();
      }
      if Enabled(s) {
        turns := Record(fs, arrived, turns, Now());
      }
    }

    /** The network delivers a piece of the stream, possibly empty, that fits the room left. */
    method ReadEvent(chunk: string)
      requires Valid() && |chunk| <= INPUT - inputLen
      modifies this`inputLen, this`outputLen, this`pending, this`pendingCount, this`pendingPath,
               this`ops, this`produced, this`arrived, this`turns, input, output
      ensures Valid() && arrived == old(arrived) + chunk
    {
      if inputLen < INPUT {
        ghost var before := input[..inputLen];
        forall i | 0 <= i < |chunk| {
          input[inputLen + i] := chunk[i];
        }
        inputLen := inputLen + |chunk|;
        assert input[..inputLen] == before + chunk;
      }
      ArrivalKeepsHistory(fs, arrived, turns, chunk);
      turns := HistoryMore(turns, chunk);
      arrived := arrived + chunk;
      assert Now() == Last(turns);
      ProcessInput();
    }

    /** Send what waits in pieces of the given sizes; false if they run out first. */
    method Flush(sizes: seq<nat>) returns (all: bool)
      requires Sized() && sent + output[outputPos..outputLen] == GREETING + produced
      requires forall n <- sizes :: n > 0
      modifies this`outputPos, this`sent
      ensures Sized() && sent + output[outputPos..outputLen] == GREETING + produced
      ensures old(sent) <= sent && (all <==> outputPos == outputLen)
    {
      var i := 0;
      while outputPos < outputLen
        invariant Sized() && i <= |sizes| && sent + output[outputPos..outputLen] == GREETING + produced
        invariant old(sent) <= sent
        decreases outputLen - outputPos
      {
        if i == |sizes| { return false; }
        assert sizes[i] in sizes;
        var n := if sizes[i] <= outputLen - outputPos then sizes[i] else outputLen - outputPos;
        assert output[outputPos..outputLen] == output[outputPos..outputPos + n] + output[outputPos + n..outputLen];
        sent := sent + output[outputPos..outputPos + n];
        outputPos := outputPos + n;
        i := i + 1;
      }
      return true;
    }

    /** The network takes replies in pieces of the given sizes and then, if they run out, no more for now. */
    method WriteEvent(sizes: seq<nat>)
      requires Valid() && forall n <- sizes :: n > 0
      modifies this`inputLen, this`outputPos, this`outputLen, this`pending, this`pendingCount, this`pendingPath,
               this`ops, this`produced, this`sent, this`turns, input, output
      ensures Valid() && old(sent) <= sent
    {
      var all := Flush(sizes);
      if !all { return; }
      assert output[outputPos..outputLen] == "" == output[0..0];
      outputPos, outputLen := 0, 0;
      ProcessInput();
    }

    /**
     At any moment, for any stream of which what has arrived is the beginning:
     the operations carried out are the first of those the stream asks for, and
     the bytes on the wire are the greeting and the first bytes of its replies.
     */
    lemma ServedSoFar(stream: string)
      requires Valid() && arrived <= stream
      ensures ops <= Whole(fs, Begin(stream)).ops
      ensures sent <= GREETING + Whole(fs, Begin(stream)).out
    {
      PrefixOfWhole(fs, arrived, stream, turns);
      assert sent <= GREETING + produced;
    }

    /** With the whole stream in, every reply sent and no command complete, all of it has been served. */
    lemma ServedAll()
      requires Valid() && outputPos == outputLen && !Enabled(Now())
      ensures ops == Whole(fs, Begin(arrived)).ops
      ensures sent == GREETING + Whole(fs, Begin(arrived)).out
    {
      DrainedIsWhole(fs, arrived, turns);
      AllSent();
    }
  }

  function LineDone(fs: Fs, s: Session, line: string): Session {
    if LineOk(line) then Obey(fs, s, Decode(Words(line))) else s.(out := s.out + "ERR syntax" + "\n")
  }

  lemma TakesLine(fs: Fs, s: Session, t: Session, nl: nat, line: string)
    requires |s.rest| <= INPUT && nl == NewlineAt(s.rest) < |s.rest|
    requires line == StripReturn(s.rest[..nl]) && t == s.(rest := if nl + 1 >= |s.rest| then "" else s.rest[nl + 1..])
    ensures HasLine(s.rest) && TakeLine(fs, s) == LineDone(fs, t, line)
  {
    assert s.rest[nl + 1..] == t.rest;
    assert t.out + "ERR syntax" + "\n" == t.out + "ERR syntax\n";
  }

  /** Extend a history by the one or two turns that lead to t. */
  ghost function Record(fs: Fs, arrived: string, tr: seq<Session>, t: Session): (tr': seq<Session>)
    requires History(fs, arrived, tr) && Enabled(Last(tr)) && t == Settle(fs, Turn(fs, Last(tr)))
    ensures History(fs, arrived, tr') && Last(tr') == t
  {
    TurnKeepsHistory(fs, arrived, tr);
    var u := Turn(fs, Last(tr));
    if t == u then tr + [u]
    else
      TurnKeepsHistory(fs, arrived, tr + [u]);
      tr + [u] + [t]
  }

  lemma {:induction false} ItemsGrow(items: seq<string>, i: nat)
    requires i <= |items|
    ensures |Items(items[..i])| <= |Items(items)|
    decreases |items|
  {
    if i < |items| {
      var n := |items| - 1;
      ItemsGrow(items[..n], i);
      assert items[..n][..i] == items[..i];
    } else {
      assert items[..i] == items;
    }
  }
}
