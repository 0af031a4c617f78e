/**
 The client's other commands against the server: storing, deleting, listing and
 asking whether the server is there.
 */
module StoreCommands {
  import opened Basics
  import opened StoreText
  import opened StoreProtocol
  import opened StoreClient
  import opened StoreSession

  lemma FirstLine(line: string, more: string)
    requires |line| < REQUEST && Printable(line)
    ensures OkAnswer(line + "\n" + more) <==> StartsWith(line, "OK")
  {
    ReplyLineOf(line, more);
  }

  // ----------------------------------------------------------------------- storing

  /** The reply to a write says OK exactly if it was stored, whatever is sent behind it. */
  lemma PutReplySays(r: FsResult, more: string)
    ensures OkAnswer(PutReply(r) + more) <==> r.Done?
  {
    var line := if r.Refused? then "ERR path" else if r.Broken? then "ERR write" else "OK";
    assert PutReply(r) == line + "\n";
    FirstLine(line, more);
    assert "OK" <= "OK" && "ERR path"[0] == 'E' && "ERR write"[0] == 'E';
  }

  /** One write against a server that has carried out `ops`: whether it succeeded, and the operations after it. */
  function RemoteWrite(fs: Fs, ops: seq<FsOp>, path: string, data: string, append: bool): (r: (bool, seq<FsOp>)) {
    var t := Whole(fs, Session(WriteRequest(path, data, append), None, ops, ""));
    (OkAnswer(t.out), t.ops)
  }

  lemma OutContinues(fs: Fs, s: Session, t: Session)
    requires Enabled(s) && Enabled(Turn(fs, s)) && Turn(fs, Turn(fs, s)) == t
    ensures Whole(fs, s) == Whole(fs, t) && t.ops <= Whole(fs, t).ops && t.out <= Whole(fs, t).out
  {
    WholeStep(fs, s, Turn(fs, s));
    WholeStep(fs, Turn(fs, s), t);
    WholeGrows(fs, t);
  }

  /**
   A write succeeds for the client exactly if the file system carried it out, for
   every file system, payload and mode; a payload that is left behind may bring
   about further operations and lines, and the answer is still about the write.
   */
  lemma RemoteWriteAnswers(fs: Fs, ops: seq<FsOp>, path: string, data: string, append: bool)
    requires PathOk(path) && NameValid(path) && |data| <= BLOCK
    ensures var op := WriteFile(path, data, append);
            var r := RemoteWrite(fs, ops, path, data, append);
            && (r.0 <==> fs(ops, op).Done?) && ops + [op] <= r.1
            && (r.0 ==> r.1 == ops + [op])
  {
    var s, op := Session(WriteRequest(path, data, append), None, ops, ""), WriteFile(path, data, append);
    var r := fs(ops, op);
    assert s.rest + "" == s.rest;
    WriteArrives(fs, s, path, data, append, "");
    var t := Session(if r.Done? then "" else data + "", None, ops + [op], "" + PutReply(r));
    OutContinues(fs, s, t);
    var w := Whole(fs, t);
    AnswerOf(t.out, w.out, r);
    if r.Done? {
      NothingLeft(fs, t);
    }
  }

  lemma AnswerOf(first: string, all: string, r: FsResult)
    requires first == "" + PutReply(r) && first <= all
    ensures OkAnswer(all) <==> r.Done?
  {
    var more := all[|first|..];
    assert all == PutReply(r) + more;
    PutReplySays(r, more);
  }

  /** Whatever begins with an error line is no success. */
  lemma ErrorIsNoSuccess(reply: string, more: string)
    requires reply == "ERR path" || reply == "ERR syntax"
    ensures !OkAnswer(reply + "\n" + more)
  {
    FirstLine(reply, more);
    assert reply[0] == 'E';
  }

  /** A write to a name the server does not accept fails, whatever becomes of its payload. */
  lemma BadNameNotWritten(fs: Fs, ops: seq<FsOp>, path: string, data: string, append: bool)
    requires PathOk(path) && !NameValid(path) && |data| <= BLOCK
    ensures !RemoteWrite(fs, ops, path, data, append).0
  {
    var line := WriteWord(append) + " " + path + " " + Decimal(|data|);
    BadWriteLine(path, |data|, append);
    RefusedLine(fs, Session(WriteRequest(path, data, append), None, ops, ""), line, data);
  }

  lemma RefusedLine(fs: Fs, s: Session, line: string, rest: string)
    requires s.due.None? && s.out == "" && s.rest == line + "\n" + rest && PlainLine(line)
    requires Decode(Words(line)) == Bad("ERR path")
    ensures !OkAnswer(Whole(fs, s).out)
  {
    var reply := if Printable(line) then "ERR path" else "ERR syntax";
    var t := Session(rest, None, s.ops, reply + "\n");
    assert Enabled(s) && Turn(fs, s) == t by {
      TurnRefused(fs, s, line, rest, "ERR path", reply);
    }
    WholeStep(fs, s, t);
    WholeGrows(fs, t);
    ErrorStays(t.out, Whole(fs, t).out, reply);
  }

  lemma ErrorStays(first: string, all: string, reply: string)
    requires (reply == "ERR path" || reply == "ERR syntax") && first == reply + "\n" && first <= all
    ensures !OkAnswer(all)
  {
    var more := all[|first|..];
    assert all == reply + "\n" + more;
    ErrorIsNoSuccess(reply, more);
  }

  lemma BadWriteLine(path: string, n: nat, append: bool)
    requires PathOk(path) && !NameValid(path) && n <= BLOCK
    ensures var line := WriteWord(append) + " " + path + " " + Decimal(n);
            PlainLine(line) && Decode(Words(line)) == Bad("ERR path")
  {
    var a, d := WriteWord(append), Decimal(n);
    DecimalFits(n);
    assert IsWord(path) && IsWord(d);
    ThreeWords(a, path, d);
  }

  lemma ThreeWords(a: string, b: string, c: string)
    requires IsWord(a) && IsWord(b) && IsWord(c)
    ensures Words(a + " " + b + " " + c) == [a, b, c]
  {
    OneWord(a);
    WordsAppend(a, b);
    WordsAppend(a + " " + b, c);
    assert [a] + [b] + [c] == [a, b, c];
  }

  /** A write as the client makes it: nothing is sent for a path or a length it will not send. */
  function StoreWrite(fs: Fs, ops: seq<FsOp>, path: string, data: string, append: bool): (r: (bool, seq<FsOp>)) {
    if !PathOk(path) || |data| > BLOCK then (false, ops) else RemoteWrite(fs, ops, path, data, append)
  }

  // ---------------------------------------------------------------------- deleting

  lemma DeleteReplySays(r: FsResult)
    ensures OkAnswer(DeleteReply(r)) <==> r.Done?
  {
    var line := if r.Refused? then "ERR missing" else if r.Broken? then "ERR delete" else "OK";
    assert DeleteReply(r) == line + "\n" + "";
    FirstLine(line, "");
    assert "OK" <= "OK" && "ERR missing"[0] == 'E' && "ERR delete"[0] == 'E';
  }

  function RemoteDelete(fs: Fs, ops: seq<FsOp>, path: string): (r: (bool, seq<FsOp>)) {
    var t := Whole(fs, Session(DeleteRequest(path), None, ops, ""));
    (OkAnswer(t.out), t.ops)
  }

  lemma DeleteDecodes(path: string)
    requires PathOk(path) && NameValid(path)
    ensures Decode(Words("DEL " + path)) == Delete(path)
  {
    SmallPath(path);
    OneWord("DEL");
    WordsAppend("DEL", path);
    assert "DEL" + " " == "DEL " && ["DEL"] + [path] == ["DEL", path];
  }

  lemma DeleteLineFits(path: string)
    requires PathOk(path) && NameValid(path)
    ensures PlainLine("DEL " + path) && Printable("DEL " + path)
  {
  }

  /** A deletion asks for exactly the path given, and succeeds for the client exactly if it was carried out. */
  lemma RemoteDeleteAnswers(fs: Fs, ops: seq<FsOp>, path: string)
    requires PathOk(path) && NameValid(path)
    ensures var op := DeleteFile(path);
            RemoteDelete(fs, ops, path) == (fs(ops, op).Done?, ops + [op])
  {
    var s, line := Session(DeleteRequest(path), None, ops, ""), "DEL " + path;
    var r := fs(ops, DeleteFile(path));
    assert s.rest == line + "\n" + "";
    DeleteLineFits(path);
    DeleteDecodes(path);
    var t := Session("", None, ops + [DeleteFile(path)], DeleteReply(r));
    DeleteObeyed(fs, s, line, path);
    NothingLeft(fs, t);
    WholeStep(fs, s, t);
    DeleteReplySays(r);
  }

  lemma DeleteObeyed(fs: Fs, s: Session, line: string, path: string)
    requires s.due.None? && s.out == "" && s.rest == line + "\n" + "" && PlainLine(line) && Printable(line)
    requires Decode(Words(line)) == Delete(path)
    ensures var op := DeleteFile(path);
            Enabled(s) && Turn(fs, s) == Session("", None, s.ops + [op], DeleteReply(fs(s.ops, op)))
  {
    var op := DeleteFile(path);
    assert Enabled(s) && Turn(fs, s) == Obey(fs, s.(rest := ""), Delete(path)) by {
      LineObeyed(fs, s, line, "", Delete(path));
    }
    assert "" + DeleteReply(fs(s.ops, op)) == DeleteReply(fs(s.ops, op));
  }

  // ---------------------------------------------------------------- without a file

  lemma OneWordLine(word: string)
    requires word == "PING" || word == "LIST"
    ensures PlainLine(word) && Printable(word) && Decode(Words(word)) == if word == "PING" then Ping else List
  {
    OneWord(word);
  }

  lemma PingObeyed(fs: Fs, s: Session, line: string)
    requires s.due.None? && s.out == "" && s.rest == line + "\n" + "" && PlainLine(line) && Printable(line)
    requires Decode(Words(line)) == Ping
    ensures Enabled(s) && Turn(fs, s) == Session("", None, s.ops, "OK PONG\n")
  {
    assert Enabled(s) && Turn(fs, s) == Obey(fs, s.(rest := ""), Ping) by {
      LineObeyed(fs, s, line, "", Ping);
    }
    assert "" + "OK PONG\n" == "OK PONG\n";
  }

  lemma PongRead()
    ensures PongAnswer("OK PONG\n")
  {
    assert "OK PONG" + "\n" + "" == "OK PONG\n";
    ReplyLineOf("OK PONG", "");
  }

  function PingRequest(): string { "PING" + "\n" }

  function ListRequest(): string { "LIST" + "\n" }

  /** A server that is there says so, and does nothing. */
  lemma PingAnswered(fs: Fs, ops: seq<FsOp>)
    ensures var t := Whole(fs, Session(PingRequest(), None, ops, "")); PongAnswer(t.out) && t.ops == ops
  {
    var line := "PING";
    var s := Session(line + "\n", None, ops, "");
    OneWordLine(line);
    assert line + "\n" + "" == line + "\n";
    PingObeyed(fs, s, line);
    var t := Session("", None, ops, "OK PONG\n");
    NothingLeft(fs, t);
    WholeStep(fs, s, t);
    PongRead();
  }

  /** Those of the items that begin with the prefix. */
  function Matching(items: seq<string>, prefix: string): seq<string> {
    if items == [] then []
    else (if StartsWith(items[0], prefix) then [items[0]] else []) + Matching(items[1..], prefix)
  }

  /** An item that goes on one line of the reply. */
  predicate ItemOk(item: string) { |item| < REQUEST - 5 && Printable(item) }

  lemma {:induction false} ItemsFront(item: string, items: seq<string>)
    ensures Items([item] + items) == "ITEM " + item + "\n" + Items(items)
    decreases |items|
  {
    if items == [] {
      assert ([item] + items)[..0] == [];
    } else {
      var front, last := items[..|items| - 1], items[|items| - 1];
      ItemsFront(item, front);
      assert ([item] + items)[..|items|] == [item] + front;
      Regroup("ITEM " + item + "\n", Items(front), "ITEM ");
      Regroup("ITEM " + item + "\n", Items(front) + "ITEM ", last);
      Regroup("ITEM " + item + "\n", Items(front) + "ITEM " + last, "\n");
    }
  }

  /** The client prints exactly the items that begin with the prefix, in order, and sees the end of the list. */
  lemma {:induction false} ListingRead(items: seq<string>, prefix: string)
    requires forall i <- items :: ItemOk(i)
    ensures ListAnswer(Items(items) + "OK END\n", prefix) == (true, Matching(items, prefix))
    decreases |items|
  {
    if items == [] {
      assert "" + "OK END\n" == "OK END" + "\n" + "";
      ReplyLineOf("OK END", "");
    } else {
      var item, rest := items[0], items[1..];
      assert items == [item] + rest && item in items;
      ItemsFront(item, rest);
      Regroup("ITEM " + item + "\n", Items(rest), "OK END\n");
      ListingRead(rest, prefix);
      ItemRead(item, Items(rest) + "OK END\n", prefix);
    }
  }

  lemma ItemRead(item: string, more: string, prefix: string)
    requires ItemOk(item)
    ensures var r := ListAnswer(more, prefix);
            ListAnswer("ITEM " + item + "\n" + more, prefix) ==
            (r.0, (if StartsWith(item, prefix) then [item] else []) + r.1)
  {
    var line := "ITEM " + item;
    ReplyLineOf(line, more);
    assert line[5..] == item && line[0] == 'I' && line[..5] == "ITEM ";
  }

  /**
   Listing: if the whole list fits the server's buffer, the client prints exactly
   the items that begin with the prefix; otherwise it is told so and prints none.
   */
  lemma ListAnswered(fs: Fs, ops: seq<FsOp>, prefix: string)
    requires fs(ops, ListAll).Done? ==> forall i <- fs(ops, ListAll).items :: ItemOk(i)
    ensures var r, t := fs(ops, ListAll), Whole(fs, Session(ListRequest(), None, ops, ""));
            && t.ops == ops + [ListAll]
            && ListAnswer(t.out, prefix) == if r.Done? && |Items(r.items)| + 7 <= OUTPUT then (true, Matching(r.items, prefix))
                                            else (false, [])
  {
    var line := "LIST";
    var s, r := Session(line + "\n", None, ops, ""), fs(ops, ListAll);
    var t := Session("", None, ops + [ListAll], ListReply(r));
    OneWordLine(line);
    assert line + "\n" + "" == line + "\n";
    ListObeyed(fs, s, line);
    NothingLeft(fs, t);
    WholeStep(fs, s, t);
    ListReplySays(r, prefix);
  }

  lemma ListObeyed(fs: Fs, s: Session, line: string)
    requires s.due.None? && s.out == "" && s.rest == line + "\n" + "" && PlainLine(line) && Printable(line)
    requires Decode(Words(line)) == List
    ensures Enabled(s) && Turn(fs, s) == Session("", None, s.ops + [ListAll], ListReply(fs(s.ops, ListAll)))
  {
    assert Enabled(s) && Turn(fs, s) == Obey(fs, s.(rest := ""), List) by {
      LineObeyed(fs, s, line, "", List);
    }
    ListCarriedOut(fs, s.(rest := ""));
  }

  lemma ListCarriedOut(fs: Fs, s: Session)
    requires s.out == ""
    ensures Obey(fs, s, List) == s.(ops := s.ops + [ListAll], out := ListReply(fs(s.ops, ListAll)))
  {
    assert "" + ListReply(fs(s.ops, ListAll)) == ListReply(fs(s.ops, ListAll));
  }

  lemma ListReplySays(r: FsResult, prefix: string)
    requires r.Done? ==> forall i <- r.items :: ItemOk(i)
    ensures ListAnswer(ListReply(r), prefix) == if r.Done? && |Items(r.items)| + 7 <= OUTPUT
                                                then (true, Matching(r.items, prefix)) else (false, [])
  {
    if r.Done? && |Items(r.items)| + 7 <= OUTPUT {
      ListingRead(r.items, prefix);
    } else {
      assert ListReply(r) == "ERR list" + "\n" + "";
      ReplyLineOf("ERR list", "");
    }
  }

  // ----------------------------------------------------------------------- refusals

  /** More than a block can neither be written nor read at once. */
  lemma OversizeRefused(path: string, offset: nat, n: nat, append: bool)
    requires NameValid(path) && BLOCK < n < B64 && offset < B64
    ensures Decode([WriteWord(append), path, Decimal(n)]) == Bad("ERR size")
    ensures Decode(["READ", path, Decimal(offset), Decimal(n)]) == Bad("ERR read")
  {
    NumberOfDecimal(n);
    NumberOfDecimal(offset);
  }

  /** A line of 512 characters or more is refused and passed over. */
  lemma LongLineRefused(fs: Fs, s: Session, line: string, later: string)
    requires s.due.None? && s.rest == line + "\n" + later && '\n' !in line
    requires LINE <= |line| < INPUT && line[|line| - 1] != '\r'
    ensures Enabled(s) && Turn(fs, s) == s.(rest := later, out := s.out + "ERR syntax\n")
  {
    var v := Visible(s.rest);
    assert v == line + "\n" + v[|line| + 1..];
    NewlineAfter(line, v[|line| + 1..]);
    assert s.rest[..|line|] == line && s.rest[|line| + 1..] == later;
  }

  /** Input without a newline in the whole of the buffer is refused and passed over. */
  lemma FloodRefused(fs: Fs, s: Session, flood: string, later: string)
    requires s.due.None? && s.rest == flood + later && |flood| == INPUT && '\n' !in flood
    ensures Enabled(s) && Turn(fs, s) == s.(rest := later, out := s.out + "ERR syntax\n")
  {
    assert Visible(s.rest) == flood;
    assert s.rest[INPUT..] == later;
  }
}
