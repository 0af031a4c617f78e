/**
 The kernel's side of GMSTORE: requests are put together character by character
 in fixed buffers, replies are picked apart.
 */
module StoreClient {
  import opened Basics
  import opened StoreText
  import opened StoreProtocol

  const REQUEST: nat := 256
  const PATH_MAX: nat := 192

  // --------------------------------------------------------------------- requests

  /** The paths the client is willing to send. */
  predicate PathOk(path: string) {
    && 2 <= |path| < PATH_MAX && path[0] == '/'
    && (forall i :: 1 <= i < |path| ==> path[i] != ' ' && path[i] != '\n' && path[i] != '\r' && path[i] != '\t')
    && (forall i :: 1 <= i < |path| - 1 ==> !(path[i] == '.' && path[i + 1] == '.'))
  }

  method StorePath(path: string) returns (ok: bool)
    ensures ok == PathOk(path)
  {
    if |path| < 2 || path[0] != '/' { return false; }
    var i := 1;
    while i < |path|
      invariant 1 <= i <= |path|
      invariant forall j :: 1 <= j < i ==> path[j] != ' ' && path[j] != '\n' && path[j] != '\r' && path[j] != '\t'
      invariant forall j :: 1 <= j < i && j < |path| - 1 ==> !(path[j] == '.' && path[j + 1] == '.')
    {
      if path[i] == ' ' || path[i] == '\n' || path[i] == '\r' || path[i] == '\t' { return false; }
      if path[i] == '.' && i + 1 < |path| && path[i + 1] == '.' { return false; }
      i := i + 1;
    }
    return i < PATH_MAX;
  }

  function StatRequest(path: string): string { "STAT " + path + "\n" }

  function DeleteRequest(path: string): string { "DEL " + path + "\n" }

  function ReadRequest(path: string, offset: nat, len: nat): string {
    "READ " + path + " " + Decimal(offset) + " " + Decimal(len) + "\n"
  }

  function WriteWord(append: bool): string { if append then "APPEND" else "WRITE" }

  function WriteRequest(path: string, data: string, append: bool): string {
    WriteWord(append) + " " + path + " " + Decimal(|data|) + "\n" + data
  }

  /** Copy a text into a buffer; the position after it is returned. */
  method PutText(buf: array<char>, pos: nat, text: string) returns (next: nat)
    requires pos + |text| <= buf.Length
    modifies buf
    ensures next == pos + |text| && buf[..next] == old(buf[..pos]) + text
  {
    ghost var before := buf[..pos];
    var i := 0;
    while i < |text|
      invariant i <= |text| && buf[..pos] == before && buf[pos..pos + i] == text[..i]
    {
      buf[pos + i] := text[i];
      i := i + 1;
    }
    next := pos + |text|;
    assert buf[..next] == buf[..pos] + buf[pos..next];
  }

  /** Write a number: its digits come out last first and are then turned round. */
  method StoreDec(buf: array<char>, pos: nat, value: nat) returns (next: nat)
    requires value < B64 && pos + 20 <= buf.Length
    modifies buf
    ensures next == pos + |Decimal(value)| <= pos + 20 && buf[..next] == old(buf[..pos]) + Decimal(value)
  {
    ghost var digits, before := Decimal(value), buf[..pos];
    DecimalFits(value);
    if value == 0 {
      buf[pos] := '0';
      assert buf[..pos + 1] == before + ['0'];
      return pos + 1;
    }
    var tmp := new char[24];
    var n, v := 0, value;
    while v != 0
      invariant n <= |digits| && digits[..|digits| - n] == if v == 0 then "" else Decimal(v)
      invariant forall i :: 0 <= i < n ==> tmp[i] == digits[|digits| - 1 - i]
      invariant buf[..pos] == before
    {
      ghost var front := digits[..|digits| - n];
      assert front[|front| - 1] == DigitChar(v % 10);
      tmp[n] := DigitChar(v % 10);
      n := n + 1;
      v := v / 10;
      assert digits[..|digits| - n] == front[..|front| - 1];
    }
    TurnRound(tmp, n, buf, pos, digits);
    next := pos + n;
    assert buf[..next] == buf[..pos] + buf[pos..next];
  }

  /** Copy n digits, the last first. */
  method TurnRound(tmp: array<char>, n: nat, buf: array<char>, pos: nat, ghost digits: string)
    requires tmp != buf && n == |digits| <= tmp.Length && pos + n <= buf.Length
    requires forall i :: 0 <= i < n ==> tmp[i] == digits[n - 1 - i]
    modifies buf
    ensures buf[..pos] == old(buf[..pos]) && buf[pos..pos + n] == digits
  {
    var left: nat, out: nat := n, 0;
    while left > 0
      invariant left + out == n && buf[..pos] == old(buf[..pos]) && buf[pos..pos + out] == digits[..out]
      invariant forall i :: 0 <= i < n ==> tmp[i] == digits[n - 1 - i]
    {
      left := left - 1;
      buf[pos + out] := tmp[left];
      out := out + 1;
    }
  }

  function WithPath(text: string, path: Option<string>): string {
    if path.Some? then text + " " + path.value else text
  }

  function WithNumber(text: string, a: Option<nat>): string {
    if a.Some? then text + " " + Decimal(a.value) else text
  }

  method StoreLine(buf: array<char>, op: string, path: Option<string>, a: Option<nat>) returns (pos: nat)
    requires buf.Length >= |WithPath(op, path)| + 22 && (a.Some? ==> a.value < B64)
    modifies buf
    ensures pos <= buf.Length && buf[..pos] == WithNumber(WithPath(op, path), a) + "\n"
  {
    pos := PutText(buf, 0, op);
    assert buf[..pos] == op;
    if path.Some? {
      pos := PutText(buf, pos, " ");
      pos := PutText(buf, pos, path.value);
    }
    assert buf[..pos] == WithPath(op, path);
    if a.Some? {
      pos := PutText(buf, pos, " ");
      pos := StoreDec(buf, pos, a.value);
    }
    assert buf[..pos] == WithNumber(WithPath(op, path), a);
    pos := PutText(buf, pos, "\n");
  }

  /** Build a read request: a line with the offset whose newline is then overwritten. */
  method BuildRead(req: array<char>, path: string, offset: nat, len: nat) returns (n: nat)
    requires req.Length == REQUEST && PathOk(path) && offset < B64 && len <= BLOCK
    modifies req
    ensures n <= REQUEST && req[..n] == ReadRequest(path, offset, len)
  {
    DecimalFits(offset);
    n := StoreLine(req, "READ", Some(path), Some(offset));
    ghost var front := "READ" + " " + path + " " + Decimal(offset);
    assert req[..n] == front + "\n";
    req[n - 1] := ' ';
    assert req[..n] == front + " ";
    n := StoreDec(req, n, len);
    n := PutText(req, n, "\n");
    assert "READ" + " " == "READ ";
  }

  method BuildStat(req: array<char>, path: string) returns (n: nat)
    requires req.Length == REQUEST && PathOk(path)
    modifies req
    ensures n <= REQUEST && req[..n] == StatRequest(path)
  {
    n := StoreLine(req, "STAT", Some(path), None);
    assert "STAT" + " " == "STAT ";
  }

  method BuildDelete(req: array<char>, path: string) returns (n: nat)
    requires req.Length == REQUEST && PathOk(path)
    modifies req
    ensures n <= REQUEST && req[..n] == DeleteRequest(path)
  {
    n := StoreLine(req, "DEL", Some(path), None);
    assert "DEL" + " " == "DEL ";
  }

  /** Build a write request; it always fits both its buffer and one TCP payload. */
  method BuildWrite(req: array<char>, path: string, data: string, append: bool) returns (n: nat)
    requires req.Length == REQUEST + BLOCK && PathOk(path) && |data| <= BLOCK
    modifies req
    ensures n <= TX_MAX && n <= req.Length && req[..n] == WriteRequest(path, data, append)
  {
    n := PutText(req, 0, WriteWord(append));
    assert req[..n] == WriteWord(append);
    n := PutText(req, n, " ");
    n := PutText(req, n, path);
    n := PutText(req, n, " ");
    n := StoreDec(req, n, |data|);
    n := PutText(req, n, "\n");
    assert n <= 227;
    if n + |data| > req.Length || n + |data| > TX_MAX {
      assert false;
    }
    n := PutText(req, n, data);
  }

  // ---------------------------------------------------------------------- replies

  /** A decimal number of at most 64 bits and nothing else. */
  function StrictNumber(s: string): (n: Option<nat>) {
    if AllDigits(s) && DigitsValue(s) < B64 then Some(DigitsValue(s)) else None
  }

  lemma {:induction false} DigitsValueGrows(s: string, i: nat)
    requires i <= |s| && forall j :: 0 <= j < |s| ==> IsDigit(s[j])
    ensures DigitsValue(s[..i]) <= DigitsValue(s)
    decreases |s|
  {
    if i < |s| {
      DigitsValueGrows(s[..|s| - 1], i);
      assert s[..|s| - 1][..i] == s[..i];
    } else {
      assert s[..i] == s;
    }
  }

  /** Read a number, stopping before 64 bits overflow. */
  method StoreNumber(s: string) returns (value: Option<nat>)
    ensures value == StrictNumber(s)
  {
    var n, i := 0, 0;
    while i < |s| && IsDigit(s[i])
      invariant i <= |s| && n < B64
      invariant forall j :: 0 <= j < i ==> IsDigit(s[j])
      invariant n == DigitsValue(s[..i])
    {
      var digit := DigitValue(s[i]);
      assert s[..i + 1][..i] == s[..i];
      if n > 1844674407370955161 || (n == 1844674407370955161 && digit > 5) {
        if AllDigits(s) {
          DigitsValueGrows(s, i + 1);
        }
        return None;
      }
      n := n * 10 + digit;
      i := i + 1;
    }
    if i == 0 || i < |s| { return None; }
    assert s[..i] == s;
    return Some(n);
  }

  /** A reply line of at most 255 characters, without newline and final return, and what follows it. */
  function ReplyLine(stream: string): (r: Option<(string, string)>) {
    var n := NewlineAt(stream);
    if n == |stream| || n >= REQUEST then None else Some((StripReturn(stream[..n]), stream[n + 1..]))
  }

  predicate StartsWith(s: string, prefix: string) { prefix <= s }

  /** The first line of the answer begins with OK. */
  predicate OkAnswer(stream: string) {
    match ReplyLine(stream)
    case None => false
    case Some((line, _)) => StartsWith(line, "OK")
  }

  /** The answer is that the server is there. */
  predicate PongAnswer(stream: string) {
    match ReplyLine(stream)
    case None => false
    case Some((line, _)) => line == "OK PONG"
  }

  /** What the client prints of a listing, line by line, and whether it came to its end. */
  function ListAnswer(stream: string, prefix: string): (r: (bool, seq<string>))
    decreases |stream|
  {
    match ReplyLine(stream)
    case None => (false, [])
    case Some((line, rest)) =>
      if line == "OK END" then (true, [])
      else if !StartsWith(line, "ITEM ") then (false, [])
      else
        var more := ListAnswer(rest, prefix);
        (more.0, (if StartsWith(line[5..], prefix) then [line[5..]] else []) + more.1)
  }

  /** What the client makes of the answer to a question for a size. */
  function SizeAnswer(stream: string): (r: Option<nat>) {
    match ReplyLine(stream)
    case None => None
    case Some((line, _)) => if StartsWith(line, "OK ") then StrictNumber(line[3..]) else None
  }

  /** What the client makes of the answer to a read of at most `len` bytes. */
  function ReadAnswer(stream: string, len: nat): (r: Option<string>) {
    match ReplyLine(stream)
    case None => None
    case Some((line, rest)) =>
      if !StartsWith(line, "OK ") then None
      else
        match StrictNumber(line[3..])
        case None => None
        case Some(count) => if count > len || count > |rest| then None else Some(rest[..count])
  }
}
