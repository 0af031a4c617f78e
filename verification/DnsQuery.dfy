/**
 Building a DNS query, and reading its name back.
 */
module DnsQuery {
  import opened Basics
  import opened Dns

  /** A name without its trailing dots. */
  function Strip(name: seq<byte>): (s: seq<byte>) {
    if name != [] && name[|name| - 1] == DOT then Strip(name[..|name| - 1]) else name
  }

  predicate LabelOk(l: Label) { 0 < |l| <= LABEL_MAX }

  /** The names a query can be made for. */
  predicate Askable(name: seq<byte>) {
    0 < |name| <= NAME_MAX && Strip(name) != [] && forall l <- Split(Strip(name), DOT) :: LabelOk(l)
  }

  /** Labels as they stand in a packet: each behind its length. */
  function Encode(ls: seq<Label>): (s: seq<byte>)
    requires forall l <- ls :: LabelOk(l)
  {
    if ls == [] then []
    else
      var l := ls[|ls| - 1];
      assert l in ls && LabelOk(l);
      var n: byte := |l|;
      Encode(ls[..|ls| - 1]) + [n] + l
  }

  function Header(id: u16): (s: seq<byte>)
    ensures |s| == HEADER
  {
    [id / 256, id % 256, 0, 0, 0, 1, 0, 0, 0, 0, 0, 0]
  }

  const Question: seq<byte> := [0, 1, 0, 1]

  /** Header, name, final zero, type A and class IN. */
  function Query(id: u16, name: seq<byte>): seq<byte>
    requires forall l <- Split(name, DOT) :: LabelOk(l)
  {
    Header(id) + Encode(Split(name, DOT)) + [0] + Question
  }

  // --------------------------------------------------------------- splitting, joining

  lemma {:induction false} JoinFront(l: Label, ls: seq<Label>)
    requires ls != []
    ensures Join([l] + ls) == l + [DOT] + Join(ls)
    decreases |ls|
  {
    var front, last := ls[..|ls| - 1], ls[|ls| - 1];
    assert [l] + ls == ([l] + front) + [last];
    JoinAppend([l] + front, last);
    assert ls == front + [last];
    JoinAppend(front, last);
    if front == [] {
      assert [l] + front == [l];
    } else {
      JoinFront(l, front);
      Regroup(l + [DOT], Join(front), [DOT]);
      Regroup(l + [DOT], Join(front) + [DOT], last);
    }
  }

  /** Splitting and joining again gives the name back. */
  lemma {:induction false} JoinSplit(s: seq<byte>)
    ensures Join(Split(s, DOT)) == s
    decreases |s|
  {
    if DOT in s {
      var n := FirstDot(s);
      var w, rest := s[..n], s[n + 1..];
      assert s == w + [DOT] + rest;
      SplitOf(w, DOT, rest);
      JoinSplit(rest);
      JoinFront(w, Split(rest, DOT));
    } else {
      SplitOf(s, DOT, []);
    }
  }

  function FirstDot(s: seq<byte>): (n: nat)
    requires DOT in s
    ensures n < |s| && s[n] == DOT && DOT !in s[..n]
  {
    if s[0] == DOT then 0
    else
      var n := FirstDot(s[1..]);
      assert s[..n + 1] == [s[0]] + s[1..][..n];
      n + 1
  }

  /** Each label takes its length and one byte more; the text has a dot less than labels. */
  lemma {:induction false} EncodeLength(ls: seq<Label>)
    requires ls != [] && forall l <- ls :: LabelOk(l)
    ensures |Encode(ls)| == |Join(ls)| + 1
    decreases |ls|
  {
    if |ls| > 1 {
      EncodeLength(ls[..|ls| - 1]);
    } else {
      assert Encode(ls[..0]) == [];
    }
  }

  lemma EncodeAppend(ls: seq<Label>, l: Label)
    requires (forall k <- ls :: LabelOk(k)) && LabelOk(l)
    ensures forall k <- ls + [l] :: LabelOk(k)
    ensures Encode(ls + [l]) == Encode(ls) + [|l|] + l
  {
    assert (ls + [l])[..|ls|] == ls;
  }

  lemma {:induction false} EncodeFront(l: Label, ls: seq<Label>)
    requires LabelOk(l) && forall k <- ls :: LabelOk(k)
    ensures forall k <- [l] + ls :: LabelOk(k)
    ensures Encode([l] + ls) == [|l|] + l + Encode(ls)
    decreases |ls|
  {
    if ls == [] {
      EncodeAppend([], l);
      assert [l] + ls == [] + [l];
    } else {
      var front, last := ls[..|ls| - 1], ls[|ls| - 1];
      EncodeFront(l, front);
      assert [l] + ls == ([l] + front) + [last];
      EncodeAppend([l] + front, last);
      assert ls == front + [last];
      EncodeAppend(front, last);
      var n: byte, m: byte := |l|, |last|;
      Regroup([n] + l, Encode(front), [m]);
      Regroup([n] + l, Encode(front) + [m], last);
    }
  }

  // ----------------------------------------------------------------------- round trip

  lemma LabelsUnfold(packet: seq<byte>, pos: nat, n: byte, jumps: nat)
    requires pos < |packet| && packet[pos] == n && 0 < n < 0x40 && pos + 1 + n <= |packet|
    requires Labels(packet, pos + 1 + n, jumps).Some?
    ensures Labels(packet, pos, jumps) == Some([packet[pos + 1..pos + 1 + n]] + Labels(packet, pos + 1 + n, jumps).value)
    ensures After(packet, pos) == After(packet, pos + 1 + n)
  {
  }

  /** The first of the encoded labels, and the others behind it. */
  lemma EncodingPieces(packet: seq<byte>, pos: nat, l: Label, rest: seq<Label>)
    requires LabelOk(l) && (forall k <- rest :: LabelOk(k)) && forall k <- [l] + rest :: LabelOk(k)
    requires var e := Encode([l] + rest); pos + |e| < |packet| && packet[pos..pos + |e|] == e
    ensures var n: byte := |l|;
            && |Encode([l] + rest)| == 1 + n + |Encode(rest)|
            && packet[pos] == n && packet[pos + 1..pos + 1 + n] == l
            && packet[pos + 1 + n..pos + 1 + n + |Encode(rest)|] == Encode(rest)
  {
    var n: byte := |l|;
    EncodeFront(l, rest);
    SlicePieces(packet, pos, [n] + l, Encode(rest));
    SlicePieces(packet, pos, [n], l);
    assert packet[pos] == packet[pos..pos + 1][0];
  }

  /** Encoded labels stand in front of whatever name follows them. */
  lemma {:induction false} LabelsInFront(packet: seq<byte>, pos: nat, ls: seq<Label>, jumps: nat)
    requires forall l <- ls :: LabelOk(l)
    requires var e := Encode(ls);
             pos + |e| < |packet| && packet[pos..pos + |e|] == e && Labels(packet, pos + |e|, jumps).Some?
    ensures Labels(packet, pos, jumps) == Some(ls + Labels(packet, pos + |Encode(ls)|, jumps).value)
    ensures After(packet, pos) == After(packet, pos + |Encode(ls)|)
    decreases |ls|
  {
    if ls == [] {
      var more := Labels(packet, pos, jumps).value;
      assert ls + more == more;
    } else {
      var l, rest := ls[0], ls[1..];
      assert ls == [l] + rest && l in ls;
      EncodingPieces(packet, pos, l, rest);
      LabelsInFront(packet, pos + 1 + |l|, rest, jumps);
      LabelsUnfold(packet, pos, |l|, jumps);
      Regroup([l], rest, Labels(packet, pos + |Encode(ls)|, jumps).value);
    }
  }

  /** Encoded labels in front of a zero are read back, wherever they stand in a packet. */
  lemma LabelsOfEncoding(packet: seq<byte>, pos: nat, ls: seq<Label>, jumps: nat)
    requires forall l <- ls :: LabelOk(l)
    requires var e := Encode(ls);
             pos + |e| < |packet| && packet[pos..pos + |e|] == e && packet[pos + |e|] == 0
    ensures Labels(packet, pos, jumps) == Some(ls)
    ensures After(packet, pos) == pos + |Encode(ls)| + 1
  {
    LabelsInFront(packet, pos, ls, jumps);
    assert ls + [] == ls;
  }

  /**
   For every name a query can be made for: the packet is eighteen bytes longer
   than the stripped name, and reading the name at offset twelve returns exactly
   the stripped name and the position of the type field.
   */
  lemma QueryRoundTrip(name: seq<byte>, id: u16)
    requires Askable(name)
    ensures var s := Strip(name);
            var packet := Query(id, s);
            && |packet| == |s| + 18
            && Readable(packet, HEADER, NAME_MAX + 1)
            && Text(Labels(packet, HEADER, JUMPS).value) == s
            && After(packet, HEADER) == |s| + 14
            && packet[|s| + 14..] == Question
  {
    var s := Strip(name);
    var ls := Split(s, DOT);
    JoinSplit(s);
    EncodeLength(ls);
    StripShorter(name);
    QueryLayout(id, s);
    LabelsOfEncoding(Query(id, s), HEADER, ls, JUMPS);
  }

  lemma QueryLayout(id: u16, s: seq<byte>)
    requires forall l <- Split(s, DOT) :: LabelOk(l)
    ensures var packet, e := Query(id, s), Encode(Split(s, DOT));
            && |packet| == HEADER + |e| + 5 && packet[HEADER..HEADER + |e|] == e && packet[HEADER + |e|] == 0
            && packet[HEADER + |e| + 1..] == Question
  {
  }

  lemma {:induction false} StripShorter(name: seq<byte>)
    ensures |Strip(name)| <= |name|
  {
    if name != [] && name[|name| - 1] == DOT {
      StripShorter(name[..|name| - 1]);
    }
  }

  // -------------------------------------------------------------------- building it

  lemma {:induction false} StripPrefix(name: seq<byte>, n: nat)
    requires n <= |name| && forall i :: n <= i < |name| ==> name[i] == DOT
    requires n == 0 || name[n - 1] != DOT
    ensures Strip(name) == name[..n]
    decreases |name|
  {
    if n < |name| {
      StripPrefix(name[..|name| - 1], n);
      assert name[..|name| - 1][..n] == name[..n];
    } else {
      assert name[..n] == name;
    }
  }

  method StripDots(name: seq<byte>) returns (n: nat)
    ensures n <= |name| && name[..n] == Strip(name)
  {
    n := |name|;
    while n > 0 && name[n - 1] == DOT
      invariant n <= |name| && forall i :: n <= i < |name| ==> name[i] == DOT
    {
      n := n - 1;
    }
    StripPrefix(name, n);
  }

  /** Append bytes to what stands in a buffer. */
  method Put(packet: array<byte>, out: nat, bytes: seq<byte>) returns (next: nat)
    requires out + |bytes| <= packet.Length
    modifies packet
    ensures next == out + |bytes| && packet[..next] == old(packet[..out]) + bytes
  {
    ghost var before := packet[..out];
    var i := 0;
    while i < |bytes|
      invariant i <= |bytes| && packet[..out] == before && packet[out..out + i] == bytes[..i]
    {
      packet[out + i] := bytes[i];
      i := i + 1;
    }
    next := out + |bytes|;
    assert packet[..next] == packet[..out] + packet[out..next];
  }

  /** The labels done and those still in the text from `start` on make up the name. */
  predicate Splitting(s: seq<byte>, done: seq<Label>, start: nat) {
    if start <= |s| then Split(s, DOT) == done + Split(s[start..], DOT) else Split(s, DOT) == done
  }

  lemma SplitMore(all: seq<Label>, done: seq<Label>, w: Label, rest: seq<byte>)
    requires DOT !in w && all == done + Split(w + [DOT] + rest, DOT)
    ensures w in all && all == (done + [w]) + Split(rest, DOT)
  {
    SplitOf(w, DOT, rest);
    Regroup(done, [w], Split(rest, DOT));
    assert all[|done|] == w;
  }

  lemma SplitLast(all: seq<Label>, done: seq<Label>, w: Label)
    requires DOT !in w && all == done + Split(w, DOT)
    ensures w in all && all == done + [w]
  {
    SplitOf(w, DOT, []);
    assert all[|done|] == w;
  }

  lemma CutAtDot(s: seq<byte>, start: nat, i: nat)
    requires start <= i < |s| && s[i] == DOT
    ensures s[start..] == s[start..i] + [DOT] + s[i + 1..]
  {
  }

  lemma SplittingDot(s: seq<byte>, done: seq<Label>, start: nat, i: nat)
    requires start <= i < |s| && Splitting(s, done, start) && DOT !in s[start..i] && s[i] == DOT
    ensures s[start..i] in Split(s, DOT) && Splitting(s, done + [s[start..i]], i + 1)
  {
    CutAtDot(s, start, i);
    SplitMore(Split(s, DOT), done, s[start..i], s[i + 1..]);
  }

  lemma SplittingEnd(s: seq<byte>, done: seq<Label>, start: nat)
    requires start <= |s| && Splitting(s, done, start) && DOT !in s[start..]
    ensures s[start..] in Split(s, DOT) && Splitting(s, done + [s[start..]], |s| + 1)
  {
    SplitLast(Split(s, DOT), done, s[start..]);
  }

  lemma SplittingStep(s: seq<byte>, done: seq<Label>, start: nat, i: nat, l: Label)
    requires start <= i <= |s| && Splitting(s, done, start) && DOT !in l && (i < |s| ==> s[i] == DOT) && l == s[start..i]
    ensures l in Split(s, DOT) && Splitting(s, done + [l], i + 1)
  {
    if i < |s| {
      SplittingDot(s, done, start, i);
    } else {
      assert l == s[start..];
      SplittingEnd(s, done, start);
    }
  }

  lemma NoDotIn(s: seq<byte>, start: nat, i: nat)
    requires start <= i <= |s| && forall j :: start <= j < i ==> s[j] != DOT
    ensures DOT !in s[start..i]
  {
  }

  /** Append the label of a name that ends at a position; false if it is empty or too long. */
  method PutNext(s: seq<byte>, packet: array<byte>, out: nat, start: nat, i: nat, ghost before: seq<byte>, ghost done: seq<Label>)
    returns (ok: bool, next: nat)
    requires |s| <= NAME_MAX && packet.Length == UDP_MAX && out == HEADER + start
    requires start <= i <= |s| && (i < |s| ==> s[i] == DOT) && forall j :: start <= j < i ==> s[j] != DOT
    requires Splitting(s, done, start) && (forall l <- done :: LabelOk(l)) && packet[..out] == before + Encode(done)
    modifies packet
    ensures ok == LabelOk(s[start..i]) && s[start..i] in Split(s, DOT)
    ensures ok ==> && next == HEADER + i + 1 && Splitting(s, done + [s[start..i]], i + 1)
                   && (forall l <- done + [s[start..i]] :: LabelOk(l))
                   && packet[..next] == before + Encode(done + [s[start..i]])
  {
    NoDotIn(s, start, i);
    SplittingStep(s, done, start, i, s[start..i]);
    var size := i - start;
    if size == 0 || size > LABEL_MAX { return false, out; }
    if out + 1 + size + 5 > UDP_MAX {
      assert false;
    }
    next := PutLabel(packet, out, s[start..i], before + Encode(done));
    EncodeBehind(before, done, s[start..i]);
    ok := true;
  }

  /** Append every label of a name behind its length; false at the first that is empty or too long. */
  method PutLabels(s: seq<byte>, packet: array<byte>) returns (ok: bool, out: nat)
    requires 0 < |s| <= NAME_MAX && packet.Length == UDP_MAX
    modifies packet
    ensures ok == forall l <- Split(s, DOT) :: LabelOk(l)
    ensures ok ==> out == HEADER + |s| + 1 && packet[..out] == old(packet[..HEADER]) + Encode(Split(s, DOT))
  {
    ghost var before := packet[..HEADER];
    ghost var done: seq<Label> := [];
    out := HEADER;
    var start: nat, i: nat := 0, 0;
    assert [] + Split(s, DOT) == Split(s, DOT) && s[0..] == s;
    while i <= |s|
      invariant start <= i <= |s| + 1 && out == HEADER + start && (i == |s| + 1 ==> start == i)
      invariant forall j :: start <= j < i ==> s[j] != DOT
      invariant Splitting(s, done, start) && (forall l <- done :: LabelOk(l))
      invariant packet[..out] == before + Encode(done)
    {
      if i < |s| && s[i] != DOT {
        i := i + 1;
        continue;
      }
      ok, out := PutNext(s, packet, out, start, i, before, done);
      if !ok { return; }
      done := done + [s[start..i]];
      start := i + 1;
      i := i + 1;
    }
    ok := true;
  }

  lemma EncodeBehind(before: seq<byte>, done: seq<Label>, l: Label)
    requires (forall k <- done :: LabelOk(k)) && LabelOk(l)
    ensures forall k <- done + [l] :: LabelOk(k)
    ensures before + Encode(done) + [|l|] + l == before + Encode(done + [l])
  {
    EncodeAppend(done, l);
    Regroup(before, Encode(done), [|l|]);
    Regroup(before, Encode(done) + [|l|], l);
  }

  method PutLabel(packet: array<byte>, out: nat, l: Label, ghost before: seq<byte>) returns (next: nat)
    requires LabelOk(l) && out + 1 + |l| <= packet.Length && packet[..out] == before
    modifies packet
    ensures next == out + 1 + |l| && packet[..next] == before + [|l|] + l
  {
    next := Put(packet, out, [|l|]);
    next := Put(packet, next, l);
  }

  /** Build the query for a name; false if there can be none. */
  method BuildQuery(name: seq<byte>, id: u16, packet: array<byte>) returns (ok: bool, len: nat)
    requires packet.Length == UDP_MAX
    modifies packet
    ensures ok == Askable(name)
    ensures ok ==> len == |Strip(name)| + 18 <= packet.Length && packet[..len] == Query(id, Strip(name))
  {
    len := 0;
    if |name| == 0 || |name| > NAME_MAX { return false, 0; }
    var n := StripDots(name);
    if n == 0 { return false, 0; }
    len := Put(packet, 0, Header(id));
    assert packet[..len] == Header(id);
    ok, len := PutLabels(name[..n], packet);
    if !ok { return; }
    len := Put(packet, len, [0]);
    len := Put(packet, len, Question);
  }
}
