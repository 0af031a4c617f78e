/**
 Domain names in DNS packets: sequences of labels, possibly finished by a
 pointer to labels elsewhere in the packet (sections 3.1, 4.1.2 and 4.1.4 of
 RFC 1035), and their dotted text.
 */
module Dns {
  import opened Basics

  const JUMPS: nat := 32
  const LABEL_MAX: nat := 63
  const NAME_MAX: nat := 255
  const HEADER: nat := 12
  const UDP_MAX: nat := 1024
  const DOT: byte := 46

  type Label = seq<byte>

  // ------------------------------------------------------------------ what names mean

  /** Where the pointer at a position leads. */
  function Target(packet: seq<byte>, pos: nat): (target: nat)
    requires pos + 1 < |packet| && packet[pos] >= 0xc0
    ensures target < 0x4000
  {
    var high: int, low: int := packet[pos], packet[pos + 1];
    (high - 0xc0) * 256 + low
  }

  /** The labels of the name at a position, following at most the given number of pointers. */
  function Labels(packet: seq<byte>, pos: nat, jumps: nat): (r: Option<seq<Label>>)
    decreases jumps, |packet| - pos
  {
    if pos >= |packet| then None
    else
      var size: nat := packet[pos];
      if size >= 0xc0 then
        if pos + 1 >= |packet| || jumps == 0 then None
        else if Target(packet, pos) >= |packet| then None
        else Labels(packet, Target(packet, pos), jumps - 1)
      else if size >= 0x40 then None
      else if size == 0 then Some([])
      else if pos + 1 + size > |packet| then None
      else
        match Labels(packet, pos + 1 + size, jumps)
        case None => None
        case Some(rest) => Some([packet[pos + 1..pos + 1 + size]] + rest)
  }

  /** The position behind the name that begins at a position: behind its final zero or its first pointer. */
  function After(packet: seq<byte>, pos: nat): (next: nat)
    decreases |packet| - pos
  {
    if pos >= |packet| then pos
    else if packet[pos] >= 0xc0 then pos + 2
    else if packet[pos] >= 0x40 || pos + 1 + packet[pos] > |packet| then pos
    else if packet[pos] == 0 then pos + 1
    else After(packet, pos + 1 + packet[pos])
  }

  /** A name that can be read ends inside the packet. */
  lemma {:induction false} AfterInside(packet: seq<byte>, pos: nat, jumps: nat)
    requires Labels(packet, pos, jumps).Some?
    ensures pos < After(packet, pos) <= |packet|
    decreases |packet| - pos
  {
    if 0 < packet[pos] < 0x40 {
      AfterInside(packet, pos + 1 + packet[pos], jumps);
    }
  }

  /** Labels with dots between them. */
  function Join(ls: seq<Label>): (s: seq<byte>) {
    if ls == [] then [] else if |ls| == 1 then ls[0] else Join(ls[..|ls| - 1]) + [DOT] + ls[|ls| - 1]
  }

  /** The text of a name; the root is a single dot. */
  function Text(ls: seq<Label>): (s: seq<byte>) { if ls == [] then [DOT] else Join(ls) }

  /** Labels are never empty, so neither is their text. */
  lemma {:induction false} LabelsNonEmpty(packet: seq<byte>, pos: nat, jumps: nat)
    requires Labels(packet, pos, jumps).Some?
    ensures forall l <- Labels(packet, pos, jumps).value :: 0 < |l| <= LABEL_MAX
    decreases jumps, |packet| - pos
  {
    var size: nat := packet[pos];
    if size >= 0xc0 {
      LabelsNonEmpty(packet, Target(packet, pos), jumps - 1);
    } else if size > 0 {
      LabelsNonEmpty(packet, pos + 1 + size, jumps);
    }
  }

  lemma JoinAppend(ls: seq<Label>, l: Label)
    ensures Join(ls + [l]) == if ls == [] then l else Join(ls) + [DOT] + l
  {
    assert (ls + [l])[..|ls|] == ls;
  }

  lemma {:induction false} JoinGrows(ls: seq<Label>, more: seq<Label>)
    ensures |Join(ls)| <= |Join(ls + more)|
    decreases |more|
  {
    if more == [] {
      assert ls + more == ls;
    } else {
      var front := more[..|more| - 1];
      JoinGrows(ls, front);
      assert ls + more == (ls + front) + [more[|more| - 1]];
      JoinAppend(ls + front, more[|more| - 1]);
    }
  }

  /** A name can be read into a buffer of the given capacity, which also takes a final zero. */
  predicate Readable(packet: seq<byte>, offset: nat, cap: nat) {
    && cap >= 2 && Labels(packet, offset, JUMPS).Some?
    && |Text(Labels(packet, offset, JUMPS).value)| < cap
  }

  // -------------------------------------------------------------------- reading names

  /** The labels read so far, in front of those still to be read. */
  function Prepend(done: seq<Label>, rest: Option<seq<Label>>): Option<seq<Label>> {
    match rest
    case None => None
    case Some(ls) => Some(done + ls)
  }

  lemma PrependNothing(ls: Option<seq<Label>>)
    ensures Prepend([], ls) == ls
  {
    match ls
    case None =>
    case Some(l) => assert [] + l == l;
  }

  /** Where the reader stands: the labels read, those to come, and the position behind the name. */
  predicate Reading(packet: seq<byte>, offset: nat, pos: nat, jumps: nat, done: seq<Label>, jumped: bool, after: nat) {
    && Labels(packet, offset, JUMPS) == Prepend(done, Labels(packet, pos, jumps))
    && After(packet, offset) == if jumped then after else After(packet, pos)
  }

  lemma ReadingBegins(packet: seq<byte>, offset: nat)
    ensures Reading(packet, offset, offset, JUMPS, [], false, 0)
  {
    PrependNothing(Labels(packet, offset, JUMPS));
  }

  lemma ReadingJumps(packet: seq<byte>, offset: nat, pos: nat, jumps: nat, done: seq<Label>, jumped: bool, after: nat)
    requires Reading(packet, offset, pos, jumps, done, jumped, after)
    requires pos + 1 < |packet| && packet[pos] >= 0xc0 && jumps > 0 && Target(packet, pos) < |packet|
    ensures Reading(packet, offset, Target(packet, pos), jumps - 1, done, true, if jumped then after else pos + 2)
  {
  }

  lemma ReadingLabel(packet: seq<byte>, offset: nat, pos: nat, jumps: nat, done: seq<Label>, jumped: bool, after: nat)
    requires Reading(packet, offset, pos, jumps, done, jumped, after)
    requires pos < |packet| && 0 < packet[pos] < 0x40 && pos + 1 + packet[pos] <= |packet|
    ensures Reading(packet, offset, pos + 1 + packet[pos], jumps,
                    done + [packet[pos + 1..pos + 1 + packet[pos]]], jumped, after)
  {
    PrependStep(packet, offset, pos, jumps, done);
  }

  lemma ReadingEnds(packet: seq<byte>, offset: nat, pos: nat, jumps: nat, done: seq<Label>, jumped: bool, after: nat)
    requires Reading(packet, offset, pos, jumps, done, jumped, after) && pos < |packet| && packet[pos] == 0
    ensures Labels(packet, offset, JUMPS) == Some(done)
    ensures offset < After(packet, offset) <= |packet| && After(packet, offset) == if jumped then after else pos + 1
  {
    assert done + [] == done;
    AfterInside(packet, offset, JUMPS);
  }

  lemma ReadingFails(packet: seq<byte>, offset: nat, pos: nat, jumps: nat, done: seq<Label>, jumped: bool, after: nat)
    requires Reading(packet, offset, pos, jumps, done, jumped, after) && Labels(packet, pos, jumps).None?
    ensures Labels(packet, offset, JUMPS).None?
  {
  }

  /** Finish the text of a name: the root gets its dot, and a zero follows. */
  method FinishName(name: array<byte>, len: nat, ghost done: seq<Label>) returns (out: nat)
    requires 2 <= name.Length && len < name.Length && name[..len] == Join(done) && (done == [] <==> len == 0)
    modifies name
    ensures out < name.Length && name[..out] == Text(done) && name[out] == 0
  {
    out := len;
    if out == 0 {
      name[0] := DOT;
      out := 1;
    }
    name[out] := 0;
  }

  /**
   Read the name at an offset into a buffer.  It ends on every packet, pointer
   cycles included: each turn uses up a jump or moves on in the packet.
   */
  method DnsName(packet: seq<byte>, offset: nat, name: array<byte>) returns (ok: bool, len: nat, next: nat)
    requires |packet| < B16
    modifies name
    ensures ok == (offset < |packet| && Readable(packet, offset, name.Length))
    ensures ok ==> len < name.Length && name[..len] == Text(Labels(packet, offset, JUMPS).value) && name[len] == 0
    ensures ok ==> next == After(packet, offset) && offset < next <= |packet|
  {
    ok, len, next := false, 0, 0;
    if offset >= |packet| || name.Length < 2 { return; }
    var pos: nat, after: nat, jumps: nat, jumped := offset, 0, 0, false;
    ghost var done: seq<Label> := [];
    ReadingBegins(packet, offset);
    while true
      invariant jumps <= JUMPS && len < name.Length
      invariant Reading(packet, offset, pos, JUMPS - jumps, done, jumped, after)
      invariant name[..len] == Join(done) && (done == [] <==> len == 0)
      decreases JUMPS - jumps, |packet| - pos
    {
      var more, at, jump := NextLabel(packet, pos, JUMPS - jumps);
      if !more {
        ReadingFails(packet, offset, pos, JUMPS - jumps, done, jumped, after);
        return;
      }
      if jump {
        ReadingJumps(packet, offset, pos, JUMPS - jumps, done, jumped, after);
        jumps := jumps + 1;
        if !jumped { after := pos + 2; }
        pos := at;
        jumped := true;
        continue;
      }
      if packet[pos] == 0 {
        ReadingEnds(packet, offset, pos, JUMPS - jumps, done, jumped, after);
        if !jumped { after := pos + 1; }
        len := FinishName(name, len, done);
        return true, len, after;
      }
      var fits;
      fits, len := TakeLabel(packet, pos, name, len, offset, JUMPS - jumps, done, jumped, after);
      if !fits { return; }
      done := done + [packet[pos + 1..at]];
      pos := at;
    }
  }

  /** Append the label at a position; false, once and for all, if it does not fit. */
  method TakeLabel(packet: seq<byte>, pos: nat, name: array<byte>, len: nat,
                   ghost offset: nat, ghost jumps: nat, ghost done: seq<Label>, ghost jumped: bool, ghost after: nat)
    returns (ok: bool, out: nat)
    requires pos < |packet| && 0 < packet[pos] < 0x40 && pos + 1 + packet[pos] <= |packet| && len < name.Length
    requires Reading(packet, offset, pos, jumps, done, jumped, after)
    requires name[..len] == Join(done) && (done == [] <==> len == 0)
    modifies name
    ensures var at := pos + 1 + packet[pos];
            var more := done + [packet[pos + 1..at]];
            && (ok ==> 0 < out < name.Length && name[..out] == Join(more))
            && (ok ==> Reading(packet, offset, at, jumps, more, jumped, after))
            && (!ok ==> !Readable(packet, offset, name.Length))
  {
    ghost var at := pos + 1 + packet[pos];
    ghost var l := packet[pos + 1..at];
    ReadingLabel(packet, offset, pos, jumps, done, jumped, after);
    JoinAppend(done, l);
    ok, out := CopyLabel(packet, pos + 1, packet[pos], name, len);
    if !ok { TooLong(packet, offset, at, jumps, done + [l], name.Length); }
  }

  /** What stands at a position: false if no name does, else where to go on and whether that is a jump. */
  method NextLabel(packet: seq<byte>, pos: nat, jumps: nat) returns (ok: bool, at: nat, jump: bool)
    ensures !ok ==> Labels(packet, pos, jumps).None?
    ensures ok ==> pos < |packet| && jump == (packet[pos] >= 0xc0)
    ensures ok && jump ==> jumps > 0 && pos + 1 < |packet| && at == Target(packet, pos) < |packet|
    ensures ok && !jump ==> packet[pos] < 0x40 && at == pos + 1 + packet[pos] <= |packet|
  {
    ok, at, jump := false, 0, false;
    if pos >= |packet| { return; }
    if packet[pos] >= 0xc0 {
      if pos + 1 >= |packet| || jumps == 0 || Target(packet, pos) >= |packet| { return; }
      return true, Target(packet, pos), true;
    }
    if packet[pos] >= 0x40 || (packet[pos] != 0 && pos + 1 + packet[pos] > |packet|) { return; }
    return true, pos + 1 + packet[pos], false;
  }

  /** Append a label, and a dot if it is not the first, if there is room for it and a final zero. */
  method CopyLabel(packet: seq<byte>, pos: nat, size: nat, name: array<byte>, len: nat) returns (ok: bool, out: nat)
    requires 0 < size && pos + size <= |packet| && len < name.Length
    modifies name
    ensures ok == (len + (if len == 0 then 0 else 1) + size < name.Length)
    ensures ok ==> out == len + (if len == 0 then 0 else 1) + size
    ensures ok ==> name[..out] == old(name[..len]) + (if len == 0 then [] else [DOT]) + packet[pos..pos + size]
  {
    ghost var before := name[..len];
    out := len;
    if out != 0 {
      if out + 1 >= name.Length { return false, out; }
      name[out] := DOT;
      out := out + 1;
    }
    if out + size >= name.Length { return false, out; }
    ghost var base := out;
    assert name[..base] == before + if len == 0 then [] else [DOT];
    var i := 0;
    while i < size
      invariant i <= size && out == base + i
      invariant name[..base] == before + if len == 0 then [] else [DOT]
      invariant name[base..out] == packet[pos..pos + i]
    {
      name[out] := packet[pos + i];
      out := out + 1;
      i := i + 1;
    }
    assert name[..out] == name[..base] + name[base..out];
    return true, out;
  }

  /** Reading one plain label. */
  lemma PrependStep(packet: seq<byte>, offset: nat, pos: nat, jumps: nat, done: seq<Label>)
    requires pos < |packet| && 0 < packet[pos] < 0x40 && pos + 1 + packet[pos] <= |packet|
    ensures var l := packet[pos + 1..pos + 1 + packet[pos]];
            Prepend(done, Labels(packet, pos, jumps)) ==
            Prepend(done + [l], Labels(packet, pos + 1 + packet[pos], jumps))
  {
    var l := packet[pos + 1..pos + 1 + packet[pos]];
    match Labels(packet, pos + 1 + packet[pos], jumps)
    case None =>
    case Some(rest) => assert done + ([l] + rest) == (done + [l]) + rest;
  }

  /** If what has been read is too long already, so is the whole name. */
  lemma TooLong(packet: seq<byte>, offset: nat, pos: nat, jumps: nat, done: seq<Label>, cap: nat)
    requires done != [] && |Join(done)| >= cap
    requires Labels(packet, offset, JUMPS) == Prepend(done, Labels(packet, pos, jumps))
    ensures !Readable(packet, offset, cap)
  {
    match Labels(packet, pos, jumps)
    case None =>
    case Some(rest) => JoinGrows(done, rest);
  }
}
