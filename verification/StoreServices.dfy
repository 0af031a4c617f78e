/**
 From a program's registers to the files of the store: what the store services
 do, through the kernel's codec and the server, over any file system.
 */
module StoreServices {
  import opened Basics
  import opened StoreText
  import opened StoreProtocol
  import opened StoreClient
  import opened StoreSession
  import opened StoreCommands
  import AddressSpaces
  import Services

  type Memory = AddressSpaces.Memory

  /** The objects of the store by their paths. */
  type Files = map<string, string>

  /** What is stored under a path; nothing is stored as nothing. */
  function Object(files: Files, path: string): string { if path in files then files[path] else "" }

  ghost predicate OthersKept(files: Files, files': Files, path: string) {
    forall p :: p != path ==> (p in files' <==> p in files) && (p in files ==> files'[p] == files[p])
  }

  /**
   What an operation and its result say about the files before and after it.  A
   write that fails may leave anything under its own path, and nothing else.
   */
  ghost predicate Behaves(files: Files, op: FsOp, r: FsResult, files': Files) {
    match op
    case ListAll => files' == files
    case StatFile(path) => files' == files && (r.Done? ==> path in files && r.size == |files[path]|)
    case ReadFile(path, offset, count) =>
      files' == files && (r.Done? ==> path in files && r.data == Slice(files[path], offset, count))
    case WriteFile(path, data, append) =>
      && OthersKept(files, files', path)
      && (r.Done? ==> path in files' && files'[path] == if append then Object(files, path) + data else data)
    case DeleteFile(path) =>
      if r.Done? then OthersKept(files, files', path) && path !in files' else files' == files
  }

  ghost predicate BehavesAt(fs: Fs, after: seq<FsOp> -> Files, ops: seq<FsOp>, op: FsOp) {
    Behaves(after(ops), op, fs(ops, op), after(ops + [op]))
  }

  /** `after` tells the files after any operations of the file system. */
  ghost predicate FileSystem(fs: Fs, after: seq<FsOp> -> Files) {
    forall ops, op :: BehavesAt(fs, after, ops, op)
  }

  // ------------------------------------------------- a request, and what comes of it

  predicate Accepted(path: string) { PathOk(path) && NameValid(path) }

  /** A write that succeeds leaves the object as it should be and every other object as it was. */
  lemma WriteIsCarriedOut(fs: Fs, after: seq<FsOp> -> Files, ops: seq<FsOp>, path: string, data: string, append: bool)
    requires FileSystem(fs, after) && |data| <= BLOCK
    ensures var r := StoreWrite(fs, ops, path, data, append);
            && (r.0 <==> Accepted(path) && fs(ops, WriteFile(path, data, append)).Done?)
            && (r.0 ==> Written(after(ops), after(r.1), path, data, append))
  {
    if PathOk(path) {
      if NameValid(path) {
        RemoteWriteAnswers(fs, ops, path, data, append);
        assert BehavesAt(fs, after, ops, WriteFile(path, data, append));
      } else {
        BadNameNotWritten(fs, ops, path, data, append);
      }
    }
  }

  ghost predicate Written(files: Files, files': Files, path: string, data: string, append: bool) {
    && OthersKept(files, files', path)
    && path in files' && files'[path] == if append then Object(files, path) + data else data
  }

  lemma ReadIsCarriedOut(fs: Fs, after: seq<FsOp> -> Files, ops: seq<FsOp>, path: string, offset: u64, len: nat)
    requires FileSystem(fs, after) && len <= BLOCK
    ensures Readable(fs, ops, path, offset, len) ==> path in after(ops)
    ensures StoreRead(fs, ops, path, offset, len).0 ==
            if Readable(fs, ops, path, offset, len) then Some(Slice(after(ops)[path], offset, len)) else None
  {
    assert BehavesAt(fs, after, ops, ReadFile(path, offset, len));
    if PathOk(path) {
      if NameValid(path) && offset <= LONG_MAX {
        RemoteReadAnswers(fs, ops, path, offset, len);
      } else {
        BadReadRefused(fs, ops, path, offset, len);
      }
    }
  }

  /** The store would carry the read out. */
  predicate Readable(fs: Fs, ops: seq<FsOp>, path: string, offset: nat, len: nat) {
    Accepted(path) && offset <= LONG_MAX && fs(ops, ReadFile(path, offset, len)).Done?
  }

  lemma SizeIsCarriedOut(fs: Fs, after: seq<FsOp> -> Files, ops: seq<FsOp>, path: string)
    requires FileSystem(fs, after)
    ensures Known(fs, ops, path) ==> path in after(ops)
    ensures StoreSize(fs, ops, path).0 == if Known(fs, ops, path) then Some(|after(ops)[path]| % B64) else None
  {
    assert BehavesAt(fs, after, ops, StatFile(path));
    if PathOk(path) {
      if NameValid(path) {
        RemoteSizeAnswers(fs, ops, path);
      } else {
        BadNameHasNoSize(fs, ops, path);
      }
    }
  }

  /** The store would tell the size. */
  predicate Known(fs: Fs, ops: seq<FsOp>, path: string) { Accepted(path) && fs(ops, StatFile(path)).Done? }

  // -------------------------------------------------------- what the registers name

  ghost function PathOf(r: Services.Regs, mem: Memory): string
    requires AddressSpaces.IsString(mem, r.rdi, Services.PATH)
  {
    Chars(AddressSpaces.StringAt(mem, r.rdi, Services.PATH))
  }

  ghost function DataOf(r: Services.Regs, mem: Memory): string
    requires AddressSpaces.UserMemory(mem) && Services.WriteOk(r, mem)
  {
    AddressSpaces.RangeInMemory(mem, r.rsi, r.rdx);
    Chars(AddressSpaces.BytesAt(mem, r.rsi, r.rdx))
  }

  /** The data of a write is, byte by byte, what is in memory at rsi. */
  lemma DataIsInMemory(r: Services.Regs, mem: Memory)
    requires AddressSpaces.UserMemory(mem) && Services.WriteOk(r, mem)
    ensures |DataOf(r, mem)| == r.rdx && Services.Copied(mem, r.rsi, Bytes(DataOf(r, mem)))
  {
    AddressSpaces.RangeInMemory(mem, r.rsi, r.rdx);
    BytesChars(AddressSpaces.BytesAt(mem, r.rsi, r.rdx));
    Services.CopiedIn(mem, r.rsi, r.rdx);
  }

  /** What the kernel's client hands back is what the store answers to the request. */
  predicate Answers(w: Services.World, fs: Fs, ops: seq<FsOp>, q: Services.Request) {
    match q
    case WriteAll(path, data, append) =>
      w.wrote == if StoreWrite(fs, ops, Chars(path), Chars(data), append).0 then 1 else 0
    case AskSize(path) =>
      (match StoreSize(fs, ops, Chars(path)).0
       case None => w.size.None?
       case Some(size) => w.size.Some? && w.size.value == size)
    case ReadPart(path, offset, len) =>
      (match StoreRead(fs, ops, Chars(path), offset, len).0
       case None => !w.complete
       case Some(s) => w.complete && w.got == Bytes(s))
    case _ => true
  }

  /** The operations the server has carried out once a write is answered. */
  ghost function WriteOps(r: Services.Regs, mem: Memory, fs: Fs, ops: seq<FsOp>): seq<FsOp>
    requires AddressSpaces.UserMemory(mem) && Services.WriteOk(r, mem)
  {
    StoreWrite(fs, ops, PathOf(r, mem), DataOf(r, mem), r.rax == 8).1
  }

  // ------------------------------------------------------------------ the services

  lemma WriteAsked(r: Services.Regs, mem: Memory, w: Services.Answers, udp: bool)
    requires AddressSpaces.UserMemory(mem) && (r.rax == 7 || r.rax == 8) && w.online && Services.WriteOk(r, mem)
    ensures var o := Services.Outcome(r, mem, w, udp, true);
            && o.request.WriteAll? && Chars(o.request.path) == PathOf(r, mem) && Chars(o.request.data) == DataOf(r, mem)
            && (o.request.append <==> r.rax == 8) && |DataOf(r, mem)| == r.rdx
            && o.mem == mem && o.call.Transport? && o.call.reply == w.wrote
  {
    assert Services.Outcome(r, mem, w, udp, true) == Services.StoreWrite(r, mem, w, true);
  }

  /**
   STORE_WRITE and STORE_APPEND for a program that owns TCP.  The answer is 1
   exactly if the store carried the write out.  The object is then, after service
   7, exactly the bytes the program pointed at, and after service 8 the object as
   it was followed by them; no other object has changed.
   */
  lemma WriteServiceStores(r: Services.Regs, mem: Memory, w: Services.Answers, udp: bool,
                           fs: Fs, after: seq<FsOp> -> Files, ops: seq<FsOp>)
    requires AddressSpaces.UserMemory(mem) && FileSystem(fs, after)
    requires (r.rax == 7 || r.rax == 8) && w.online && Services.WriteOk(r, mem)
    requires Answers(w, fs, ops, Services.Outcome(r, mem, w, udp, true).request)
    ensures var o := Services.Outcome(r, mem, w, udp, true);
            var path, data := PathOf(r, mem), DataOf(r, mem);
            var before, files := after(ops), after(WriteOps(r, mem, fs, ops));
            && o.mem == mem && o.call.Transport? && (o.call.reply == 0 || o.call.reply == 1)
            && (o.call.reply == 1 <==> Accepted(path) && fs(ops, WriteFile(path, data, r.rax == 8)).Done?)
            && (o.call.reply == 1 ==> path in files && OthersKept(before, files, path))
            && (o.call.reply == 1 && r.rax == 7 ==> files[path] == data)
            && (o.call.reply == 1 && r.rax == 8 ==> files[path] == Object(before, path) + data)
  {
    WriteAsked(r, mem, w, udp);
    var path, data, append := PathOf(r, mem), DataOf(r, mem), r.rax == 8;
    var done := StoreWrite(fs, ops, path, data, append);
    assert w.wrote == if done.0 then 1 else 0;
    assert (done.0 <==> Accepted(path) && fs(ops, WriteFile(path, data, append)).Done?)
           && (done.0 ==> Written(after(ops), after(done.1), path, data, append)) by {
      WriteIsCarriedOut(fs, after, ops, path, data, append);
    }
  }

  /** What the read and size services leave in memory, by what the client handed back. */
  lemma ReadLeft(r: Services.Regs, mem: Memory, w: Services.Answers, udp: bool)
    requires AddressSpaces.UserMemory(mem) && r.rax == 6 && w.online && Services.ReadOk(r, mem)
    ensures var o := Services.Outcome(r, mem, w, udp, true);
            && o.request == Services.ReadPart(AddressSpaces.StringAt(mem, r.rdi, Services.PATH), r.rsi, r.rcx)
            && o.call.Transport?
            && (!w.complete ==> o.call.reply == 0)
            && (w.complete && |w.got| <= r.rcx ==> o.call.reply == |w.got| && Services.Copied(o.mem, r.rdx, w.got))
  {
    assert Services.Outcome(r, mem, w, udp, true) == Services.StoreRead(r, mem, w, true);
    if w.complete && |w.got| <= r.rcx {
      AddressSpaces.RangeInMemory(mem, r.rdx, r.rcx);
      Services.PartInMemory(mem, r.rdx, |w.got|, r.rcx);
      Services.CopiedOut(mem, r.rdx, w.got);
    }
  }

  lemma WordLeft(mem: Memory, addr: u64, v: u64)
    requires AddressSpaces.UserMemory(mem) && AddressSpaces.UserRange(addr, 8)
    ensures var m := AddressSpaces.Overwritten(mem, addr, PutWord(v, 8));
            AddressSpaces.InMemory(m, addr, 8) && Services.Word64(m, addr) == v
  {
    var s := PutWord(v, 8);
    var m := AddressSpaces.Overwritten(mem, addr, s);
    AddressSpaces.RangeInMemory(mem, addr, 8);
    Services.CopiedOut(mem, addr, s);
    assert AddressSpaces.InMemory(m, addr, 8);
    assert AddressSpaces.BytesAt(m, addr, 8) == s;
    Powers256();
    WordOfPut(v, 8);
  }

  lemma SizeLeft(r: Services.Regs, mem: Memory, w: Services.Answers, udp: bool)
    requires AddressSpaces.UserMemory(mem) && r.rax == 11 && w.online && Services.StatOk(r, mem)
    ensures var o := Services.Outcome(r, mem, w, udp, true);
            && o.request == Services.AskSize(AddressSpaces.StringAt(mem, r.rdi, Services.PATH)) && o.call.Transport?
            && (w.size.None? ==> o.call.reply == 0 && o.mem == mem)
            && (w.size.Some? ==> && o.call.reply == 1 && AddressSpaces.InMemory(o.mem, r.rsi, 8)
                                 && Services.Word64(o.mem, r.rsi) == w.size.value)
  {
    assert Services.Outcome(r, mem, w, udp, true) == Services.StoreStat(r, mem, w, true);
    if w.size.Some? {
      WordLeft(mem, r.rsi, w.size.value);
    }
  }

  /**
   STORE_READ for a program that owns TCP: if the store can read the object, the
   bytes from the offset on, at most as many as asked for, are in the program's
   buffer and the answer is their number; otherwise it is 0.
   */
  lemma ReadServiceReads(r: Services.Regs, mem: Memory, w: Services.Answers, udp: bool,
                         fs: Fs, after: seq<FsOp> -> Files, ops: seq<FsOp>)
    requires AddressSpaces.UserMemory(mem) && FileSystem(fs, after)
    requires r.rax == 6 && w.online && Services.ReadOk(r, mem)
    requires Answers(w, fs, ops, Services.Outcome(r, mem, w, udp, true).request)
    ensures var o, path := Services.Outcome(r, mem, w, udp, true), PathOf(r, mem);
            && o.call.Transport?
            && if Readable(fs, ops, path, r.rsi, r.rcx)
               then && path in after(ops)
                    && var part := Slice(after(ops)[path], r.rsi, r.rcx);
                       o.call.reply == |part| && Services.Copied(o.mem, r.rdx, Bytes(part))
               else o.call.reply == 0
  {
    ReadIsCarriedOut(fs, after, ops, PathOf(r, mem), r.rsi, r.rcx);
    ReadLeft(r, mem, w, udp);
  }

  /** STORE_STAT: if the store knows the object, its length is in the program's buffer, read as a 64-bit word. */
  lemma StatServiceTells(r: Services.Regs, mem: Memory, w: Services.Answers, udp: bool,
                         fs: Fs, after: seq<FsOp> -> Files, ops: seq<FsOp>)
    requires AddressSpaces.UserMemory(mem) && FileSystem(fs, after)
    requires r.rax == 11 && w.online && Services.StatOk(r, mem)
    requires Answers(w, fs, ops, Services.Outcome(r, mem, w, udp, true).request)
    ensures var o, path := Services.Outcome(r, mem, w, udp, true), PathOf(r, mem);
            && o.call.Transport?
            && if Known(fs, ops, path)
               then && path in after(ops) && o.call.reply == 1 && AddressSpaces.InMemory(o.mem, r.rsi, 8)
                    && Services.Word64(o.mem, r.rsi) == |after(ops)[path]| % B64
               else o.call.reply == 0 && o.mem == mem
  {
    SizeIsCarriedOut(fs, after, ops, PathOf(r, mem));
    SizeLeft(r, mem, w, udp);
  }
}
