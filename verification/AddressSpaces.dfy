/**
 The four application address spaces, built once over one physical memory, and
 the test of user pointers against them.
 */
module AddressSpaces {
  import opened Basics
  import opened Paging

  const SLOTS: nat := 4

  /** The arena in pages: image, arguments, guard, stack. */
  const BASE_PAGE: nat := 0x40000
  const GUARD: nat := 17
  const PAGES: nat := 22

  /** The table indices of a virtual page number. */
  function VaOf(vpn: nat): Va {
    Va(vpn / 0x800_0000 % ENTRIES, vpn / 0x4_0000 % ENTRIES, vpn / 0x200 % ENTRIES, vpn % ENTRIES)
  }

  function ArenaVa(k: nat): Va { VaOf(BASE_PAGE + k) }

  lemma ArenaIndices(k: nat)
    requires k < PAGES
    ensures ArenaVa(k) == Va(0, 1, 0, k) && Low(ArenaVa(k))
  {
  }

  predicate Backed(k: nat) { k < PAGES && k != GUARD }

  /** The first m pages of the arena of a space, the guard left out. */
  function Arena(root: nat, m: nat): set<(nat, Va)> {
    if m == 0 then {}
    else if Backed(m - 1) then Arena(root, m - 1) + {(root, ArenaVa(m - 1))}
    else Arena(root, m - 1)
  }

  /** The arenas of all spaces. */
  function Arenas(roots: seq<nat>): set<(nat, Va)> {
    if roots == [] then {} else Arenas(roots[..|roots| - 1]) + Arena(roots[|roots| - 1], PAGES)
  }

  lemma {:induction false} InArena(root: nat, m: nat, r: nat, va: Va)
    requires m <= PAGES
    ensures (r, va) in Arena(root, m) <==> r == root && exists k: nat :: k < m && Backed(k) && va == ArenaVa(k)
  {
    if m > 0 {
      InArena(root, m - 1, r, va);
      if k: nat :| k < m && Backed(k) && va == ArenaVa(k) {
        assert k < m - 1 || k == m - 1;
      }
    }
  }

  lemma {:induction false} InArenas(roots: seq<nat>, r: nat, va: Va)
    ensures (r, va) in Arenas(roots) <==> r in roots && exists k: nat :: Backed(k) && va == ArenaVa(k)
  {
    if roots != [] {
      var n := |roots| - 1;
      assert roots == roots[..n] + [roots[n]];
      InArenas(roots[..n], r, va);
      InArena(roots[n], PAGES, r, va);
    }
  }

  lemma NotYetBacked(roots: seq<nat>, root: nat, m: nat)
    requires root !in roots && Backed(m)
    ensures (root, ArenaVa(m)) !in Arenas(roots) + Arena(root, m)
  {
    InArenas(roots, root, ArenaVa(m));
    InArena(root, m, root, ArenaVa(m));
    if k: nat :| k < m && Backed(k) && ArenaVa(m) == ArenaVa(k) {
      ArenaIndices(m);
      ArenaIndices(k);
    }
  }

  /** Back one virtual page that is free; false where the kernel panics for want of memory. */
  method BackPage(mmu: Mmu, root: nat, va: Va) returns (ok: bool, page: nat)
    requires mmu.Valid() && Private(mmu) && IsRoot(mmu.tags, root) && Low(va) && (root, va) !in mmu.maps
    modifies mmu
    ensures mmu.Valid() && Grows(old(mmu.tags), old(mmu.next), mmu.tags, mmu.next)
    ensures ok ==> Private(mmu) && mmu.maps == old(mmu.maps)[(root, va) := page]
  {
    ghost var tags, maps := mmu.tags, mmu.maps;
    ok, page := mmu.PageAlloc();
    if !ok { return; }
    NewPage(tags, maps, page);
    ExclusiveAdd(tags, maps, page + 1, (root, va), page);
    var status := mmu.MapUserPage(root, va, page, true);
    if status == Taken {
      assert false;
    }
    ExclusiveLater(tags, maps[(root, va) := page], page + 1, mmu.tags, mmu.next);
    ok := status == Mapped;
  }

  /** The page handed out next is nobody's. */
  lemma NewPage(tags: Tags, maps: Maps, page: nat)
    requires Exclusive(tags, maps, page)
    ensures page !in maps.Values && Exclusive(tags, maps, page + 1)
  {
  }

  ghost predicate Private(mmu: Mmu)
    reads mmu
  {
    Exclusive(mmu.tags, mmu.maps, mmu.next)
  }

  /** Beside complete spaces, the one of `root` has its arena up to page k. */
  ghost predicate Backing(mmu: Mmu, roots: seq<nat>, root: nat, k: nat)
    reads mmu
  {
    && AllRoots(mmu.tags, roots + [root]) && mmu.Valid() && Private(mmu)
    && mmu.maps.Keys == Arenas(roots) + Arena(root, k)
  }

  predicate AllRoots(tags: Tags, roots: seq<nat>) { Distinct(roots) && forall r <- roots :: IsRoot(tags, r) }

  lemma AllRootsLater(tags: Tags, next: nat, tags': Tags, next': nat, roots: seq<nat>)
    requires AllRoots(tags, roots) && Grows(tags, next, tags', next')
    ensures AllRoots(tags', roots)
  {
  }

  /** Back page k of the arena unless it is the guard. */
  method BackNext(mmu: Mmu, ghost roots: seq<nat>, root: nat, k: nat) returns (ok: bool)
    requires Backing(mmu, roots, root, k) && k < PAGES
    modifies mmu
    ensures ok ==> Backing(mmu, roots, root, k + 1)
  {
    if k == GUARD { return true; }
    ghost var tags, next := mmu.tags, mmu.next;
    LastRoot(tags, roots, root);
    NotYetBacked(roots, root, k);
    ArenaIndices(k);
    var page;
    ok, page := BackPage(mmu, root, ArenaVa(k));
    if !ok { return; }
    AllRootsLater(tags, next, mmu.tags, mmu.next, roots + [root]);
  }

  lemma LastRoot(tags: Tags, roots: seq<nat>, root: nat)
    requires AllRoots(tags, roots + [root])
    ensures IsRoot(tags, root) && root !in roots
  {
    var all := roots + [root];
    assert all[|roots|] == root && root in all;
    forall i | 0 <= i < |roots| ensures roots[i] != root {
      assert all[i] == roots[i];
    }
  }

  /** Back the arena of a root, page by page, leaving the guard out. */
  method BackArena(mmu: Mmu, ghost roots: seq<nat>, root: nat) returns (ok: bool)
    requires Backing(mmu, roots, root, 0)
    modifies mmu
    ensures ok ==> Backing(mmu, roots, root, PAGES)
  {
    var k := 0;
    while k < PAGES
      invariant k <= PAGES && Backing(mmu, roots, root, k)
    {
      ok := BackNext(mmu, roots, root, k);
      if !ok { return; }
      k := k + 1;
    }
    return true;
  }

  /** The spaces with the given roots are complete, and there are no others. */
  ghost predicate Complete(mmu: Mmu, roots: seq<nat>)
    reads mmu
  {
    AllRoots(mmu.tags, roots) && mmu.Valid() && Private(mmu) && mmu.maps.Keys == Arenas(roots)
  }

  /** One more space. */
  method AddSpace(mmu: Mmu, kernel: seq<Pte>, ghost roots: seq<nat>) returns (ok: bool, root: nat)
    requires Complete(mmu, roots) && |kernel| == ENTRIES
    modifies mmu
    ensures ok ==> Complete(mmu, roots + [root])
  {
    ghost var tags, next := mmu.tags, mmu.next;
    ok, root := mmu.CreateSpace(kernel);
    if !ok { return; }
    ExclusiveLater(tags, mmu.maps, next, mmu.tags, mmu.next);
    AllRootsLater(tags, next, mmu.tags, mmu.next, roots);
    RootAdded(tags, mmu.tags, roots, root);
    ok := BackArena(mmu, roots, root);
    assert (roots + [root])[..|roots|] == roots;
  }

  lemma RootAdded(tags: Tags, tags': Tags, roots: seq<nat>, root: nat)
    requires AllRoots(tags, roots) && AllRoots(tags', roots) && root !in tags && IsRoot(tags', root)
    ensures AllRoots(tags', roots + [root])
  {
    forall i | 0 <= i < |roots| ensures roots[i] != root {
      assert roots[i] in roots;
    }
  }

  /** Build the four spaces; false where the kernel panics for want of memory. */
  method ProgramsInit(mmu: Mmu, kernel: seq<Pte>) returns (ok: bool, roots: seq<nat>)
    requires mmu.Valid() && mmu.maps == map[] && |kernel| == ENTRIES
    modifies mmu
    ensures ok ==> |roots| == SLOTS && Complete(mmu, roots)
  {
    roots := [];
    var i := 0;
    while i < SLOTS
      invariant i == |roots| <= SLOTS && Complete(mmu, roots)
    {
      var added, root := AddSpace(mmu, kernel, roots);
      if !added { return false, roots; }
      roots := roots + [root];
      i := i + 1;
    }
    return true, roots;
  }

  /** A virtual page of the lower half, if it is one, translates to a physical page open to the program. */
  predicate Open(ts: Tables, root: nat, va: Va) { Walk(ts, root, va).present && Walk(ts, root, va).user }

  /**
   Isolation: in each space exactly the arena pages other than the guard are
   translated; no two pages, of one space or of two, share a physical page; no
   page table is within reach; and nothing of the upper half is open to users.
   */
  lemma Isolated(mmu: Mmu, roots: seq<nat>, s: nat, va: Va, s': nat, va': Va, i: nat)
    requires |roots| == SLOTS && Complete(mmu, roots)
    requires s < SLOTS && s' < SLOTS && Low(va) && Low(va') && HALF <= i < ENTRIES
    ensures Open(mmu.tables, roots[s], va) <==> Walk(mmu.tables, roots[s], va).present
    ensures Open(mmu.tables, roots[s], va) <==> exists k: nat :: Backed(k) && va == ArenaVa(k)
    ensures Open(mmu.tables, roots[s], va) && Open(mmu.tables, roots[s'], va') && (s, va) != (s', va') ==>
              Walk(mmu.tables, roots[s], va).page != Walk(mmu.tables, roots[s'], va').page
    ensures Open(mmu.tables, roots[s], va) ==> Walk(mmu.tables, roots[s], va).page !in mmu.tags
    ensures !Entry(mmu.tables, roots[s], i).user
  {
    var key, key' := (roots[s], va), (roots[s'], va');
    assert roots[s] in roots && roots[s'] in roots;
    assert TableOk(mmu.tables, mmu.tags, roots[s]);
    assert EntryOk(mmu.tags, roots[s], i, mmu.tables[roots[s]][i]);
    InArenas(roots, roots[s], va);
    assert s != s' ==> roots[s] != roots[s'];
    assert key != key' || (s, va) == (s', va');
  }

  // ------------------------------------------------------------------- user pointers

  const BASE_ADDR: nat := BASE_PAGE * PAGE
  const GUARD_ADDR: nat := BASE_ADDR + GUARD * PAGE
  const STACK_ADDR: nat := GUARD_ADDR + PAGE
  const END_ADDR: nat := BASE_ADDR + PAGES * PAGE

  predicate UserRange(addr: nat, len: nat)
    requires addr < B64 && len < B64
  {
    if addr < BASE_ADDR || addr >= END_ADDR then false
    else if len > END_ADDR - BASE_ADDR then false
    else
      var end := (addr + len) % B64;
      if end < addr || end > END_ADDR then false
      else (addr < GUARD_ADDR && end <= GUARD_ADDR) || (addr >= STACK_ADDR && end <= END_ADDR)
  }

  /** The byte at an address lies in a backed page of the arena. */
  predicate ByteBacked(addr: nat) { addr / PAGE >= BASE_PAGE && Backed(addr / PAGE - BASE_PAGE) }

  /** A range is accepted exactly if its address and all its bytes are backed, for every 64-bit address and length. */
  lemma UserRangeExact(addr: nat, len: nat)
    requires addr < B64 && len < B64
    ensures UserRange(addr, len) <==> ByteBacked(addr) && forall x :: addr <= x < addr + len ==> ByteBacked(x)
  {
    if UserRange(addr, len) {
      forall x | addr <= x < addr + len ensures ByteBacked(x) {
      }
      assert ByteBacked(addr);
    } else if ByteBacked(addr) {
      if addr < GUARD_ADDR {
        assert !ByteBacked(GUARD_ADDR);
        assert addr <= GUARD_ADDR < addr + len;
      } else {
        assert !ByteBacked(END_ADDR);
        assert addr <= END_ADDR < addr + len;
      }
    }
  }

  /** Every byte of an accepted range is mapped in every space. */
  lemma AcceptedIsMapped(mmu: Mmu, roots: seq<nat>, s: nat, addr: nat, len: nat, x: nat)
    requires |roots| == SLOTS && Complete(mmu, roots) && s < SLOTS
    requires addr < B64 && len < B64 && UserRange(addr, len) && addr <= x < addr + len
    ensures Open(mmu.tables, roots[s], VaOf(x / PAGE))
  {
    InRange(addr, len, x);
    BackedIsOpen(mmu, roots, s, x / PAGE - BASE_PAGE);
  }

  lemma InRange(addr: nat, len: nat, x: nat)
    requires addr < B64 && len < B64 && UserRange(addr, len) && addr <= x < addr + len
    ensures ByteBacked(x)
  {
    UserRangeExact(addr, len);
  }

  lemma BackedIsOpen(mmu: Mmu, roots: seq<nat>, s: nat, k: nat)
    requires |roots| == SLOTS && Complete(mmu, roots) && s < SLOTS && Backed(k)
    ensures Open(mmu.tables, roots[s], ArenaVa(k))
  {
    ArenaIndices(k);
    InArenas(roots, roots[s], ArenaVa(k));
    assert roots[s] in roots;
  }

  // ------------------------------------------------------------------ user memory

  /** The memory a program can reach; an access anywhere else is an error. */
  type Memory = map<nat, byte>

  /** Exactly the bytes of backed pages. */
  ghost predicate UserMemory(mem: Memory) { forall x: nat :: x in mem <==> ByteBacked(x) }

  lemma ArenaPage(vpn: nat, k: nat)
    requires vpn < 0x8_0000_0000 && k < PAGES && VaOf(vpn) == ArenaVa(k)
    ensures vpn == BASE_PAGE + k
  {
    ArenaIndices(k);
    assert vpn / 0x800_0000 == 0;
    assert vpn / 0x4_0000 == 1;
    assert vpn / 0x200 == 0x200;
  }

  /** It is exactly what is open to the program, in whichever space it runs. */
  lemma MemoryIsOpen(mmu: Mmu, roots: seq<nat>, s: nat, mem: Memory, x: nat)
    requires |roots| == SLOTS && Complete(mmu, roots) && s < SLOTS && UserMemory(mem) && x < 0x8000_0000_0000
    ensures x in mem <==> Open(mmu.tables, roots[s], VaOf(x / PAGE))
  {
    var vpn := x / PAGE;
    if x in mem {
      BackedIsOpen(mmu, roots, s, vpn - BASE_PAGE);
    } else if Open(mmu.tables, roots[s], VaOf(vpn)) {
      LowPage(vpn);
      OpenIsArena(mmu, roots, s, VaOf(vpn));
      var k: nat :| Backed(k) && VaOf(vpn) == ArenaVa(k);
      ArenaPage(vpn, k);
    }
  }

  lemma LowPage(vpn: nat)
    requires vpn < 0x8_0000_0000
    ensures Low(VaOf(vpn))
  {
  }

  lemma OpenIsArena(mmu: Mmu, roots: seq<nat>, s: nat, va: Va)
    requires |roots| == SLOTS && Complete(mmu, roots) && s < SLOTS && Low(va) && Open(mmu.tables, roots[s], va)
    ensures exists k: nat :: Backed(k) && va == ArenaVa(k)
  {
    Isolated(mmu, roots, s, va, s, va, HALF);
  }

  predicate InMemory(mem: Memory, addr: nat, len: nat) { forall x: nat :: addr <= x < addr + len ==> x in mem }

  lemma RangeInMemory(mem: Memory, addr: u64, len: u64)
    requires UserMemory(mem) && (len == 0 || UserRange(addr, len))
    ensures InMemory(mem, addr, len)
  {
    if len > 0 {
      UserRangeExact(addr, len);
    }
  }

  function BytesAt(mem: Memory, addr: nat, len: nat): (s: seq<byte>)
    requires InMemory(mem, addr, len)
    ensures |s| == len
  {
    seq(len, i requires 0 <= i < len => mem[addr + i])
  }

  /** The bytes from an address up to offset i are there, and none before offset i is zero. */
  predicate StringTo(mem: Memory, addr: nat, i: nat) {
    forall x: nat :: addr <= x < addr + i ==> x in mem && mem[x] != 0
  }

  predicate StringEnds(mem: Memory, addr: nat, i: nat) {
    StringTo(mem, addr, i) && addr + i in mem && mem[addr + i] == 0
  }

  /** A zero byte comes among the first `max`, and all up to it is there. */
  ghost predicate IsString(mem: Memory, addr: nat, max: nat) {
    exists i: nat :: i < max && StringEnds(mem, addr, i)
  }

  ghost function StringLen(mem: Memory, addr: nat, max: nat): (n: nat)
    requires IsString(mem, addr, max)
    ensures n < max && StringEnds(mem, addr, n)
  {
    var i: nat :| i < max && StringEnds(mem, addr, i);
    i
  }

  /** The characters of a string. */
  ghost function StringAt(mem: Memory, addr: nat, max: nat): seq<byte>
    requires IsString(mem, addr, max)
  {
    BytesAt(mem, addr, StringLen(mem, addr, max))
  }

  lemma StringIs(mem: Memory, addr: nat, max: nat, i: nat)
    requires i < max && StringEnds(mem, addr, i)
    ensures StringAt(mem, addr, max) == BytesAt(mem, addr, i)
  {
    var j := StringLen(mem, addr, max);
    assert i <= j by { NoEarlierEnd(mem, addr, i); }
    assert j <= i by { NoEarlierEnd(mem, addr, j); }
  }

  lemma StringInside(mem: Memory, addr: nat, len: nat)
    requires UserMemory(mem) && addr in mem && StringTo(mem, addr, len)
    ensures addr + len <= END_ADDR < B64 && (addr + len) % B64 == addr + len
  {
    if len > 0 {
      assert addr + (len - 1) in mem;
    }
  }

  /**
   The length of a program's string: its first zero, found within the limit.
   Every byte looked at is in the program's memory.
   */
  method UserString(mem: Memory, addr: nat, max: nat) returns (ok: bool, len: nat)
    requires UserMemory(mem) && addr < B64
    ensures ok <==> IsString(mem, addr, max)
    ensures ok ==> len < max && StringEnds(mem, addr, len)
  {
    len := 0;
    UserRangeExact(addr, 1);
    if !UserRange(addr, 1) {
      NoLongerString(mem, addr, 0);
      return false, 0;
    }
    while len < max
      invariant len <= max && addr in mem && StringTo(mem, addr, len)
    {
      StringInside(mem, addr, len);
      UserRangeExact((addr + len) % B64, 1);
      if !UserRange((addr + len) % B64, 1) {
        NoLongerString(mem, addr, len);
        return false, len;
      }
      if mem[addr + len] == 0 {
        assert StringEnds(mem, addr, len);
        return true, len;
      }
      len := len + 1;
    }
    NoEarlierEnd(mem, addr, len);
    return false, len;
  }

  lemma NoEarlierEnd(mem: Memory, addr: nat, len: nat)
    requires StringTo(mem, addr, len)
    ensures forall i: nat :: i < len ==> !StringEnds(mem, addr, i)
  {
    forall i: nat | i < len ensures !StringEnds(mem, addr, i) {
      assert addr <= addr + i < addr + len;
    }
  }

  /** Where the memory ends, no string goes on. */
  lemma NoLongerString(mem: Memory, addr: nat, len: nat)
    requires StringTo(mem, addr, len) && addr + len !in mem
    ensures forall i: nat :: !StringEnds(mem, addr, i)
  {
    NoEarlierEnd(mem, addr, len);
    forall i: nat | i > len ensures !StringEnds(mem, addr, i) {
      assert addr <= addr + len < addr + i;
    }
  }

  // ----------------------------------------------------------------- copying in and out

  function Overwritten(mem: Memory, addr: nat, data: seq<byte>): (m: Memory)
    ensures m.Keys == mem.Keys
  {
    map x | x in mem :: if addr <= x < addr + |data| then data[x - addr] else mem[x]
  }

  /** m is mem but for changes inside a buffer. */
  ghost predicate ChangedIn(mem: Memory, m: Memory, addr: nat, len: nat) {
    m.Keys == mem.Keys && forall x <- mem :: m[x] != mem[x] ==> addr <= x < addr + len
  }

  lemma OverwrittenIn(mem: Memory, addr: nat, data: seq<byte>, len: nat)
    requires |data| <= len
    ensures ChangedIn(mem, Overwritten(mem, addr, data), addr, len)
  {
  }

  /** Read bytes that are all in memory. */
  method CopyIn(mem: Memory, addr: nat, len: nat) returns (data: seq<byte>)
    requires InMemory(mem, addr, len)
    ensures data == BytesAt(mem, addr, len)
  {
    data := [];
    var i := 0;
    while i < len
      invariant i <= len && |data| == i && forall j :: 0 <= j < i ==> data[j] == mem[addr + j]
    {
      data := data + [mem[addr + i]];
      i := i + 1;
    }
  }

  /** Store one byte, in memory. */
  method Poke(mem: Memory, x: nat, v: byte) returns (m: Memory)
    requires x in mem
    ensures m == mem[x := v]
  {
    m := mem[x := v];
  }

  /** Write bytes that all go to memory. */
  method CopyOut(mem: Memory, addr: nat, data: seq<byte>) returns (m: Memory)
    requires InMemory(mem, addr, |data|)
    ensures m == Overwritten(mem, addr, data)
  {
    m := mem;
    var i := 0;
    while i < |data|
      invariant i <= |data| && m.Keys == mem.Keys
      invariant forall x: nat :: x in mem ==> m[x] == if addr <= x < addr + i then data[x - addr] else mem[x]
    {
      m := Poke(m, addr + i, data[i]);
      i := i + 1;
    }
  }
}
