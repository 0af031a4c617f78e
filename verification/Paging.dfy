/**
 Four-level page tables built over a monotonic page allocator, read as what
 they are meant to be: for every address space a finite map from virtual pages
 to physical pages.

 Pages, virtual and physical, are counted in units of 4096 bytes.  The upper
 half of an application's address space is the kernel's; it is copied when the
 space is created and never walked here.
 */
module Paging {
  const ENTRIES: nat := 512
  const HALF: nat := 256

  datatype Pte = Pte(present: bool, write: bool, user: bool, page: nat)

  const Absent: Pte := Pte(false, false, false, 0)

  /** The four table indices of a virtual page. */
  datatype Va = Va(i4: nat, i3: nat, i2: nat, i1: nat)

  predicate Low(va: Va) { va.i4 < HALF && va.i3 < ENTRIES && va.i2 < ENTRIES && va.i1 < ENTRIES }

  type Tables = map<nat, seq<Pte>>

  function Entry(ts: Tables, t: nat, i: nat): (e: Pte) {
    if t in ts && i < |ts[t]| then ts[t][i] else Absent
  }

  /** What the processor finds for a virtual page: all four levels present, access allowed only if all four allow it. */
  function Walk(ts: Tables, root: nat, va: Va): (e: Pte) {
    var e4 := Entry(ts, root, va.i4);
    var e3 := Entry(ts, e4.page, va.i3);
    var e2 := Entry(ts, e3.page, va.i2);
    var e1 := Entry(ts, e2.page, va.i1);
    if e4.present && e3.present && e2.present && e1.present
    then Pte(true, e4.write && e3.write && e2.write && e1.write, e4.user && e3.user && e2.user && e1.user, e1.page)
    else Absent
  }

  // ------------------------------------------------------------------- the trees

  /** Where a table stands: its level, the root of its space, and the one entry that leads to it. */
  datatype Tag = Tag(level: nat, space: nat, parent: nat, slot: nat)

  type Tags = map<nat, Tag>

  /** Entries of a table that lead to other tables of the same space. */
  predicate Interior(tag: Tag, i: nat) { 1 < tag.level && (tag.level == 4 ==> i < HALF) }

  predicate EntryOk(tags: Tags, t: nat, i: nat, e: Pte)
    requires t in tags
  {
    var tag := tags[t];
    && (Interior(tag, i) && e.present ==>
          && e.user && e.write && e.page in tags && tags[e.page] == Tag(tag.level - 1, tag.space, t, i))
    && (tag.level == 1 && e.present ==> e.user && e.write)
    && (tag.level == 4 && i >= HALF ==> !e.user)
  }

  predicate TableOk(ts: Tables, tags: Tags, t: nat)
    requires t in tags
  {
    && t in ts && |ts[t]| == ENTRIES && 1 <= tags[t].level <= 4
    && (tags[t].level == 4 <==> t == tags[t].space)
    && forall i :: 0 <= i < ENTRIES ==> EntryOk(tags, t, i, ts[t][i])
  }

  /** Every table is reached through exactly one entry, and spaces do not meet in their lower halves. */
  predicate Trees(ts: Tables, tags: Tags) { forall t <- tags :: TableOk(ts, tags, t) }

  predicate IsRoot(tags: Tags, r: nat) { r in tags && tags[r].level == 4 }

  function Empty(): (s: seq<Pte>)
    ensures |s| == ENTRIES && forall i :: 0 <= i < ENTRIES ==> s[i] == Absent
  {
    seq(ENTRIES, _ => Absent)
  }

  /** Hang a new, empty table into entry i of table t. */
  function LinkTables(ts: Tables, t: nat, i: nat, p: nat): Tables
    requires t in ts && i < |ts[t]|
  {
    ts[p := Empty()][t := ts[t][i := Pte(true, true, true, p)]]
  }

  function LinkTags(tags: Tags, t: nat, i: nat, p: nat): Tags
    requires t in tags && tags[t].level > 1
  {
    tags[p := Tag(tags[t].level - 1, tags[t].space, t, i)]
  }

  /** No table has been made of page p. */
  predicate Unused(tags: Tags, p: nat) { p !in tags && forall t <- tags :: tags[t].space != p }

  lemma LinkKeepsTrees(ts: Tables, tags: Tags, t: nat, i: nat, p: nat)
    requires Trees(ts, tags) && t in tags && i < ENTRIES && Interior(tags[t], i)
    requires !ts[t][i].present && Unused(tags, p)
    ensures Trees(LinkTables(ts, t, i, p), LinkTags(tags, t, i, p))
  {
    var ts', tags' := LinkTables(ts, t, i, p), LinkTags(tags, t, i, p);
    assert TableOk(ts, tags, t);
    forall u | u in tags' ensures TableOk(ts', tags', u) {
      if u != p {
        assert TableOk(ts, tags, u);
        forall j | 0 <= j < ENTRIES ensures EntryOk(tags', u, j, ts'[u][j]) {
          assert EntryOk(tags, u, j, ts[u][j]);
        }
      }
    }
  }

  // -------------------------------------------------------------------- the walks

  /** The tables a walk goes through are those of its space, one level after the other. */
  lemma WalkPath(ts: Tables, tags: Tags, root: nat, va: Va)
    requires Trees(ts, tags) && IsRoot(tags, root) && Low(va)
    ensures var e4 := Entry(ts, root, va.i4);
            var e3 := Entry(ts, e4.page, va.i3);
            var e2 := Entry(ts, e3.page, va.i2);
            && (e4.present ==> e4.page in tags && tags[e4.page] == Tag(3, root, root, va.i4))
            && (e4.present && e3.present ==> e3.page in tags && tags[e3.page] == Tag(2, root, e4.page, va.i3))
            && (e4.present && e3.present && e2.present ==>
                  e2.page in tags && tags[e2.page] == Tag(1, root, e3.page, va.i2))
  {
    var e4 := Entry(ts, root, va.i4);
    assert TableOk(ts, tags, root) && EntryOk(tags, root, va.i4, ts[root][va.i4]);
    if e4.present {
      var e3 := Entry(ts, e4.page, va.i3);
      assert TableOk(ts, tags, e4.page) && EntryOk(tags, e4.page, va.i3, e3);
      if e3.present {
        var e2 := Entry(ts, e3.page, va.i2);
        assert TableOk(ts, tags, e3.page) && EntryOk(tags, e3.page, va.i2, e2);
      }
    }
  }

  /** Hanging in an empty table changes no translation. */
  lemma LinkKeepsWalks(ts: Tables, tags: Tags, t: nat, i: nat, p: nat, root: nat, va: Va)
    requires Trees(ts, tags) && t in tags && i < ENTRIES && Interior(tags[t], i)
    requires !ts[t][i].present && Unused(tags, p) && IsRoot(tags, root) && Low(va)
    ensures Walk(LinkTables(ts, t, i, p), root, va) == Walk(ts, root, va)
  {
    var ts' := LinkTables(ts, t, i, p);
    WalkPath(ts, tags, root, va);
    assert TableOk(ts, tags, t) && TableOk(ts, tags, root);
    assert forall u, j :: u != p && !(u == t && j == i) ==> Entry(ts', u, j) == Entry(ts, u, j);
    assert forall j :: !Entry(ts', p, j).present;
  }

  /** Setting entry i of a last-level table: the translation of one page in one space. */
  function SetTables(ts: Tables, t: nat, i: nat, page: nat): Tables
    requires t in ts && i < |ts[t]|
  {
    ts[t := ts[t][i := Pte(true, true, true, page)]]
  }

  lemma SetKeepsTrees(ts: Tables, tags: Tags, t: nat, i: nat, page: nat)
    requires Trees(ts, tags) && t in tags && tags[t].level == 1 && i < ENTRIES
    ensures Trees(SetTables(ts, t, i, page), tags)
  {
    var ts' := SetTables(ts, t, i, page);
    assert TableOk(ts, tags, t);
    forall u | u in tags ensures TableOk(ts', tags, u) {
      assert TableOk(ts, tags, u);
      forall j | 0 <= j < ENTRIES ensures EntryOk(tags, u, j, ts'[u][j]) {
        assert EntryOk(tags, u, j, ts[u][j]);
      }
    }
  }

  /** Two pages are the same, or one of the six values that say where their walks end differs. */
  lemma SetKeepsWalks(ts: Tables, tags: Tags, root: nat, va: Va, page: nat, root': nat, va': Va)
    requires Trees(ts, tags) && IsRoot(tags, root) && Low(va) && IsRoot(tags, root') && Low(va')
    requires var e4 := Entry(ts, root, va.i4);
             var e3 := Entry(ts, e4.page, va.i3);
             var e2 := Entry(ts, e3.page, va.i2);
             e4.present && e3.present && e2.present
    ensures var t := Entry(ts, Entry(ts, Entry(ts, root, va.i4).page, va.i3).page, va.i2).page;
            && t in tags && tags[t].level == 1 && t in ts && |ts[t]| == ENTRIES
            && Walk(SetTables(ts, t, va.i1, page), root', va') ==
               if root' == root && va' == va then Pte(true, true, true, page) else Walk(ts, root', va')
  {
    var e4 := Entry(ts, root, va.i4);
    var e3 := Entry(ts, e4.page, va.i3);
    var t := Entry(ts, e3.page, va.i2).page;
    WalkPath(ts, tags, root, va);
    WalkPath(ts, tags, root', va');
    assert TableOk(ts, tags, t) && TableOk(ts, tags, root) && TableOk(ts, tags, root');
    assert TableOk(ts, tags, e4.page) && TableOk(ts, tags, e3.page);
    var ts' := SetTables(ts, t, va.i1, page);
    assert forall u, j :: !(u == t && j == va.i1) ==> Entry(ts', u, j) == Entry(ts, u, j);
    assert EntryOk(tags, root, va.i4, ts[root][va.i4]);
    assert EntryOk(tags, e4.page, va.i3, ts[e4.page][va.i3]);
    assert EntryOk(tags, e3.page, va.i2, ts[e3.page][va.i2]);
  }

  // ------------------------------------------------------------------ as finite maps

  /** The translations of all spaces: (root, virtual page) to physical page. */
  type Maps = map<(nat, Va), nat>

  ghost predicate Represents(ts: Tables, tags: Tags, maps: Maps) {
    && (forall k <- maps :: IsRoot(tags, k.0) && Low(k.1))
    && (forall root: nat, va {:trigger Walk(ts, root, va)} :: IsRoot(tags, root) && Low(va) ==>
          Walk(ts, root, va) == if (root, va) in maps then Pte(true, true, true, maps[(root, va)]) else Absent)
  }

  /** All tables lie below the allocator's next page. */
  predicate Allocated(tags: Tags, next: nat) { forall t <- tags :: t < next && tags[t].space < next }

  /** No page serves two purposes. */
  ghost predicate Exclusive(tags: Tags, maps: Maps, next: nat) {
    && (forall k <- maps :: maps[k] < next && maps[k] !in tags)
    && (forall k <- maps, l <- maps :: k != l ==> maps[k] != maps[l])
  }

  /** Tables are only added, from pages not used before. */
  predicate Grows(tags: Tags, next: nat, tags': Tags, next': nat) {
    && next <= next'
    && (forall u <- tags :: u in tags' && tags'[u] == tags[u])
    && (forall u <- tags' :: u in tags || u >= next)
  }

  /** No present entry is changed. */
  predicate Extends(ts: Tables, tags: Tags, ts': Tables) {
    forall u <- tags, j :: 0 <= j < ENTRIES && Entry(ts, u, j).present ==> Entry(ts', u, j) == Entry(ts, u, j)
  }

  lemma GrowsOn(tags: Tags, next: nat, tags': Tags, next': nat, tags'': Tags, next'': nat)
    requires Grows(tags, next, tags', next') && Grows(tags', next', tags'', next'')
    ensures Grows(tags, next, tags'', next'')
  {
  }

  /** Tables made later leave the pages in use alone. */
  lemma ExclusiveLater(tags: Tags, maps: Maps, next: nat, tags': Tags, next': nat)
    requires Exclusive(tags, maps, next) && Grows(tags, next, tags', next')
    ensures Exclusive(tags', maps, next')
  {
  }

  /** A page of its own for one translation more. */
  lemma ExclusiveAdd(tags: Tags, maps: Maps, next: nat, key: (nat, Va), page: nat)
    requires Exclusive(tags, maps, next) && key !in maps && page < next && page !in tags && page !in maps.Values
    ensures Exclusive(tags, maps[key := page], next)
  {
    forall k | k in maps ensures maps[k] != page {
      assert maps[k] in maps.Values;
    }
  }

  lemma LinkRepresents(ts: Tables, tags: Tags, maps: Maps, t: nat, i: nat, p: nat)
    requires Trees(ts, tags) && Represents(ts, tags, maps) && Unused(tags, p)
    requires t in tags && t in ts && i < |ts[t]| == ENTRIES && Interior(tags[t], i) && !ts[t][i].present
    ensures Represents(LinkTables(ts, t, i, p), LinkTags(tags, t, i, p), maps)
  {
    var ts', tags' := LinkTables(ts, t, i, p), LinkTags(tags, t, i, p);
    assert TableOk(ts, tags, t);
    forall root: nat, va | IsRoot(tags', root) && Low(va) ensures Walk(ts', root, va) == Walk(ts, root, va) {
      LinkKeepsWalks(ts, tags, t, i, p, root, va);
    }
  }

  lemma LinkKeepsAll(ts: Tables, tags: Tags, maps: Maps, t: nat, i: nat, p: nat)
    requires Trees(ts, tags) && Represents(ts, tags, maps) && Allocated(tags, p)
    requires t in tags && t in ts && i < |ts[t]| == ENTRIES && Interior(tags[t], i) && !ts[t][i].present
    ensures var ts', tags' := LinkTables(ts, t, i, p), LinkTags(tags, t, i, p);
            && Trees(ts', tags') && Represents(ts', tags', maps) && Allocated(tags', p + 1)
            && Grows(tags, p, tags', p + 1) && Extends(ts, tags, ts')
  {
    assert Unused(tags, p);
    LinkKeepsTrees(ts, tags, t, i, p);
    LinkRepresents(ts, tags, maps, t, i, p);
  }

  /** The last-level table that a walk ends in. */
  function LastTable(ts: Tables, root: nat, va: Va): nat {
    Entry(ts, Entry(ts, Entry(ts, root, va.i4).page, va.i3).page, va.i2).page
  }

  predicate Reaches(ts: Tables, root: nat, va: Va) {
    && Entry(ts, root, va.i4).present
    && Entry(ts, Entry(ts, root, va.i4).page, va.i3).present
    && Entry(ts, Entry(ts, Entry(ts, root, va.i4).page, va.i3).page, va.i2).present
  }

  lemma SetKeepsAll(ts: Tables, tags: Tags, maps: Maps, root: nat, va: Va, page: nat)
    requires Trees(ts, tags) && Represents(ts, tags, maps)
    requires IsRoot(tags, root) && Low(va) && Reaches(ts, root, va)
    ensures var t := LastTable(ts, root, va);
            && t in tags && t in ts && |ts[t]| == ENTRIES
            && Trees(SetTables(ts, t, va.i1, page), tags)
            && Represents(SetTables(ts, t, va.i1, page), tags, maps[(root, va) := page])
  {
    var t := LastTable(ts, root, va);
    SetKeepsWalks(ts, tags, root, va, page, root, va);
    SetKeepsTrees(ts, tags, t, va.i1, page);
    var ts', maps' := SetTables(ts, t, va.i1, page), maps[(root, va) := page];
    forall root': nat, va' | IsRoot(tags, root') && Low(va')
      ensures Walk(ts', root', va') == if (root', va') in maps' then Pte(true, true, true, maps'[(root', va')]) else Absent
    {
      SetKeepsWalks(ts, tags, root, va, page, root', va');
    }
  }

  datatype Status = Mapped | Taken | Unaligned | OutOfPages

  class Mmu {
    var tables: Tables
    var next: nat
    var end: nat
    ghost var tags: Tags
    ghost var maps: Maps

    ghost predicate Valid()
      reads this
    {
      Trees(tables, tags) && Represents(tables, tags, maps) && Allocated(tags, next)
    }

    constructor (next: nat, end: nat)
      ensures Valid() && maps == map[] && tags == map[] && this.next == next && this.end == end
    {
      tables, this.next, this.end := map[], next, end;
      tags, maps := map[], map[];
    }

    /** Hand out the next page; false, where the kernel panics, if there is none left. */
    method PageAlloc() returns (ok: bool, page: nat)
      requires Valid()
      modifies this`next
      ensures Valid() && next >= old(next) && page == old(next) && ok == (old(next) < end)
      ensures ok ==> next == page + 1 && Unused(tags, page)
    {
      page := next;
      if next + 1 > end { return false, page; }
      next := next + 1;
      return true, page;
    }

    /** The table that entry i of table t leads to, made if it is not there yet. */
    method NextTable(t: nat, i: nat) returns (ok: bool, child: nat)
      requires Valid() && t in tags && i < ENTRIES && Interior(tags[t], i)
      modifies this`next, this`tables, this`tags
      ensures Valid() && Grows(old(tags), old(next), tags, next) && Extends(old(tables), old(tags), tables)
      ensures ok ==> Entry(tables, t, i).present && Entry(tables, t, i).page == child
    {
      assert TableOk(tables, tags, t) && EntryOk(tags, t, i, tables[t][i]);
      if tables[t][i].present { return true, tables[t][i].page; }
      var page;
      ok, page := PageAlloc();
      if !ok { return false, 0; }
      LinkKeepsAll(tables, tags, maps, t, i, page);
      tables := tables[page := Empty()];
      tables := tables[t := tables[t][i := Pte(true, true, true, page)]];
      tags := LinkTags(tags, t, i, page);
      return true, page;
    }

    /** The last-level table for a virtual page, with the tables above it, made where they are missing. */
    method ReachTable(root: nat, va: Va) returns (ok: bool, pt: nat)
      requires Valid() && IsRoot(tags, root) && Low(va)
      modifies this`next, this`tables, this`tags
      ensures Valid() && Grows(old(tags), old(next), tags, next)
      ensures ok ==> Reaches(tables, root, va) && pt == LastTable(tables, root, va)
    {
      var pdpt, pd;
      ok, pdpt := NextTable(root, va.i4);
      if !ok { return false, 0; }
      WalkPath(tables, tags, root, va);
      ghost var tags3, next3 := tags, next;
      ok, pd := NextTable(pdpt, va.i3);
      GrowsOn(old(tags), old(next), tags3, next3, tags, next);
      if !ok { return false, 0; }
      WalkPath(tables, tags, root, va);
      ok, pt := NextTable(pd, va.i2);
    }

    /**
     Map a physical page, whichever it is, into a space.  If the virtual page is
     free, exactly that translation is added; if it is taken, if one of the two
     addresses is not that of a page, or if pages run out, no translation of any
     space changes.
     */
    method MapUserPage(root: nat, va: Va, page: nat, aligned: bool) returns (status: Status)
      requires Valid() && IsRoot(tags, root) && Low(va)
      modifies this`next, this`tables, this`tags, this`maps
      ensures Valid() && Grows(old(tags), old(next), tags, next)
      ensures status == Mapped ==> aligned && (root, va) !in old(maps) && maps == old(maps)[(root, va) := page]
      ensures status == Taken ==> aligned && (root, va) in old(maps)
      ensures status == Unaligned <==> !aligned
      ensures status != Mapped ==> maps == old(maps)
    {
      if !aligned { return Unaligned; }
      var ok, pt := ReachTable(root, va);
      if !ok { return OutOfPages; }
      LastEntry(tables, tags, maps, root, va);
      if tables[pt][va.i1].present { return Taken; }
      SetKeepsAll(tables, tags, maps, root, va, page);
      tables := tables[pt := tables[pt][va.i1 := Pte(true, true, true, page)]];
      maps := maps[(root, va) := page];
      return Mapped;
    }

    /** A new space: its own lower half empty, its upper half the kernel's, closed to user programs. */
    method CreateSpace(kernel: seq<Pte>) returns (ok: bool, root: nat)
      requires Valid() && |kernel| == ENTRIES
      modifies this`next, this`tables, this`tags
      ensures Valid() && Grows(old(tags), old(next), tags, next)
      ensures ok ==> IsRoot(tags, root) && root !in old(tags)
      ensures ok ==> forall i :: HALF <= i < ENTRIES ==> Entry(tables, root, i) == kernel[i].(user := false)
    {
      ok, root := PageAlloc();
      if !ok { return; }
      var target := Empty();
      var i := HALF;
      while i < ENTRIES
        invariant HALF <= i <= ENTRIES && |target| == ENTRIES
        invariant forall j :: 0 <= j < HALF ==> target[j] == Absent
        invariant forall j :: HALF <= j < i ==> target[j] == kernel[j].(user := false)
      {
        target := target[i := kernel[i].(user := false)];
        i := i + 1;
      }
      RootKeepsAll(tables, tags, maps, root, target);
      tables := tables[root := target];
      tags := tags[root := Tag(4, root, 0, 0)];
    }
  }

  /** The last entry of a walk is present exactly if the page is translated. */
  lemma LastEntry(ts: Tables, tags: Tags, maps: Maps, root: nat, va: Va)
    requires Trees(ts, tags) && Represents(ts, tags, maps) && IsRoot(tags, root) && Low(va) && Reaches(ts, root, va)
    ensures var pt := LastTable(ts, root, va);
            pt in ts && |ts[pt]| == ENTRIES && (ts[pt][va.i1].present <==> (root, va) in maps)
  {
    WalkPath(ts, tags, root, va);
    assert TableOk(ts, tags, LastTable(ts, root, va));
    assert Walk(ts, root, va).present <==> (root, va) in maps;
  }

  lemma RootKeepsAll(ts: Tables, tags: Tags, maps: Maps, root: nat, target: seq<Pte>)
    requires Trees(ts, tags) && Represents(ts, tags, maps) && Allocated(tags, root)
    requires |target| == ENTRIES && (forall i :: 0 <= i < HALF ==> target[i] == Absent)
    requires forall i :: HALF <= i < ENTRIES ==> !target[i].user
    ensures var ts', tags' := ts[root := target], tags[root := Tag(4, root, 0, 0)];
            Trees(ts', tags') && Represents(ts', tags', maps) && Allocated(tags', root + 1)
  {
    var ts', tags' := ts[root := target], tags[root := Tag(4, root, 0, 0)];
    forall t | t in tags' ensures TableOk(ts', tags', t) {
      if t != root {
        assert TableOk(ts, tags, t);
        forall j | 0 <= j < ENTRIES ensures EntryOk(tags', t, j, ts'[t][j]) {
          assert EntryOk(tags, t, j, ts[t][j]);
        }
      }
    }
    forall r: nat, va | IsRoot(tags', r) && Low(va)
      ensures Walk(ts', r, va) == if (r, va) in maps then Pte(true, true, true, maps[(r, va)]) else Absent
    {
      if r != root {
        WalkPath(ts, tags, r, va);
        assert Walk(ts', r, va) == Walk(ts, r, va);
      }
    }
  }
}
