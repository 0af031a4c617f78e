/**
 Choosing the memory the kernel manages out of the boot loader's map.
 */
module MemoryMap {
  import opened Basics

  const MIN_PHYS: nat := 0x100_0000

  datatype Region = Region(usable: bool, base: u64, length: u64)

  function AlignDown(a: nat): (r: nat)
    ensures r % PAGE == 0 && r <= a < r + PAGE
  {
    a - a % PAGE
  }

  function AlignUp(a: nat): (r: nat)
    ensures r % PAGE == 0 && a <= r < a + PAGE
  {
    AlignDown(a + PAGE - 1)
  }

  /** The first whole page of a region at or above 16 MiB. */
  function Start(r: Region): (a: nat) { AlignUp(if r.base < MIN_PHYS then MIN_PHYS else r.base) }

  /** The bytes of whole pages a region offers above 16 MiB. */
  function Offer(r: Region): (n: nat) {
    var end := AlignDown(r.base + r.length);
    if !r.usable || end <= Start(r) then 0 else end - Start(r)
  }

  /** The end of a region, cut to whole pages, and its offer, if it reaches beyond its first whole page. */
  lemma OfferOf(r: Region)
    requires r.usable && r.base + r.length > Start(r)
    ensures AlignDown(r.base + r.length) == Start(r) + Offer(r)
    ensures Offer(r) <= r.base + r.length - Start(r) < Offer(r) + PAGE
  {
    WholePages(Start(r), AlignDown(r.base + r.length), r.base + r.length);
  }

  lemma WholePages(lo: nat, cut: nat, hi: nat)
    requires lo % PAGE == 0 && cut % PAGE == 0 && cut <= hi < cut + PAGE && lo < hi
    ensures lo <= cut
  {
  }

  /** A longer region, page fragments included, never offers fewer whole pages than a multiple of a page below it. */
  lemma LongerOffersMore(n: nat, offer: nat, length: nat)
    requires n % PAGE == 0 && offer % PAGE == 0 && offer <= length < offer + PAGE && length > n
    ensures offer >= n
  {
  }

  predicate Best(rs: seq<Region>, base: nat, end: nat) {
    && base % PAGE == 0 && end % PAGE == 0 && MIN_PHYS <= base <= end
    && (exists r <- rs :: r.usable && base == Start(r) && end == AlignDown(r.base + r.length))
    && (forall r <- rs :: Offer(r) <= end - base)
  }

  predicate NoOffer(rs: seq<Region>) { forall r <- rs :: Offer(r) == 0 }

  /** The best of the regions looked at; base 0 stands for none. */
  predicate SoFar(rs: seq<Region>, base: nat, end: nat) {
    if base == 0 then end == 0 && NoOffer(rs) else Best(rs, base, end)
  }

  lemma NewBest(rs: seq<Region>, base: nat, end: nat, r: Region)
    requires SoFar(rs, base, end)
    requires r.usable && r.base + r.length > Start(r) && r.base + r.length - Start(r) > end - base
    ensures SoFar(rs + [r], Start(r), AlignDown(r.base + r.length))
  {
    OfferOf(r);
    if base != 0 {
      LongerOffersMore(end - base, Offer(r), r.base + r.length - Start(r));
    }
    assert r in rs + [r];
  }

  lemma NotBetter(rs: seq<Region>, base: nat, end: nat, r: Region)
    requires SoFar(rs, base, end)
    requires !r.usable || r.base + r.length <= Start(r) || (base != 0 && r.base + r.length - Start(r) <= end - base)
    ensures SoFar(rs + [r], base, end)
  {
    if r.usable && r.base + r.length > Start(r) {
      OfferOf(r);
    }
  }

  // ------------------------------------------------------------- in 64-bit words

  function End64(r: Region): u64 { (r.base + r.length) % B64 }

  function Start64(r: Region): u64 { AlignDown(((if r.base < MIN_PHYS then MIN_PHYS else r.base) + PAGE - 1) % B64) }

  /** The loop looks at the region. */
  predicate Seen(r: Region) { r.usable && End64(r) > MIN_PHYS && End64(r) > Start64(r) }

  /** A region that does not begin in the last page of the 64-bit space. */
  predicate Begins(r: Region) { r.usable ==> r.base <= B64 - PAGE }

  /** A region that ends inside the 64-bit space. */
  predicate Ends(r: Region) { r.base + r.length < B64 }

  function Ending(rs: seq<Region>): (es: seq<Region>) {
    if rs == [] then []
    else if Ends(rs[|rs| - 1]) then Ending(rs[..|rs| - 1]) + [rs[|rs| - 1]]
    else Ending(rs[..|rs| - 1])
  }

  lemma EndingAppend(rs: seq<Region>, r: Region)
    ensures Ending(rs + [r]) == if Ends(r) then Ending(rs) + [r] else Ending(rs)
  {
    assert (rs + [r])[..|rs|] == rs;
  }

  /** Where the 64-bit sums come out right, and where they wrap the region is not looked at. */
  lemma SumsMean(r: Region)
    requires Begins(r) && r.usable
    ensures Start64(r) == Start(r)
    ensures if Ends(r) then End64(r) == r.base + r.length else !Seen(r)
  {
    if !Ends(r) {
      assert End64(r) == r.base + r.length - B64;
    }
  }

  /** Of regions made of whole pages, those that reach the end of the 64-bit space are passed over, and only those. */
  lemma SeenExactly(r: Region)
    requires r.base % PAGE == 0 && r.length % PAGE == 0
    ensures (Seen(r) <==> Offer(r) > 0) <==> !(r.usable && r.base + r.length >= B64)
  {
    var lo := if r.base < MIN_PHYS then MIN_PHYS else r.base;
    assert lo % PAGE == 0 && lo <= B64 - PAGE;
    assert AlignUp(lo) == lo && Start64(r) == lo;
    assert AlignDown(r.base + r.length) == r.base + r.length;
    if r.base + r.length >= B64 {
      assert End64(r) == r.base + r.length - B64 < lo;
    }
  }

  /**
   The largest usable region above 16 MiB; false, where the kernel panics, if
   there is none of a whole page.  Regions that reach the end of the 64-bit space
   have no part in the choice.
   */
  method MemoryInit(rs: seq<Region>) returns (ok: bool, base: u64, end: u64)
    ensures (forall r <- rs :: Begins(r)) ==> (ok <==> exists r <- Ending(rs) :: Offer(r) > 0)
    ensures (forall r <- rs :: Begins(r)) && ok ==> Best(Ending(rs), base, end)
    ensures ok ==> base < end
  {
    base, end := 0, 0;
    ghost var begin := forall r <- rs :: Begins(r);
    var i := 0;
    while i < |rs|
      invariant i <= |rs| && base <= end && (begin ==> SoFar(Ending(rs[..i]), base, end))
    {
      assert rs[..i + 1] == rs[..i] + [rs[i]];
      base, end := Consider(rs[i], base, end, rs[..i]);
      i := i + 1;
    }
    assert rs[..|rs|] == rs;
    ok := base != 0 && end > base;
  }

  /** The body of the loop. */
  method Consider(r: Region, bestBase: u64, bestEnd: u64, ghost rs: seq<Region>) returns (base: u64, end: u64)
    requires bestBase <= bestEnd
    ensures base <= end
    ensures SoFar(Ending(rs), bestBase, bestEnd) && Begins(r) ==> SoFar(Ending(rs + [r]), base, end)
  {
    base, end := bestBase, bestEnd;
    ghost var es, begins := Ending(rs), SoFar(Ending(rs), base, end) && Begins(r);
    EndingAppend(rs, r);
    if begins && r.usable { SumsMean(r); }
    if r.usable && End64(r) > MIN_PHYS {
      var hi, lo := End64(r), Start64(r);
      if hi > lo && (base == 0 || hi - lo > end - base) {
        if begins { NewBest(es, base, end, r); }
        WholePages(lo, AlignDown(hi), hi);
        return lo, AlignDown(hi);
      }
    }
    if begins && Ends(r) { NotBetter(es, base, end, r); }
  }

  /**
   A usable region that begins in the last page spoils the choice: its beginning
   wraps to zero, and whatever was chosen before it is forgotten.
   */
  lemma LastPageSpoils(r: Region)
    requires r.usable && !Begins(r) && Ends(r)
    ensures Seen(r) && Start64(r) == 0
  {
  }
}
