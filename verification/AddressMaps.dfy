/** Physical and virtual addresses of the memory that program and DSP share: two on-chip regions,
    four contiguous regions, and one region of huge pages that lie anywhere. */
module AddressMaps {
  import opened Machine

  const PAGE: int := 0x20_0000
  const MAX_PAGES: int := 128
  const CONTIG: int := 4
  const HUGE: int := 4

  /** Addresses from `virt` on are the physical addresses from `phys` on. */
  datatype Region = Region(virt: int, phys: int, size: int) {
    predicate HasVirt(v: int) { virt <= v < virt + size }
    predicate HasPhys(p: int) { phys <= p < phys + size }
  }

  /** Through the first region that has `v`; 0 if none. */
  ghost function PhysOf(us: seq<Region>, v: int): int {
    if us == [] then 0
    else if us[0].HasVirt(v) then v - us[0].virt + us[0].phys
    else PhysOf(us[1..], v)
  }

  /** Through the first region that has `p`; 0 if none. */
  ghost function VirtOf(us: seq<Region>, p: int): int {
    if us == [] then 0
    else if us[0].HasPhys(p) then p - us[0].phys + us[0].virt
    else VirtOf(us[1..], p)
  }

  /** No two regions share an address, on either side, and no 32-bit end address wraps around. */
  ghost predicate Separate(us: seq<Region>) {
    && (forall i :: 0 <= i < |us| ==> us[i].size >= 0)
    && (forall i :: 0 <= i < |us| && us[i].size > 0 ==> 0 < us[i].virt && us[i].virt + us[i].size < WORD)
    && (forall i :: 0 <= i < |us| && us[i].size > 0 ==> 0 < us[i].phys && us[i].phys + us[i].size < WORD)
    && (forall i, j, v :: 0 <= i < j < |us| && us[i].HasVirt(v) ==> !us[j].HasVirt(v))
    && (forall i, j, p :: 0 <= i < j < |us| && us[i].HasPhys(p) ==> !us[j].HasPhys(p))
  }

  lemma {:induction false} PhysOfAt(us: seq<Region>, v: int, k: int)
    requires 0 <= k < |us| && us[k].HasVirt(v) && forall i :: 0 <= i < k ==> !us[i].HasVirt(v)
    ensures PhysOf(us, v) == v - us[k].virt + us[k].phys
    decreases k
  {
    if k > 0 {
      assert forall i :: 0 <= i < k - 1 ==> us[1..][i] == us[i + 1];
      PhysOfAt(us[1..], v, k - 1);
    }
  }

  lemma {:induction false} PhysOfNone(us: seq<Region>, v: int)
    requires forall i :: 0 <= i < |us| ==> !us[i].HasVirt(v)
    ensures PhysOf(us, v) == 0
  {
    if us != [] {
      assert forall i :: 0 <= i < |us| - 1 ==> us[1..][i] == us[i + 1];
      PhysOfNone(us[1..], v);
    }
  }

  lemma {:induction false} VirtOfAt(us: seq<Region>, p: int, k: int)
    requires 0 <= k < |us| && us[k].HasPhys(p) && forall i :: 0 <= i < k ==> !us[i].HasPhys(p)
    ensures VirtOf(us, p) == p - us[k].phys + us[k].virt
    decreases k
  {
    if k > 0 {
      assert forall i :: 0 <= i < k - 1 ==> us[1..][i] == us[i + 1];
      VirtOfAt(us[1..], p, k - 1);
    }
  }

  lemma {:induction false} VirtOfNone(us: seq<Region>, p: int)
    requires forall i :: 0 <= i < |us| ==> !us[i].HasPhys(p)
    ensures VirtOf(us, p) == 0
  {
    if us != [] {
      assert forall i :: 0 <= i < |us| - 1 ==> us[1..][i] == us[i + 1];
      VirtOfNone(us[1..], p);
    }
  }

  /** The first region of a list that satisfies a test, as the translations look for it. */
  lemma FirstPhys(us: seq<Region>, p: int) returns (k: int)
    ensures 0 <= k <= |us| && (forall i :: 0 <= i < k ==> !us[i].HasPhys(p)) && (k < |us| ==> us[k].HasPhys(p))
  {
    k := 0;
    while k < |us| && !us[k].HasPhys(p)
      invariant 0 <= k <= |us| && forall i :: 0 <= i < k ==> !us[i].HasPhys(p)
    {
      k := k + 1;
    }
  }

  /** Pages `lo` to `hi` of the table, as regions of their own. */
  ghost function PagesOf(virt: int, pages: seq<int>, lo: int, hi: int): (us: seq<Region>)
    requires 0 <= lo <= hi <= |pages|
    ensures |us| == hi - lo
    ensures forall i :: 0 <= i < hi - lo ==> us[i] == Region(virt + (lo + i) * PAGE, pages[lo + i], PAGE)
  {
    seq(hi - lo, i requires 0 <= i < hi - lo => Region(virt + (lo + i) * PAGE, pages[lo + i], PAGE))
  }

  /** Virtual to physical and back, over what is mapped, whatever the table holds beyond. */
  lemma VirtPhysVirt(us: seq<Region>, stray: seq<Region>, v: int)
    requires Separate(us) && exists k :: 0 <= k < |us| && us[k].HasVirt(v)
    ensures VirtOf(us + stray, PhysOf(us, v)) == v && PhysOf(us, v) != 0
  {
    var k :| 0 <= k < |us| && us[k].HasVirt(v);
    PhysOfAt(us, v, k);
    var p := PhysOf(us, v);
    assert us[k].HasPhys(p);
    assert forall i :: 0 <= i < |us| ==> (us + stray)[i] == us[i];
    VirtOfAt(us + stray, p, k);
  }

  /** And the other way round. */
  lemma PhysVirtPhys(us: seq<Region>, stray: seq<Region>, p: int)
    requires Separate(us) && exists k :: 0 <= k < |us| && us[k].HasPhys(p)
    ensures PhysOf(us, VirtOf(us + stray, p)) == p && 0 < VirtOf(us + stray, p) < WORD
  {
    var k :| 0 <= k < |us| && us[k].HasPhys(p);
    assert forall i :: 0 <= i < |us| ==> (us + stray)[i] == us[i];
    VirtOfAt(us + stray, p, k);
    var v := VirtOf(us + stray, p);
    assert us[k].HasVirt(v);
    PhysOfAt(us, v, k);
  }

  /** What a translation returns is mapped, or 0. */
  lemma PhysIsMapped(us: seq<Region>, v: int)
    ensures PhysOf(us, v) == 0 || exists k :: 0 <= k < |us| && us[k].HasPhys(PhysOf(us, v))
  {
    if k :| 0 <= k < |us| && us[k].HasVirt(v) && forall i :: 0 <= i < k ==> !us[i].HasVirt(v) {
      PhysOfAt(us, v, k);
      assert us[k].HasPhys(PhysOf(us, v));
    } else {
      if exists k :: 0 <= k < |us| && us[k].HasVirt(v) { NoFirst(us, v, |us|); }
      PhysOfNone(us, v);
    }
  }

  lemma {:induction false} NoFirst(us: seq<Region>, v: int, n: nat)
    requires n <= |us| && !exists k :: 0 <= k < |us| && us[k].HasVirt(v) && forall i :: 0 <= i < k ==> !us[i].HasVirt(v)
    ensures forall i :: 0 <= i < n ==> !us[i].HasVirt(v)
    decreases n
  {
    if n > 0 {
      NoFirst(us, v, n - 1);
      assert !us[n - 1].HasVirt(v);
    }
  }

  /** Exactly the mapped physical addresses survive the way to virtual and back. */
  lemma SurvivesExactly(us: seq<Region>, stray: seq<Region>, p: int)
    requires Separate(us) && p != 0
    ensures PhysOf(us, VirtOf(us + stray, p) % WORD) == p <==> exists k :: 0 <= k < |us| && us[k].HasPhys(p)
  {
    if exists k :: 0 <= k < |us| && us[k].HasPhys(p) {
      PhysVirtPhys(us, stray, p);
    } else {
      PhysIsMapped(us, VirtOf(us + stray, p) % WORD);
    }
  }

  /** dsp_phys_to_virt answers for an address that is not mapped exactly if the page table names it
      behind the pages in use, and the 32-bit sum does not come to 0. */
  lemma StrayAnswers(us: seq<Region>, stray: seq<Region>, p: int)
    requires forall k :: 0 <= k < |us| ==> !us[k].HasPhys(p)
    requires forall k :: 0 <= k < |stray| ==> 0 < stray[k].virt && stray[k].virt + stray[k].size <= 2 * WORD
    ensures VirtOf(us + stray, p) % WORD != 0 <==>
              (exists k :: 0 <= k < |stray| && stray[k].HasPhys(p)) && VirtOf(us + stray, p) != WORD
  {
    var all := us + stray;
    assert forall i :: 0 <= i < |all| ==> all[i] == if i < |us| then us[i] else stray[i - |us|];
    var k := FirstPhys(all, p);
    if k < |all| {
      assert stray[k - |us|].HasPhys(p);
      VirtOfAt(all, p, k);
    } else {
      forall i | 0 <= i < |stray|
        ensures !stray[i].HasPhys(p)
      {
        assert all[|us| + i] == stray[i];
      }
      VirtOfNone(all, p);
    }
  }

  lemma Joined(a: Region, b: Region, contig: seq<Region>, mine: seq<Region>, stray: seq<Region>)
    requires |contig| == CONTIG
    ensures var us := [a, b] + contig + mine + stray;
            && us[0] == a && us[1] == b && (forall i :: 2 <= i < 2 + CONTIG ==> us[i] == contig[i - 2])
            && forall i :: 2 + CONTIG <= i < |us| ==>
               us[i] == if i - 2 - CONTIG < |mine| then mine[i - 2 - CONTIG] else stray[i - 2 - CONTIG - |mine|]
  {
  }

  class Tables {
    var l1: Region
    var l2: Region
    /** shared_mem, by cache type; the last entry is the huge-page region, with its first page's
        physical address. */
    const shm: array<Region>
    /** The cache type that each entry of shared_mem has stored; 0 while the entry is unused. */
    const types: array<int>
    /** hugetlb_page_phys_addr */
    const pages: array<int>

    ghost predicate Shape()
      reads this, shm, types, pages
    {
      && shm.Length == CONTIG + 1 && types.Length == CONTIG + 1 && types != pages && pages.Length == MAX_PAGES
      && (forall i :: 0 <= i < CONTIG && shm[i].phys == 0 ==> shm[i] == Region(0, 0, 0))
      && (forall i :: 0 <= i < CONTIG + 1 ==> types[i] == if shm[i].phys == 0 then 0 else i)
      && 0 <= shm[HUGE].size <= MAX_PAGES * PAGE && shm[HUGE].size % PAGE == 0
      && (shm[HUGE].phys == 0 <==> shm[HUGE].size == 0)
      && (forall i :: 0 <= i < MAX_PAGES ==> 0 <= pages[i] && pages[i] + PAGE < WORD)
    }

    /** Everything that is mapped. */
    ghost function Mapped(): seq<Region>
      requires Shape()
      reads this, shm, types, pages
    {
      [l1, l2] + shm[..CONTIG] + PagesOf(shm[HUGE].virt, pages[..], 0, shm[HUGE].size / PAGE)
    }

    /** What the page table still holds behind the pages in use: zeros, or pages of an earlier region. */
    ghost function Stray(): seq<Region>
      requires Shape()
      reads this, shm, types, pages
    {
      if shm[HUGE].phys == 0 then [] else PagesOf(shm[HUGE].virt, pages[..], shm[HUGE].size / PAGE, MAX_PAGES)
    }

    ghost predicate Valid()
      reads this, shm, types, pages
    {
      Shape() && Separate(Mapped())
    }

    constructor ()
      ensures Valid() && fresh(shm) && fresh(types) && fresh(pages)
      ensures l1 == l2 == Region(0, 0, 0) && forall i :: 0 <= i < CONTIG + 1 ==> shm[i] == Region(0, 0, 0)
    {
      l1, l2 := Region(0, 0, 0), Region(0, 0, 0);
      shm := new Region[CONTIG + 1](_ => Region(0, 0, 0));
      types := new int[CONTIG + 1](_ => 0);
      pages := new int[MAX_PAGES](_ => 0);
      new;
      hide Separate;
      assert forall i :: 0 <= i < |Mapped()| ==> Mapped()[i] == Region(0, 0, 0);
      NothingMapped(Mapped());
    }

    /** What is mapped, in the order of the search. */
    lemma MappedList()
      requires Shape()
      ensures var us := Mapped();
        && |us| == 2 + CONTIG + shm[HUGE].size / PAGE && us[0] == l1 && us[1] == l2
        && (forall i :: 2 <= i < 2 + CONTIG ==> us[i] == shm[i - 2])
        && forall i :: 2 + CONTIG <= i < |us| ==>
           us[i] == Region(shm[HUGE].virt + (i - 2 - CONTIG) * PAGE, pages[i - 2 - CONTIG], PAGE)
    {
    }

    lemma PageOf(memOff: int)
      requires Shape() && 0 <= memOff < shm[HUGE].size
      ensures 0 <= memOff / PAGE < shm[HUGE].size / PAGE
      ensures memOff / PAGE * PAGE <= memOff < (memOff / PAGE + 1) * PAGE
    {
    }

    /** dsp_virt_to_phys */
    method VirtToPhys(virt: int) returns (ret: int)
      requires Valid()
      ensures ret == PhysOf(Mapped(), virt)
    {
      hide Separate, Mapped, PhysOf;
      ghost var us := Mapped();
      MappedList();
      ret := 0;
      if l1.virt <= virt < l1.virt + l1.size {
        ret := virt - l1.virt + l1.phys;
        PhysOfAt(us, virt, 0);
      } else if l2.virt <= virt < l2.virt + l2.size {
        ret := virt - l2.virt + l2.phys;
        PhysOfAt(us, virt, 1);
      } else {
        var typ := 0;
        while typ < CONTIG + 1 && !shm[typ].HasVirt(virt)
          invariant 0 <= typ <= CONTIG + 1 && forall i :: 0 <= i < typ ==> !shm[i].HasVirt(virt)
        {
          typ := typ + 1;
        }
        if typ == HUGE {
          var memOff := virt - shm[typ].virt;
          var pageNr := memOff / PAGE;
          var pageOff := memOff - pageNr * PAGE;
          PageOf(memOff);
          ret := pages[pageNr] + pageOff;
          PageApart(us, virt, pageNr);
          PhysOfAt(us, virt, 2 + CONTIG + pageNr);
        } else if typ < CONTIG {
          ret := virt - shm[typ].virt + shm[typ].phys;
          PhysOfAt(us, virt, 2 + typ);
        } else {
          NoPage(us, virt);
          PhysOfNone(us, virt);
        }
      }
    }

    /** Before a page come only lower addresses. */
    lemma PageApart(us: seq<Region>, virt: int, k: int)
      requires Shape() && us == Mapped() && 0 <= k < shm[HUGE].size / PAGE
      requires shm[HUGE].virt + k * PAGE <= virt
      ensures |us| == 2 + CONTIG + shm[HUGE].size / PAGE
      ensures forall i :: 2 + CONTIG <= i < 2 + CONTIG + k ==> !us[i].HasVirt(virt)
    {
      hide Mapped;
      MappedList();
      forall i | 2 + CONTIG <= i < 2 + CONTIG + k
        ensures !us[i].HasVirt(virt)
      {
        assert (i - 2 - CONTIG) * PAGE + PAGE <= k * PAGE;
      }
    }

    /** Outside the region of huge pages there is no page. */
    lemma NoPage(us: seq<Region>, virt: int)
      requires Shape() && us == Mapped() && !shm[HUGE].HasVirt(virt)
      ensures forall i :: 2 + CONTIG <= i < |us| ==> !us[i].HasVirt(virt)
    {
      hide Mapped;
      MappedList();
      forall i | 2 + CONTIG <= i < |us|
        ensures !us[i].HasVirt(virt)
      {
        assert shm[HUGE].size / PAGE * PAGE == shm[HUGE].size;
        assert 0 <= (i - 2 - CONTIG) * PAGE && (i - 2 - CONTIG) * PAGE + PAGE <= shm[HUGE].size / PAGE * PAGE;
      }
    }

    /** The regions, listed in the order of the searches. */
    lemma Listed()
      requires Valid()
      ensures var us := Mapped() + Stray();
              && 2 + CONTIG <= |Mapped()| && us[0] == l1 && us[1] == l2
              && (forall i :: 2 <= i < 2 + CONTIG ==> us[i] == shm[i - 2])
              && |us| == 2 + CONTIG + (if shm[HUGE].phys == 0 then 0 else MAX_PAGES)
              && forall i :: 2 + CONTIG <= i < |us| ==>
                 us[i] == Region(shm[HUGE].virt + (i - 2 - CONTIG) * PAGE, pages[i - 2 - CONTIG], PAGE)
    {
      hide Separate, PagesOf;
      var n := shm[HUGE].size / PAGE;
      var mine := PagesOf(shm[HUGE].virt, pages[..], 0, n);
      Joined(l1, l2, shm[..CONTIG], mine, Stray());
      if shm[HUGE].phys != 0 {
        forall i | 2 + CONTIG <= i < 2 + CONTIG + MAX_PAGES
          ensures (Mapped() + Stray())[i]
            == Region(shm[HUGE].virt + (i - 2 - CONTIG) * PAGE, pages[i - 2 - CONTIG], PAGE)
        {
          var j := i - 2 - CONTIG;
          assert (Mapped() + Stray())[i] == if j < n then mine[j] else Stray()[j - n];
        }
      }
    }

    /** The second page of the table is found whether it is in use or not. */
    lemma SecondPage()
      requires Valid() && l1 == l2 == Region(0, 0, 0) && forall i :: 0 <= i < CONTIG ==> shm[i] == Region(0, 0, 0)
      requires shm[HUGE].virt == 0x4000_0000 && shm[HUGE].phys == 0x8000_0000
      requires pages[0] == 0x8000_0000 && pages[1] == 0x9000_0000
      ensures VirtOf(Mapped() + Stray(), 0x9000_0000) == 0x4020_0000
    {
      hide Separate, Mapped, Stray, PagesOf, VirtOf;
      Listed();
      VirtOfAt(Mapped() + Stray(), 0x9000_0000, 2 + CONTIG + 1);
    }

    lemma InRange(p: int, k: int)
      requires Valid() && 0 <= k < 2 + CONTIG && 2 + CONTIG <= |Mapped()| && Mapped()[k].HasPhys(p)
      ensures 0 < p - Mapped()[k].phys + Mapped()[k].virt < WORD
    {
      hide Mapped;
    }

    /** dsp_phys_to_virt: the huge pages are looked up in the whole table. */
    method PhysToVirt(phys: int) returns (ret: int)
      requires Valid()
      ensures ret == VirtOf(Mapped() + Stray(), phys) % WORD
    {
      hide Separate, Mapped, Stray, VirtOf, PagesOf;
      ghost var us := Mapped() + Stray();
      Listed();
      ret := 0;
      if l1.phys <= phys < l1.phys + l1.size {
        ret := phys - l1.phys + l1.virt;
        VirtOfAt(us, phys, 0);
        InRange(phys, 0);
      } else if l2.phys <= phys < l2.phys + l2.size {
        ret := phys - l2.phys + l2.virt;
        VirtOfAt(us, phys, 1);
        InRange(phys, 1);
      } else {
        var typ := 0;
        while typ < CONTIG && !shm[typ].HasPhys(phys)
          invariant 0 <= typ <= CONTIG && forall i :: 0 <= i < typ ==> !shm[i].HasPhys(phys)
        {
          typ := typ + 1;
        }
        if typ < CONTIG {
          ret := phys - shm[typ].phys + shm[typ].virt;
          VirtOfAt(us, phys, 2 + typ);
          InRange(phys, 2 + typ);
        }
        if ret == 0 {
          if shm[HUGE].phys != 0 {
            var i := 0;
            while i < MAX_PAGES && !(pages[i] <= phys < pages[i] + PAGE)
              invariant 0 <= i <= MAX_PAGES && forall j :: 0 <= j < i ==> !(pages[j] <= phys < pages[j] + PAGE)
            {
              i := i + 1;
            }
            if i < MAX_PAGES {
              ret := (shm[HUGE].virt + i * PAGE + (phys - pages[i])) % WORD;
              VirtOfAt(us, phys, 2 + CONTIG + i);
            } else {
              VirtOfNone(us, phys);
            }
          } else {
            VirtOfNone(us, phys);
          }
        }
      }
    }

    /** dsp_shm_alloc_at for a contiguous type: `virt` and `phys` are what mmap and the kernel gave. */
    method AllocContig(typ: int, numBytes: int, virt: int, phys: int) returns (ret: Region)
      requires Valid() && 0 <= typ < CONTIG && 0 < numBytes <= WORD - 0x1000
      requires |Mapped()| >= 2 + CONTIG
      requires Separate(Mapped()[2 + typ := Region(virt, phys, (numBytes + 0xFFF) / 0x1000 * 0x1000)])
      modifies shm, types
      ensures Valid() && Stray() == old(Stray())
      ensures shm[..] == if old(shm[typ].phys) == 0 then old(shm[..])[typ := ret] else old(shm[..])
      ensures if old(shm[typ].phys) == 0 then ret == Region(virt, phys, (numBytes + 0xFFF) / 0x1000 * 0x1000)
        && Mapped() == old(Mapped())[2 + typ := ret]
              else ret == Region(0, 0, 0) && Mapped() == old(Mapped())
    {
      hide Separate, PagesOf;
      ret := Region(0, 0, 0);
      if shm[typ].phys == 0 {
        ret := Region(virt, phys, (numBytes + 0xFFF) / 0x1000 * 0x1000);
        PhysPositive(Mapped()[2 + typ := ret], 2 + typ);
        shm[typ] := ret;
        types[typ] := typ;
        assert Mapped() == old(Mapped())[2 + typ := ret];
      }
    }

    /** dsp_shm_alloc_at for huge pages: the table is filled up to the last page, and no further. The
        second result says whether the pages fit the table; where they do not, the original goes on
        writing behind it, and this method stops. */
    method AllocHuge(numBytes: int, virt: int, phys: seq<int>) returns (ret: Region, inTable: bool)
      requires Valid() && 0 < numBytes <= WORD - PAGE && |phys| == (numBytes + (PAGE - 1)) / PAGE
      requires Separate([l1, l2] + shm[..CONTIG] + PagesOf(virt, phys, 0, |phys|))
      requires forall i :: 0 <= i < |phys| ==> 0 < phys[i] && phys[i] + PAGE < WORD
      modifies shm, types, pages
      ensures inTable <==> old(shm[HUGE].phys) != 0 || |phys| <= MAX_PAGES
      ensures inTable ==> Valid()
      ensures old(shm[HUGE].phys) != 0 ==> ret == Region(0, 0, 0) && Mapped() == old(Mapped())
      ensures old(shm[HUGE].phys) == 0 && |phys| <= MAX_PAGES ==>
                && ret == Region(virt, phys[0], |phys| * PAGE)
                && Mapped() == [l1, l2] + old(shm[..CONTIG]) + PagesOf(virt, phys, 0, |phys|)
                && pages[..] == phys + old(pages[|phys|..])
      ensures old(shm[HUGE].phys) == 0 ==> shm[..] == old(shm[..])[HUGE := Region(virt, phys[0], |phys| * PAGE)]
    {
      hide Separate;
      ret, inTable := Region(0, 0, 0), true;
      if shm[HUGE].phys == 0 {
        ret := Region(virt, phys[0], (numBytes + (PAGE - 1)) / PAGE * PAGE);
        shm[HUGE] := ret;
        types[HUGE] := HUGE;
        var numPages := |phys|;
        for pageNr := 0 to numPages
          invariant types[..] == old(types[..])[HUGE := HUGE] && shm[..] == old(shm[..])[HUGE := ret]
          invariant ret.size == numPages * PAGE && pageNr <= MAX_PAGES
          invariant forall i :: 0 <= i < pageNr ==> pages[i] == phys[i]
          invariant forall i :: pageNr <= i < MAX_PAGES ==> pages[i] == old(pages[i])
        {
          if pageNr == MAX_PAGES { return ret, false; }
          pages[pageNr] := phys[pageNr];
        }
        assert PagesOf(virt, pages[..], 0, numPages) == PagesOf(virt, phys, 0, numPages);
        assert shm[HUGE].size / PAGE == numPages && shm[..CONTIG] == old(shm[..CONTIG]);
        assert Mapped() == [l1, l2] + shm[..CONTIG] + PagesOf(virt, phys, 0, numPages);
      }
    }

    /** loc_get_cache_type_by_mem: the type stored in the first entry with that address. */
    method TypeOf(phys: int) returns (typ: int)
      requires Valid()
      ensures phys != 0 ==> 0 <= typ <= CONTIG + 1
      ensures phys != 0 && typ <= CONTIG ==> shm[typ].phys == phys
      ensures phys != 0 ==> forall t :: 0 <= t < CONTIG + 1 && t < typ ==> shm[t].phys != phys
      ensures typ == CONTIG + 1 <==> forall t :: 0 <= t < CONTIG + 1 ==> shm[t].phys != phys
      ensures phys == 0 ==> typ == 0 || typ == CONTIG + 1
    {
      var i := 0;
      while i < CONTIG + 1 && shm[i].phys != phys
        invariant 0 <= i <= CONTIG + 1 && forall t :: 0 <= t < i ==> shm[t].phys != phys
      {
        i := i + 1;
      }
      typ := if i < CONTIG + 1 then types[i] else CONTIG + 1;
    }

    /** dsp_shm_free: the region goes, the page table stays as it is. Address 0, which a failed
        allocation returns, names the first entry as long as any entry is unused. */
    method Free(phys: int) returns (typ: int)
      requires Valid()
      modifies shm, types
      ensures Valid() && 0 <= typ <= CONTIG + 1
      ensures forall t :: 0 <= t < CONTIG + 1 ==> shm[t] == if t == typ then Region(0, 0, 0) else old(shm[t])
      ensures typ == CONTIG + 1 <==> forall t :: 0 <= t < CONTIG + 1 ==> old(shm[t]).phys != phys
      ensures phys != 0 && typ <= CONTIG ==> old(shm[typ]).phys == phys
      ensures phys != 0 ==> forall t :: 0 <= t < CONTIG + 1 && t < typ ==> old(shm[t]).phys != phys
      ensures phys == 0 ==> typ == 0 || typ == CONTIG + 1
      ensures phys == 0 ==> (Mapped() != old(Mapped()) <==>
        old(shm[0]).phys != 0 && exists t :: 0 <= t < CONTIG + 1 && old(shm[t]).phys == 0)
    {
      hide Separate, PagesOf, Mapped;
      ghost var was, first, entries := Mapped(), shm[0], shm[..];
      typ := TypeOf(phys);
      MappedList();
      if typ < CONTIG + 1 {
        Drop(typ);
        assert forall t :: 0 <= t < CONTIG + 1 ==> shm[t] == shm[..][t] && entries[t] == old(shm[t]);
        Changed(was, Mapped(), first, typ);
      }
    }

    /** The entry of a type is cleared. */
    method Drop(typ: int)
      requires Valid() && 0 <= typ < CONTIG + 1
      modifies shm, types
      ensures Valid() && shm[..] == old(shm[..])[typ := Region(0, 0, 0)] && |old(Mapped())| >= 2 + CONTIG
      ensures Mapped() == Without(old(Mapped()), typ)
    {
      hide Separate, PagesOf;
      ghost var was := Mapped();
      shm[typ] := Region(0, 0, 0);
      types[typ] := 0;
      if typ < CONTIG {
        Emptied(was, 2 + typ);
        assert Mapped() == was[2 + typ := Region(0, 0, 0)];
      } else {
        Shortened(was, 2 + CONTIG);
        assert Mapped() == was[..2 + CONTIG];
      }
    }
  }

  /** The regions without that of a type. */
  ghost function Without(us: seq<Region>, typ: int): seq<Region>
    requires |us| >= 2 + CONTIG && 0 <= typ < CONTIG + 1
  {
    if typ < CONTIG then us[2 + typ := Region(0, 0, 0)] else us[..2 + CONTIG]
  }

  lemma Changed(us: seq<Region>, us': seq<Region>, first: Region, typ: int)
    requires |us| >= 2 + CONTIG && 0 <= typ < CONTIG + 1 && us[2] == first && us' == Without(us, typ)
    ensures typ == 0 ==> (us' != us <==> first != Region(0, 0, 0))
  {
    assert typ == 0 ==> us'[2] == Region(0, 0, 0);
    assert us == us[2 := first];
  }

  lemma NothingMapped(us: seq<Region>)
    requires forall i :: 0 <= i < |us| ==> us[i] == Region(0, 0, 0)
    ensures Separate(us)
  {
  }

  lemma PhysPositive(us: seq<Region>, k: int)
    requires Separate(us) && 0 <= k < |us| && us[k].size > 0
    ensures us[k].phys > 0
  {
  }

  lemma Emptied(us: seq<Region>, k: int)
    requires Separate(us) && 0 <= k < |us|
    ensures Separate(us[k := Region(0, 0, 0)])
  {
  }

  lemma Shortened(us: seq<Region>, k: int)
    requires Separate(us) && 0 <= k <= |us|
    ensures Separate(us[..k])
  {
  }

  /** Two huge pages are mapped and freed, then one. */
  method PagesAgain() returns (t: Tables)
    ensures fresh(t) && t.Valid() && t.pages[0] == 0x8000_0000 && t.pages[1] == 0x9000_0000
    ensures t.l1 == t.l2 == Region(0, 0, 0) && t.shm[HUGE] == Region(0x4000_0000, 0x8000_0000, PAGE)
    ensures forall i :: 0 <= i < CONTIG ==> t.shm[i] == Region(0, 0, 0)
  {
    hide Separate, VirtOf, PhysOf, PagesOf;
    t := new Tables();
    var two, one := [0x8000_0000, 0x9000_0000], [0x8000_0000];
    Alone(t, 0x4000_0000, two);
    var region, inTable := t.AllocHuge(2 * PAGE, 0x4000_0000, two);
    assert t.shm[..][HUGE] == region && t.pages[..][1] == two[1];
    var typ := t.Free(0x8000_0000);
    Alone(t, 0x4000_0000, one);
    region, inTable := t.AllocHuge(PAGE, 0x4000_0000, one);
    assert t.shm[..][HUGE] == region && t.pages[..][0] == one[0] && t.pages[..][1] == two[1];
  }

  /** A page table that still names a page of an earlier, larger region: dsp_phys_to_virt answers for
      that page, which is not mapped any more. */
  method StrayPage() returns (ret: int)
    ensures ret == 0x4020_0000
  {
    hide VirtOf, Separate, PagesOf, Tables.Mapped, Tables.Stray;
    var t := PagesAgain();
    t.SecondPage();
    ret := t.PhysToVirt(0x9000_0000);
  }

  /** Nor is there anything to collide with for a single contiguous region. */
  lemma AloneContig(us: seq<Region>, r: Region)
    requires |us| == 2 + CONTIG && forall i :: 0 <= i < |us| && i != 2 ==> us[i] == Region(0, 0, 0)
    requires us[2] == r && r.size > 0 && 0 < r.virt && r.virt + r.size < WORD && 0 < r.phys && r.phys + r.size < WORD
    ensures Separate(us)
  {
  }

  /** One page of the first type is mapped. */
  method OneRegion() returns (t: Tables)
    ensures fresh(t) && fresh(t.shm) && fresh(t.types) && t.Valid() && t.l1 == t.l2 == Region(0, 0, 0)
    ensures t.shm[0] == Region(0x4000_0000, 0x8000_0000, 0x1000)
    ensures forall i :: 0 < i < CONTIG + 1 ==> t.shm[i] == Region(0, 0, 0)
  {
    hide Separate, PhysOf, PagesOf;
    t := new Tables();
    var r := Region(0x4000_0000, 0x8000_0000, 0x1000);
    AloneContig(t.Mapped()[2 := r], r);
    r := t.AllocContig(0, 0x1000, 0x4000_0000, 0x8000_0000);
    assert t.shm[..][0] == r;
  }

  /** A caller that frees what a refused allocation returned loses the region of the first type. */
  method LostRegion() returns (before: int, after: int)
    ensures before == 0x8000_0000 && after == 0
  {
    hide Separate, PhysOf, PagesOf, Tables.Mapped;
    var t := OneRegion();
    var r := t.shm[0];
    ghost var us := t.Mapped();
    t.MappedList();
    PhysOfAt(us, 0x4000_0000, 2);
    before := t.VirtToPhys(0x4000_0000);
    assert us[2 := r] == us;
    var second := t.AllocContig(0, 0x1000, 0x4000_0000, 0x8000_0000);
    assert t.shm[..][0] == r;
    var typ := t.Free(second.phys);
    t.MappedList();
    PhysOfNone(t.Mapped(), 0x4000_0000);
    after := t.VirtToPhys(0x4000_0000);
  }

  /** With nothing else mapped, pages that do not overlap are separate. */
  lemma Alone(t: Tables, virt: int, phys: seq<int>)
    requires t.Shape() && t.l1 == t.l2 == Region(0, 0, 0) && forall i :: 0 <= i < CONTIG ==> t.shm[i] == Region(0, 0, 0)
    requires 0 < virt && virt + |phys| * PAGE < WORD
    requires forall i :: 0 <= i < |phys| ==> 0 < phys[i] && phys[i] + PAGE < WORD
    requires forall i, j :: 0 <= i < j < |phys| ==> phys[i] + PAGE <= phys[j]
    ensures Separate([t.l1, t.l2] + t.shm[..CONTIG] + PagesOf(virt, phys, 0, |phys|))
  {
    var us := [t.l1, t.l2] + t.shm[..CONTIG] + PagesOf(virt, phys, 0, |phys|);
    forall i | 0 <= i < |us|
      ensures us[i] == if i < 2 + CONTIG then Region(0, 0, 0)
        else Region(virt + (i - 2 - CONTIG) * PAGE, phys[i - 2 - CONTIG], PAGE)
    {
    }
  }
}
