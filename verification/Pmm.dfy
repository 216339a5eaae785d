/** The physical memory manager: an intrusive LIFO list of free frames and the counts of used ones. */
module PhysicalMemory {
  import opened Lists
  import opened Machine
  import opened Sizes

  datatype PageFlags = PageFlags(free: bool, used: bool, reserved: bool, shared: bool, cow: bool, poison: bool)

  const FREE := PageFlags(true, false, false, false, false, false)
  const USED := PageFlags(false, true, false, false, false, false)
  const RESERVED := PageFlags(false, false, true, false, false, false)

  /** `page_t`. Pointers are words: 0 is NULL and `pfn + 1` points at the frame's own record.
      `u2` is the word in which `prev` and `sharecount` overlap. */
  datatype Page = Page(next: nat, u2: nat, flags: PageFlags, refcount: nat)

  function Ptr(pfn: nat): nat { pfn + 1 }

  /** An entry of the boot loader's memory map. */
  datatype Region = Region(base: nat, length: nat, usable: bool)

  /** The whole frames of a usable region. */
  predicate InRegion(r: Region, p: nat) {
    r.usable && r.base / PAGE_SIZE <= p < (r.base + r.length) / PAGE_SIZE
  }

  ghost predicate Usable(regions: seq<Region>, p: nat) {
    exists i :: 0 <= i < |regions| && InRegion(regions[i], p)
  }

  /** Physical memory as a value; `fl` lists the frames reached from `freelist`, head first. */
  datatype Phys = Phys(pages: seq<Page>, freelist: nat, freePages: nat, ram: seq<Frame>, fl: seq<nat>)

  function NextPtr(fl: seq<nat>, i: nat): nat {
    if i + 1 < |fl| then Ptr(fl[i + 1]) else 0
  }

  function PrevPtr(fl: seq<nat>, i: nat): nat
    requires i <= |fl|
  {
    if i > 0 then Ptr(fl[i - 1]) else 0
  }

  /** The i-th listed frame is free and linked to its neighbours. */
  ghost predicate Linked(pages: seq<Page>, fl: seq<nat>, i: nat)
    requires i < |fl|
  {
    && fl[i] < |pages|
    && pages[fl[i]] == Page(NextPtr(fl, i), PrevPtr(fl, i), FREE, 0)
  }

  ghost predicate RamOK(ram: seq<Frame>) {
    forall f | 0 <= f < |ram| :: |ram[f]| == WORDS
  }

  /** The doubly linked list is acyclic, its head has a null `prev`, it never holds frame 0, and `free_pages`
      is its length. */
  ghost predicate ListOK(s: Phys) {
    && |s.ram| == |s.pages|
    && RamOK(s.ram)
    && Distinct(s.fl)
    && s.freePages == |s.fl|
    && s.freelist == (if s.fl == [] then 0 else Ptr(s.fl[0]))
    && (forall i | 0 <= i < |s.fl| :: 0 < s.fl[i] < |s.pages|)
    && (forall i | 0 <= i < |s.fl| :: Linked(s.pages, s.fl, i))
  }

  /** ... and it holds exactly the frames flagged free. */
  ghost predicate FreeListOK(s: Phys) {
    && ListOK(s)
    && (forall p | 0 <= p < |s.pages| && s.pages[p].flags.free :: p in s.fl)
  }

  /** What `_page_validate_used` demands. */
  predicate LooksUsed(pg: Page) {
    pg.flags.used && !pg.flags.poison && pg.refcount != 0
  }

  /** What the assertions of `_pmm_push` demand of a frame whose counts are zero. */
  predicate Pushable(pg: Page) {
    pg.refcount == 0 && pg.u2 == 0 && !pg.flags.free && !pg.flags.reserved && !pg.flags.poison
  }

  /** `_pmm_push_noscrub`: the frame becomes the head of the list. */
  ghost function Listed(s: Phys, p: nat): Phys
    requires ListOK(s) && p < |s.pages|
  {
    assert s.fl != [] ==> Linked(s.pages, s.fl, 0);
    var pages := s.pages[p := Page(s.freelist, 0, FREE, 0)];
    Phys(if s.fl == [] then pages else pages[s.fl[0] := pages[s.fl[0]].(u2 := Ptr(p))],
         Ptr(p), s.freePages + 1, s.ram, [p] + s.fl)
  }

  /** `_pmm_push`: the frame is scrubbed first. */
  ghost function Pushed(s: Phys, p: nat): Phys
    requires ListOK(s) && p < |s.pages|
  {
    Listed(s, p).(ram := s.ram[p := ZeroFrame()])
  }

  ghost function Popped(s: Phys): Phys
    requires FreeListOK(s) && s.fl != []
  {
    assert Linked(s.pages, s.fl, 0) && (|s.fl| > 1 ==> Linked(s.pages, s.fl, 1));
    var pages := s.pages[s.fl[0] := Page(0, 0, USED, 1)];
    Phys(if |s.fl| == 1 then pages else pages[s.fl[1] := pages[s.fl[1]].(u2 := 0)],
         NextPtr(s.fl, 0), s.freePages - 1, s.ram, s.fl[1..])
  }

  ghost function WithPage(s: Phys, p: nat, pg: Page): Phys
    requires p < |s.pages|
  {
    s.(pages := s.pages[p := pg])
  }

  /** The effect of dropping one reference: the last one sends the frame, scrubbed, to the head of the list. */
  ghost function Unreffed(s: Phys, p: nat): Phys
    requires FreeListOK(s) && p < |s.pages| && s.pages[p].refcount > 0
  {
    if s.pages[p].refcount == 1 then Pushed(s, p)
    else WithPage(s, p, s.pages[p].(refcount := s.pages[p].refcount - 1))
  }

  /** Which frames are under management never changes. */
  ghost predicate SameReserved(s: Phys, t: Phys) {
    |s.pages| == |t.pages| && forall p | 0 <= p < |s.pages| :: t.pages[p].flags.reserved == s.pages[p].flags.reserved
  }

  lemma ReservedKept(s: Phys, p: nat)
    requires FreeListOK(s) && p < |s.pages| && !s.pages[p].flags.reserved
    ensures SameReserved(s, Pushed(s, p))
    ensures s.fl != [] ==> SameReserved(s, Popped(s))
    ensures s.pages[p].refcount > 0 ==> SameReserved(s, Unreffed(s, p))
  {
    if s.fl != [] {
      assert Linked(s.pages, s.fl, 0) && (|s.fl| > 1 ==> Linked(s.pages, s.fl, 1));
    }
  }

  lemma ListedOK(s: Phys, p: nat)
    requires ListOK(s) && 0 < p < |s.pages| && p !in s.fl
    ensures ListOK(Listed(s, p))
    ensures forall q | 0 <= q < |s.pages| && q != p && q !in s.fl :: Listed(s, p).pages[q] == s.pages[q]
  {
    var t := Listed(s, p);
    if s.fl != [] {
      assert Linked(s.pages, s.fl, 0);
    }
    forall i | 0 <= i < |t.fl|
      ensures Linked(t.pages, t.fl, i)
    {
      if i > 0 {
        assert Linked(s.pages, s.fl, i - 1) && t.fl[i] == s.fl[i - 1];
      }
    }
  }

  lemma PushedOK(s: Phys, p: nat)
    requires FreeListOK(s) && 0 < p < |s.pages| && p !in s.fl
    ensures FreeListOK(Pushed(s, p))
    ensures forall q | 0 <= q < |s.pages| && q != p && q !in s.fl :: Pushed(s, p).pages[q] == s.pages[q]
  {
    ListedOK(s, p);
    var t := Pushed(s, p);
    forall i | 0 <= i < |t.fl|
      ensures Linked(t.pages, t.fl, i)
    {
      assert Linked(Listed(s, p).pages, Listed(s, p).fl, i);
    }
  }

  lemma PoppedOK(s: Phys)
    requires FreeListOK(s) && s.fl != []
    ensures FreeListOK(Popped(s))
    ensures s.fl[0] !in Popped(s).fl
    ensures Popped(s).pages[s.fl[0]] == Page(0, 0, USED, 1)
    ensures forall q | 0 <= q < |s.pages| && q !in s.fl :: Popped(s).pages[q] == s.pages[q]
  {
    var t := Popped(s);
    assert Linked(s.pages, s.fl, 0);
    if |s.fl| > 1 {
      assert Linked(s.pages, s.fl, 1);
    }
    forall i | 0 <= i < |t.fl|
      ensures Linked(t.pages, t.fl, i)
    {
      assert Linked(s.pages, s.fl, i + 1) && t.fl[i] == s.fl[i + 1];
    }
    forall q | 0 <= q < |t.pages| && t.pages[q].flags.free
      ensures q in t.fl
    {
      assert q in s.fl;
      var i :| 0 <= i < |s.fl| && s.fl[i] == q;
      assert i > 0 && t.fl[i - 1] == q;
    }
  }

  /** Allocation is last in, first out: the frame freed last comes back first, scrubbed. */
  lemma PopUndoesPush(s: Phys, p: nat)
    requires FreeListOK(s) && 0 < p < |s.pages| && p !in s.fl
    ensures FreeListOK(Pushed(s, p)) && Pushed(s, p).fl[0] == p
    ensures Popped(Pushed(s, p)) == WithPage(s, p, Page(0, 0, USED, 1)).(ram := s.ram[p := ZeroFrame()])
  {
    PushedOK(s, p);
    assert Linked(Pushed(s, p).pages, Pushed(s, p).fl, 0);
    assert s.fl != [] ==> Linked(s.pages, s.fl, 0);
    var t := Popped(Pushed(s, p));
    var want := WithPage(s, p, Page(0, 0, USED, 1));
    assert t.fl == s.fl;
    forall q | 0 <= q < |s.pages|
      ensures t.pages[q] == want.pages[q]
    {
      if q in s.fl {
        assert Pushed(s, p).fl[1..] == s.fl;
      }
    }
    assert t.pages == want.pages;
  }

  predicate Flagged(pg: Page, free: bool) {
    pg.flags == (if free then FREE else RESERVED) && pg.refcount == 0
  }

  lemma UsableNext(regions: seq<Region>, i: nat)
    requires i < |regions|
    ensures forall p :: Usable(regions[..i + 1], p) <==> Usable(regions[..i], p) || InRegion(regions[i], p)
  {
    forall p: nat
      ensures Usable(regions[..i + 1], p) <==> Usable(regions[..i], p) || InRegion(regions[i], p)
    {
      var before, now := regions[..i], regions[..i + 1];
      assert now[i] == regions[i] && forall j | 0 <= j < i :: now[j] == before[j];
      if Usable(now, p) {
        var j :| 0 <= j < |now| && InRegion(now[j], p);
        assert j < i ==> InRegion(before[j], p);
      }
      if Usable(before, p) {
        var j :| 0 <= j < |before| && InRegion(before[j], p);
        assert InRegion(now[j], p);
      }
    }
  }

  /** `pmm.c`'s globals, the frame database and the memory behind it. */
  class Pmm {
    var pages: seq<Page>
    var freelist: nat
    var freePages: nat
    var ram: seq<Frame>
    ghost var fl: seq<nat>

    ghost function View(): Phys
      reads this
    {
      Phys(pages, freelist, freePages, ram, fl)
    }

    /** The second half of `pfndb_init`: every frame starts out reserved, the frames of usable regions are flagged
        free, and frame 0 is reserved again. `junk` is what the database's memory held before. */
    constructor (regions: seq<Region>, maxPfn: nat, ram: seq<Frame>, junk: nat -> nat)
      requires |ram| == maxPfn + 1
      ensures |pages| == maxPfn + 1 && this.ram == ram
      ensures forall p | 0 <= p < |pages| ::
                pages[p].flags == (if p > 0 && Usable(regions, p) then FREE else RESERVED) && pages[p].refcount == 0
    {
      this.ram, freelist, freePages, fl := ram, 0, 0, [];
      pages := seq(maxPfn + 1, i requires 0 <= i < maxPfn + 1 => Page(if i < maxPfn then Ptr(i + 1) else 0, junk(i), RESERVED, 0));
      new;
      for i := 0 to |regions|
        invariant |pages| == maxPfn + 1 && this.ram == ram
        invariant forall p | 0 <= p < |pages| :: Flagged(pages[p], Usable(regions[..i], p))
      {
        UsableNext(regions, i);
        var r := regions[i];
        if !r.usable { continue; }
        var pfn := r.base / PAGE_SIZE;
        ghost var was := pages;
        while pfn < (r.base + r.length) / PAGE_SIZE && pfn <= maxPfn
          invariant r.base / PAGE_SIZE <= pfn && |pages| == maxPfn + 1 && this.ram == ram
          invariant forall p | 0 <= p < |pages| :: Flagged(pages[p], Usable(regions[..i], p) || r.base / PAGE_SIZE <= p < pfn)
          invariant pfn > r.base / PAGE_SIZE ==> pfn <= (r.base + r.length) / PAGE_SIZE
        {
          pages := pages[pfn := pages[pfn].(flags := pages[pfn].flags.(reserved := false, used := false, free := true))];
          pfn := pfn + 1;
        }
      }
      assert regions[..|regions|] == regions;
      pages := pages[0 := pages[0].(flags := RESERVED, refcount := 0)];
    }

    /** `pmm_init`: the free list is built, without scrubbing, from exactly the frames flagged free and not
        reserved; the lowest frame is at the head. */
    method Init()
      requires |ram| == |pages| && RamOK(ram)
      requires |pages| > 0 && pages[0].flags.reserved && !pages[0].flags.free
      requires forall p | 0 <= p < |pages| :: !pages[p].flags.poison && !(pages[p].flags.free && pages[p].flags.reserved)
      modifies this
      ensures FreeListOK(View()) && ram == old(ram) && |pages| == |old(pages)|
      ensures forall p | 0 <= p < |pages| :: p in fl <==> old(pages)[p].flags.free
      ensures forall p | 0 <= p < |pages| && p !in fl :: pages[p] == old(pages)[p]
      ensures forall i, j | 0 <= i < j < |fl| :: fl[i] < fl[j]
    {
      freelist, freePages, fl := 0, 0, [];
      var i := |pages|;
      assert ListOK(View());
      hide ListOK, Listed;
      while i > 0
        invariant 0 <= i <= |pages| == |old(pages)| && ram == old(ram)
        invariant ListOK(View())
        invariant forall p | 0 <= p < |pages| && p !in fl :: pages[p] == old(pages)[p]
        invariant forall p | 0 <= p < |pages| :: p in fl <==> i <= p && old(pages)[p].flags.free
        invariant forall k, j | 0 <= k < j < |fl| :: fl[k] < fl[j]
      {
        i := i - 1;
        if !pages[i].flags.free || pages[i].flags.reserved {
          continue;
        }
        PushNoScrub(i);
      }
    }

    method PushNoScrub(p: nat)
      requires ListOK(View()) && 0 < p < |pages| && p !in fl
      modifies this
      ensures ListOK(View()) && View() == Listed(old(View()), p)
      ensures fl == [p] + old(fl) && |pages| == |old(pages)| && ram == old(ram)
      ensures forall q | 0 <= q < |pages| && q !in fl :: pages[q] == old(pages)[q]
    {
      ListedOK(View(), p);
      pages := pages[p := Page(freelist, 0, FREE, 0)];
      if freelist != 0 {
        pages := pages[freelist - 1 := pages[freelist - 1].(u2 := Ptr(p))];
      }
      freelist := Ptr(p);
      freePages := freePages + 1;
      fl := [p] + fl;
    }

    /** `palloc_page` (and `_pmm_pop`): takes the head of the list; the only panic is an exhausted list. */
    method PallocPage() returns (s: Status, p: nat)
      requires FreeListOK(View())
      modifies this
      ensures s == Panic(OutOfMemory) <==> old(fl) == []
      ensures s.Panic? ==> s == Panic(OutOfMemory) && View() == old(View())
      ensures s.Ok? ==> old(fl) != [] && p == old(fl)[0] && View() == Popped(old(View()))
    {
      p := 0;
      if freelist == 0 {
        return Panic(OutOfMemory), p;
      }
      p := freelist - 1;
      assert Linked(pages, fl, 0) && (|fl| > 1 ==> Linked(pages, fl, 1));
      var pg := pages[p];
      // _page_validate_free
      if !pg.flags.poison {
        if !pg.flags.free { return Panic(NotFree), p; }
        if pg.refcount != 0 { return Panic(FreeWithReferences), p; }
        if pg.u2 != 0 { return Panic(FreeWithMappings), p; }
      }
      freelist := pg.next;
      if freelist != 0 {
        pages := pages[freelist - 1 := pages[freelist - 1].(u2 := 0)];
      }
      pages := pages[p := Page(0, 0, pg.flags.(free := false, used := true), pages[p].refcount)];
      freePages := freePages - 1;
      pages := pages[p := pages[p].(refcount := 1)];
      fl := fl[1..];
      s := Ok;
    }

    /** `page_ref` panics exactly on a frame that does not look used. */
    method PageRef(p: nat) returns (s: Status)
      requires p < |pages|
      modifies this`pages
      ensures s.Ok? <==> old(LooksUsed(pages[p]))
      ensures pages == if s.Ok? then old(pages)[p := old(pages[p]).(refcount := old(pages[p].refcount) + 1)] else old(pages)
    {
      s := Ok;
      :- ValidateUsed(p);
      pages := pages[p := pages[p].(refcount := pages[p].refcount + 1)];
      s := Ok;
    }

    /** `_page_validate_used`: a poisoned frame is reported first, then an unused one, then one without references. */
    method ValidateUsed(p: nat) returns (s: Status)
      requires p < |pages|
      ensures s.Ok? <==> LooksUsed(pages[p])
      ensures s == Panic(Poisoned) <==> pages[p].flags.poison
      ensures s == Panic(NotUsed) <==> !pages[p].flags.poison && !pages[p].flags.used
      ensures s == Panic(UsedWithoutReference) <==> !pages[p].flags.poison && pages[p].flags.used && pages[p].refcount == 0
    {
      if pages[p].flags.poison { return Panic(Poisoned); }
      if !pages[p].flags.used { return Panic(NotUsed); }
      if pages[p].refcount == 0 { return Panic(UsedWithoutReference); }
      return Ok;
    }

    /** `page_unref`: the last reference must not leave mappings behind; the frame is scrubbed and pushed. */
    method PageUnref(p: nat) returns (s: Status)
      requires FreeListOK(View()) && 0 < p < |pages|
      modifies this
      ensures s.Ok? <==> old(LooksUsed(pages[p]) &&
                             (pages[p].refcount == 1 ==> pages[p].u2 == 0 && !pages[p].flags.free && !pages[p].flags.reserved))
      ensures s.Ok? ==> View() == Unreffed(old(View()), p)
      ensures s.Panic? && old(LooksUsed(pages[p]) && pages[p].u2 != 0) ==> s == Panic(StillMapped)
    {
      if !pages[p].flags.used { return Panic(NotUsed); }
      :- ValidateUsed(p);
      pages := pages[p := pages[p].(refcount := pages[p].refcount - 1)];
      if pages[p].refcount == 0 {
        if pages[p].u2 != 0 { return Panic(StillMapped); }
        // _pmm_push
        if !Pushable(pages[p]) { return Panic(AssertFailed); }
        ram := ram[p := ZeroFrame()];
        pages := pages[p := Page(freelist, 0, FREE, 0)];
        if freelist != 0 {
          pages := pages[freelist - 1 := pages[freelist - 1].(u2 := Ptr(p))];
        }
        freelist := Ptr(p);
        freePages := freePages + 1;
        fl := [p] + fl;
      }
      s := Ok;
    }

    /** `page_share`: one more page-table entry names the frame. */
    method PageShare(p: nat) returns (s: Status)
      requires p < |pages|
      modifies this`pages
      ensures s.Ok? <==> old(LooksUsed(pages[p]))
      ensures s.Ok? ==> pages == old(pages)[p := Shared(old(pages[p]))]
      ensures s == Panic(NotUsed) <==> old(!pages[p].flags.poison && !pages[p].flags.used)
    {
      s := Ok;
      :- ValidateUsed(p);
      pages := pages[p := pages[p].(u2 := pages[p].u2 + 1)];
      if pages[p].u2 > 1 {
        pages := pages[p := pages[p].(flags := pages[p].flags.(shared := true))];
      }
      s := Ok;
    }

    /** `page_unshare`: one fewer; at zero it only warns. */
    method PageUnshare(p: nat) returns (s: Status)
      requires p < |pages|
      modifies this`pages
      ensures s.Ok? <==> old(LooksUsed(pages[p]))
      ensures s.Ok? ==> pages == old(pages)[p := Unshared(old(pages[p]))]
    {
      s := Ok;
      :- ValidateUsed(p);
      if pages[p].u2 == 0 {
        return Ok;
      }
      pages := pages[p := pages[p].(u2 := pages[p].u2 - 1)];
      if pages[p].u2 <= 1 {
        pages := pages[p := pages[p].(flags := pages[p].flags.(shared := false))];
      }
      s := Ok;
    }

    /** `page_mark_cow` and `page_clear_cow` */
    method PageSetCow(p: nat, cow: bool) returns (s: Status)
      requires p < |pages|
      modifies this`pages
      ensures s.Ok? <==> old(LooksUsed(pages[p]))
      ensures s.Ok? ==> pages == old(pages)[p := old(pages[p]).(flags := old(pages[p].flags).(cow := cow))]
    {
      s := Ok;
      :- ValidateUsed(p);
      pages := pages[p := pages[p].(flags := pages[p].flags.(cow := cow))];
      s := Ok;
    }
  }

  function Shared(pg: Page): Page {
    pg.(u2 := pg.u2 + 1, flags := if pg.u2 + 1 > 1 then pg.flags.(shared := true) else pg.flags)
  }

  function Unshared(pg: Page): Page {
    if pg.u2 == 0 then pg
    else pg.(u2 := pg.u2 - 1, flags := if pg.u2 - 1 <= 1 then pg.flags.(shared := false) else pg.flags)
  }
}
