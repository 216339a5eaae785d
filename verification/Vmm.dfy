/** `vmm.c`: operations on whole address spaces, in terms of the paging layer. */
module VirtualMemory {
  import opened Bytes
  import opened Machine
  import opened PhysicalMemory
  import opened PageTree
  import opened FrameCounts
  import opened Memory
  import opened Paging
  import opened Areas
  import opened CopyOnWrite
  import opened Sizes

  class Vmm {
    const mmu: Mmu
    /** The list of every live `vas_t`, by its PML4. */
    ghost var areas: map<nat, seq<Vad>>

    ghost function View(): Sys
      reads this, mmu, mmu.pmm
    {
      Sys(mmu.View(), areas)
    }

    ghost predicate Knows(vas: Vas)
      reads this, vas
    {
      vas.pml4 in areas && areas[vas.pml4] == vas.areas
    }

    constructor (mmu: Mmu)
      requires Inv(mmu.View()) && mmu.dir == map[] && mmu.flat == map[]
      ensures this.mmu == mmu && areas == map[] && SysInv(View())
    {
      this.mmu, areas := mmu, map[];
    }

    /** `_commit_anon`: a fresh frame for each page of the range. */
    method CommitAnon(root: nat, start: nat, end: nat, f: VadFlags) returns (s: Status)
      requires Inv(mmu.View()) && IsRoot(mmu.dir, root) && Aligned(start) && Aligned(end) && start <= end <= USER_END
      requires forall k: Key | InRange(k, root, start, end) :: k !in mmu.flat
      modifies mmu, mmu.pmm
      ensures s.Panic? ==> s == Panic(OutOfMemory)
      ensures s.Ok? ==> Inv(mmu.View()) && Committed(old(mmu.View()), mmu.View(), root, start, end, f)
      ensures start == end ==> s.Ok? && mmu.View() == old(mmu.View())
    {
      hide Inv, DataKept, Committed;
      ghost var m0 := mmu.View();
      NothingCommitted(m0, root, start, f);
      var va := start;
      while va < end
        invariant start <= va <= end && Aligned(va) && (start == end ==> mmu.View() == m0)
        invariant Inv(mmu.View()) && Committed(m0, mmu.View(), root, start, va, f)
      {
        ghost var m1 := mmu.View();
        CommitReady(m0, m1, root, start, va, end, f);
        var page :- CommitPage(root, va, f);
        CommitStep(m0, m1, mmu.View(), root, start, va, f, page);
        va := va + PAGE_SIZE;
      }
      s := Ok;
    }

    /** One page of `_commit_anon`: `palloc_page`, `map_page`, `page_unref`. */
    method CommitPage(root: nat, va: nat, f: VadFlags) returns (s: Status, page: nat)
      requires Inv(mmu.View()) && IsRoot(mmu.dir, root) && va / PAGE_SIZE < USER_PAGES && Key(root, va / PAGE_SIZE) !in mmu.flat
      modifies mmu, mmu.pmm
      ensures s.Panic? ==> s == Panic(OutOfMemory)
      ensures s.Ok? ==> Inv(mmu.View()) && DataKept(old(mmu.View()), mmu.View()) && SameRoots(old(mmu.View()), mmu.View())
      ensures s.Ok? ==> mmu.held == old(mmu.held) && !Data(old(mmu.View()), page)
      ensures s.Ok? ==> mmu.flat == old(mmu.flat)[Key(root, va / PAGE_SIZE) := Word(page, Full(f))]
    {
      hide Inv, DataKept, Data, Owned;
      ghost var m1, k := mmu.View(), Key(root, va / PAGE_SIZE);
      page :- mmu.AllocPage();
      ghost var m2 := mmu.View();
      HeldIsMappable(mmu.View(), k, page);
      :- mmu.MapPage(root, va, page, f.prot);
      ghost var m3 := mmu.View();
      :- mmu.UnrefPage(page);
      CommitKeeps(m1, m2, m3, mmu.View(), k, page);
      s := Ok;
    }

    /** `vas_map_anon`: either there is no place and nothing changes, or the area is committed and listed. The
        system stays good exactly when the area listed is not empty, as it is for lengths that round up to 0. */
    method MapAnon(vas: Vas, hint: nat, length: nat, f: VadFlags) returns (s: Status, base: nat)
      requires SysInv(View()) && Knows(vas) && hint < U64 && length < U64
      modifies this, vas, mmu, mmu.pmm
      ensures s.Panic? ==> s == Panic(OutOfMemory)
      ensures s.Ok? ==> Knows(vas)
      ensures s.Ok? && (length == 0 || AlignUp(length) != 0) ==> SysInv(View())
      ensures s.Ok? && length != 0 && AlignUp(length) == 0 ==>
                (SysInv(View()) <==> Placement(old(vas.areas), old(vas.userStart), hint, AlignUp(length), f.fixed) < 0)
      ensures s.Ok? && (length == 0 || Placement(old(vas.areas), old(vas.userStart), hint, AlignUp(length), f.fixed) < 0) ==>
                base == 0 && View() == old(View()) && vas.userStart == old(vas.userStart)
      ensures s.Ok? && length != 0 && Placement(old(vas.areas), old(vas.userStart), hint, AlignUp(length), f.fixed) >= 0 ==>
                && base == Placement(old(vas.areas), old(vas.userStart), hint, AlignUp(length), f.fixed)
                && vas.userStart == base + AlignUp(length)
                && AnonListed(old(View()), View(), vas.pml4, Vad(base, base + AlignUp(length), f.(anonymous := true), NoFile, 0))
      ensures s.Ok? && length != 0 && f.fixed ==>
                if Open(old(vas.areas), hint - hint % 4096, AlignUp(length)) then
                  && base == hint - hint % 4096 && vas.userStart == base + AlignUp(length)
                  && vas.areas == Insert(old(vas.areas), Vad(base, base + AlignUp(length), f.(anonymous := true), NoFile, 0))
                else base == 0 && View() == old(View()) && vas.userStart == old(vas.userStart)
      ensures s.Ok? && length != 0 && !f.fixed && base != 0 ==>
                && SearchStart(hint, old(vas.userStart)) <= base && Open(old(vas.areas), base, AlignUp(length))
                && (forall c: nat | SearchStart(hint, old(vas.userStart)) <= c && Open(old(vas.areas), c, AlignUp(length)) :: base <= c)
                && vas.userStart == base + AlignUp(length)
                && vas.areas == Insert(old(vas.areas), Vad(base, base + AlignUp(length), f.(anonymous := true), NoFile, 0))
      ensures s.Ok? && length != 0 && !f.fixed && base == 0 ==>
                && View() == old(View()) && vas.userStart == old(vas.userStart)
                && (|| (SearchStart(hint, old(vas.userStart)) == 0 && Open(old(vas.areas), 0, AlignUp(length)))
                    || forall c: nat | SearchStart(hint, old(vas.userStart)) <= c :: !Open(old(vas.areas), c, AlignUp(length)))
    {
      hide Inv, DataKept, AlignUp, Add, WellFormed, Sharing, Spaces, MappedAnon, Committed, FindFree, Insert, AnonListed, Open, SearchStart;
      base := 0;
      if length == 0 {
        return Ok, 0;
      }
      var n := AlignUp(length);
      ghost var s0, l := View(), vas.areas;
      PlacementOK(s0, vas.pml4, vas.userStart, hint, length, f.fixed);
      PlacementIs(vas.areas, vas.userStart, hint, length, f.fixed);
      if f.fixed {
        base := AlignDown(hint);
        var end := Add(base, n);
        if end > USER_END || end < base {
          return Ok, 0;
        }
        var taken := vas.Overlaps(base, end);
        if taken {
          return Ok, 0;
        }
      } else {
        base := vas.FindFreeBase(if hint != 0 then hint else vas.userStart, n);
        if base == 0 {
          return Ok, 0;
        }
      }
      var v := Vad(base, base + n, f.(anonymous := true), NoFile, 0);
      :- CommitAnon(vas.pml4, base, base + n, v.flags);
      vas.InsertArea(v);
      vas.userStart := base + n;
      areas := areas[vas.pml4 := vas.areas];
      AnonDone(s0, View(), vas.pml4, v);
      s := Ok;
    }

    /** `_uncommit_range` */
    method UncommitRange(root: nat, start: nat, end: nat)
      requires Inv(mmu.View()) && IsRoot(mmu.dir, root) && Aligned(start) && Aligned(end) && end <= USER_END
      modifies mmu, mmu.pmm
      ensures Inv(mmu.View()) && Withdrawn(old(mmu.View()), mmu.View(), root, start, end)
    {
      hide Inv, DataKept, Withdrawn;
      ghost var m0 := mmu.View();
      NothingWithdrawn(m0, root, start, end);
      var va := start;
      while va < end
        invariant start <= va && (va <= end || start > end) && Aligned(va)
        invariant Inv(mmu.View()) && Withdrawn(m0, mmu.View(), root, start, if start <= end then va else end)
      {
        ghost var m1 := mmu.View();
        WithdrawReady(m0, m1, root, start, va, end);
        var s := mmu.UnmapPage(root, va);
        WithdrawStep(m0, m1, mmu.View(), root, start, va);
        va := va + PAGE_SIZE;
      }
    }
  
    /** `vas_unmap`: exactly the pages in the rounded range lose coverage and translation. The system stays good
        exactly when the end did not wrap below the start inside a single area. */
    method Unmap(vas: Vas, start: nat, length: nat)
      requires SysInv(View()) && Knows(vas) && start < U64 && length < U64
      modifies this, vas`areas, mmu, mmu.pmm
      ensures Knows(vas) && vas.areas == UnmapList(old(vas.areas), start, length)
      ensures SysInv(View()) <==> length == 0 || !Straddled(old(vas.areas), AlignDown(start), Add(AlignDown(start), AlignUp(length)))
      ensures length == 0 ==> View() == old(View())
      ensures length != 0 ==> Unmapped(old(View()), View(), vas.pml4, AlignDown(start), Add(AlignDown(start), AlignUp(length)))
      ensures UnmapExact(start, length) ==> LostPages(old(mmu.flat), mmu.flat, vas.pml4, start, length)
    {
      hide Inv, DataKept, AlignUp, WellFormed, Sharing, Withdrawn, Spaces, Straddled, UnmapExact, LostPages, Unmapped;
      NothingLost(mmu.flat, vas.pml4, start);
      if length == 0 {
        return;
      }
      var lo := AlignDown(start);
      var hi := Add(lo, AlignUp(length));
      ghost var s0, root := View(), vas.pml4;
      UnmapReady(s0, root, lo, length);
      for i := 0 to |vas.areas|
        invariant vas.areas == s0.areas[root] && areas == s0.areas
        invariant Inv(mmu.View()) && Withdrawn(s0.mem, mmu.View(), root, lo, Min(hi, Edge(vas.areas, i)))
      {
        var v := vas.areas[i];
        if v.start >= hi {
          LastGap(s0, mmu.View(), root, lo, hi, i);
          FinishUnmap(vas, lo, hi, s0);
          AskedPages(s0, View(), root, start, length);
          return;
        }
        ghost var m1 := mmu.View();
        UnmapArea(s0, m1, root, lo, hi, i);
        if v.end <= lo {
          continue;
        }
        UncommitRange(vas.pml4, Max(v.start, lo), Min(v.end, hi));
        UnmapStep(s0, m1, mmu.View(), root, lo, hi, i);
      }
      LastGap(s0, mmu.View(), root, lo, hi, |vas.areas|);
      FinishUnmap(vas, lo, hi, s0);
      AskedPages(s0, View(), root, start, length);
    }

    /** The end of `vas_unmap`: the list loses the range. */
    method FinishUnmap(vas: Vas, lo: nat, hi: nat, ghost s0: Sys)
      requires SysInv(s0) && vas.pml4 in s0.areas && vas.areas == s0.areas[vas.pml4] && areas == s0.areas
      requires Inv(mmu.View()) && Withdrawn(s0.mem, mmu.View(), vas.pml4, lo, hi)
      requires Aligned(lo) && Aligned(hi)
      modifies this, vas`areas
      ensures Knows(vas) && vas.areas == RemoveRange(old(vas.areas), lo, hi) && Unmapped(s0, View(), vas.pml4, lo, hi)
      ensures SysInv(View()) <==> !Straddled(old(vas.areas), lo, hi)
    {
      hide Inv, DataKept, WellFormed, Sharing, Straddled;
      vas.RemoveAreas(lo, hi);
      areas := areas[vas.pml4 := vas.areas];
      UnmapDone(s0, View(), vas.pml4, lo, hi);
    }

    /** `vas_destroy`: the space and all its tables go; every other space keeps its pages and their contents. */
    method Destroy(vas: Vas)
      requires SysInv(View()) && Knows(vas)
      modifies this, mmu, mmu.pmm
      ensures SysInv(View()) && Destroyed(old(View()), View(), vas.pml4)
    {
      hide Inv, DataKept, WellFormed, Sharing, Fewer, Withdrawn;
      ghost var s0, root := View(), vas.pml4;
      NothingFewer(s0.mem, root);
      for i := 0 to |vas.areas|
        invariant areas == s0.areas
        invariant Inv(mmu.View()) && Fewer(s0.mem, mmu.View(), root)
      {
        ghost var m1 := mmu.View();
        AreaBounds(s0, m1, root, i);
        UncommitRange(vas.pml4, vas.areas[i].start, vas.areas[i].end);
        FewerStep(s0.mem, m1, mmu.View(), root, vas.areas[i].start, vas.areas[i].end);
      }
      ghost var m1 := mmu.View();
      FewerRoots(s0, m1, root);
      var s := mmu.PtableDestroy(vas.pml4);
      areas := areas - {vas.pml4};
      DestroyDone(s0, m1, View(), root);
    }

    /** `vas_create` with a new table. */
    method Create() returns (s: Status, vas: Vas)
      requires SysInv(View())
      modifies this, mmu, mmu.pmm
      ensures s.Panic? ==> s == Panic(OutOfMemory)
      ensures s.Ok? ==> SysInv(View()) && Knows(vas) && fresh(vas) && vas.areas == [] && Created(old(View()), View(), vas.pml4)
      ensures s.Ok? ==> vas.userStart == 0x1000 && IsRoot(mmu.dir, vas.pml4) && KernelAbove(mmu.View(), vas.pml4)
    {
      hide Inv, DataKept, WellFormed, Sharing, KernelAbove;
      ghost var s0 := View();
      vas := new Vas(0);
      var root :- mmu.PtableCreate();
      vas := new Vas(root);
      areas := areas[root := []];
      assert Created(s0, View(), root);
      CreatedOK(s0, View(), root);
      RootsHaveKernel(mmu.View());
      s := Ok;
    }
  
    /** In `vas_clone`: the page's entry is replaced by a read-only one for the same frame, which is then marked. */
    method RemapMarked(root: nat, va: nat, page: nat, bits: Bits) returns (s: Status)
      requires Inv(mmu.View()) && IsRoot(mmu.dir, root) && va / PAGE_SIZE < USER_PAGES
      requires Key(root, va / PAGE_SIZE) in mmu.flat && mmu.flat[Key(root, va / PAGE_SIZE)].pfn == page
      modifies mmu, mmu.pmm
      ensures s.Panic? ==> s == Panic(OutOfMemory)
      ensures s.Ok? ==> Inv(mmu.View()) && SameRoots(old(mmu.View()), mmu.View()) && mmu.held == old(mmu.held)
      ensures s.Ok? ==> mmu.flat == old(mmu.flat)[Key(root, va / PAGE_SIZE) := Word(page, bits.(present := true))]
      ensures s.Ok? ==> KeptBut(old(mmu.View()), mmu.View(), page, true)
    {
      hide Inv, DataKept, Data, Owned, KeptBut;
      ghost var k, m1 := Key(root, va / PAGE_SIZE), mmu.View();
      Detach(root, va, page);
      ghost var m2 := mmu.View();
      :- Attach(root, va, page, bits);
      ghost var m3 := mmu.View();
      MappedIsData(m3, k);
      :- mmu.SetCow(page, true);
      RemapKeeps(m1, m2, m2, m3, mmu.View(), k, page, true);
      s := Ok;
    }

    /** In the fault handler: the mark is cleared and the entry replaced by one with full protection. */
    method RemapCleared(root: nat, va: nat, page: nat, bits: Bits) returns (s: Status)
      requires Inv(mmu.View()) && IsRoot(mmu.dir, root) && va / PAGE_SIZE < USER_PAGES
      requires Key(root, va / PAGE_SIZE) in mmu.flat && mmu.flat[Key(root, va / PAGE_SIZE)].pfn == page
      modifies mmu, mmu.pmm
      ensures s.Panic? ==> s == Panic(OutOfMemory)
      ensures s.Ok? ==> Inv(mmu.View()) && SameRoots(old(mmu.View()), mmu.View()) && mmu.held == old(mmu.held)
      ensures s.Ok? ==> mmu.flat == old(mmu.flat)[Key(root, va / PAGE_SIZE) := Word(page, bits.(present := true))]
      ensures s.Ok? ==> KeptBut(old(mmu.View()), mmu.View(), page, false)
    {
      hide Inv, DataKept, Data, Owned, KeptBut;
      ghost var k, m1 := Key(root, va / PAGE_SIZE), mmu.View();
      Detach(root, va, page);
      ghost var m2 := mmu.View();
      HeldIsData(m2, page);
      :- mmu.SetCow(page, false);
      ghost var m3 := mmu.View();
      :- Attach(root, va, page, bits);
      RemapKeeps(m1, m2, m3, mmu.View(), mmu.View(), k, page, false);
      s := Ok;
    }

    /** `page_ref` then `unmap_page`: the frame survives on the caller's handle. */
    method Detach(root: nat, va: nat, page: nat)
      requires Inv(mmu.View()) && IsRoot(mmu.dir, root) && va / PAGE_SIZE < USER_PAGES
      requires Key(root, va / PAGE_SIZE) in mmu.flat && mmu.flat[Key(root, va / PAGE_SIZE)].pfn == page
      modifies mmu, mmu.pmm
      ensures Inv(mmu.View()) && SameRoots(old(mmu.View()), mmu.View()) && DataKept(old(mmu.View()), mmu.View())
      ensures mmu.held == old(mmu.held) + multiset{page} && mmu.flat == old(mmu.flat) - {Key(root, va / PAGE_SIZE)}
    {
      hide Inv, DataKept, Data;
      ghost var m1 := mmu.View();
      MappedIsData(m1, Key(root, va / PAGE_SIZE));
      var s := mmu.RefPage(page);
      ghost var m2 := mmu.View();
      s := mmu.UnmapPage(root, va);
      DetachKeeps(m1, m2, mmu.View(), Key(root, va / PAGE_SIZE), page);
    }

    /** `map_page` then `page_unref`: the handle becomes a mapping. */
    method Attach(root: nat, va: nat, page: nat, bits: Bits) returns (s: Status)
      requires Inv(mmu.View()) && IsRoot(mmu.dir, root) && va / PAGE_SIZE < USER_PAGES
      requires Key(root, va / PAGE_SIZE) !in mmu.flat && page in mmu.held
      modifies mmu, mmu.pmm
      ensures s.Panic? ==> s == Panic(OutOfMemory)
      ensures s.Ok? ==> Inv(mmu.View()) && SameRoots(old(mmu.View()), mmu.View()) && DataKept(old(mmu.View()), mmu.View())
      ensures s.Ok? ==> mmu.held == old(mmu.held) - multiset{page}
      ensures s.Ok? ==> mmu.flat == old(mmu.flat)[Key(root, va / PAGE_SIZE) := Word(page, bits.(present := true))]
    {
      hide Inv, DataKept, Data, Owned;
      ghost var m1, k := mmu.View(), Key(root, va / PAGE_SIZE);
      HeldIsMappable(mmu.View(), k, page);
      :- mmu.MapPage(root, va, page, bits);
      ghost var m2 := mmu.View();
      :- mmu.UnrefPage(page);
      AttachKeeps(m1, m2, mmu.View(), k, page);
      s := Ok;
    }

    /** One page of `vas_clone`: a private writable page becomes read-only and marked, and the copy maps the frame too. */
    method ClonePage(ghost s0: Sys, src: nat, dst: nat, va: nat, f: VadFlags) returns (s: Status)
      requires SysInv(s0) && src in s0.areas && dst !in s0.areas && Back(s0.areas, Key(src, va / PAGE_SIZE)).Memory?
      requires Back(s0.areas, Key(src, va / PAGE_SIZE)).flags == f && va / PAGE_SIZE < USER_PAGES
      requires Inv(mmu.View()) && CloneState(s0, mmu.View(), src, dst, va / PAGE_SIZE)
      modifies mmu, mmu.pmm
      ensures s.Panic? ==> s == Panic(OutOfMemory)
      ensures s.Ok? ==> Inv(mmu.View()) && CloneState(s0, mmu.View(), src, dst, va / PAGE_SIZE + 1)
    {
      hide Inv, DataKept, Data, Owned, KeptBut, CloneState, Sharing;
      ghost var m1, k := mmu.View(), Key(src, va / PAGE_SIZE);
      CloneReady(s0, m1, src, dst, k);
      var phys := mmu.GetPhys(src, va);
      var page := phys / PAGE_SIZE;
      var bits := f.prot;
      if f.prot.writable && !f.shared {
        bits := f.prot.(writable := false);
        :- RemapMarked(src, va, page, bits);
      }
      ghost var m2 := mmu.View();
      CloneSrc(s0, m1, m2, src, dst, k, f);
      MappedIsMappable(m2, Key(dst, k.vpn), k);
      :- mmu.MapPage(dst, va, page, bits);
      CloneStep(s0, m1, m2, mmu.View(), src, dst, k, f);
      s := Ok;
    }

    /** The inner loop of `vas_clone`: the pages of one area. */
    method CloneArea(ghost s0: Sys, src: nat, dst: nat, v: Vad, ghost i: nat) returns (s: Status)
      requires SysInv(s0) && src in s0.areas && dst !in s0.areas && i < |s0.areas[src]| && v == s0.areas[src][i]
      requires Inv(mmu.View()) && CloneState(s0, mmu.View(), src, dst, Edge(s0.areas[src], i) / PAGE_SIZE)
      modifies mmu, mmu.pmm
      ensures s.Panic? ==> s == Panic(OutOfMemory)
      ensures s.Ok? ==> Inv(mmu.View()) && CloneState(s0, mmu.View(), src, dst, Edge(s0.areas[src], i + 1) / PAGE_SIZE)
    {
      hide Inv, CloneState, Sharing, WellFormed;
      CloneSkip(s0, mmu.View(), src, dst, i);
      AppendArea(s0, src, i);
      var va := v.start;
      while va < v.end
        invariant v.start <= va <= v.end && Aligned(va)
        invariant Inv(mmu.View()) && CloneState(s0, mmu.View(), src, dst, va / PAGE_SIZE)
      {
        AreaPage(s0, src, i, va);
        :- ClonePage(s0, src, dst, va, v.flags);
        va := va + PAGE_SIZE;
      }
      s := Ok;
    }

    /** `vas_clone`: the copy has the same areas, and every page of either reads as the source read before. */
    method Clone(src: Vas) returns (s: Status, dst: Vas)
      requires SysInv(View()) && Knows(src)
      modifies this, mmu, mmu.pmm
      ensures s.Panic? ==> s == Panic(OutOfMemory)
      ensures s.Ok? ==> SysInv(View()) && Knows(dst) && fresh(dst) && Cloned(old(View()), View(), src.pml4, dst.pml4)
      ensures s.Ok? ==> dst.areas == src.areas && dst.userStart == src.userStart
      ensures s.Ok? ==> forall r: nat | IsRoot(mmu.dir, r) :: KernelAbove(mmu.View(), r)
    {
      hide Inv, DataKept, CloneState, KernelAbove, Sharing, WellFormed, Cloned, Spaces, Insert;
      ghost var s0 := View();
      dst :- Create();
      ghost var made := areas;
      assert made == s0.areas[dst.pml4 := []];
      dst.userStart := src.userStart;
      CloneStart(s0, View(), src.pml4, dst.pml4);
      for i := 0 to |src.areas|
        invariant areas == made && src.areas == s0.areas[src.pml4] && dst.areas == src.areas[..i] && dst.userStart == src.userStart
        invariant Inv(mmu.View()) && CloneState(s0, mmu.View(), src.pml4, dst.pml4, Edge(src.areas, i) / PAGE_SIZE)
      {
        var v := src.areas[i];
        AppendArea(s0, src.pml4, i);
        dst.InsertArea(if v.file == NoFile then Vad(v.start, v.end, v.flags, NoFile, 0) else v);
        :- CloneArea(s0, src.pml4, dst.pml4, v, i);
      }
      assert src.areas[..|src.areas|] == src.areas;
      areas := areas[dst.pml4 := dst.areas];
      assert areas == s0.areas[dst.pml4 := s0.areas[src.pml4]];
      CloneDone(s0, View(), src.pml4, dst.pml4);
      RootsHaveKernel(mmu.View());
      s := Ok;
    }
  
    /** `vas_handle_page_fault`: 0 means the page now has its area's full protection on a frame of its own.
        Otherwise nothing changes. In either case no page of any space reads differently. */
    method HandleFault(vas: Vas, addr: nat, write: bool, present: bool) returns (s: Status, r: int)
      requires SysInv(View()) && Knows(vas) && addr < U64
      modifies mmu, mmu.pmm
      ensures s.Panic? ==> s == Panic(OutOfMemory)
      ensures s.Ok? ==> SysInv(View()) && (r == 0 || r == -1)
      ensures s.Ok? && r == -1 ==> View() == old(View())
      ensures s.Ok? && r == 0 ==>
                && Key(vas.pml4, addr / PAGE_SIZE) in old(mmu.flat) && Key(vas.pml4, addr / PAGE_SIZE) in mmu.flat
                && Faulted(old(View()), View(), Key(vas.pml4, addr / PAGE_SIZE))
      ensures s.Ok? ==> (r == 0 <==> write && present && Breakable(old(View()), Key(vas.pml4, addr / PAGE_SIZE)))
    {
      hide Inv, Sharing, Faulted, WellFormed;
      r := -1;
      ghost var s0, k := View(), Key(vas.pml4, addr / PAGE_SIZE);
      var va := AlignDown(addr);
      assert va / PAGE_SIZE == k.vpn && va == k.vpn * PAGE_SIZE;
      var i := Find(vas.areas, va);
      if i < 0 {
        return Ok, -1;
      }
      var f := vas.areas[i].flags;
      FaultReady(s0, k, i);
      if !write || !present || !f.prot.writable || f.shared {
        return Ok, -1;
      }
      var phys := mmu.GetPhys(vas.pml4, va);
      var page := phys / PAGE_SIZE;
      if !mmu.pmm.pages[page].flags.cow {
        return Ok, -1;
      }
      :- BreakShare(vas.pml4, va, page, f);
      return Ok, 0;
    }

    /** The rest of the handler, once the page is known to be breakable. */
    method BreakShare(root: nat, va: nat, page: nat, f: VadFlags) returns (s: Status)
      requires SysInv(View()) && Breakable(View(), Key(root, va / PAGE_SIZE)) && Back(areas, Key(root, va / PAGE_SIZE)).flags == f
      requires root in areas && va / PAGE_SIZE < USER_PAGES && mmu.flat[Key(root, va / PAGE_SIZE)].pfn == page
      requires page < |mmu.pmm.pages| && (mmu.pmm.pages[page].flags.shared <==> Share(mmu.flat, page) > 1)
      modifies mmu, mmu.pmm
      ensures s.Panic? ==> s == Panic(OutOfMemory)
      ensures s.Ok? ==> SysInv(View()) && Key(root, va / PAGE_SIZE) in mmu.flat && Faulted(old(View()), View(), Key(root, va / PAGE_SIZE))
    {
      hide Inv, DataKept, Data, KeptBut, Sharing, Faulted, WellFormed;
      ghost var s0, k := View(), Key(root, va / PAGE_SIZE);
      RootOf(s0, k);
      if !mmu.pmm.pages[page].flags.shared {
        :- RemapCleared(root, va, page, f.prot);
        FaultOnOwn(s0, View(), k);
        return Ok;
      }
      var copy :- CopyPage(root, va, page, f.prot);
      FaultOnCopy(s0, View(), k, copy);
      return Ok;
    }

    /** The copying half of the fault handler: a fresh frame gets the contents and takes over the entry. */
    method CopyPage(root: nat, va: nat, page: nat, bits: Bits) returns (s: Status, copy: nat)
      requires Inv(mmu.View()) && IsRoot(mmu.dir, root) && va / PAGE_SIZE < USER_PAGES
      requires Key(root, va / PAGE_SIZE) in mmu.flat && mmu.flat[Key(root, va / PAGE_SIZE)].pfn == page && Share(mmu.flat, page) > 1
      modifies mmu, mmu.pmm
      ensures s.Panic? ==> s == Panic(OutOfMemory)
      ensures s.Ok? ==> Inv(mmu.View()) && SameRoots(old(mmu.View()), mmu.View()) && mmu.held == old(mmu.held)
      ensures s.Ok? ==> mmu.flat == old(mmu.flat)[Key(root, va / PAGE_SIZE) := Word(copy, bits.(present := true))]
      ensures s.Ok? ==> DataKept(old(mmu.View()), mmu.View()) && !Data(old(mmu.View()), copy)
      ensures s.Ok? ==> page < |old(mmu.pmm.ram)| && copy < |mmu.pmm.ram| && mmu.pmm.ram[copy] == old(mmu.pmm.ram)[page]
    {
      hide Inv, DataKept, Data, Owned;
      ghost var m1, k := mmu.View(), Key(root, va / PAGE_SIZE);
      MappedIsData(m1, k);
      copy :- FreshCopy(page);
      ghost var m2 := mmu.View();
      :- mmu.UnmapPage(root, va);
      ghost var m3 := mmu.View();
      :- Attach(root, va, copy, bits);
      CopyKeeps(m1, m2, m3, mmu.View(), k, copy);
      s := Ok;
    }

    /** `palloc_page` and `memcpy` */
    method FreshCopy(page: nat) returns (s: Status, copy: nat)
      requires Inv(mmu.View()) && Data(mmu.View(), page)
      modifies mmu, mmu.pmm
      ensures s.Panic? ==> s == Panic(OutOfMemory)
      ensures s.Ok? ==> Inv(mmu.View()) && DataKept(old(mmu.View()), mmu.View()) && mmu.dir == old(mmu.dir) && mmu.flat == old(mmu.flat)
      ensures s.Ok? ==> mmu.held == old(mmu.held) + multiset{copy} && !Data(old(mmu.View()), copy)
      ensures s.Ok? ==> page < |old(mmu.pmm.ram)| && copy < |mmu.pmm.ram| && mmu.pmm.ram[copy] == old(mmu.pmm.ram)[page]
    {
      hide Inv, DataKept, Data, Owned;
      ghost var m1 := mmu.View();
      copy :- mmu.AllocPage();
      ghost var m2 := mmu.View();
      HeldIsData(m2, copy);
      CopyReady(m1, m2, page);
      mmu.StoreFrame(copy, mmu.pmm.ram[page]);
      StoreKeeps(m1, m2, copy, m1.phys.ram[page]);
      s := Ok;
    }

    /** A user store of one word: the hardware writes through a writable entry; otherwise it faults, and the
        store is retried once the handler has succeeded. In private writable memory it always succeeds. */
    method Store(vas: Vas, addr: nat, w: Word) returns (s: Status, ok: bool, ghost mid: Sys)
      requires SysInv(View()) && Knows(vas) && addr < U64 && addr / PAGE_SIZE < USER_PAGES
      modifies mmu, mmu.pmm
      ensures s.Panic? ==> s == Panic(OutOfMemory)
      ensures s.Ok? && ok ==> mid == old(View()) || FaultStep(old(View()), mid, Key(vas.pml4, addr / PAGE_SIZE))
      ensures s.Ok? && ok ==> Inv(mmu.View()) && Stored(mid, View(), Key(vas.pml4, addr / PAGE_SIZE), addr % PAGE_SIZE / 8, w)
      ensures s.Ok? ==> SysInv(View()) && (ok <==> MayWrite(old(View()), Key(vas.pml4, addr / PAGE_SIZE)))
      ensures s.Ok? && !ok ==> View() == old(View())
      ensures s.Ok? && ok ==> Wrote(old(View()), View(), Key(vas.pml4, addr / PAGE_SIZE), addr % PAGE_SIZE / 8, w)
    {
      hide Inv, DataKept, Sharing, Faulted, Stored;
      ok, mid := false, View();
      ghost var s0, k := View(), Key(vas.pml4, addr / PAGE_SIZE);
      RootOf(s0, k);
      WriteRights(s0, k);
      var bits := mmu.GetMappingFlags(vas.pml4, addr);
      if bits.present && !bits.writable {
        var r: int;
        s, r := HandleFault(vas, addr, true, true);
        if s.Panic? {
          return s, false, mid;
        }
        if r != 0 {
          return Ok, false, mid;
        }
        RootOf(View(), k);
        FaultGrants(s0, View(), k);
        mid := View();
      } else if !bits.present {
        return Ok, false, mid;
      }
      StoreWord(vas.pml4, addr, w);
      StoreDone(s0, mid, View(), k, addr % PAGE_SIZE / 8, w);
      return Ok, true, mid;
    }

    /** The store itself, through an entry that allows it. */
    method StoreWord(root: nat, addr: nat, w: Word)
      requires SysInv(View()) && root in areas && Key(root, addr / PAGE_SIZE) in mmu.flat
      requires mmu.flat[Key(root, addr / PAGE_SIZE)].bits.writable
      modifies mmu, mmu.pmm
      ensures Inv(mmu.View()) && Stored(old(View()), View(), Key(root, addr / PAGE_SIZE), addr % PAGE_SIZE / 8, w)
    {
      hide Inv, Sharing, Spaces, Data;
      ghost var s1, k := View(), Key(root, addr / PAGE_SIZE);
      RootOf(s1, k);
      StoreReady(s1, k);
      var phys := mmu.GetPhys(root, addr);
      var page, i := phys / PAGE_SIZE, addr % PAGE_SIZE / 8;
      mmu.StoreFrame(page, mmu.pmm.ram[page][i := w]);
    }

    /** A user load of one word. */
    method Load(vas: Vas, addr: nat) returns (ok: bool, w: Word)
      requires SysInv(View()) && Knows(vas) && addr / PAGE_SIZE < USER_PAGES
      ensures ok <==> Back(areas, Key(vas.pml4, addr / PAGE_SIZE)).Memory?
      ensures ok ==> var c := Abstract(View()).view;
                     Key(vas.pml4, addr / PAGE_SIZE) in c && addr % PAGE_SIZE / 8 < |c[Key(vas.pml4, addr / PAGE_SIZE)]| &&
                     w == c[Key(vas.pml4, addr / PAGE_SIZE)][addr % PAGE_SIZE / 8]
    {
      hide Inv, Sharing, Data;
      ghost var s0, k := View(), Key(vas.pml4, addr / PAGE_SIZE);
      RootOf(s0, k);
      var phys := mmu.GetPhys(vas.pml4, addr);
      if phys == 0 {
        return false, ZERO;
      }
      StoreReady(s0, k);
      return true, mmu.pmm.ram[phys / PAGE_SIZE][addr % PAGE_SIZE / 8];
    }

    /** One page of `vas_user_access_ok`: present, and for a write made writable if its area allows it. */
    method TouchPage(vas: Vas, va: nat, write: bool) returns (s: Status, ok: bool)
      requires SysInv(View()) && Knows(vas) && va < U64 && va / PAGE_SIZE < USER_PAGES
      modifies mmu, mmu.pmm
      ensures s.Panic? ==> s == Panic(OutOfMemory)
      ensures s.Ok? ==> SysInv(View()) && Unseen(old(View()), View())
      ensures s.Ok? ==> View() == old(View()) || FaultStep(old(View()), View(), Key(vas.pml4, va / PAGE_SIZE))
      ensures s.Ok? ==> (ok <==> Back(areas, Key(vas.pml4, va / PAGE_SIZE)).Memory? &&
                                 (write ==> Back(areas, Key(vas.pml4, va / PAGE_SIZE)).flags.prot.writable))
      ensures s.Ok? && ok ==> Key(vas.pml4, va / PAGE_SIZE) in mmu.flat && (write ==> mmu.flat[Key(vas.pml4, va / PAGE_SIZE)].bits.writable)
      ensures s.Ok? ==> forall h | h in mmu.flat && h in old(mmu.flat) && old(mmu.flat)[h].bits.writable :: mmu.flat[h].bits.writable
    {
      hide Inv, Sharing, Faulted, Unseen, Spaces;
      ok := false;
      ghost var s0, k := View(), Key(vas.pml4, va / PAGE_SIZE);
      RootOf(s0, k);
      WriteRights(s0, k);
      NothingSeen(s0);
      var bits := mmu.GetMappingFlags(vas.pml4, va);
      if !bits.present {
        return Ok, false;
      }
      if write && !bits.writable {
        var r: int;
        s, r := HandleFault(vas, va, true, true);
        if s.Panic? {
          return s, false;
        }
        if r != 0 {
          return Ok, false;
        }
        RootOf(View(), k);
        FaultGrants(s0, View(), k);
        FaultUnseen(s0, View(), k);
        bits := mmu.GetMappingFlags(vas.pml4, va);
        if !bits.present || !bits.writable {
          return Ok, false;
        }
      }
      return Ok, true;
    }

    /** `vas_user_access_ok`: 0 exactly when the range lies in user space and, unless it is empty, every page of
        it is mapped, and writable if asked. It may break sharing on the way, which no process can see. */
    method UserAccessOk(vas: Vas, addr: nat, len: nat, write: bool) returns (s: Status, r: int, ghost ss: seq<Sys>, ghost ks: seq<Key>)
      requires SysInv(View()) && Knows(vas) && addr < U64 && len < U64
      modifies mmu, mmu.pmm
      ensures s.Panic? ==> s == Panic(OutOfMemory)
      ensures s.Ok? ==> SysInv(View()) && Unseen(old(View()), View())
      ensures s.Ok? ==> (r == 0 || r == -1) && (r == 0 <==> 0x1000 <= addr < 0x7FFF_FFFF_FFFF && addr + len <= 0x7FFF_FFFF_FFFF && (len == 0 || Accessible(old(View()), vas.pml4, addr, addr + len, write)))
      ensures s.Ok? && r == 0 && write && len > 0 ==> AllWritable(mmu.flat, vas.pml4, addr, addr + len)
      ensures s.Ok? ==> Faults(ss, ks, vas.pml4) && ss[0] == old(View()) && ss[|ks|] == View()
    {
      hide Inv, Sharing, AlignUp, Unseen, Accessible, AllWritable, Spaces, FaultStep;
      r, ss, ks := -1, [View()], [];
      ghost var s0, root := View(), vas.pml4;
      NothingSeen(s0);
      if addr < 0x1000 || addr >= USER_END || len > USER_END - addr {
        return Ok, -1, ss, ks;
      }
      if len == 0 {
        return Ok, 0, ss, ks;
      }
      var va := AlignDown(addr);
      var end := AlignUp(addr + len);
      AlignUpExact(addr + len);
      AccessStart(s0, root, addr, write);
      while va < end
        invariant AlignDown(addr) <= va <= end && Aligned(va)
        invariant SysInv(View()) && Unseen(s0, View())
        invariant Accessible(s0, root, addr, va, write) && (write ==> AllWritable(mmu.flat, root, addr, va))
        invariant Faults(ss, ks, root) && ss[0] == s0 && ss[|ks|] == View()
      {
        ghost var s1 := View();
        var ok :- TouchPage(vas, va, write);
        AccessStep(s0, s1, View(), root, addr, va, end, write, ok);
        if View() != s1 {
          ss, ks := ss + [View()], ks + [Key(root, va / PAGE_SIZE)];
        }
        if !ok {
          AccessEnd(s0, mmu.flat, root, addr, addr + len, end, write);
          return Ok, -1, ss, ks;
        }
        va := va + PAGE_SIZE;
      }
      AccessEnd(s0, mmu.flat, root, addr, addr + len, end, write);
      return Ok, 0, ss, ks;
    }
  }

  /** One page of a good system got its full protection back. */
  ghost predicate FaultStep(s: Sys, s': Sys, k: Key) {
    SysInv(s) && Inv(s'.mem) && k in s.mem.flat && k in s'.mem.flat && Faulted(s, s', k)
  }

  ghost predicate Faults(ss: seq<Sys>, ks: seq<Key>, root: nat) {
    |ss| == |ks| + 1 && forall i {:trigger ks[i]} | 0 <= i < |ks| :: ks[i].root == root && FaultStep(ss[i], ss[i + 1], ks[i])
  }

  ghost predicate AllWritable(flat: Flat, root: nat, start: nat, end: nat) {
    forall vpn | AlignDown(start) <= vpn * PAGE_SIZE < end :: Key(root, vpn) in flat && flat[Key(root, vpn)].bits.writable
  }

  lemma AccessStart(s: Sys, root: nat, addr: nat, write: bool)
    ensures Accessible(s, root, addr, AlignDown(addr), write) && AllWritable(s.mem.flat, root, addr, AlignDown(addr))
  {
  }

  lemma AccessStep(s0: Sys, s1: Sys, s2: Sys, root: nat, addr: nat, va: nat, end: nat, write: bool, ok: bool)
    requires SysInv(s0) && SysInv(s1) && SysInv(s2) && Unseen(s0, s1) && Unseen(s1, s2)
    requires AlignDown(addr) <= va < end && Aligned(va) && Accessible(s0, root, addr, va, write)
    requires write ==> AllWritable(s1.mem.flat, root, addr, va)
    requires ok <==> Back(s2.areas, Key(root, va / PAGE_SIZE)).Memory? &&
                     (write ==> Back(s2.areas, Key(root, va / PAGE_SIZE)).flags.prot.writable)
    requires ok && write ==> Key(root, va / PAGE_SIZE) in s2.mem.flat && s2.mem.flat[Key(root, va / PAGE_SIZE)].bits.writable
    requires forall h | h in s2.mem.flat && h in s1.mem.flat && s1.mem.flat[h].bits.writable :: s2.mem.flat[h].bits.writable
    ensures Unseen(s0, s2)
    ensures !ok ==> !Accessible(s0, root, addr, end, write)
    ensures ok ==> Accessible(s0, root, addr, va + PAGE_SIZE, write) && (write ==> AllWritable(s2.mem.flat, root, addr, va + PAGE_SIZE))
  {
    hide Inv, Sharing, At, WellFormed;
    var vpn := va / PAGE_SIZE;
    assert va == vpn * PAGE_SIZE;
    forall v | AlignDown(addr) <= v * PAGE_SIZE < va + PAGE_SIZE
      ensures v == vpn || v * PAGE_SIZE < va
    {
    }
  }

  lemma AccessEnd(s: Sys, flat: Flat, root: nat, addr: nat, last: nat, end: nat, write: bool)
    requires Aligned(end) && last <= end < last + PAGE_SIZE
    ensures Accessible(s, root, addr, end, write) <==> Accessible(s, root, addr, last, write)
    ensures AllWritable(flat, root, addr, end) ==> AllWritable(flat, root, addr, last)
  {
    forall vpn: nat
      ensures vpn * PAGE_SIZE < end <==> vpn * PAGE_SIZE < last
    {
    }
  }

  /** Every page that meets the range is covered, by a writable area if the access is a write. */
  ghost predicate Accessible(s: Sys, root: nat, start: nat, end: nat, write: bool) {
    forall vpn | AlignDown(start) <= vpn * PAGE_SIZE < end ::
      Back(s.areas, Key(root, vpn)).Memory? && (write ==> Back(s.areas, Key(root, vpn)).flags.prot.writable)
  }

  lemma FaultUnseen(s: Sys, s': Sys, k: Key)
    requires SysInv(s) && SysInv(s') && k in s.mem.flat && k in s'.mem.flat && Faulted(s, s', k)
    ensures Unseen(s, s')
  {
    hide Inv, Sharing, At, WellFormed;
  }

  /** Pages a process may write: those of a writable area. */
  ghost predicate MayWrite(s: Sys, k: Key) {
    Back(s.areas, k).Memory? && Back(s.areas, k).flags.prot.writable
  }

  lemma RootOf(s: Sys, k: Key)
    requires SysInv(s) && k.root in s.areas
    ensures IsRoot(s.mem.dir, k.root)
  {
  }

  /** An entry that is not writable in a writable area is always one the handler can break. */
  lemma WriteRights(s: Sys, k: Key)
    requires SysInv(s)
    ensures k in s.mem.flat <==> Back(s.areas, k).Memory?
    ensures k in s.mem.flat && s.mem.flat[k].bits.writable ==> MayWrite(s, k)
    ensures k in s.mem.flat && !s.mem.flat[k].bits.writable ==> (MayWrite(s, k) <==> Breakable(s, k))
  {
    hide Inv, At, WellFormed;
    if k in s.mem.flat {
      assert PageOK(s.mem, Back(s.areas, k), k);
    }
  }

  lemma FaultGrants(s: Sys, s': Sys, k: Key)
    requires SysInv(s) && k in s.mem.flat && k in s'.mem.flat && Faulted(s, s', k)
    ensures s'.mem.flat[k].bits.writable && s'.areas == s.areas
    ensures forall h | h in s.mem.flat && h in s'.mem.flat && s.mem.flat[h].bits.writable :: s'.mem.flat[h].bits.writable
  {
  }

  lemma NothingSeen(s: Sys)
    requires SysInv(s)
    ensures Unseen(s, s)
  {
  }

  lemma StoreReady(s: Sys, k: Key)
    requires SysInv(s) && k in s.mem.flat
    ensures s.mem.flat[k].pfn < |s.mem.phys.ram| && Data(s.mem, s.mem.flat[k].pfn) && |Contents(s.mem, k)| == WORDS
    ensures k.vpn < USER_PAGES
  {
    MappedInRam(s.mem);
    LowPages(s.mem, k);
  }

  lemma StoreDone(s: Sys, s1: Sys, s': Sys, k: Key, i: nat, w: Word)
    requires SysInv(s) && SysInv(s1) && Inv(s'.mem) && k in s.mem.flat && k in s1.mem.flat
    requires s1 == s || Faulted(s, s1, k)
    requires Stored(s1, s', k, i, w)
    ensures SysInv(s') && Wrote(s, s', k, i, w)
  {
    hide Inv, At, WellFormed, Sharing;
    StoredOK(s1, s', k, i, w);
    forall h | h in s.mem.flat
      ensures h in s1.mem.flat && CellOf(s1, h) == CellOf(s, h) && Contents(s1.mem, h) == Contents(s.mem, h)
    {
    }
  }

  lemma FaultReady(s: Sys, k: Key, i: int)
    requires SysInv(s) && k.root in s.areas && 0 <= i < |s.areas[k.root]| && i == Find(s.areas[k.root], k.vpn * PAGE_SIZE)
    ensures k in s.mem.flat && k.vpn < USER_PAGES && IsRoot(s.mem.dir, k.root)
    ensures Back(s.areas, k).Memory? && Back(s.areas, k).flags == s.areas[k.root][i].flags
    ensures var p := s.mem.flat[k].pfn; p < |s.mem.phys.pages| && (s.mem.phys.pages[p].flags.shared <==> Share(s.mem.flat, p) > 1)
  {
    MappedInRam(s.mem);
    LowPages(s.mem, k);
    var p := s.mem.flat[k].pfn;
    assert FrameOK(s.mem.phys, s.mem.who, s.mem.flat, s.mem.held, p);
  }

  lemma CopyReady(m1: Mem, m2: Mem, p: nat)
    requires Inv(m1) && Data(m1, p) && DataKept(m1, m2) && Inv(m2) && m2.flat == m1.flat && m1.held <= m2.held
    ensures p < |m1.phys.ram| == |m2.phys.ram| && m2.phys.ram[p] == m1.phys.ram[p] && |m1.phys.ram[p]| == WORDS
  {
    DataFrame(m1, {}, {}, p);
    assert Same(m1, m2, p);
  }

  lemma StoreKeeps(m1: Mem, m2: Mem, q: nat, f: Frame)
    requires DataKept(m1, m2) && !Data(m1, q) && q < |m2.phys.ram|
    requires m2.flat == m1.flat && m2.held == m1.held + multiset{q}
    ensures DataKept(m1, WithRam(m2, m2.phys.ram[q := f]))
  {
    var m3 := WithRam(m2, m2.phys.ram[q := f]);
    forall p: nat | Data(m1, p) && Data(m3, p)
      ensures Same(m1, m3, p)
    {
      assert Same(m1, m2, p);
    }
  }

  lemma CopyKeeps(m1: Mem, m2: Mem, m3: Mem, m4: Mem, k: Key, q: nat)
    requires k in m1.flat && Share(m1.flat, m1.flat[k].pfn) > 1 && !Data(m1, q)
    requires DataKept(m1, m2) && DataKept(m2, m3) && DataKept(m3, m4)
    requires m2.flat == m1.flat && m2.held == m1.held + multiset{q} && m3.flat == m2.flat - {k} && m3.held == m2.held
    requires k in m4.flat && m4.flat[k].pfn == q && m4.flat == m3.flat[k := m4.flat[k]] && m4.held == m3.held - multiset{q}
    ensures DataKept(m1, m4) && m4.held == m1.held
    ensures |m4.phys.ram| == |m2.phys.ram| && (q < |m2.phys.ram| ==> m4.phys.ram[q] == m2.phys.ram[q])
  {
    ShareRemove(m1.flat, k);
    ShareAdd(m3.flat, k, m4.flat[k]);
    DataKeptTrans(m1, m2, m3);
    DataKeptTrans(m1, m3, m4);
    assert Same(m2, m3, q) && Same(m3, m4, q);
  }

  /** The handler's two outcomes are the two cases of `Faulted`. */
  lemma FaultOnOwn(s: Sys, s': Sys, k: Key)
    requires SysInv(s) && Inv(s'.mem) && Breakable(s, k) && Share(s.mem.flat, s.mem.flat[k].pfn) <= 1 && s'.areas == s.areas
    requires s'.mem.flat == s.mem.flat[k := Word(s.mem.flat[k].pfn, Full(Back(s.areas, k).flags))]
    requires s'.mem.held == s.mem.held && SameRoots(s.mem, s'.mem) && KeptBut(s.mem, s'.mem, s.mem.flat[k].pfn, false)
    ensures Faulted(s, s', k) && SysInv(s')
  {
    hide Inv, At, WellFormed, Sharing;
    MappedInRam(s.mem);
    MappedInRam(s'.mem);
    SharePositive(s.mem.flat, k);
    forall h | h in s.mem.flat
      ensures Contents(s'.mem, h) == Contents(s.mem, h)
      ensures h != k ==> SameMark(s.mem, s'.mem, s.mem.flat[h].pfn)
    {
      assert s'.mem.flat[h].pfn == s.mem.flat[h].pfn;
      if h != k && s.mem.flat[h].pfn == s.mem.flat[k].pfn {
        ShareUnique(s.mem.flat, h, k);
      }
      assert Same(s.mem, s'.mem, s.mem.flat[h].pfn) || h == k;
    }
    FaultedOK(s, s', k);
  }

  lemma FaultOnCopy(s: Sys, s': Sys, k: Key, q: nat)
    requires SysInv(s) && Inv(s'.mem) && Breakable(s, k) && s'.areas == s.areas
    requires s'.mem.flat == s.mem.flat[k := Word(q, Full(Back(s.areas, k).flags))]
    requires s'.mem.held == s.mem.held && SameRoots(s.mem, s'.mem) && DataKept(s.mem, s'.mem) && !Data(s.mem, q)
    requires s.mem.flat[k].pfn < |s.mem.phys.ram| && q < |s'.mem.phys.ram| && s'.mem.phys.ram[q] == s.mem.phys.ram[s.mem.flat[k].pfn]
    ensures Faulted(s, s', k) && SysInv(s')
  {
    hide Inv, At, WellFormed, Sharing;
    MappedInRam(s.mem);
    MappedInRam(s'.mem);
    forall h | h in s.mem.flat
      ensures Contents(s'.mem, h) == Contents(s.mem, h)
      ensures h != k ==> SameMark(s.mem, s'.mem, s.mem.flat[h].pfn)
    {
      assert h != k ==> s'.mem.flat[h] == s.mem.flat[h];
      assert h != k ==> Same(s.mem, s'.mem, s.mem.flat[h].pfn);
    }
    FaultedOK(s, s', k);
  }

  /** A page the fault handler makes writable: private writable memory on a marked frame. */
  ghost predicate Breakable(s: Sys, k: Key)
    requires Spaces(s)
  {
    && k in s.mem.flat && CowArea(Back(s.areas, k).flags)
    && s.mem.flat[k].pfn < |s.mem.phys.pages| && s.mem.phys.pages[s.mem.flat[k].pfn].flags.cow
  }

  /** `vas_clone` in progress: pages below `cur` are done. */
  ghost predicate CloneState(s: Sys, m: Mem, src: nat, dst: nat, cur: nat)
    requires Spaces(s)
  {
    && Cloning(s, m, src, dst, cur)
    && (forall r: nat :: IsRoot(m.dir, r) <==> IsRoot(s.mem.dir, r) || r == dst)
  }

  lemma CloneStart(s: Sys, s': Sys, src: nat, dst: nat)
    requires SysInv(s) && SysInv(s') && Created(s, s', dst)
    ensures CloneState(s, s'.mem, src, dst, 0)
  {
    hide Inv, Sharing, WellFormed, At, Contents, CloningPage, Spaces;
    CreatedOK(s, s', dst);
    assert CloningDomain(s, s'.mem, src, dst, 0) && ContentsKept(s, s'.mem);
    forall k | k in s'.mem.flat
      ensures CloningPage(s, s'.mem, src, dst, 0, k)
    {
      CloneStartPage(s, s', src, dst, k);
    }
  }

  lemma CloneStartPage(s: Sys, s': Sys, src: nat, dst: nat, k: Key)
    requires SysInv(s) && SysInv(s') && Created(s, s', dst) && k in s.mem.flat
    ensures CloningPage(s, s'.mem, src, dst, 0, k)
  {
    hide Inv, Sharing, WellFormed, At;
    MappedInRam(s.mem);
    MappedInRam(s'.mem);
    assert Back(s.areas, k).Memory?;
    assert Same(s.mem, s'.mem, s.mem.flat[k].pfn);
  }

  lemma AppendArea(s: Sys, src: nat, i: nat)
    requires SysInv(s) && src in s.areas && i < |s.areas[src]|
    ensures var l := s.areas[src];
            VadOK(l[i]) && Insert(l[..i], l[i]) == l[..i + 1]
  {
    var l := s.areas[src];
    assert WellFormed(l) && VadOK(l[i]);
    forall j | 0 <= j < i
      ensures l[..i][j].start < l[i].start
    {
      assert VadOK(l[j]);
    }
    assert InsertPos(l[..i], l[i].start) == i;
    assert l[..i][i..] == [];
  }

  lemma AreaPage(s: Sys, src: nat, i: nat, va: nat)
    requires SysInv(s) && src in s.areas && i < |s.areas[src]| && s.areas[src][i].start <= va < s.areas[src][i].end && Aligned(va)
    ensures var b := Back(s.areas, Key(src, va / PAGE_SIZE)); b.Memory? && b.flags == s.areas[src][i].flags
    ensures va / PAGE_SIZE < USER_PAGES && (va + PAGE_SIZE) / PAGE_SIZE == va / PAGE_SIZE + 1
  {
    hide Inv, Sharing;
    assert VadOK(s.areas[src][i]);
    AtIs(s.areas[src], i, va);
  }

  /** Nothing is mapped between the end of one area and the start of the next. */
  lemma CloneSkip(s: Sys, m: Mem, src: nat, dst: nat, i: nat)
    requires SysInv(s) && src in s.areas && i < |s.areas[src]| && CloneState(s, m, src, dst, Edge(s.areas[src], i) / PAGE_SIZE)
    ensures CloneState(s, m, src, dst, s.areas[src][i].start / PAGE_SIZE)
  {
    OrderedEdge(s, src, i);
    forall k: Key | k.root == src && Edge(s.areas[src], i) / PAGE_SIZE <= k.vpn < s.areas[src][i].start / PAGE_SIZE
      ensures k !in s.mem.flat
    {
      EdgePage(s, src, i, k.vpn);
      GapUnmapped(s, src, i, k);
    }
    CloneJump(s, m, src, dst, Edge(s.areas[src], i) / PAGE_SIZE, s.areas[src][i].start / PAGE_SIZE);
  }

  lemma EdgePage(s: Sys, root: nat, i: nat, vpn: nat)
    requires Spaces(s) && root in s.areas && i <= |s.areas[root]| && Edge(s.areas[root], i) / PAGE_SIZE <= vpn
    ensures Edge(s.areas[root], i) <= vpn * PAGE_SIZE
    ensures i < |s.areas[root]| && vpn < s.areas[root][i].start / PAGE_SIZE ==> vpn * PAGE_SIZE < s.areas[root][i].start
  {
    if i > 0 {
      assert VadOK(s.areas[root][i - 1]);
    }
  }

  lemma CloneJump(s: Sys, m: Mem, src: nat, dst: nat, cur: nat, cur': nat)
    requires Spaces(s) && CloneState(s, m, src, dst, cur) && cur <= cur'
    requires forall k: Key | k.root == src && cur <= k.vpn < cur' :: k !in s.mem.flat
    ensures CloneState(s, m, src, dst, cur')
  {
    CloneJumpDomain(s, m, src, dst, cur, cur');
    hide Spaces, CloningDomain, CloningPage, ContentsKept;
    forall k | k in m.flat
      ensures CloningPage(s, m, src, dst, cur', k)
    {
      assert CloningPage(s, m, src, dst, cur, k);
      CloneJumpPage(s, m, src, dst, cur, cur', k);
    }
  }

  lemma CloneJumpDomain(s: Sys, m: Mem, src: nat, dst: nat, cur: nat, cur': nat)
    requires CloningDomain(s, m, src, dst, cur) && cur <= cur'
    requires forall k: Key | k.root == src && cur <= k.vpn < cur' :: k !in s.mem.flat
    ensures CloningDomain(s, m, src, dst, cur')
  {
    forall k: Key
      ensures k in m.flat <==> k in s.mem.flat || (k.root == dst && k.vpn < cur' && Key(src, k.vpn) in s.mem.flat)
    {
      var o := Key(src, k.vpn);
      assert cur <= o.vpn < cur' ==> o !in s.mem.flat;
    }
  }

  lemma CloneJumpPage(s: Sys, m: Mem, src: nat, dst: nat, cur: nat, cur': nat, k: Key)
    requires Spaces(s) && k in m.flat && CloningPage(s, m, src, dst, cur, k) && cur <= cur'
    requires forall k: Key | k.root == src && cur <= k.vpn < cur' :: k !in s.mem.flat
    ensures CloningPage(s, m, src, dst, cur', k)
  {
    hide Spaces, At, WellFormed;
    var o := Origin(k, src, dst);
    assert o in s.mem.flat;
  }

  lemma CloneDone(s: Sys, s': Sys, src: nat, dst: nat)
    requires SysInv(s) && Inv(s'.mem) && src in s.areas && dst !in s.areas && s'.areas == s.areas[dst := s.areas[src]]
    requires CloneState(s, s'.mem, src, dst, Edge(s.areas[src], |s.areas[src]|) / PAGE_SIZE)
    ensures SysInv(s') && Cloned(s, s', src, dst)
  {
    hide Inv, Sharing, At;
    var l := s.areas[src];
    forall k: Key | k.root == src && Edge(l, |l|) / PAGE_SIZE <= k.vpn < USER_PAGES
      ensures k !in s.mem.flat
    {
      EdgePage(s, src, |l|, k.vpn);
      GapUnmapped(s, src, |l|, k);
    }
    assert |l| > 0 ==> VadOK(l[|l| - 1]);
    CloneJump(s, s'.mem, src, dst, Edge(l, |l|) / PAGE_SIZE, USER_PAGES);
    ClonedOK(s, s', src, dst);
  }

  lemma CloneReady(s: Sys, m: Mem, src: nat, dst: nat, k: Key)
    requires SysInv(s) && src in s.areas && dst !in s.areas && k.root == src && Back(s.areas, k).Memory?
    requires Inv(m) && CloneState(s, m, src, dst, k.vpn)
    ensures IsRoot(m.dir, src) && IsRoot(m.dir, dst) && k in m.flat && m.flat[k] == s.mem.flat[k] && Key(dst, k.vpn) !in m.flat
  {
    hide Inv, Sharing, At, WellFormed;
    assert CloningPage(s, m, src, dst, k.vpn, k);
    assert !Back(s.areas, Key(dst, k.vpn)).Memory?;
  }

  /** The source's page after `vas_clone` has dealt with it. */
  ghost predicate SourceDone(m1: Mem, m2: Mem, k: Key, f: VadFlags)
    requires k in m1.flat
  {
    if CowArea(f) then
      && m2.flat == m1.flat[k := Word(m1.flat[k].pfn, Full(f).(writable := false))] && m2.held == m1.held
      && SameRoots(m1, m2) && KeptBut(m1, m2, m1.flat[k].pfn, true)
    else m2 == m1
  }

  lemma CloneSrc(s: Sys, m1: Mem, m2: Mem, src: nat, dst: nat, k: Key, f: VadFlags)
    requires SysInv(s) && k.root == src && src != dst && Back(s.areas, k).Memory? && Back(s.areas, k).flags == f
    requires k in m1.flat && m1.flat[k] == s.mem.flat[k] && SourceDone(m1, m2, k, f)
    ensures m2.flat == m1.flat[k := CloneWord(f, s.mem.flat[k])] && m2.held == m1.held && SameRoots(m1, m2)
    ensures k in m2.flat && m2.flat[k].pfn == s.mem.flat[k].pfn && Key(dst, k.vpn) != k
  {
    hide Inv, At, WellFormed;
    assert PageOK(s.mem, Back(s.areas, k), k);
    assert m2.flat == m1.flat[k := CloneWord(f, s.mem.flat[k])];
  }

  /** Marks only appear, and contents stay, from one state to the next. */
  ghost predicate Onward(m: Mem, m': Mem) {
    && |m.phys.ram| == |m.phys.pages| == |m'.phys.ram| == |m'.phys.pages| && SameReserved(m.phys, m'.phys)
    && forall q: nat {:trigger Kept1(m, m', q)} | Data(m, q) && Data(m', q) && q < |m.phys.ram| :: Kept1(m, m', q)
  }

  ghost predicate Kept1(m: Mem, m': Mem, q: nat)
    requires q < |m.phys.ram| == |m.phys.pages| == |m'.phys.ram| == |m'.phys.pages|
  {
    m'.phys.ram[q] == m.phys.ram[q] && (m.phys.pages[q].flags.cow ==> m'.phys.pages[q].flags.cow)
  }

  lemma SourceOnward(m1: Mem, m2: Mem, m3: Mem, k: Key, dk: Key, w: Word, f: VadFlags)
    requires k in m1.flat && w.pfn == m1.flat[k].pfn < |m1.phys.pages| && dk !in m2.flat && dk != k && SourceDone(m1, m2, k, f)
    requires DataKept(m2, m3) && m3.flat == m2.flat[dk := w] && m3.held == m2.held
    ensures Onward(m1, m3) && (CowArea(f) ==> m3.phys.pages[w.pfn].flags.cow)
  {
    var p := w.pfn;
    if CowArea(f) {
      ShareRemove(m1.flat, k);
      assert m1.flat - {k} == m2.flat - {k};
      ShareRemove(m2.flat, k);
    }
    ShareAdd(m2.flat, dk, w);
    forall q: nat | Data(m1, q) && Data(m3, q) && q < |m1.phys.ram|
      ensures Kept1(m1, m3, q)
    {
      assert Same(m1, m2, q) || q == p;
      assert Same(m2, m3, q);
    }
    if CowArea(f) {
      SharePositive(m1.flat, k);
      SharePositive(m2.flat, k);
      SharePositive(m3.flat, k);
      assert Same(m1, m2, p) || m2.phys.pages[p].flags.cow;
      assert Same(m2, m3, p);
    }
  }

  lemma CloneStep(s: Sys, m1: Mem, m2: Mem, m3: Mem, src: nat, dst: nat, k: Key, f: VadFlags)
    requires SysInv(s) && src in s.areas && dst !in s.areas && k.root == src && Back(s.areas, k).Memory? && Back(s.areas, k).flags == f
    requires Inv(m1) && Inv(m3) && CloneState(s, m1, src, dst, k.vpn)
    requires k in m1.flat && m1.flat[k] == s.mem.flat[k] && Key(dst, k.vpn) !in m1.flat && SourceDone(m1, m2, k, f)
    requires m2.flat == m1.flat[k := CloneWord(f, s.mem.flat[k])] && m2.held == m1.held && SameRoots(m1, m2)
    requires m3.flat == m2.flat[Key(dst, k.vpn) := CloneWord(f, s.mem.flat[k])] && m3.held == m2.held
    requires DataKept(m2, m3) && SameRoots(m2, m3)
    ensures CloneState(s, m3, src, dst, k.vpn + 1)
  {
    hide Inv, Sharing, At, WellFormed, SourceDone, CloningPage, Contents, Onward;
    var dk, w := Key(dst, k.vpn), CloneWord(f, s.mem.flat[k]);
    MappedInRam(m1);
    SourceOnward(m1, m2, m3, k, dk, w, f);
    forall h | h in m3.flat
      ensures CloningPage(s, m3, src, dst, k.vpn + 1, h)
    {
      CloneStepPage(s, m1, m3, src, dst, k, f, h);
    }
    forall h | h in s.mem.flat
      ensures h in m3.flat && Contents(m3, h) == Contents(s.mem, h)
    {
      CloneStepContents(s, m1, m3, src, dst, k, f, h);
    }
    CloneStepDomain(s, m1, m3, src, dst, k);
    OnwardReserved(s.mem, m1, m3);
  }

  lemma OnwardReserved(m0: Mem, m1: Mem, m3: Mem)
    requires |m1.phys.pages| == |m1.phys.ram| == |m0.phys.pages| && SameReserved(m0.phys, m1.phys) && Onward(m1, m3)
    ensures |m3.phys.pages| == |m3.phys.ram| == |m0.phys.pages| && SameReserved(m0.phys, m3.phys)
  {
  }

  lemma CloneStepDomain(s: Sys, m1: Mem, m3: Mem, src: nat, dst: nat, k: Key)
    requires CloningDomain(s, m1, src, dst, k.vpn) && k.root == src && k in s.mem.flat && k in m1.flat
    requires forall h: Key :: h in m3.flat <==> h in m1.flat || h == Key(dst, k.vpn)
    ensures CloningDomain(s, m3, src, dst, k.vpn + 1)
  {
  }

  lemma CloneStepContents(s: Sys, m1: Mem, m3: Mem, src: nat, dst: nat, k: Key, f: VadFlags, h: Key)
    requires Spaces(s) && k.root == src && k in s.mem.flat && h in s.mem.flat && h in m1.flat && dst !in s.areas
    requires Inv(m1) && Inv(m3) && CloneState(s, m1, src, dst, k.vpn) && k in m1.flat && m1.flat[k] == s.mem.flat[k]
    requires m3.flat == m1.flat[k := CloneWord(f, s.mem.flat[k])][Key(dst, k.vpn) := CloneWord(f, s.mem.flat[k])] && Onward(m1, m3)
    ensures h in m3.flat && Contents(m3, h) == Contents(s.mem, h)
  {
    hide Inv, At, WellFormed;
    MappedInRam(m1);
    MappedInRam(m3);
    assert Back(s.areas, h).Memory?;
    assert Contents(m1, h) == Contents(s.mem, h);
    assert Data(m1, m1.flat[h].pfn) && Data(m3, m3.flat[h].pfn);
    assert Kept1(m1, m3, m1.flat[h].pfn);
  }

  lemma CloneStepPage(s: Sys, m1: Mem, m3: Mem, src: nat, dst: nat, k: Key, f: VadFlags, h: Key)
    requires Spaces(s) && src in s.areas && dst !in s.areas && k.root == src && k in s.mem.flat && Back(s.areas, k).flags == f
    requires Inv(m1) && Inv(m3) && CloneState(s, m1, src, dst, k.vpn) && h in m3.flat && k in m1.flat && m1.flat[k] == s.mem.flat[k]
    requires m3.flat == m1.flat[k := CloneWord(f, s.mem.flat[k])][Key(dst, k.vpn) := CloneWord(f, s.mem.flat[k])]
    requires Onward(m1, m3) && (CowArea(f) && m1.flat[k].pfn < |m3.phys.pages| ==> m3.phys.pages[m1.flat[k].pfn].flags.cow)
    ensures CloningPage(s, m3, src, dst, k.vpn + 1, h)
  {
    hide Inv, At, WellFormed;
    MappedInRam(m1);
    MappedInRam(m3);
    var g := if h == Key(dst, k.vpn) then k else h;
    assert CloningPage(s, m1, src, dst, k.vpn, g);
    assert Data(m1, m1.flat[g].pfn) && Data(m3, m3.flat[h].pfn);
    assert m3.flat[h].pfn == m1.flat[g].pfn;
    assert Kept1(m1, m3, m1.flat[g].pfn);
    if h == Key(dst, k.vpn) || h == k {
      assert Origin(h, src, dst) == k && Origin(k, src, dst) == k;
    } else {
      assert m3.flat[h] == m1.flat[h] && Origin(h, src, dst) != k;
    }
  }

  /** All data is kept, except that the mark of `p` is now `cow`. */
  ghost predicate KeptBut(m: Mem, m': Mem, p: nat, cow: bool) {
    && |m.phys.ram| == |m.phys.pages| == |m'.phys.ram| == |m'.phys.pages|
    && SameReserved(m.phys, m'.phys)
    && forall q: nat {:trigger Same(m, m', q)} | Data(m, q) && Data(m', q) && q < |m.phys.ram| ::
         if q == p then m'.phys.ram[q] == m.phys.ram[q] && m'.phys.pages[q].flags.cow == cow else Same(m, m', q)
  }

  lemma MappedIsData(m: Mem, k: Key)
    requires Inv(m) && k in m.flat
    ensures Data(m, m.flat[k].pfn)
  {
    MappedInRam(m);
  }

  lemma HeldIsData(m: Mem, p: nat)
    requires p in m.held
    ensures Data(m, p)
  {
  }

  lemma DetachKeeps(m1: Mem, m2: Mem, m3: Mem, k: Key, p: nat)
    requires DataKept(m1, m2) && DataKept(m2, m3) && k in m1.flat && m1.flat[k].pfn == p
    requires m2.flat == m1.flat && m2.held == m1.held + multiset{p} == m3.held && m3.flat == m2.flat - {k}
    ensures DataKept(m1, m3)
  {
    DataKeptTrans(m1, m2, m3);
  }

  lemma AttachKeeps(m1: Mem, m2: Mem, m3: Mem, k: Key, p: nat)
    requires DataKept(m1, m2) && DataKept(m2, m3) && k !in m1.flat && k in m2.flat && m2.flat[k].pfn == p
    requires m2.flat == m1.flat[k := m2.flat[k]] && m3.flat == m2.flat && m2.held == m1.held && m3.held == m2.held - multiset{p}
    ensures DataKept(m1, m3)
  {
    ShareAdd(m1.flat, k, m2.flat[k]);
    DataKeptTrans(m1, m2, m3);
  }

  lemma RemapKeeps(m1: Mem, m2: Mem, m3: Mem, m4: Mem, m5: Mem, k: Key, p: nat, cow: bool)
    requires DataKept(m1, m2) && DataKept(m3, m4)
    requires if cow then m3 == m2 else p < |m2.phys.pages| && m3 == Marked(m2, p, false) && SameReserved(m2.phys, m3.phys)
    requires if cow then p < |m4.phys.pages| && m5 == Marked(m4, p, true) && SameReserved(m4.phys, m5.phys) else m5 == m4
    requires k in m1.flat && m1.flat[k].pfn == p && m2.flat == m1.flat - {k} && m2.held == m1.held + multiset{p}
    requires k in m4.flat && m4.flat[k].pfn == p && m4.flat == m3.flat[k := m4.flat[k]] && m4.held == m3.held - multiset{p}
    ensures KeptBut(m1, m5, p, cow) && m5.held == m1.held
  {
    ShareRemove(m1.flat, k);
    ShareAdd(m2.flat, k, m4.flat[k]);
    forall q: nat | Data(m1, q) && Data(m5, q) && q < |m1.phys.ram|
      ensures if q == p then m5.phys.ram[q] == m1.phys.ram[q] && m5.phys.pages[q].flags.cow == cow else Same(m1, m5, q)
    {
      assert Same(m1, m2, q) && Same(m3, m4, q);
    }
  }

  /** Where the area before the i-th ends. */
  function Edge(l: seq<Vad>, i: nat): nat
    requires i <= |l|
  {
    if i == 0 then 0 else l[i - 1].end
  }

  lemma UnmapReady(s: Sys, root: nat, lo: nat, length: nat)
    requires SysInv(s) && root in s.areas && Aligned(lo) && length < U64
    ensures WellFormed(s.areas[root]) && Aligned(Add(lo, AlignUp(length)))
    ensures Withdrawn(s.mem, s.mem, root, lo, 0)
  {
    AddAligned(lo, length);
    hide Inv, Sharing, Aligned, Add, AlignUp;
    NothingWithdrawn(s.mem, root, lo, 0);
  }

  /** What the loop of `vas_unmap` knows about the i-th area. */
  lemma UnmapArea(s: Sys, m: Mem, root: nat, lo: nat, hi: nat, i: nat)
    requires SysInv(s) && root in s.areas && Aligned(lo) && Aligned(hi) && i < |s.areas[root]|
    requires Withdrawn(s.mem, m, root, lo, Min(hi, Edge(s.areas[root], i))) && s.areas[root][i].start < hi
    ensures IsRoot(m.dir, root) && VadOK(s.areas[root][i])
    ensures s.areas[root][i].end <= lo ==> Withdrawn(s.mem, m, root, lo, Min(hi, Edge(s.areas[root], i + 1)))
  {
    hide Inv, Sharing, DataKept;
    var l := s.areas[root];
    if l[i].end <= lo && i > 0 {
      assert l[i - 1].end <= l[i].start;
    }
  }

  /** Between two neighbouring areas nothing is mapped. */
  lemma GapUnmapped(s: Sys, root: nat, i: nat, k: Key)
    requires Spaces(s) && root in s.areas && i <= |s.areas[root]| && k.root == root
    requires Edge(s.areas[root], i) <= k.vpn * PAGE_SIZE && (i < |s.areas[root]| ==> k.vpn * PAGE_SIZE < s.areas[root][i].start)
    ensures k !in s.mem.flat
  {
    var l, addr := s.areas[root], k.vpn * PAGE_SIZE;
    forall j | 0 <= j < |l|
      ensures !Covers(l[j], addr)
    {
      assert VadOK(l[j]);
      if i > 0 && j < i - 1 {
        assert l[j].end <= l[i - 1].start && VadOK(l[i - 1]);
      }
      if i < j {
        assert l[i].end <= l[j].start && VadOK(l[i]);
      }
    }
  }

  lemma UnmapStep(s: Sys, m1: Mem, m2: Mem, root: nat, lo: nat, hi: nat, i: nat)
    requires SysInv(s) && root in s.areas && i < |s.areas[root]|
    requires s.areas[root][i].start < hi && s.areas[root][i].end > lo
    requires Withdrawn(s.mem, m1, root, lo, Min(hi, Edge(s.areas[root], i)))
    requires Withdrawn(m1, m2, root, Max(s.areas[root][i].start, lo), Min(s.areas[root][i].end, hi))
    ensures Withdrawn(s.mem, m2, root, lo, Min(hi, Edge(s.areas[root], i + 1)))
  {
    hide Inv, Sharing, WellFormed, At;
    var l := s.areas[root];
    var v, e, e' := l[i], Min(hi, Edge(l, i)), Min(hi, Edge(l, i + 1));
    OrderedEdge(s, root, i);
    forall k | k in s.mem.flat
      ensures InRange(k, root, lo, e') <==> InRange(k, root, lo, e) || InRange(k, root, Max(v.start, lo), Min(v.end, hi))
    {
      if k.root == root && Edge(l, i) <= k.vpn * PAGE_SIZE < v.start {
        GapUnmapped(s, root, i, k);
      }
    }
    WithdrawTrans(s.mem, m1, m2);
  }

  lemma OrderedEdge(s: Sys, root: nat, i: nat)
    requires Spaces(s) && root in s.areas && i < |s.areas[root]|
    ensures Edge(s.areas[root], i) <= s.areas[root][i].start <= Edge(s.areas[root], i + 1) && VadOK(s.areas[root][i])
  {
    assert VadOK(s.areas[root][i]);
  }

  lemma LastGap(s: Sys, m: Mem, root: nat, lo: nat, hi: nat, i: nat)
    requires SysInv(s) && root in s.areas && i <= |s.areas[root]| && (i < |s.areas[root]| ==> hi <= s.areas[root][i].start)
    requires Withdrawn(s.mem, m, root, lo, Min(hi, Edge(s.areas[root], i)))
    ensures Withdrawn(s.mem, m, root, lo, hi)
  {
    hide Inv, Sharing, WellFormed, At, DataKept;
    var e := Min(hi, Edge(s.areas[root], i));
    forall k | k in s.mem.flat
      ensures InRange(k, root, lo, hi) <==> InRange(k, root, lo, e)
    {
      if InRange(k, root, lo, hi) && !InRange(k, root, lo, e) {
        GapUnmapped(s, root, i, k);
      }
    }
  }

  lemma UnmapDone(s: Sys, s': Sys, root: nat, lo: nat, hi: nat)
    requires SysInv(s) && Inv(s'.mem) && root in s.areas && Aligned(lo) && Aligned(hi)
    requires Withdrawn(s.mem, s'.mem, root, lo, hi) && s'.areas == s.areas[root := RemoveRange(s.areas[root], lo, hi)]
    ensures Unmapped(s, s', root, lo, hi) && (SysInv(s') <==> !Straddled(s.areas[root], lo, hi))
  {
    hide Inv, DataKept, Sharing, WellFormed, Straddled;
    RemoveRangeKeepsOrderIff(s.areas[root], lo, hi);
    if !Straddled(s.areas[root], lo, hi) {
      UnmappedOK(s, s', root, lo, hi);
    } else {
      assert s'.areas[root] == RemoveRange(s.areas[root], lo, hi);
    }
  }

  /** Exactly the pages that meet the range lost their translation. */
  ghost predicate LostPages(flat: Flat, flat': Flat, root: nat, start: nat, length: nat) {
    forall k: Key :: k in flat' <==> k in flat && !(k.root == root && Meets(k.vpn, start, length))
  }

  lemma NothingLost(flat: Flat, root: nat, start: nat)
    ensures LostPages(flat, flat, root, start, 0)
  {
  }

  lemma AskedPages(s: Sys, s': Sys, root: nat, start: nat, length: nat)
    requires SysInv(s) && root in s.areas && start < U64 && 0 < length < U64
    requires Unmapped(s, s', root, AlignDown(start), Add(AlignDown(start), AlignUp(length)))
    ensures UnmapExact(start, length) ==> LostPages(s.mem.flat, s'.mem.flat, root, start, length)
  {
    hide Inv, Sharing, Spaces, UnmapExact, LostPages, Unmapped;
    if UnmapExact(start, length) {
      ExactPages(s, s', root, start, length);
    }
  }

  lemma ExactPages(s: Sys, s': Sys, root: nat, start: nat, length: nat)
    requires Spaces(s) && root in s.areas && start < U64 && 0 < length < U64 && UnmapExact(start, length)
    requires Unmapped(s, s', root, AlignDown(start), Add(AlignDown(start), AlignUp(length)))
    ensures LostPages(s.mem.flat, s'.mem.flat, root, start, length)
  {
    hide UnmapExact, Meets, At, WellFormed, AlignUp, AlignDown, Add;
    forall k: Key
      ensures k in s'.mem.flat <==> k in s.mem.flat && !(k.root == root && Meets(k.vpn, start, length))
    {
      if k in s.mem.flat && k.root == root {
        assert Back(s.areas, k).Memory?;
        HighIsNothing(s.areas[root], k.vpn);
        ExactMeets(start, length, k.vpn);
      }
    }
  }

  /** Only pages of `root` lost their translation. */
  ghost predicate Fewer(m: Mem, m': Mem, root: nat) {
    && DataKept(m, m') && SameRoots(m, m') && m'.held == m.held
    && (forall k | k in m'.flat :: k in m.flat && m'.flat[k] == m.flat[k])
    && (forall k | k in m.flat && k.root != root :: k in m'.flat)
  }

  lemma NothingFewer(m: Mem, root: nat)
    requires Inv(m)
    ensures Fewer(m, m, root)
  {
  }

  lemma FewerStep(m0: Mem, m1: Mem, m2: Mem, root: nat, start: nat, end: nat)
    requires Fewer(m0, m1, root) && Withdrawn(m1, m2, root, start, end)
    ensures Fewer(m0, m2, root)
  {
    WithdrawTrans(m0, m1, m2);
  }

  lemma AreaBounds(s: Sys, m: Mem, root: nat, i: nat)
    requires SysInv(s) && root in s.areas && i < |s.areas[root]| && Fewer(s.mem, m, root)
    ensures VadOK(s.areas[root][i]) && IsRoot(m.dir, root)
  {
  }

  lemma FewerRoots(s: Sys, m: Mem, root: nat)
    requires SysInv(s) && root in s.areas && Fewer(s.mem, m, root)
    ensures IsRoot(m.dir, root)
  {
  }

  lemma DestroyDone(s: Sys, m1: Mem, s': Sys, root: nat)
    requires SysInv(s) && Inv(s'.mem) && Fewer(s.mem, m1, root) && s'.areas == s.areas - {root}
    requires DataKept(m1, s'.mem) && s'.mem.held == m1.held
    requires s'.mem.dir == (map a | a in m1.dir && a.root != root :: m1.dir[a])
    requires s'.mem.flat == (map k | k in m1.flat && k.root != root :: m1.flat[k])
    ensures SysInv(s') && Destroyed(s, s', root)
  {
    hide Inv, Sharing, DataKept, Spaces;
    WithdrawTrans(s.mem, m1, s'.mem);
    assert Destroyed(s, s', root);
    DestroyedOK(s, s', root);
  }

  /** Where `vas_map_anon` puts an area of `n` bytes, or -1: a fixed request goes to its own page or nowhere,
      any other to the first fit above the hint, or above the end of the last area mapped. */
  ghost function Placement(l: seq<Vad>, userStart: nat, hint: nat, n: nat, fixed: bool): int {
    if fixed then
      var base := AlignDown(hint);
      if Add(base, n) > USER_END || Add(base, n) < base || !Apart(l, base, Add(base, n)) then -1 else base
    else
      var base := FindFree(l, if hint != 0 then hint else userStart, n);
      if base == 0 then -1 else base
  }

  /** A chosen place is free: no area lies there, so no page is mapped there. */
  lemma PlacementOK(s: Sys, root: nat, userStart: nat, hint: nat, length: nat, fixed: bool)
    requires SysInv(s) && root in s.areas && hint < U64 && length < U64
    ensures WellFormed(s.areas[root]) && IsRoot(s.mem.dir, root)
    ensures fixed && Add(AlignDown(hint), AlignUp(length)) >= AlignDown(hint) ==>
              Add(AlignDown(hint), AlignUp(length)) == AlignDown(hint) + AlignUp(length)
    ensures var b, n := Placement(s.areas[root], userStart, hint, AlignUp(length), fixed), AlignUp(length);
            b >= 0 ==>
              && Aligned(b) && Aligned(b + n) && b + n <= USER_END && Apart(s.areas[root], b, b + n)
              && forall k: Key | InRange(k, root, b, b + n) :: k !in s.mem.flat
  {
    hide Inv, Sharing;
    var l, n := s.areas[root], AlignUp(length);
    AlignedLength(length);
    PlacementFits(l, userStart, hint, n, fixed);
    var b := Placement(l, userStart, hint, n, fixed);
    if b >= 0 {
      forall k: Key | InRange(k, root, b, b + n)
        ensures k !in s.mem.flat
      {
        NotCovered(l, b, b + n, k.vpn * PAGE_SIZE);
      }
    }
  }

  /** Where a request that is not fixed looks from: the hint, without one the end of the last area mapped, and 0 in the last page. */
  function SearchStart(hint: nat, userStart: nat): nat {
    var from := if hint != 0 then hint else userStart;
    if from > U64 - 4096 then 0 else from
  }

  /** A fixed request gets its own page, and is refused exactly if that place is not open; any other gets the lowest open place. */
  lemma PlacementIs(l: seq<Vad>, userStart: nat, hint: nat, length: nat, fixed: bool)
    requires WellFormed(l) && hint < U64 && userStart < U64 && length < U64
    ensures var b, n, lo := Placement(l, userStart, hint, AlignUp(length), fixed), AlignUp(length), SearchStart(hint, userStart);
            && (fixed ==> b == if Open(l, hint - hint % 4096, n) then hint - hint % 4096 else -1)
            && (!fixed && b > 0 ==> lo <= b && Open(l, b, n) && forall c: nat | lo <= c && Open(l, c, n) :: b <= c)
            && (!fixed && b <= 0 ==> b == -1 && ((lo == 0 && Open(l, 0, n)) || forall c: nat | lo <= c :: !Open(l, c, n)))
  {
    AlignedLength(length);
    var n := AlignUp(length);
    if fixed {
      var base := AlignDown(hint);
      assert base == hint - hint % 4096;
      PlacementFits(l, userStart, hint, n, true);
      OpenIff(l, base, n);
      assert base + n <= USER_END ==> Add(base, n) == base + n;
    } else {
      hide FindFree, Open, WellFormed;
      LowestPlace(l, if hint != 0 then hint else userStart, n);
    }
  }

  lemma AlignedLength(length: nat)
    requires length < U64
    ensures Aligned(AlignUp(length)) && AlignUp(length) < U64
  {
  }

  lemma PlacementFits(l: seq<Vad>, userStart: nat, hint: nat, n: nat, fixed: bool)
    requires WellFormed(l) && hint < U64 && n < U64 && Aligned(n)
    ensures fixed && Add(AlignDown(hint), n) >= AlignDown(hint) ==> Add(AlignDown(hint), n) == AlignDown(hint) + n
    ensures var b := Placement(l, userStart, hint, n, fixed);
            b >= 0 ==> Aligned(b) && Aligned(b + n) && b + n <= USER_END && Apart(l, b, b + n)
  {
    hide AlignUp, WellFormed, Apart;
    if !fixed {
      FindFreeFits(l, if hint != 0 then hint else userStart, n);
    }
  }

  lemma NotCovered(l: seq<Vad>, start: nat, end: nat, addr: nat)
    requires Apart(l, start, end) && start <= addr < end
    ensures At(l, addr) == Nothing
  {
  }

  /** The area is mapped; an empty one is only listed. */
  ghost predicate AnonListed(s: Sys, s': Sys, root: nat, v: Vad)
    requires root in s.areas
  {
    if v.start == v.end then s' == Sys(s.mem, s.areas[root := Insert(s.areas[root], v)]) else MappedAnon(s, s', root, v)
  }

  /** The list stays well formed exactly when the length does not round up to 0. */
  lemma AnonListOKIff(l: seq<Vad>, userStart: nat, hint: nat, length: nat, f: VadFlags)
    requires WellFormed(l) && hint < U64 && 0 < length < U64
    requires Placement(l, userStart, hint, AlignUp(length), f.fixed) >= 0
    ensures var b, n := Placement(l, userStart, hint, AlignUp(length), f.fixed), AlignUp(length);
            WellFormed(Insert(l, Vad(b, b + n, f, NoFile, 0))) <==> length <= U64 - PAGE_SIZE
  {
    var n := AlignUp(length);
    RoundLength(length);
    PlacementFits(l, userStart, hint, n, f.fixed);
    var b := Placement(l, userStart, hint, n, f.fixed);
    hide WellFormed, Insert, AlignUp, Placement;
    var v := Vad(b, b + n, f, NoFile, 0);
    if n == 0 {
      EmptyAreaBreaks(l, v);
    } else {
      InsertOK(l, v);
    }
  }

  /** A mapping of 2^64 - 1 bytes succeeds in an empty space, with no page mapped, and from then on a fixed mapping
      across that address is refused. */
  lemma HugeMapListsAnEmptyArea(f: VadFlags)
    ensures var l := Insert([], Vad(0x1000, 0x1000, f, NoFile, 0));
            && AlignUp(U64 - 1) == 0 && Placement([], 0x1000, 0, AlignUp(U64 - 1), false) == 0x1000
            && !WellFormed(l) && (forall addr: nat :: !Covered(l, addr))
            && Placement(l, 0x1000, 0, 0x2000, true) == -1 && Placement([], 0x1000, 0, 0x2000, true) == 0
  {
    var v := Vad(0x1000, 0x1000, f, NoFile, 0);
    assert Insert([], v) == [v];
    EmptyAreaBreaks([], v);
    assert AlignUp(U64 - 1) == 0 && AlignUp(0x1000) == 0x1000;
    assert !Apart([v], 0, 0x2000) by {
      assert !(0x2000 <= [v][0].start || [v][0].end <= 0);
    }
  }

  lemma AnonDone(s: Sys, s': Sys, root: nat, v: Vad)
    requires SysInv(s) && Inv(s'.mem) && root in s.areas && v.file == NoFile && v.offset == 0 && Apart(s.areas[root], v.start, v.end)
    requires v.start <= v.end <= USER_END && Aligned(v.start) && Aligned(v.end)
    requires Committed(s.mem, s'.mem, root, v.start, v.end, v.flags) && s'.areas == s.areas[root := Insert(s.areas[root], v)]
    requires v.start == v.end ==> s'.mem == s.mem
    ensures AnonListed(s, s', root, v) && (SysInv(s') <==> v.start < v.end)
  {
    hide Inv, Committed, Sharing, WellFormed, Insert;
    if v.start < v.end {
      MappedAnonOK(s, s', root, v);
    } else {
      EmptyAreaBreaks(s.areas[root], v);
      assert s'.areas[root] == Insert(s.areas[root], v);
    }
  }

  /** The pages of a range lost their translation; nothing else changed. */
  ghost predicate Withdrawn(m: Mem, m': Mem, root: nat, start: nat, end: nat) {
    && DataKept(m, m') && SameRoots(m, m') && m'.held == m.held
    && m'.flat == FlatWithout(m.flat, root, start, end)
  }

  lemma NothingWithdrawn(m: Mem, root: nat, start: nat, end: nat)
    requires Inv(m)
    ensures Withdrawn(m, m, root, start, start) && (end < start ==> Withdrawn(m, m, root, start, end))
  {
  }

  lemma WithdrawReady(m0: Mem, m1: Mem, root: nat, start: nat, va: nat, end: nat)
    requires Withdrawn(m0, m1, root, start, va) && IsRoot(m0.dir, root) && va < end <= USER_END
    ensures IsRoot(m1.dir, root) && va / PAGE_SIZE < USER_PAGES
  {
  }

  lemma WithdrawStep(m0: Mem, m1: Mem, m2: Mem, root: nat, start: nat, va: nat)
    requires Withdrawn(m0, m1, root, start, va) && DataKept(m1, m2) && SameRoots(m1, m2) && m2.held == m1.held
    requires start <= va && Aligned(start) && Aligned(va) && m2.flat == m1.flat - {Key(root, va / PAGE_SIZE)}
    ensures Withdrawn(m0, m2, root, start, va + PAGE_SIZE)
  {
    forall k: Key
      ensures InRange(k, root, start, va + PAGE_SIZE) <==> InRange(k, root, start, va) || k == Key(root, va / PAGE_SIZE)
    {
    }
    WithdrawTrans(m0, m1, m2);
  }

  lemma WithdrawTrans(m0: Mem, m1: Mem, m2: Mem)
    requires DataKept(m0, m1) && DataKept(m1, m2) && m2.held == m1.held == m0.held
    requires forall k | k in m2.flat :: k in m1.flat && m2.flat[k] == m1.flat[k]
    ensures DataKept(m0, m2)
  {
    forall q: nat | Data(m0, q) && Data(m2, q)
      ensures Data(m1, q)
    {
      ShareShrinks(m1.flat, m2.flat, q);
    }
    DataKeptTrans(m0, m1, m2);
  }

  /** A frame the caller holds can be mapped anywhere. */
  lemma HeldIsMappable(m: Mem, k: Key, p: nat)
    requires Inv(m) && p in m.held
    ensures p < |m.phys.pages| && p !in m.who && p !in m.phys.fl && Owned(m.flat - {k}, m.held, p)
  {
    DataFrame(m, {}, {}, p);
  }

  /** A frame mapped at another page can be mapped here too. */
  lemma MappedIsMappable(m: Mem, k: Key, h: Key)
    requires Inv(m) && h in m.flat && h != k
    ensures var p := m.flat[h].pfn; p < |m.phys.pages| && p !in m.who && p !in m.phys.fl && Owned(m.flat - {k}, m.held, p)
  {
    SharePositive(m.flat, h);
    SharePositive(m.flat - {k}, h);
    DataFrame(m, {}, {}, m.flat[h].pfn);
  }

  /** A page just committed is the last reference of its frame: mapping the frame again at the same page panics. */
  lemma FreshPageCannotBeRemapped(m: Mem, m': Mem, root: nat, start: nat, end: nat, f: VadFlags, k: Key)
    requires Committed(m, m', root, start, end, f) && InRange(k, root, start, end)
    ensures k in m'.flat && !Owned(m'.flat - {k}, m'.held, m'.flat[k].pfn)
  {
    ShareRemove(m'.flat, k);
  }

  lemma NothingCommitted(m: Mem, root: nat, start: nat, f: VadFlags)
    requires Inv(m)
    ensures Committed(m, m, root, start, start, f)
  {
  }

  lemma CommitReady(m0: Mem, m1: Mem, root: nat, start: nat, va: nat, end: nat, f: VadFlags)
    requires Committed(m0, m1, root, start, va, f) && IsRoot(m0.dir, root) && Aligned(va) && start <= va < end <= USER_END
    requires forall k: Key | InRange(k, root, start, end) :: k !in m0.flat
    ensures IsRoot(m1.dir, root) && va / PAGE_SIZE < USER_PAGES && Key(root, va / PAGE_SIZE) !in m1.flat
  {
    assert InRange(Key(root, va / PAGE_SIZE), root, start, end);
  }

  /** Allocating, mapping and letting go keeps all data. */
  lemma CommitKeeps(m1: Mem, m2: Mem, m3: Mem, m4: Mem, k: Key, p: nat)
    requires DataKept(m1, m2) && DataKept(m2, m3) && DataKept(m3, m4) && k !in m1.flat
    requires m2.flat == m1.flat && m2.held == m1.held + multiset{p} == m3.held && m4.held == m3.held - multiset{p}
    requires k in m3.flat && m3.flat == m1.flat[k := m3.flat[k]] && m4.flat == m3.flat && m3.flat[k].pfn == p
    ensures DataKept(m1, m4) && m4.held == m1.held
  {
    ShareAdd(m1.flat, k, m3.flat[k]);
    DataKeptTrans(m1, m2, m3);
    DataKeptTrans(m1, m3, m4);
  }

  lemma CommitStep(m0: Mem, m1: Mem, m2: Mem, root: nat, start: nat, va: nat, f: VadFlags, p: nat)
    requires Committed(m0, m1, root, start, va, f) && DataKept(m1, m2) && SameRoots(m1, m2) && m2.held == m1.held
    requires start <= va && Aligned(start) && Aligned(va) && Key(root, va / PAGE_SIZE) !in m1.flat && !Data(m1, p)
    requires m2.flat == m1.flat[Key(root, va / PAGE_SIZE) := Word(p, Full(f))]
    ensures Committed(m0, m2, root, start, va + PAGE_SIZE, f)
  {
    var k0 := Key(root, va / PAGE_SIZE);
    ShareAdd(m1.flat, k0, Word(p, Full(f)));
    forall q: nat
      ensures Data(m0, q) ==> Data(m1, q)
    {
      ShareShrinks(m1.flat, m0.flat, q);
    }
    DataKeptTrans(m0, m1, m2) by {
      forall q: nat | Data(m0, q) && Data(m2, q)
        ensures Data(m1, q)
      {
      }
    }
    forall k: Key
      ensures InRange(k, root, start, va + PAGE_SIZE) <==> InRange(k, root, start, va) || k == k0
    {
    }
    forall k | k in m2.flat && InRange(k, root, start, va + PAGE_SIZE)
      ensures m2.flat[k].bits == Full(f) && !Data(m0, m2.flat[k].pfn) && Share(m2.flat, m2.flat[k].pfn) == 1
    {
      if k != k0 {
        SharePositive(m1.flat, k);
      }
    }
  }
}
