/** `paging.c`: mapping, unmapping and translating pages of the lower half. */
module Paging {
  import opened Machine
  import opened PhysicalMemory
  import opened PageTree
  import opened FrameCounts
  import opened Memory
  import opened Sizes

  class Mmu {
    const pmm: Pmm
    ghost var dir: Dir
    ghost var who: Who
    ghost var flat: Flat
    ghost var held: multiset<nat>

    ghost function View(): Mem
      reads this, pmm
    {
      Mem(pmm.View(), dir, who, flat, held)
    }

    /** Just after `pmm_init`: no table, no mapping, no handle. */
    constructor (pmm: Pmm)
      requires FreeListOK(pmm.View())
      requires forall p | 0 <= p < |pmm.pages| && p !in pmm.fl ::
                 pmm.pages[p].flags.reserved && !pmm.pages[p].flags.used && !pmm.pages[p].flags.poison
      ensures this.pmm == pmm && Inv(View())
      ensures dir == map[] && flat == map[] && held == multiset{}
    {
      this.pmm := pmm;
      dir, who, flat, held := map[], map[], map[], multiset{};
      new;
      forall p | 0 <= p < |pmm.pages|
        ensures FrameOK(pmm.View(), who, flat, held, p)
      {
        assert Mappings(flat, p) == {};
      }
    }

    /** `_table_next`: follows an entry, or fills it with a fresh table. */
    method TableNext(ghost n: Node, ghost slack: set<Node>, tbl: nat, i: nat, create: bool, bits: Bits)
      returns (s: Status, found: bool, next: nat, ghost slack': set<Node>)
      requires Partial(View(), slack, {}) && slack <= {n} && (!create ==> slack == {})
      requires n in dir && n.level > 1 && dir[n] == tbl && InHalf(n, i)
      requires create ==> bits.present && bits.writable && !bits.huge
      modifies this, pmm
      ensures s.Panic? ==> s == Panic(OutOfMemory) && View() == old(View())
      ensures s.Panic? <==> create && old(pmm.fl) == [] && n.Down(i) !in old(dir)
      ensures s.Ok? ==> NewTables(old(View()), View())
      ensures s.Ok? && create ==> dir.Keys == old(dir).Keys + {n.Down(i)}
      ensures s.Ok? && create ==> |pmm.fl| == |old(pmm.fl)| - (if n.Down(i) in old(dir) then 0 else 1)
      ensures s.Ok? ==> flat == old(flat) && held == old(held) && DataKept(old(View()), View()) && SameRoots(old(View()), View())
      ensures s.Ok? && found ==> slack' <= {n.Down(i)} && Partial(View(), slack', {})
      ensures s.Ok? && found ==> n.Down(i) in dir && dir[n.Down(i)] == next
      ensures !create ==> s.Ok? && View() == old(View()) && slack' == {}
      ensures s.Ok? && !found ==> !create && n.Down(i) !in dir
    {
      found, next, slack' := false, 0, slack;
      assert NodeOK(pmm.ram, dir, who, n) && SlotOK(pmm.ram, dir, flat, n, i);
      UpDown(n, i);
      assert n.Down(i) in dir ==> NodeOK(pmm.ram, dir, who, n.Down(i));
      var e := pmm.ram[tbl][i];
      if e.bits.present {
        assert NodeOK(pmm.ram, dir, who, n.Down(i));
        ChangeSlack(pmm.ram, dir, who, flat, slack, {}, {});
        return Ok, true, e.pfn, {};
      }
      if !create {
        return Ok, false, 0, {};
      }
      ghost var m := View();
      var f :- pmm.PallocPage();
      TableLinkedOK(m, n, i, bits, slack);
      pmm.ram := pmm.ram[f := ZeroFrame()];
      pmm.ram := pmm.ram[tbl := pmm.ram[tbl][i := Word(f, bits)]];
      dir, who := dir[n.Down(i) := f], who[f := n.Down(i)];
      assert View() == TableLinked(m, n, i, bits);
      return Ok, true, f, {n.Down(i)};
    }

    /** `_leaf_entry`: the level-1 table on the path of `va`. */
    method LeafEntry(root: nat, va: nat, create: bool, bits: Bits)
      returns (s: Status, found: bool, tbl: nat, ghost slack: set<Node>)
      requires Inv(View()) && IsRoot(dir, root) && va / PAGE_SIZE < USER_PAGES
      requires create ==> bits.present && bits.writable && !bits.huge
      modifies this, pmm
      ensures s.Panic? ==> s == Panic(OutOfMemory) && Key(root, va / PAGE_SIZE) !in old(flat)
      ensures s.Panic? <==> create && MissingTables(old(dir), root, va / PAGE_SIZE) > |old(pmm.fl)|
      ensures s.Ok? ==> NewTables(old(View()), View())
      ensures s.Ok? ==> flat == old(flat) && held == old(held) && DataKept(old(View()), View()) && SameRoots(old(View()), View())
      ensures s.Ok? && found ==> PathNode(root, va / PAGE_SIZE, 1) in dir && dir[PathNode(root, va / PAGE_SIZE, 1)] == tbl
      ensures s.Ok? && found ==> slack <= {PathNode(root, va / PAGE_SIZE, 1)} && Partial(View(), slack, {})
      ensures !create ==> s.Ok? && View() == old(View()) && slack == {}
      ensures s.Ok? && !found ==> !create && Key(root, va / PAGE_SIZE) !in flat
    {
      hide Partial, Tree, Counts, DataKept, NewTables;
      ghost var m0, k := View(), Key(root, va / PAGE_SIZE);
      RootFrame(m0, root);

      PathStep(root, va, 4);
      NoPath(m0, k, 3);
      found, tbl, slack :- TableNext(PathNode(root, k.vpn, 4), {}, root, PmlIdx(va, 4), create, bits);
      if !found {
        return Ok, false, 0, {};
      }
      ghost var m1 := View();

      PathStep(root, va, 3);
      NoPath(m0, k, 2);
      found, tbl, slack :- TableNext(PathNode(root, k.vpn, 3), slack, tbl, PmlIdx(va, 3), create, bits);
      if !found {
        return Ok, false, 0, {};
      }
      ghost var m2 := View();
      DataKeptTrans(m0, m1, m2);
      NewTablesTrans(m0, m1, m2);
      assert dir.Keys == m0.dir.Keys + {PathNode(root, k.vpn, 3), PathNode(root, k.vpn, 2)} || !create;

      PathStep(root, va, 2);
      NoPath(m0, k, 1);
      found, tbl, slack :- TableNext(PathNode(root, k.vpn, 2), slack, tbl, PmlIdx(va, 2), create, bits);
      if !found {
        return Ok, false, 0, {};
      }
      DataKeptTrans(m0, m2, View());
      NewTablesTrans(m0, m2, View());
      s := Ok;
    }

    /** `map_page`: the page's entry is replaced and every other translation stays. There are two panics: more tables
        are missing on the page's path than frames are free, or nothing but the entry being replaced owns the frame,
        which is freed with that entry and then counted again. */
    method MapPage(root: nat, va: nat, page: nat, bits: Bits) returns (s: Status)
      requires Inv(View()) && IsRoot(dir, root) && va / PAGE_SIZE < USER_PAGES
      requires page < |pmm.pages| && page !in who && page !in pmm.fl
      modifies this, pmm
      ensures s == Panic(OutOfMemory) <==> MissingTables(old(dir), root, va / PAGE_SIZE) > |old(pmm.fl)|
      ensures s == Panic(OutOfMemory) ==> Key(root, va / PAGE_SIZE) !in old(flat)
      ensures s == Panic(NotUsed) <==> MissingTables(old(dir), root, va / PAGE_SIZE) <= |old(pmm.fl)| &&
                                       !Owned(old(flat) - {Key(root, va / PAGE_SIZE)}, old(held), page)
      ensures s.Ok? || s == Panic(OutOfMemory) || s == Panic(NotUsed)
      ensures s.Ok? ==> Inv(View()) && held == old(held) && DataKept(old(View()), View()) && SameRoots(old(View()), View())
      ensures s.Ok? ==> flat == old(flat)[Key(root, va / PAGE_SIZE) := Word(page, bits.(present := true))]
    {
      hide Partial, Tree, Counts, DataKept, Owned, NewTables;
      ghost var m0, k := View(), Key(root, va / PAGE_SIZE);
      var found, tbl, slack :- LeafEntry(root, va, true, Bits(true, true, bits.user, false, 0));
      ghost var m1 := View();
      NotATable(m0, m1, page);
      PathStep(root, va, 1);
      :- WriteEntry(k, slack, tbl, PmlIdx(va, 1), page, bits);
      MapKeepsData(m0, m1, View(), k, page);
      s := Ok;
    }

    /** The second half of `map_page`: drop what the entry named, write it, and count the new mapping. */
    method WriteEntry(ghost k: Key, ghost slack: set<Node>, tbl: nat, i: nat, page: nat, bits: Bits) returns (s: Status)
      requires k.Table() in dir && dir[k.Table()] == tbl && i == k.Idx() && k.vpn < USER_PAGES
      requires slack <= {k.Table()} && Partial(View(), slack, {}) && page < |pmm.pages| && page !in who
      modifies this, pmm
      ensures if Owned(old(flat) - {k}, held, page) then s.Ok? else s == Panic(NotUsed)
      ensures s.Ok? ==> Inv(View()) && DataKept(old(View()), View()) && dir == old(dir)
      ensures s.Ok? ==> flat == old(flat)[k := Word(page, bits.(present := true))]
      ensures held == old(held)
    {
      hide Partial, Tree, Counts, DataKept, Owned;
      ghost var m, w := View(), Word(page, bits.(present := true));
      LeafFacts(m, k, slack);
      ghost var dead: Dead := if k in flat then {(k.Table(), k.Idx())} else {};
      if pmm.ram[tbl][i].bits.present {
        var oldPage := pmm.ram[tbl][i].pfn;
        :- DropMapping(k, slack, {}, oldPage);
        assert {} + {(k.Table(), k.Idx())} == {(k.Table(), k.Idx())};
      } else {
        KeptSame(m, slack, {});
        assert flat - {k} == flat;
      }
      ghost var m' := View();
      KeptPages(m, m');
      :- AddMapping(k, slack, dead, tbl, i, Word(page, bits.(present := true)));
      MapKeepsData(m, m', View(), k, page);
      s := Ok;
    }

    /** Writes the entry, then `page_share` and `page_ref`. The first panics exactly on a frame without owners. */
    method AddMapping(ghost k: Key, ghost slack: set<Node>, ghost dead: Dead, tbl: nat, i: nat, w: Word) returns (s: Status)
      requires k.Table() in dir && dir[k.Table()] == tbl && i == k.Idx() && k.vpn < USER_PAGES && k !in flat
      requires slack <= {k.Table()} && dead <= {(k.Table(), k.Idx())} && Partial(View(), slack, dead)
      requires w.bits.present && w.pfn < |pmm.pages| && w.pfn !in who
      modifies this, pmm
      ensures if Owned(old(flat), held, w.pfn) then s.Ok? else s == Panic(NotUsed)
      ensures s.Ok? ==> Inv(View()) && DataKept(old(View()), View()) && dir == old(dir) && flat == old(flat)[k := w]
      ensures held == old(held)
    {
      hide Partial, Tree, Counts, DataKept, Owned;
      ghost var m := View();
      LeafNode(m, k, slack, dead);
      AddReady(m, k, w, slack, dead);
      pmm.ram := pmm.ram[tbl := pmm.ram[tbl][i := w]];
      :- pmm.PageShare(w.pfn);
      :- pmm.PageRef(w.pfn);
      flat := flat[k := w];
      assert View() == LeafSet(m, k, w);
      s := Ok;
    }

    /** `page_unshare` then `page_unref`, for the page an entry names; neither panics. */
    method DropMapping(ghost k: Key, ghost slack: set<Node>, ghost dead: Dead, page: nat) returns (s: Status)
      requires k in flat && flat[k].pfn == page && Partial(View(), slack, dead)
      modifies this, pmm
      ensures s.Ok? && Partial(old(View()), slack, dead) && View() == LeafDropped(old(View()), k)
      ensures Partial(View(), slack, dead + {(k.Table(), k.Idx())}) && DataKept(old(View()), View())
    {
      hide Tree, Counts, DataKept;
      ghost var m := View();
      LeafDroppedOK(m, k, slack, dead);
      :- pmm.PageUnshare(page);
      :- pmm.PageUnref(page);
      flat := flat - {k};
      s := Ok;
    }
  
    /** `unmap_page`: the page's translation goes, every other stays, and nothing panics. */
    method UnmapPage(root: nat, va: nat) returns (s: Status)
      requires Inv(View()) && IsRoot(dir, root) && va / PAGE_SIZE < USER_PAGES
      modifies this, pmm
      ensures s.Ok? && Inv(View()) && held == old(held) && DataKept(old(View()), View()) && SameRoots(old(View()), View())
      ensures flat == old(flat) - {Key(root, va / PAGE_SIZE)}
    {
      hide Partial, Tree, Counts, DataKept;
      ghost var m, k := View(), Key(root, va / PAGE_SIZE);
      KeptSame(m, {}, {});
      var found, tbl, slack :- LeafEntry(root, va, false, NO_BITS);
      if !found {
        return Ok;
      }
      PathStep(root, va, 1);
      LeafFacts(m, k, {});
      var i := PmlIdx(va, 1);
      if !pmm.ram[tbl][i].bits.present {
        return Ok;
      }
      ClearEntry(k, tbl, i);
      ghost var m1 := View();
      FreeEmpty(root, va, {k.Table()});
      UnmapKeepsData(m, m1, View());
      s := Ok;
    }

    /** The middle of `unmap_page`: zero the entry, then count one mapping fewer. */
    method ClearEntry(ghost k: Key, tbl: nat, i: nat)
      requires Inv(View()) && k in flat && k.Table() in dir && dir[k.Table()] == tbl && i == k.Idx()
      requires k.vpn < USER_PAGES
      modifies this, pmm
      ensures Partial(View(), {k.Table()}, {}) && DataKept(old(View()), View())
      ensures dir == old(dir) && held == old(held) && flat == old(flat) - {k}
    {
      hide Partial, Tree, Counts, DataKept;
      ghost var m, n, page := View(), k.Table(), 0;
      LeafFacts(m, k, {});
      LeafDroppedOK(m, k, {}, {});
      ghost var m1 := LeafDropped(m, k);
      ClearedOK(m, k);
      var w := pmm.ram[tbl][i];
      pmm.ram := pmm.ram[tbl := pmm.ram[tbl][i := ZERO]];
      var s := pmm.PageUnshare(w.pfn);
      s := pmm.PageUnref(w.pfn);
      flat := flat - {k};
      assert View() == EntryZeroed(m1, n, i);
      DataKeptTrans(m, m1, View());
    }

    /** `_table_empty` */
    method TableEmpty(tbl: nat) returns (empty: bool)
      requires RamOK(pmm.ram) && tbl < |pmm.ram|
      ensures empty <==> !Nonempty(pmm.ram[tbl])
    {
      for i := 0 to WORDS
        invariant forall j | 0 <= j < i :: !pmm.ram[tbl][j].bits.present
      {
        if pmm.ram[tbl][i].bits.present {
          return false;
        }
      }
      return true;
    }

    /** `_free_pt` on an empty table, and zeroing the entry that linked to it. */
    method Prune(ghost c: Node, child: nat, parent: nat, i: nat)
      requires Partial(View(), {c}, {}) && c in dir && c.level < 4 && dir[c] == child
      requires c.Up() in dir && dir[c.Up()] == parent && i == c.Idx()
      requires RamOK(pmm.ram) && child < |pmm.ram| && !Nonempty(pmm.ram[child])
      modifies this, pmm
      ensures Partial(View(), {c.Up()}, {}) && DataKept(old(View()), View())
      ensures dir == old(dir) - {c} && held == old(held) && flat == old(flat)
      ensures RamOK(pmm.ram) && |pmm.ram| == |old(pmm.ram)|
    {
      hide Partial, Tree, Counts, DataKept;
      ghost var m := View();
      PrunedOK(m, c);
      var s := pmm.PageUnref(child);
      dir, who := dir - {c}, who - {child};
      ghost var m1 := View();
      assert m1 == TableDropped(m, c);
      pmm.ram := pmm.ram[parent := pmm.ram[parent][i := ZERO]];
      assert View() == EntryZeroed(m1, c.Up(), i);
    }

    /** `ptable_free_empty_locked`: frees the tables on the path of `va` that have become empty, bottom up, and
        no other table. */
    method FreeEmpty(root: nat, va: nat, ghost slack: set<Node>)
      requires Partial(View(), slack, {}) && slack <= {PathNode(root, va / PAGE_SIZE, 1)}
      requires IsRoot(dir, root) && va / PAGE_SIZE < USER_PAGES
      modifies this, pmm
      ensures Inv(View()) && flat == old(flat) && held == old(held)
      ensures DataKept(old(View()), View()) && Pruned(old(dir), dir, root, va / PAGE_SIZE)
    {
      hide Partial, Tree, Counts, DataKept;
      ghost var m := View();
      PathFacts(m, slack, root, va, 4);
      var i4, i3, i2 := PmlIdx(va, 4), PmlIdx(va, 3), PmlIdx(va, 2);
      if !pmm.ram[root][i4].bits.present {
        return;
      }
      var pml3 := pmm.ram[root][i4].pfn;
      PathFacts(m, slack, root, va, 3);
      if !pmm.ram[pml3][i3].bits.present {
        return;
      }
      var pml2 := pmm.ram[pml3][i3].pfn;
      PathFacts(m, slack, root, va, 2);
      if !pmm.ram[pml2][i2].bits.present {
        return;
      }
      var pml1 := pmm.ram[pml2][i2].pfn;
      PathFacts(m, slack, root, va, 1);
      PruneFrom(PathNode(root, va / PAGE_SIZE, 1), root, pml3, pml2, pml1, i4, i3, i2, slack);
    }

    /** The second half of `ptable_free_empty_locked`, once the path is known to be present. */
    method PruneFrom(ghost n: Node, root: nat, pml3: nat, pml2: nat, pml1: nat, i4: nat, i3: nat, i2: nat, ghost slack: set<Node>)
      requires Partial(View(), slack, {}) && slack <= {n} && n.level == 1
      requires n in dir && dir[n] == pml1 && i2 == n.Idx()
      requires n.Up() in dir && dir[n.Up()] == pml2 && i3 == n.Up().Idx()
      requires n.Up().Up() in dir && dir[n.Up().Up()] == pml3 && i4 == n.Up().Up().Idx()
      requires n.Up().Up().Up() in dir && dir[n.Up().Up().Up()] == root
      requires RamOK(pmm.ram) && pml1 < |pmm.ram| && pml2 < |pmm.ram| && pml3 < |pmm.ram| && root < |pmm.ram|
      modifies this, pmm
      ensures Inv(View()) && flat == old(flat) && held == old(held)
      ensures DataKept(old(View()), View())
      ensures dir == old(dir) || dir == old(dir) - {n} || dir == old(dir) - {n} - {n.Up()}
              || dir == old(dir) - {n} - {n.Up()} - {n.Up().Up()}
    {
      hide Partial, Tree, Counts, DataKept;
      ghost var m := View();
      KeptSame(m, slack, {});
      var empty := TableEmpty(pml1);
      if !empty {
        SlackUnused(m, slack, n);
        return;
      }
      EmptyIsSlack(m, slack, n);
      Prune(n, pml1, pml2, i2);
      ghost var m1 := View();

      empty := TableEmpty(pml2);
      if !empty {
        SlackGone(m1, n.Up());
        return;
      }
      Prune(n.Up(), pml2, pml3, i3);
      ghost var m2 := View();
      UnmapKeepsData(m, m1, m2);

      empty := TableEmpty(pml3);
      if !empty {
        SlackGone(m2, n.Up().Up());
        return;
      }
      Prune(n.Up().Up(), pml3, root, i4);
      UnmapKeepsData(m, m2, View());
      SlackGone(View(), n.Up().Up().Up());
    }
  
    /** `palloc_page`: the caller holds the one reference to a frame nobody else owned. */
    method AllocPage() returns (s: Status, p: nat)
      requires Inv(View())
      modifies this, pmm
      ensures s.Panic? ==> s == Panic(OutOfMemory) && pmm.fl == []
      ensures s.Ok? ==> Inv(View()) && DataKept(old(View()), View()) && flat == old(flat) && dir == old(dir)
      ensures s.Ok? ==> held == old(held) + multiset{p} && !Data(old(View()), p)
      ensures s.Ok? ==> p < |pmm.pages| == |pmm.ram| && !pmm.pages[p].flags.cow
    {
      hide Tree, DataKept;
      ghost var m := View();
      p :- pmm.PallocPage();
      AllocatedOK(m);
      held := held + multiset{p};
      assert View() == Allocated(m);
      s := Ok;
    }

    /** `page_ref` by a caller that can name the frame. */
    method RefPage(p: nat) returns (s: Status)
      requires Inv(View()) && Data(View(), p)
      modifies this, pmm
      ensures s.Ok? && Inv(View()) && DataKept(old(View()), View()) && flat == old(flat) && dir == old(dir)
      ensures held == old(held) + multiset{p}
    {
      hide Inv, DataKept;
      ghost var m := View();
      ReffedOK(m, p);
      :- pmm.PageRef(p);
      held := held + multiset{p};
      assert View() == Reffed(m, p);
      s := Ok;
    }

    /** `page_unref` of a handle the caller holds. */
    method UnrefPage(p: nat) returns (s: Status)
      requires Inv(View()) && p in held
      modifies this, pmm
      ensures s.Ok? && Inv(View()) && DataKept(old(View()), View()) && flat == old(flat) && dir == old(dir)
      ensures held == old(held) - multiset{p}
    {
      hide Tree, DataKept;
      ghost var m := View();
      ReleasedOK(m, p);
      :- pmm.PageUnref(p);
      held := held - multiset{p};
      assert View() == Released(m, p);
      s := Ok;
    }

    /** `page_mark_cow` and `page_clear_cow` */
    method SetCow(p: nat, cow: bool) returns (s: Status)
      requires Inv(View()) && Data(View(), p)
      modifies this, pmm
      ensures p < |old(pmm.pages)|
      ensures s.Ok? && Inv(View()) && View() == Marked(old(View()), p, cow) && SameReserved(old(pmm.View()), pmm.View())
    {
      hide Inv;
      MarkedOK(View(), p, cow);
      :- pmm.PageSetCow(p, cow);
      s := Ok;
    }

    /** A store through a mapping, or a `memcpy` into a frame: it lands in a data frame, so no table changes. */
    method StoreFrame(p: nat, f: Frame)
      requires Inv(View()) && Data(View(), p) && |f| == WORDS
      modifies this, pmm
      ensures p < |old(pmm.ram)|
      ensures Inv(View()) && View() == WithRam(old(View()), old(pmm.ram)[p := f])
    {
      hide Inv;
      DataWriteOK(View(), p, f);
      pmm.ram := pmm.ram[p := f];
    }

    /** `get_phys`: the physical address behind `va`, or 0 exactly when nothing is mapped there. */
    method GetPhys(root: nat, va: nat) returns (phys: nat)
      requires Inv(View()) && IsRoot(dir, root) && va / PAGE_SIZE < USER_PAGES
      ensures phys == if Key(root, va / PAGE_SIZE) in flat then flat[Key(root, va / PAGE_SIZE)].pfn * PAGE_SIZE + va % PAGE_SIZE else 0
      ensures phys == 0 <==> Key(root, va / PAGE_SIZE) !in flat
      ensures Key(root, va / PAGE_SIZE) in flat ==> phys / PAGE_SIZE == flat[Key(root, va / PAGE_SIZE)].pfn
    {
      WalkMeansFlat(View(), root, va);
      match Walk(pmm.ram, root, 4, va)
      case Absent => phys := 0;
      case Entry(w) => phys := w.pfn * PAGE_SIZE + va % PAGE_SIZE;
    }

    /** `get_mapping_flags`: the flag bits of the entry, or none exactly when nothing is mapped. */
    method GetMappingFlags(root: nat, va: nat) returns (bits: Bits)
      requires Inv(View()) && IsRoot(dir, root) && va / PAGE_SIZE < USER_PAGES
      ensures bits == if Key(root, va / PAGE_SIZE) in flat then flat[Key(root, va / PAGE_SIZE)].bits else NO_BITS
      ensures bits.present <==> Key(root, va / PAGE_SIZE) in flat
    {
      WalkMeansFlat(View(), root, va);
      match Walk(pmm.ram, root, 4, va)
      case Absent => bits := NO_BITS;
      case Entry(w) => bits := w.bits;
    }

    /** `ptable_create`: a PML4 with an empty lower half and the kernel's upper half. */
    method PtableCreate() returns (s: Status, root: nat)
      requires Inv(View())
      modifies this, pmm
      ensures s.Panic? ==> s == Panic(OutOfMemory) && pmm.fl == []
      ensures s.Ok? ==> Inv(View()) && flat == old(flat) && held == old(held) && DataKept(old(View()), View())
      ensures s.Ok? ==> !IsRoot(old(dir), root) && forall r: nat :: IsRoot(dir, r) <==> IsRoot(old(dir), r) || r == root
      ensures s.Ok? ==> root < |pmm.ram| && |pmm.ram[root]| == WORDS && pmm.ram[root][USER_ENTRIES..] == KERNEL[USER_ENTRIES..]
    {
      hide Tree, DataKept;
      ghost var m := View();
      root := 0;
      KeptSame(m, {}, {});
      var p :- pmm.PallocPage();
      var t := ZeroFrame();
      for i := USER_ENTRIES to WORDS
        invariant |t| == WORDS && forall j | USER_ENTRIES <= j < i :: t[j] == KERNEL[j]
        invariant forall j | 0 <= j < USER_ENTRIES :: !t[j].bits.present
      {
        t := t[i := KERNEL[i]];
      }
      PlantedOK(m, t);
      pmm.ram := pmm.ram[p := t];
      dir, who := dir[Node(p, 4, 0) := p], who[p := Node(p, 4, 0)];
      assert View() == Planted(m, t);
      return Ok, p;
    }

    /** `_ptable_free_level`: frees a table with everything below it. While it runs the entries leading to freed
        frames dangle; afterwards only the parent's does. */
    method FreeLevel(ghost n: Node, tbl: nat, depth: nat, ghost slack: set<Node>, ghost dead: Dead) returns (s: Status)
      requires 1 <= depth <= 3 && n in dir && n.level == depth && dir[n] == tbl && Partial(View(), slack, dead)
      requires Untouched(dead, n)
      modifies this, pmm
      ensures s.Ok? && Partial(View(), slack, dead + ParentSlot(n)) && Shrunk(old(View()), View())
      ensures dir == Without(old(dir), n) && flat == WithoutKeys(old(flat), n)
      decreases depth, 1
    {
      hide Partial, Tree, Counts, Shrunk, DeadGrows, Without, WithoutKeys, NodesFrom, KeysFrom;
      ghost var m, dead' := View(), dead;
      StartCut(m, slack, dead, n);
      if depth == 1 {
        dead' := FreeLeaves(n, tbl, slack, dead);
      } else {
        dead' := FreeTables(n, tbl, depth, slack, dead);
      }
      ghost var m2 := View();
      EndCut(m, m2, slack, dead, dead', n);
      :- pmm.PageUnref(tbl);
      dir, who := dir - {n}, who - {tbl};
      assert View() == TableDropped(m2, n);
      s := Ok;
    }

    /** The loop of `_ptable_free_level` over leaf entries: one mapping fewer for each. */
    method FreeLeaves(ghost n: Node, tbl: nat, ghost slack: set<Node>, ghost dead: Dead) returns (ghost dead': Dead)
      requires n in dir && n.level == 1 && dir[n] == tbl && Partial(View(), slack, dead) && Untouched(dead, n)
      modifies this, pmm
      ensures Partial(View(), slack, dead') && Shrunk(old(View()), View()) && DeadGrows(old(View()), dead, dead', n, WORDS)
      ensures dir == old(dir) && flat == KeysFrom(old(flat), n, WORDS)
    {
      hide Partial, Tree, Counts, Shrunk, KeysFrom;
      ghost var m := View();
      dead' := dead;
      StartCut(m, slack, dead, n);
      for i := 0 to WORDS
        invariant Partial(View(), slack, dead') && Shrunk(m, View()) && DeadGrows(m, dead, dead', n, i)
        invariant dir == m.dir && flat == KeysFrom(m.flat, n, i)
      {
        ghost var m1 := View();
        LeafSlot(m, m1, slack, dead, dead', n, i);
        LeafStep(m, n, i);
        if pmm.ram[tbl][i].bits.present {
          DroppedShrinks(m, m1, slack, dead', n.Leaf(i));
          var s := DropMapping(n.Leaf(i), slack, dead', pmm.ram[tbl][i].pfn);
          dead' := dead' + {(n, i)};
        }
      }
    }

    /** The loop of `_ptable_free_level` over entries that lead to tables. */
    method FreeTables(ghost n: Node, tbl: nat, depth: nat, ghost slack: set<Node>, ghost dead: Dead) returns (ghost dead': Dead)
      requires 2 <= depth <= 3 && n in dir && n.level == depth && dir[n] == tbl && Partial(View(), slack, dead) && Untouched(dead, n)
      modifies this, pmm
      ensures Partial(View(), slack, dead') && Shrunk(old(View()), View()) && DeadGrows(old(View()), dead, dead', n, WORDS)
      ensures dir == NodesFrom(old(dir), n, WORDS) && flat == KeysFrom(old(flat), n, WORDS)
      decreases depth, 0
    {
      hide Partial, Tree, Counts, Shrunk, Without, WithoutKeys, NodesFrom, KeysFrom;
      ghost var m := View();
      dead' := dead;
      StartCut(m, slack, dead, n);
      for i := 0 to WORDS
        invariant Partial(View(), slack, dead') && Shrunk(m, View()) && DeadGrows(m, dead, dead', n, i)
        invariant dir == NodesFrom(m.dir, n, i) && flat == KeysFrom(m.flat, n, i)
      {
        dead' := FreeSlot(m, n, tbl, depth, i, slack, dead, dead');
      }
    }

    /** One iteration: the table behind entry `i`, if there is one. */
    method FreeSlot(ghost m: Mem, ghost n: Node, tbl: nat, depth: nat, i: nat, ghost slack: set<Node>, ghost dead: Dead, ghost dead0: Dead)
      returns (ghost dead': Dead)
      requires 2 <= depth <= 4 && n in m.dir && n.level == depth && m.dir[n] == tbl && InHalf(n, i)
      requires Partial(m, slack, dead) && Untouched(dead, n)
      requires Partial(View(), slack, dead0) && Shrunk(m, View()) && DeadGrows(m, dead, dead0, n, i)
      requires dir == NodesFrom(m.dir, n, i) && flat == KeysFrom(m.flat, n, i)
      modifies this, pmm
      ensures Partial(View(), slack, dead') && Shrunk(m, View()) && DeadGrows(m, dead, dead', n, i + 1)
      ensures dir == NodesFrom(m.dir, n, i + 1) && flat == KeysFrom(m.flat, n, i + 1)
      decreases depth - 1, 2
    {
      hide Partial, Tree, Counts, Shrunk, Without, WithoutKeys, NodesFrom, KeysFrom;
      ghost var m1 := View();
      dead' := dead0;
      TableSlot(m, m1, slack, dead, dead0, n, i);
      TableStep(m, slack, dead, n, i);
      if pmm.ram[tbl][i].bits.present && !pmm.ram[tbl][i].bits.huge {
        var s := FreeLevel(n.Down(i), pmm.ram[tbl][i].pfn, depth - 1, slack, dead0);
        ShrunkTrans(m, m1, View());
        dead' := dead0 + {(n, i)};
        assert ParentSlot(n.Down(i)) == {(n, i)};
      }
    }

    /** `ptable_destroy` for a table other than the kernel's: every lower-half mapping and table goes, other
        address spaces keep theirs, and nothing panics. */
    method PtableDestroy(root: nat) returns (s: Status)
      requires Inv(View()) && IsRoot(dir, root)
      modifies this, pmm
      ensures s.Ok? && Inv(View()) && held == old(held) && DataKept(old(View()), View())
      ensures dir == (map a | a in old(dir) && a.root != root :: old(dir)[a])
      ensures flat == (map k | k in old(flat) && k.root != root :: old(flat)[k])
    {
      hide Partial, Tree, Counts, Shrunk, Without, WithoutKeys, NodesFrom, KeysFrom;
      ghost var m, n := View(), Node(root, 4, 0);
      ghost var slack := set a | a in dir && a.root == root;
      ghost var dead: Dead := {};
      RootFrame(m, root);
      RootSlack(m, slack);
      StartCut(m, slack, {}, n);
      for i := 0 to USER_ENTRIES
        invariant Partial(View(), slack, dead) && Shrunk(m, View()) && DeadGrows(m, {}, dead, n, i)
        invariant dir == NodesFrom(m.dir, n, i) && flat == KeysFrom(m.flat, n, i)
      {
        dead := FreeSlot(m, n, root, 4, i, slack, {}, dead);
      }
      ghost var m2 := View();
      RootCut(m, m2, slack, dead, root);
      :- pmm.PageUnref(root);
      dir, who := dir - {n}, who - {root};
      assert View() == TableDropped(m2, n);
      s := Ok;
    }
  }

  /** The ancestor of `a` at `level`; `a` itself when it is not below that level. */
  function Climb(a: Node, level: nat): Node
    decreases level - a.level
  {
    if a.level >= level then a else Climb(a.Up(), level)
  }

  /** No dangling entry lies at or below the level of `n`. */
  ghost predicate Untouched(dead: Dead, n: Node) {
    forall a, i | (a, i) in dead :: a.level > n.level
  }

  /** The directory without `n` and everything below it, and the flat map without the pages below `n`. */
  ghost function Without(dir: Dir, n: Node): Dir {
    map a | a in dir && Climb(a, n.level) != n :: dir[a]
  }

  ghost function WithoutKeys(flat: Flat, n: Node): Flat {
    map k | k in flat && Climb(k.Table(), n.level) != n :: flat[k]
  }

  /** `a` lies below one of the first `i` entries of `n`. */
  predicate Behind(a: Node, n: Node, i: nat) {
    a.level < n.level && Climb(a, n.level - 1).Up() == n && Climb(a, n.level - 1).Idx() < i
  }

  predicate KeyBehind(k: Key, n: Node, i: nat) {
    if n.level == 1 then k.Table() == n && k.Idx() < i else Behind(k.Table(), n, i)
  }

  ghost function NodesFrom(dir: Dir, n: Node, i: nat): Dir {
    map a | a in dir && !Behind(a, n, i) :: dir[a]
  }

  ghost function KeysFrom(flat: Flat, n: Node, i: nat): Flat {
    map k | k in flat && !KeyBehind(k, n, i) :: flat[k]
  }

  /** Mappings and tables only went away: what is left of both is unchanged, and so is all remaining data. */
  ghost predicate Shrunk(m: Mem, m': Mem) {
    && DataKept(m, m') && m'.held == m.held
    && (forall k | k in m'.flat :: k in m.flat && m'.flat[k] == m.flat[k])
    && (forall f | f in m'.who :: f in m.who && (f < |m.phys.ram| ==> m'.phys.ram[f] == m.phys.ram[f]))
  }

  /** The entries of `n` before `i` are absent or dangling; no other entry at its level or below dangles. */
  ghost predicate DeadGrows(m: Mem, dead: Dead, dead': Dead, n: Node, i: nat)
    requires n in m.dir
  {
    && dead <= dead'
    && (forall s | s in dead' :: s in dead || (s.0 == n && s.1 < i))
    && RamOK(m.phys.ram) && m.dir[n] < |m.phys.ram|
    && forall j | 0 <= j < i && j < WORDS && m.phys.ram[m.dir[n]][j].bits.present :: (n, j) in dead'
  }

  lemma {:induction false} ClimbLevel(a: Node, level: nat)
    requires a.level <= level
    ensures Climb(a, level).level == level && Climb(a, level).root == a.root
    decreases level - a.level
  {
    if a.level < level {
      ClimbLevel(a.Up(), level);
    }
  }

  lemma {:induction false} ClimbUp(a: Node, level: nat)
    requires a.level < level
    ensures Climb(a, level) == Climb(a, level - 1).Up()
    decreases level - a.level
  {
    if a.level + 1 < level {
      ClimbUp(a.Up(), level);
    }
  }

  lemma BehindStep(a: Node, n: Node, i: nat)
    requires n.level > 1 && i < WORDS
    ensures Behind(a, n, i + 1) <==> Behind(a, n, i) || Climb(a, n.level - 1) == n.Down(i)
  {
    UpDown(n, i);
    if a.level < n.level {
      ClimbLevel(a, n.level - 1);
      DownUp(Climb(a, n.level - 1));
    }
  }

  lemma BehindAll(a: Node, n: Node)
    requires n.level > 0
    ensures Behind(a, n, WORDS) <==> a != n && Climb(a, n.level) == n
  {
    if a.level < n.level {
      ClimbUp(a, n.level);
    }
  }

  /** Ancestors of a table are tables. */
  lemma {:induction false} AncestorInDir(m: Mem, slack: set<Node>, dead: Dead, a: Node, level: nat)
    requires Partial(m, slack, dead) && a in m.dir && level <= 4
    ensures Climb(a, level) in m.dir
    decreases level - a.level
  {
    assert NodeOK(m.phys.ram, m.dir, m.who, a);
    if a.level < level {
      AncestorInDir(m, slack, dead, a.Up(), level);
    }
  }

  lemma ShrunkTrans(a: Mem, b: Mem, c: Mem)
    requires Shrunk(a, b) && Shrunk(b, c)
    ensures Shrunk(a, c)
  {
    forall p: nat | Data(a, p) && Data(c, p)
      ensures Data(b, p)
    {
      ShareShrinks(b.flat, c.flat, p);
    }
    DataKeptTrans(a, b, c);
  }

  lemma StartCut(m: Mem, slack: set<Node>, dead: Dead, n: Node)
    requires Partial(m, slack, dead) && n in m.dir
    ensures DeadGrows(m, dead, dead, n, 0) && Shrunk(m, m)
    ensures NodesFrom(m.dir, n, 0) == m.dir && KeysFrom(m.flat, n, 0) == m.flat
    ensures n.level == 1 ==> NodesFrom(m.dir, n, WORDS) == m.dir
  {
    assert NodeOK(m.phys.ram, m.dir, m.who, n);
    forall a | a in m.dir && n.level == 1
      ensures !Behind(a, n, WORDS)
    {
      assert NodeOK(m.phys.ram, m.dir, m.who, a);
    }
  }

  /** Entry `i` of the level-1 table being emptied. */
  lemma LeafSlot(m: Mem, m1: Mem, slack: set<Node>, dead: Dead, dead': Dead, n: Node, i: nat)
    requires Partial(m1, slack, dead') && Shrunk(m, m1) && n in m.dir && m1.dir == m.dir && n.level == 1 && i < WORDS
    requires Untouched(dead, n) && DeadGrows(m, dead, dead', n, i) && m1.flat == KeysFrom(m.flat, n, i)
    ensures RamOK(m1.phys.ram) && m1.dir[n] < |m1.phys.ram| && m1.phys.ram[m1.dir[n]] == m.phys.ram[m.dir[n]]
    ensures var w := m1.phys.ram[m1.dir[n]][i];
            if w.bits.present then n.Leaf(i) in m1.flat && m1.flat[n.Leaf(i)] == w else n.Leaf(i) !in m.flat
    ensures n.Leaf(i).Table() == n && n.Leaf(i).Idx() == i
  {
    LeafTable(n, i);
    assert NodeOK(m1.phys.ram, m1.dir, m1.who, n) && SlotOK(m1.phys.ram, m1.dir, m1.flat, n, i);
    assert n.Leaf(i) in m1.flat ==> LeafOK(m1.phys.ram, m1.dir, m1.who, m1.flat, n.Leaf(i));
  }

  lemma DroppedShrinks(m: Mem, m1: Mem, slack: set<Node>, dead: Dead, k: Key)
    requires Partial(m1, slack, dead) && Shrunk(m, m1) && k in m1.flat
    ensures Shrunk(m, LeafDropped(m1, k))
  {
    LeafDroppedOK(m1, k, slack, dead);
    assert LeafOK(m1.phys.ram, m1.dir, m1.who, m1.flat, k);
    ShrunkTrans(m, m1, LeafDropped(m1, k));
  }

  lemma LeafStep(m: Mem, n: Node, i: nat)
    requires n.level == 1 && i < WORDS
    ensures KeysFrom(m.flat, n, i + 1) == KeysFrom(m.flat, n, i) - {n.Leaf(i)}
    ensures n.Leaf(i) !in m.flat ==> KeysFrom(m.flat, n, i + 1) == KeysFrom(m.flat, n, i)
  {
    LeafTable(n, i);
    forall k | k in m.flat
      ensures KeyBehind(k, n, i + 1) <==> KeyBehind(k, n, i) || k == n.Leaf(i)
    {
    }
  }

  /** Entry `i` of a higher table being emptied. */
  lemma TableSlot(m: Mem, m1: Mem, slack: set<Node>, dead: Dead, dead': Dead, n: Node, i: nat)
    requires Partial(m1, slack, dead') && Shrunk(m, m1) && n in m.dir && n.level > 1 && InHalf(n, i)
    requires Untouched(dead, n) && DeadGrows(m, dead, dead', n, i) && m1.dir == NodesFrom(m.dir, n, i)
    ensures RamOK(m1.phys.ram) && n in m1.dir && m1.dir[n] == m.dir[n] < |m1.phys.ram| && m1.phys.ram[m1.dir[n]] == m.phys.ram[m.dir[n]]
    ensures var w := m1.phys.ram[m1.dir[n]][i];
            if w.bits.present then !w.bits.huge && n.Down(i) in m1.dir && m1.dir[n.Down(i)] == w.pfn else n.Down(i) !in m.dir
    ensures n.Down(i).Up() == n && n.Down(i).Idx() == i && Untouched(dead', n.Down(i)) && (n, i) !in dead'
  {
    UpDown(n, i);
    assert n in m1.dir;
    assert NodeOK(m1.phys.ram, m1.dir, m1.who, n) && SlotOK(m1.phys.ram, m1.dir, m1.flat, n, i);
    assert !Behind(n.Down(i), n, i);
    assert n.Down(i) in m.dir ==> n.Down(i) in m1.dir;
    assert n.Down(i) in m1.dir ==> NodeOK(m1.phys.ram, m1.dir, m1.who, n.Down(i));
  }

  lemma TableStep(m: Mem, slack: set<Node>, dead: Dead, n: Node, i: nat)
    requires Partial(m, slack, dead) && n.level > 1 && n.level <= 4 && i < WORDS
    ensures NodesFrom(m.dir, n, i + 1) == Without(NodesFrom(m.dir, n, i), n.Down(i))
    ensures KeysFrom(m.flat, n, i + 1) == WithoutKeys(KeysFrom(m.flat, n, i), n.Down(i))
    ensures n.Down(i) !in m.dir ==> NodesFrom(m.dir, n, i + 1) == NodesFrom(m.dir, n, i) && KeysFrom(m.flat, n, i + 1) == KeysFrom(m.flat, n, i)
  {
    hide Partial, Tree, Climb;
    forall a | a in m.dir
      ensures Behind(a, n, i + 1) <==> Behind(a, n, i) || Climb(a, n.level - 1) == n.Down(i)
      ensures n.Down(i) !in m.dir ==> Climb(a, n.level - 1) != n.Down(i)
    {
      BehindStep(a, n, i);
      AncestorInDir(m, slack, dead, a, n.level - 1);
    }
    forall k | k in m.flat
      ensures KeyBehind(k, n, i + 1) <==> KeyBehind(k, n, i) || Climb(k.Table(), n.level - 1) == n.Down(i)
      ensures k.Table() in m.dir
    {
      BehindStep(k.Table(), n, i);
      TableInDir(m, slack, dead, k);
    }
  }

  lemma TableInDir(m: Mem, slack: set<Node>, dead: Dead, k: Key)
    requires Partial(m, slack, dead) && k in m.flat
    ensures k.Table() in m.dir
  {
    assert LeafOK(m.phys.ram, m.dir, m.who, m.flat, k);
  }

  lemma RootSlack(m: Mem, slack: set<Node>)
    requires Inv(m)
    ensures Partial(m, slack, {})
  {
    ChangeSlack(m.phys.ram, m.dir, m.who, m.flat, {}, slack, {});
  }

  /** Everything of an address space hangs below the lower half of its PML4. */
  lemma AllBehindRoot(m: Mem, a: Node)
    requires Inv(m) && a in m.dir
    ensures Behind(a, Node(a.root, 4, 0), USER_ENTRIES) <==> a.level < 4
    ensures a.level <= 4 && (a.level == 4 ==> a == Node(a.root, 4, 0))
  {
    assert NodeOK(m.phys.ram, m.dir, m.who, a);
    if a.level < 4 {
      AncestorInDir(m, {}, {}, a, 3);
      ClimbLevel(a, 3);
      assert NodeOK(m.phys.ram, m.dir, m.who, Climb(a, 3));
    }
  }

  lemma {:induction false} OtherRoots(a: Node, n: Node, i: nat)
    requires a.root != n.root
    ensures !Behind(a, n, i)
  {
    if a.level < n.level {
      ClimbLevel(a, n.level - 1);
    }
  }

  /** Cutting all lower-half entries of a PML4 removes exactly its address space. */
  lemma RootCutSets(m: Mem, root: nat)
    requires Inv(m) && IsRoot(m.dir, root)
    ensures NodesFrom(m.dir, Node(root, 4, 0), USER_ENTRIES) - {Node(root, 4, 0)} == map a | a in m.dir && a.root != root :: m.dir[a]
    ensures KeysFrom(m.flat, Node(root, 4, 0), USER_ENTRIES) == map k | k in m.flat && k.root != root :: m.flat[k]
  {
    var n := Node(root, 4, 0);
    forall a | a in m.dir
      ensures Behind(a, n, USER_ENTRIES) || a == n <==> a.root == root
    {
      if a.root == root {
        AllBehindRoot(m, a);
      } else {
        OtherRoots(a, n, USER_ENTRIES);
      }
    }
    forall k | k in m.flat
      ensures KeyBehind(k, n, USER_ENTRIES) <==> k.root == root
    {
      TableInDir(m, {}, {}, k);
      if k.root == root {
        AllBehindRoot(m, k.Table());
      } else {
        OtherRoots(k.Table(), n, USER_ENTRIES);
      }
    }
  }

  lemma RootCut(m: Mem, m2: Mem, slack: set<Node>, dead: Dead, root: nat)
    requires Inv(m) && IsRoot(m.dir, root) && slack == (set a | a in m.dir && a.root == root)
    requires Partial(m2, slack, dead) && Shrunk(m, m2) && DeadGrows(m, {}, dead, Node(root, 4, 0), USER_ENTRIES)
    requires m2.dir == NodesFrom(m.dir, Node(root, 4, 0), USER_ENTRIES) && m2.flat == KeysFrom(m.flat, Node(root, 4, 0), USER_ENTRIES)
    ensures m2.held == m.held && FreeListOK(m2.phys) && IsRoot(m2.dir, root) && m2.dir[Node(root, 4, 0)] == root && 0 < root < |m2.phys.pages|
    ensures var pg := m2.phys.pages[root];
            LooksUsed(pg) && pg.refcount == 1 && pg.u2 == 0 && !pg.flags.free && !pg.flags.reserved
    ensures Inv(TableDropped(m2, Node(root, 4, 0))) && DataKept(m, TableDropped(m2, Node(root, 4, 0)))
    ensures m2.dir - {Node(root, 4, 0)} == map a | a in m.dir && a.root != root :: m.dir[a]
    ensures m2.flat == map k | k in m.flat && k.root != root :: m.flat[k]
  {
    var n := Node(root, 4, 0);
    assert n in m2.dir && NodeOK(m2.phys.ram, m2.dir, m2.who, n);
    assert Barren(m2.phys.ram, m2.dir, dead, n);
    TableDroppedOK(m2, n, slack, dead);
    assert DeadAfter(dead, n) == {};
    RootCutSets(m, root);
    var m3 := TableDropped(m2, n);
    ChangeSlack(m3.phys.ram, m3.dir, m3.who, m3.flat, slack, {}, {});
    DropShrinks(m, m2, n);
  }

  /** Once every entry is done the table itself can go. */
  lemma EndCut(m: Mem, m2: Mem, slack: set<Node>, dead: Dead, dead': Dead, n: Node)
    requires Partial(m2, slack, dead') && Shrunk(m, m2) && n in m.dir && 1 <= n.level <= 3
    requires Untouched(dead, n) && DeadGrows(m, dead, dead', n, WORDS)
    requires m2.dir == NodesFrom(m.dir, n, WORDS) && m2.flat == KeysFrom(m.flat, n, WORDS)
    ensures FreeListOK(m2.phys) && n in m2.dir && m2.dir[n] == m.dir[n] && 0 < m2.dir[n] < |m2.phys.pages|
    ensures var pg := m2.phys.pages[m2.dir[n]];
            LooksUsed(pg) && pg.refcount == 1 && pg.u2 == 0 && !pg.flags.free && !pg.flags.reserved
    ensures Partial(TableDropped(m2, n), slack, dead + ParentSlot(n)) && Shrunk(m, TableDropped(m2, n))
    ensures m2.dir - {n} == Without(m.dir, n) && m2.flat == WithoutKeys(m.flat, n)
  {
    assert n in m2.dir && NodeOK(m2.phys.ram, m2.dir, m2.who, n);
    assert Barren(m2.phys.ram, m2.dir, dead', n);
    TableDroppedOK(m2, n, slack, dead');
    assert DeadAfter(dead', n) == dead + ParentSlot(n);
    CutAll(m.dir, m.flat, n);
    DropShrinks(m, m2, n);
  }

  lemma DropShrinks(m: Mem, m2: Mem, n: Node)
    requires Shrunk(m, m2) && FreeListOK(m2.phys) && n in m2.dir && 0 < m2.dir[n] < |m2.phys.pages|
    requires m2.phys.pages[m2.dir[n]].refcount > 0 && DataKept(m2, TableDropped(m2, n))
    ensures Shrunk(m, TableDropped(m2, n))
  {
    ShrunkTrans(m, m2, TableDropped(m2, n));
  }

  lemma CutAll(dir: Dir, flat: Flat, n: Node)
    requires n.level > 0
    ensures NodesFrom(dir, n, WORDS) - {n} == Without(dir, n)
    ensures KeysFrom(flat, n, WORDS) == WithoutKeys(flat, n)
  {
    forall a | a in dir
      ensures Behind(a, n, WORDS) <==> a != n && Climb(a, n.level) == n
    {
      BehindAll(a, n);
    }
    forall k | k in flat
      ensures KeyBehind(k, n, WORDS) <==> Climb(k.Table(), n.level) == n
    {
      BehindAll(k.Table(), n);
    }
  }

  /** The tables freed after an unmapping are the lowest ones on the page's path. */
  predicate Pruned(d: Dir, d': Dir, root: nat, vpn: nat) {
    var n1, n2, n3 := PathNode(root, vpn, 1), PathNode(root, vpn, 2), PathNode(root, vpn, 3);
    d' == d || d' == d - {n1} || d' == d - {n1} - {n2} || d' == d - {n1} - {n2} - {n3}
  }

  /** How many tables on a page's path are not there. */
  function MissingTables(d: Dir, root: nat, vpn: nat): nat {
    (if PathNode(root, vpn, 3) in d then 0 else 1) + (if PathNode(root, vpn, 2) in d then 0 else 1) +
    (if PathNode(root, vpn, 1) in d then 0 else 1)
  }

  lemma RootFrame(m: Mem, root: nat)
    requires Inv(m) && IsRoot(m.dir, root)
    ensures m.dir[Node(root, 4, 0)] == root && DataKept(m, m)
  {
    assert NodeOK(m.phys.ram, m.dir, m.who, Node(root, 4, 0));
  }

  lemma NoPath(m: Mem, k: Key, level: nat)
    requires Inv(m) && 1 <= level <= 3
    ensures PathNode(k.root, k.vpn, level) !in m.dir ==> k !in m.flat
  {
    if k in m.flat {
      MappedHasPath(m.phys.ram, m.dir, m.who, m.flat, {}, {}, k, level);
    }
  }

  /** At the leaf table, the entry in memory is the flat map's. */
  lemma LeafFacts(m: Mem, k: Key, slack: set<Node>)
    requires Partial(m, slack, {}) && k.Table() in m.dir && k.vpn < USER_PAGES
    ensures NodeLevelOK(m, k.Table()) && m.dir[k.Table()] < |m.phys.ram| && RamOK(m.phys.ram)
    ensures m.phys.ram[m.dir[k.Table()]][k.Idx()].bits.present <==> k in m.flat
    ensures k in m.flat ==> m.flat[k] == m.phys.ram[m.dir[k.Table()]][k.Idx()]
    ensures Counts(m.phys, m.who, m.flat, m.held)
  {
    var n := k.Table();
    assert NodeOK(m.phys.ram, m.dir, m.who, n) && SlotOK(m.phys.ram, m.dir, m.flat, n, k.Idx());
    assert n.Leaf(k.Idx()) == k;
    assert k in m.flat ==> LeafOK(m.phys.ram, m.dir, m.who, m.flat, k);
  }

  lemma KeptSame(m: Mem, slack: set<Node>, dead: Dead)
    requires Partial(m, slack, dead)
    ensures DataKept(m, m)
  {
  }

  /** The number of frames never changes. */
  lemma KeptPages(m: Mem, m': Mem)
    requires DataKept(m, m')
    ensures |m'.phys.pages| == |m.phys.pages|
  {
  }

  /** Only free frames become tables. */
  ghost predicate NewTables(m: Mem, m': Mem) {
    && (forall p | p in m'.who && p !in m.who :: p in m.phys.fl)
    && (forall p | p in m'.phys.fl :: p in m.phys.fl)
  }

  lemma NewTablesTrans(a: Mem, b: Mem, c: Mem)
    requires NewTables(a, b) && NewTables(b, c)
    ensures NewTables(a, c)
  {
  }

  lemma NotATable(m: Mem, m': Mem, p: nat)
    requires NewTables(m, m') && DataKept(m, m') && p < |m.phys.pages| && p !in m.who && p !in m.phys.fl
    ensures p < |m'.phys.pages| && p !in m'.who
  {
  }

  lemma AddReady(m: Mem, k: Key, w: Word, slack: set<Node>, dead: Dead)
    requires Partial(m, slack, dead) && k.Table() in m.dir && NodeLevelOK(m, k.Table())
    requires k !in m.flat && k.vpn < USER_PAGES && w.bits.present && w.pfn < |m.phys.pages| && w.pfn !in m.who
    requires slack <= {k.Table()} && dead <= {(k.Table(), k.Idx())}
    ensures if Owned(m.flat, m.held, w.pfn) then
              && LooksUsed(m.phys.pages[w.pfn]) && LooksUsed(Shared(m.phys.pages[w.pfn]))
              && Inv(LeafSet(m, k, w)) && DataKept(m, LeafSet(m, k, w))
            else !m.phys.pages[w.pfn].flags.used && !m.phys.pages[w.pfn].flags.poison
  {
    hide Tree, Counts, DataKept, Owned;
    if Data(m, w.pfn) {
      LeafSetOK(m, k, w, slack, dead);
    } else {
      UnownedIsUnused(m, slack, dead, w.pfn);
    }
  }

  /** The one panic of `map_page` besides an empty free list, as a caller sees it coming: the frame is mapped at this
      very page, and this is its only reference. */
  lemma LastReference(m: Mem, k: Key, page: nat)
    requires Inv(m) && Data(m, page)
    ensures page < |m.phys.pages|
    ensures !Owned(m.flat - {k}, m.held, page) <==> k in m.flat && m.flat[k].pfn == page && m.phys.pages[page].refcount == 1
  {
    DataFrame(m, {}, {}, page);
    assert FrameOK(m.phys, m.who, m.flat, m.held, page);
    if k in m.flat {
      ShareRemove(m.flat, k);
    } else {
      assert m.flat - {k} == m.flat;
    }
  }

  lemma LeafNode(m: Mem, k: Key, slack: set<Node>, dead: Dead)
    requires Partial(m, slack, dead) && k.Table() in m.dir
    ensures NodeLevelOK(m, k.Table()) && m.dir[k.Table()] < |m.phys.ram|
  {
    assert NodeOK(m.phys.ram, m.dir, m.who, k.Table());
  }

  /** Data survives replacing the entry of `k`, since whatever it names afterwards had another owner. */
  lemma MapKeepsData(a: Mem, b: Mem, c: Mem, k: Key, page: nat)
    requires DataKept(a, b) && DataKept(b, c)
    requires a.held == b.held == c.held && a.flat - {k} == b.flat - {k} == c.flat - {k}
    requires k in c.flat && c.flat[k].pfn == page && Owned(a.flat - {k}, a.held, page)
    ensures DataKept(a, c)
  {
    forall p: nat | Data(a, p) && Data(c, p)
      ensures Data(b, p)
    {
      ShareRemove(c.flat, k);
      OwnedMono(b.flat, b.held, k, p);
    }
    DataKeptTrans(a, b, c);
  }

  lemma OwnedMono(flat: Flat, held: multiset<nat>, k: Key, p: nat)
    requires Owned(flat - {k}, held, p)
    ensures Owned(flat, held, p)
  {
    if k in flat {
      ShareRemove(flat, k);
    } else {
      assert flat - {k} == flat;
    }
  }

  /** Data owned before and after an unmapping is owned in between. */
  lemma UnmapKeepsData(a: Mem, b: Mem, c: Mem)
    requires DataKept(a, b) && DataKept(b, c) && b.flat == c.flat && b.held == c.held
    ensures DataKept(a, c)
  {
    DataKeptTrans(a, b, c);
  }

  lemma UnreffedRam(s: Phys, ram: seq<Frame>, p: nat)
    requires FreeListOK(s) && 0 < p < |s.pages| && s.pages[p].refcount > 0 && |ram| == |s.ram| && RamOK(ram)
    ensures FreeListOK(s.(ram := ram))
    ensures Unreffed(s.(ram := ram), p) == Unreffed(s, p).(ram := if s.pages[p].refcount == 1 then ram[p := ZeroFrame()] else ram)
  {
    forall i | 0 <= i < |s.fl|
      ensures Linked(s.(ram := ram).pages, s.(ram := ram).fl, i)
    {
      assert Linked(s.pages, s.fl, i);
    }
  }

  /** Zeroing an entry before or after dropping the page it names comes to the same. */
  lemma ClearedOK(m: Mem, k: Key)
    requires Inv(m) && k in m.flat && k.Table() in m.dir && NodeLevelOK(m, k.Table())
    ensures Partial(LeafDropped(m, k), {}, {(k.Table(), k.Idx())})
    ensures NodeLevelOK(LeafDropped(m, k), k.Table())
    ensures Partial(EntryZeroed(LeafDropped(m, k), k.Table(), k.Idx()), {k.Table()}, {})
    ensures DataKept(m, LeafDropped(m, k)) && DataKept(LeafDropped(m, k), EntryZeroed(LeafDropped(m, k), k.Table(), k.Idx()))
    ensures var p, t := m.flat[k].pfn, m.dir[k.Table()];
            var s, ram := WithPage(m.phys, p, Unshared(m.phys.pages[p])), m.phys.ram[t := m.phys.ram[t][k.Idx() := ZERO]];
            FreeListOK(s.(ram := ram)) && s.pages[p].refcount > 0 && Unreffed(s.(ram := ram), p) == EntryZeroed(LeafDropped(m, k), k.Table(), k.Idx()).phys
  {
    LeafDroppedOK(m, k, {}, {});
    var m1, n, i := LeafDropped(m, k), k.Table(), k.Idx();
    assert {} + {(n, i)} == {(n, i)};
    assert NodeOK(m1.phys.ram, m1.dir, m1.who, n);
    EntryZeroedOK(m1, n, i, {}, {(n, i)});
    assert {} + {n} == {n} && {(n, i)} - {(n, i)} == {};
    var p, t := m.flat[k].pfn, m.dir[n];
    var s, ram := WithPage(m.phys, p, Unshared(m.phys.pages[p])), m.phys.ram[t := m.phys.ram[t][i := ZERO]];
    UnreffedRam(s, ram, p);
    assert LeafOK(m.phys.ram, m.dir, m.who, m.flat, k);
    assert p != t;
    assert ram[p := ZeroFrame()] == m.phys.ram[p := ZeroFrame()][t := m.phys.ram[t][i := ZERO]];
  }

  lemma PrunedOK(m: Mem, c: Node)
    requires Partial(m, {c}, {}) && c in m.dir && c.level < 4 && c.Up() in m.dir
    requires RamOK(m.phys.ram) && m.dir[c] < |m.phys.ram| && !Nonempty(m.phys.ram[m.dir[c]])
    ensures FreeListOK(m.phys) && 0 < m.dir[c] < |m.phys.pages| && LooksUsed(m.phys.pages[m.dir[c]])
    ensures m.phys.pages[m.dir[c]].refcount == 1 && m.phys.pages[m.dir[c]].u2 == 0
    ensures !m.phys.pages[m.dir[c]].flags.free && !m.phys.pages[m.dir[c]].flags.reserved
    ensures var m1 := TableDropped(m, c);
            && RamOK(m1.phys.ram) && |m1.phys.ram| == |m.phys.ram|
            && c.Up() in m1.dir && m1.dir[c.Up()] == m.dir[c.Up()] < |m1.phys.ram|
            && Partial(EntryZeroed(m1, c.Up(), c.Idx()), {c.Up()}, {})
            && DataKept(m, EntryZeroed(m1, c.Up(), c.Idx()))
  {
    assert NodeOK(m.phys.ram, m.dir, m.who, c);
    assert Barren(m.phys.ram, m.dir, {}, c);
    TableDroppedOK(m, c, {c}, {});
    var m1 := TableDropped(m, c);
    assert DeadAfter({}, c) == {(c.Up(), c.Idx())};
    assert NodeOK(m1.phys.ram, m1.dir, m1.who, c.Up());
    EntryZeroedOK(m1, c.Up(), c.Idx(), {c}, {(c.Up(), c.Idx())});
    var m2 := EntryZeroed(m1, c.Up(), c.Idx());
    assert {(c.Up(), c.Idx())} - {(c.Up(), c.Idx())} == {};
    ChangeSlack(m2.phys.ram, m2.dir, m2.who, m2.flat, {c} + {c.Up()}, {c.Up()}, {});
    DataKeptTrans(m, m1, m2);
  }

  /** One step down the path of `va`. */
  lemma PathFacts(m: Mem, slack: set<Node>, root: nat, va: nat, level: nat)
    requires Partial(m, slack, {}) && 1 <= level <= 4 && va / PAGE_SIZE < USER_PAGES
    requires PathNode(root, va / PAGE_SIZE, level) in m.dir
    ensures RamOK(m.phys.ram) && DataKept(m, m)
    ensures var f := m.dir[PathNode(root, va / PAGE_SIZE, level)]; f < |m.phys.ram|
    ensures level == 4 ==> m.dir[PathNode(root, va / PAGE_SIZE, level)] == root
    ensures level > 1 ==>
              var w, c := m.phys.ram[m.dir[PathNode(root, va / PAGE_SIZE, level)]][PmlIdx(va, level)], PathNode(root, va / PAGE_SIZE, level - 1);
              && c.Up() == PathNode(root, va / PAGE_SIZE, level) && c.Idx() == PmlIdx(va, level)
              && (w.bits.present ==> c in m.dir && m.dir[c] == w.pfn)
              && (!w.bits.present && slack <= {PathNode(root, va / PAGE_SIZE, 1)} ==> Inv(m))
    ensures slack == {} ==> Inv(m)
  {
    var n, i := PathNode(root, va / PAGE_SIZE, level), PmlIdx(va, level);
    PathStep(root, va, level);
    assert NodeOK(m.phys.ram, m.dir, m.who, n) && SlotOK(m.phys.ram, m.dir, m.flat, n, i);
    if level > 1 {
      var c := PathNode(root, va / PAGE_SIZE, level - 1);
      UpDown(n, i);
      if c in m.dir {
        assert NodeOK(m.phys.ram, m.dir, m.who, c);
      } else {
        var n1 := PathNode(root, va / PAGE_SIZE, 1);
        assert n1 in m.dir ==> NodeOK(m.phys.ram, m.dir, m.who, n1);
        assert n1.Up() in m.dir ==> NodeOK(m.phys.ram, m.dir, m.who, n1.Up());
        ChangeSlack(m.phys.ram, m.dir, m.who, m.flat, slack, slack - {n1}, {});
        assert slack <= {n1} ==> slack - {n1} == {};
      }
    }
  }

  /** A table that has a present entry, or is a PML4, needs no excuse. */
  lemma SlackGone(m: Mem, n: Node)
    requires Partial(m, {n}, {}) && RamOK(m.phys.ram)
    requires n in m.dir && m.dir[n] < |m.phys.ram| && (n.level == 4 || Nonempty(m.phys.ram[m.dir[n]]))
    ensures Inv(m)
  {
    ChangeSlack(m.phys.ram, m.dir, m.who, m.flat, {n}, {}, {});
  }

  lemma SlackUnused(m: Mem, slack: set<Node>, n: Node)
    requires Partial(m, slack, {}) && slack <= {n} && RamOK(m.phys.ram)
    requires n in m.dir && m.dir[n] < |m.phys.ram| && Nonempty(m.phys.ram[m.dir[n]])
    ensures Inv(m)
  {
    ChangeSlack(m.phys.ram, m.dir, m.who, m.flat, slack, {}, {});
  }

  lemma EmptyIsSlack(m: Mem, slack: set<Node>, n: Node)
    requires Partial(m, slack, {}) && slack <= {n} && RamOK(m.phys.ram)
    requires n in m.dir && m.dir[n] < |m.phys.ram| && n.level < 4 && !Nonempty(m.phys.ram[m.dir[n]])
    ensures slack == {n}
  {
    assert NodeOK(m.phys.ram, m.dir, m.who, n) && Filled(m.phys.ram, m.dir, slack, n);
  }

  lemma WalkMeansFlat(m: Mem, root: nat, va: nat)
    requires Inv(m) && IsRoot(m.dir, root) && va / PAGE_SIZE < USER_PAGES
    ensures RamOK(m.phys.ram)
    ensures Walk(m.phys.ram, root, 4, va) ==
            if Key(root, va / PAGE_SIZE) in m.flat then Entry(m.flat[Key(root, va / PAGE_SIZE)]) else Absent
    ensures forall k | k in m.flat :: m.flat[k].pfn > 0 && m.flat[k].bits.present
  {
    RootFrame(m, root);
    WalkFindsFlat(m.phys.ram, m.dir, m.who, m.flat, {}, root, va, 4);
    forall k | k in m.flat
      ensures m.flat[k].pfn > 0 && m.flat[k].bits.present
    {
      assert LeafOK(m.phys.ram, m.dir, m.who, m.flat, k);
      SharePositive(m.flat, k);
      DataFrame(m, {}, {}, m.flat[k].pfn);
    }
  }
}
