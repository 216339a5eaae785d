/** All address spaces together: the copy-on-write invariant, and the eager-copy memory it stands for. */
module CopyOnWrite {
  import opened Machine
  import opened PhysicalMemory
  import opened PageTree
  import opened FrameCounts
  import opened Memory
  import opened Areas
  import opened Sizes

  /** The machine, and the area list of every address space by its PML4. */
  datatype Sys = Sys(mem: Mem, areas: map<nat, seq<Vad>>)

  /** What backs a page. */
  function Back(areas: map<nat, seq<Vad>>, k: Key): Backing {
    if k.root in areas then At(areas[k.root], k.vpn * PAGE_SIZE) else Nothing
  }

  /** Writable private memory: the areas `vas_clone` shares copy-on-write. */
  predicate CowArea(f: VadFlags) { f.prot.writable && !f.shared }

  function Full(f: VadFlags): Bits { f.prot.(present := true) }

  /** The entry of a page has its area's protection, except that a private writable page may be read-only.
      Then its frame is marked; a private page that is writable has its frame to itself. */
  ghost predicate PageOK(m: Mem, b: Backing, k: Key)
    requires k in m.flat && b.Memory?
  {
    var w, f := m.flat[k], b.flags;
    && w.pfn < |m.phys.pages|
    && (w.bits == Full(f) || (CowArea(f) && w.bits == Full(f).(writable := false)))
    && (!f.shared && w.bits.writable ==> Share(m.flat, w.pfn) == 1)
    && (CowArea(f) && !w.bits.writable ==> m.phys.pages[w.pfn].flags.cow)
  }

  /** Address spaces are the live PML4s; their lists are well formed; exactly the covered pages are mapped. */
  ghost predicate Spaces(s: Sys) {
    && (forall r: nat :: IsRoot(s.mem.dir, r) <==> r in s.areas)
    && (forall r | r in s.areas :: WellFormed(s.areas[r]))
    && (forall k: Key :: k in s.mem.flat <==> Back(s.areas, k).Memory?)
  }

  /** Every page is as its area says, and a frame is never mapped both shared and private. */
  ghost predicate Sharing(s: Sys)
    requires Spaces(s)
  {
    && (forall k {:trigger PageOK(s.mem, Back(s.areas, k), k)} | k in s.mem.flat :: PageOK(s.mem, Back(s.areas, k), k))
    && (forall k, k' {:trigger Alias(s.mem.flat, k, k')} | k in s.mem.flat && k' in s.mem.flat && Alias(s.mem.flat, k, k') ::
          Back(s.areas, k).flags.shared == Back(s.areas, k').flags.shared)
  }

  predicate Alias(flat: Flat, k: Key, k': Key)
    requires k in flat && k' in flat
  {
    flat[k].pfn == flat[k'].pfn
  }

  ghost predicate SysInv(s: Sys) {
    Inv(s.mem) && Spaces(s) && Sharing(s)
  }

  /** The bits of a mapped page are its area's, with present set, and at most the right to write taken away. */
  lemma EntryBits(s: Sys, k: Key)
    requires SysInv(s) && k in s.mem.flat
    ensures Back(s.areas, k).Memory?
    ensures var w, prot := s.mem.flat[k].bits, Back(s.areas, k).flags.prot;
            && w.present && w.user == prot.user && w.huge == prot.huge && w.rest == prot.rest && (w.writable ==> prot.writable)
            && (w.writable != prot.writable ==> !Back(s.areas, k).flags.shared)
  {
    hide Inv;
    assert PageOK(s.mem, Back(s.areas, k), k);
  }

  /** What a process reads at a page. */
  ghost function Contents(m: Mem, k: Key): Frame
    requires k in m.flat
  {
    if m.flat[k].pfn < |m.phys.ram| then m.phys.ram[m.flat[k].pfn] else []
  }

  /** The eager memory has one cell for each private page, and one for each page of shared memory. */
  datatype Cell = Private(key: Key) | Common(id: nat)

  datatype Eager = Eager(cells: map<Key, Cell>, view: map<Key, Frame>)

  ghost function CellOf(s: Sys, k: Key): Cell
    requires Spaces(s) && k in s.mem.flat
  {
    if Back(s.areas, k).flags.shared then Common(s.mem.flat[k].pfn) else Private(k)
  }

  ghost function Abstract(s: Sys): (e: Eager)
    requires SysInv(s)
    ensures e.cells.Keys == e.view.Keys == s.mem.flat.Keys
  {
    Eager(map k | k in s.mem.flat :: CellOf(s, k), map k | k in s.mem.flat :: Contents(s.mem, k))
  }

  lemma MappedInRam(m: Mem)
    requires Inv(m)
    ensures forall k | k in m.flat :: 0 < m.flat[k].pfn < |m.phys.ram| == |m.phys.pages| && m.flat[k].bits.present && Data(m, m.flat[k].pfn)
  {
    forall k | k in m.flat
      ensures 0 < m.flat[k].pfn < |m.phys.ram| == |m.phys.pages| && m.flat[k].bits.present && Data(m, m.flat[k].pfn)
    {
      assert LeafOK(m.phys.ram, m.dir, m.who, m.flat, k);
      SharePositive(m.flat, k);
      DataFrame(m, {}, {}, m.flat[k].pfn);
    }
  }

  // Unmapping

  /** Pages of `root` with addresses in the range. */
  predicate InRange(k: Key, root: nat, start: nat, end: nat) {
    k.root == root && start <= k.vpn * PAGE_SIZE < end
  }

  ghost function FlatWithout(flat: Flat, root: nat, start: nat, end: nat): Flat {
    map k | k in flat && !InRange(k, root, start, end) :: flat[k]
  }

  ghost predicate Unmapped(s: Sys, s': Sys, root: nat, start: nat, end: nat)
    requires root in s.areas
  {
    && DataKept(s.mem, s'.mem) && SameRoots(s.mem, s'.mem) && s'.mem.held == s.mem.held
    && s'.mem.flat == FlatWithout(s.mem.flat, root, start, end)
    && s'.areas == s.areas[root := RemoveRange(s.areas[root], start, end)]
  }

  /** Fewer mappings of a frame never break a page that is left. */
  lemma PageSurvives(m: Mem, m': Mem, b: Backing, k: Key)
    requires Inv(m) && Inv(m') && DataKept(m, m') && k in m.flat && k in m'.flat && m'.flat[k] == m.flat[k]
    requires b.Memory? && PageOK(m, b, k) && Share(m'.flat, m.flat[k].pfn) <= Share(m.flat, m.flat[k].pfn)
    ensures PageOK(m', b, k) && Contents(m', k) == Contents(m, k)
  {
    MappedInRam(m);
    MappedInRam(m');
    SharePositive(m'.flat, k);
    assert Same(m, m', m.flat[k].pfn);
  }

  lemma UnmappedOK(s: Sys, s': Sys, root: nat, start: nat, end: nat)
    requires SysInv(s) && Inv(s'.mem) && root in s.areas && Unmapped(s, s', root, start, end)
    requires Aligned(start) && Aligned(end) && !Straddled(s.areas[root], start, end)
    ensures SysInv(s')
    ensures forall k | k in s'.mem.flat :: Contents(s'.mem, k) == Contents(s.mem, k)
  {
    hide Inv, DataKept, At, WellFormed, PageOK, Straddled;
    assert Spaces(s') by {
      RemoveRangeKeepsOrderIff(s.areas[root], start, end);
      forall k: Key
        ensures k in s'.mem.flat <==> Back(s'.areas, k).Memory?
      {
        BackAfterRemove(s, s', root, start, end, k);
      }
    }
    forall k | k in s'.mem.flat
      ensures PageOK(s'.mem, Back(s'.areas, k), k) && Contents(s'.mem, k) == Contents(s.mem, k)
    {
      BackAfterRemove(s, s', root, start, end, k);
      assert PageOK(s.mem, Back(s.areas, k), k);
      ShareShrinks(s.mem.flat, s'.mem.flat, s.mem.flat[k].pfn);
      PageSurvives(s.mem, s'.mem, Back(s.areas, k), k);
    }
    forall k, k' | k in s'.mem.flat && k' in s'.mem.flat && Alias(s'.mem.flat, k, k')
      ensures Back(s'.areas, k).flags.shared == Back(s'.areas, k').flags.shared
    {
      BackAfterRemove(s, s', root, start, end, k);
      BackAfterRemove(s, s', root, start, end, k');
      assert Alias(s.mem.flat, k, k');
    }
  }

  lemma BackAfterRemove(s: Sys, s': Sys, root: nat, start: nat, end: nat, k: Key)
    requires Spaces(s) && root in s.areas && Aligned(start) && Aligned(end) && !Straddled(s.areas[root], start, end)
    requires s'.areas == s.areas[root := RemoveRange(s.areas[root], start, end)]
    ensures Back(s'.areas, k) == if InRange(k, root, start, end) then Nothing else Back(s.areas, k)
  {
    hide At, WellFormed, Straddled;
    if start <= end {
      RemoveRangeAt(s.areas[root], start, end, k.vpn * PAGE_SIZE);
    } else {
      RemoveRangeKeepsOrderIff(s.areas[root], start, end);
    }
  }

  // Destroying

  ghost predicate Destroyed(s: Sys, s': Sys, root: nat) {
    && DataKept(s.mem, s'.mem) && s'.mem.held == s.mem.held
    && (forall r: nat :: IsRoot(s'.mem.dir, r) <==> IsRoot(s.mem.dir, r) && r != root)
    && s'.mem.flat == (map k | k in s.mem.flat && k.root != root :: s.mem.flat[k])
    && s'.areas == s.areas - {root}
  }

  lemma DestroyedOK(s: Sys, s': Sys, root: nat)
    requires SysInv(s) && Inv(s'.mem) && Destroyed(s, s', root)
    ensures SysInv(s')
    ensures forall k | k in s'.mem.flat :: Contents(s'.mem, k) == Contents(s.mem, k)
  {
    hide Inv, DataKept, At, WellFormed, PageOK;
    assert Spaces(s') by {
      forall k: Key
        ensures k in s'.mem.flat <==> Back(s'.areas, k).Memory?
      {
        assert k.root != root ==> Back(s'.areas, k) == Back(s.areas, k);
      }
    }
    forall k | k in s'.mem.flat
      ensures PageOK(s'.mem, Back(s'.areas, k), k) && Contents(s'.mem, k) == Contents(s.mem, k)
    {
      assert Back(s'.areas, k) == Back(s.areas, k) && PageOK(s.mem, Back(s.areas, k), k);
      ShareShrinks(s.mem.flat, s'.mem.flat, s.mem.flat[k].pfn);
      PageSurvives(s.mem, s'.mem, Back(s.areas, k), k);
    }
    forall k, k' | k in s'.mem.flat && k' in s'.mem.flat && Alias(s'.mem.flat, k, k')
      ensures Back(s'.areas, k).flags.shared == Back(s'.areas, k').flags.shared
    {
      assert Alias(s.mem.flat, k, k');
      assert Back(s'.areas, k) == Back(s.areas, k) && Back(s'.areas, k') == Back(s.areas, k');
    }
  }

  // Creating an empty space

  ghost predicate Created(s: Sys, s': Sys, root: nat) {
    && root !in s.areas && s'.areas == s.areas[root := []]
    && DataKept(s.mem, s'.mem) && s'.mem.held == s.mem.held && s'.mem.flat == s.mem.flat
    && forall r: nat :: IsRoot(s'.mem.dir, r) <==> IsRoot(s.mem.dir, r) || r == root
  }

  lemma CreatedOK(s: Sys, s': Sys, root: nat)
    requires SysInv(s) && Inv(s'.mem) && Created(s, s', root)
    ensures SysInv(s')
    ensures forall k | k in s'.mem.flat :: Contents(s'.mem, k) == Contents(s.mem, k)
  {
    hide Inv, DataKept, PageOK;
    forall k: Key
      ensures Back(s'.areas, k) == Back(s.areas, k)
    {
    }
    assert Spaces(s');
    forall k | k in s'.mem.flat
      ensures PageOK(s'.mem, Back(s'.areas, k), k) && Contents(s'.mem, k) == Contents(s.mem, k)
    {
      assert PageOK(s.mem, Back(s.areas, k), k);
      PageSurvives(s.mem, s'.mem, Back(s.areas, k), k);
    }
    forall k, k' | k in s'.mem.flat && k' in s'.mem.flat && Alias(s'.mem.flat, k, k')
      ensures Back(s'.areas, k).flags.shared == Back(s'.areas, k').flags.shared
    {
      assert Alias(s.mem.flat, k, k');
    }
  }

  // Mapping anonymous memory

  /** The pages of the range were added, each with a frame of its own that nobody owned before. */
  ghost predicate Committed(m: Mem, m': Mem, root: nat, start: nat, end: nat, f: VadFlags) {
    && DataKept(m, m') && SameRoots(m, m') && m'.held == m.held
    && (forall k | k in m.flat :: k in m'.flat && m'.flat[k] == m.flat[k])
    && (forall k: Key :: k in m'.flat <==> k in m.flat || InRange(k, root, start, end))
    && (forall k | k in m'.flat && InRange(k, root, start, end) ::
          m'.flat[k].bits == Full(f) && !Data(m, m'.flat[k].pfn) && Share(m'.flat, m'.flat[k].pfn) == 1)
  }

  ghost predicate MappedAnon(s: Sys, s': Sys, root: nat, v: Vad)
    requires root in s.areas
  {
    && VadOK(v) && v.file == NoFile && Apart(s.areas[root], v.start, v.end)
    && Committed(s.mem, s'.mem, root, v.start, v.end, v.flags)
    && s'.areas == s.areas[root := Insert(s.areas[root], v)]
  }

  /** Frames that were in use before are named by the same pages after. */
  lemma OldShares(m: Mem, m': Mem, root: nat, start: nat, end: nat, f: VadFlags, k: Key)
    requires Inv(m) && Committed(m, m', root, start, end, f) && k in m.flat
    ensures Mappings(m'.flat, m.flat[k].pfn) == Mappings(m.flat, m.flat[k].pfn)
    ensures !InRange(k, root, start, end)
  {
    MappedInRam(m);
    var p := m.flat[k].pfn;
    forall h | h in Mappings(m'.flat, p)
      ensures h in Mappings(m.flat, p)
    {
    }
  }

  lemma MappedAnonOK(s: Sys, s': Sys, root: nat, v: Vad)
    requires SysInv(s) && Inv(s'.mem) && root in s.areas && MappedAnon(s, s', root, v)
    ensures SysInv(s')
    ensures forall k | k in s.mem.flat :: Contents(s'.mem, k) == Contents(s.mem, k)
  {
    hide Inv, DataKept, At, WellFormed, PageOK;
    assert Spaces(s') by {
      InsertOK(s.areas[root], v);
      forall k: Key
        ensures k in s'.mem.flat <==> Back(s'.areas, k).Memory?
      {
        BackAfterInsert(s, s', root, v, k);
      }
    }
    forall k | k in s'.mem.flat
      ensures PageOK(s'.mem, Back(s'.areas, k), k)
      ensures k in s.mem.flat ==> Contents(s'.mem, k) == Contents(s.mem, k)
    {
      MappedPage(s, s', root, v, k);
    }
    forall k, k' | k in s'.mem.flat && k' in s'.mem.flat && Alias(s'.mem.flat, k, k')
      ensures Back(s'.areas, k).flags.shared == Back(s'.areas, k').flags.shared
    {
      MappedAlias(s, s', root, v, k, k');
    }
  }

  lemma MappedAlias(s: Sys, s': Sys, root: nat, v: Vad, k: Key, k': Key)
    requires SysInv(s) && root in s.areas && MappedAnon(s, s', root, v)
    requires k in s'.mem.flat && k' in s'.mem.flat && Alias(s'.mem.flat, k, k')
    ensures Back(s'.areas, k).Memory? && Back(s'.areas, k').Memory?
    ensures Back(s'.areas, k).flags.shared == Back(s'.areas, k').flags.shared
  {
    hide Inv, DataKept, At, WellFormed;
    BackAfterInsert(s, s', root, v, k);
    BackAfterInsert(s, s', root, v, k');
    if k in s.mem.flat && k' in s.mem.flat {
      OldShares(s.mem, s'.mem, root, v.start, v.end, v.flags, k);
      OldShares(s.mem, s'.mem, root, v.start, v.end, v.flags, k');
      assert Alias(s.mem.flat, k, k');
    } else {
      assert Share(s'.mem.flat, s'.mem.flat[k].pfn) == 1;
      ShareUnique(s'.mem.flat, k, k');
    }
  }

  lemma MappedPage(s: Sys, s': Sys, root: nat, v: Vad, k: Key)
    requires SysInv(s) && Inv(s'.mem) && root in s.areas && MappedAnon(s, s', root, v) && k in s'.mem.flat
    ensures Back(s'.areas, k).Memory? && PageOK(s'.mem, Back(s'.areas, k), k)
    ensures k in s.mem.flat ==> Contents(s'.mem, k) == Contents(s.mem, k)
  {
    hide Inv, DataKept, At, WellFormed;
    BackAfterInsert(s, s', root, v, k);
    if k in s.mem.flat {
      OldShares(s.mem, s'.mem, root, v.start, v.end, v.flags, k);
      assert PageOK(s.mem, Back(s.areas, k), k);
      PageSurvives(s.mem, s'.mem, Back(s.areas, k), k);
    } else {
      MappedInRam(s'.mem);
    }
  }

  lemma BackAfterInsert(s: Sys, s': Sys, root: nat, v: Vad, k: Key)
    requires Spaces(s) && root in s.areas && VadOK(v) && v.file == NoFile && Apart(s.areas[root], v.start, v.end)
    requires s'.areas == s.areas[root := Insert(s.areas[root], v)]
    ensures Back(s'.areas, k) == if InRange(k, root, v.start, v.end) then Memory(v.flags, NoFile, 0) else Back(s.areas, k)
  {
    InsertAt(s.areas[root], v, k.vpn * PAGE_SIZE);
  }

  // Cloning

  /** The entry `vas_clone` leaves in both spaces. */
  function CloneWord(f: VadFlags, w: Word): Word {
    Word(w.pfn, if CowArea(f) then Full(f).(writable := false) else Full(f))
  }

  /** The page of the source that a page of the copy comes from. */
  function Origin(k: Key, src: nat, dst: nat): Key {
    if k.root == dst then Key(src, k.vpn) else k
  }

  /** The pages below `cur` of the source are shared with the copy; private writable ones are read-only and
      marked in both. No data changed. */
  ghost predicate Cloning(s: Sys, m: Mem, src: nat, dst: nat, cur: nat)
    requires Spaces(s)
  {
    && |m.phys.pages| == |m.phys.ram| == |s.mem.phys.pages| && SameReserved(s.mem.phys, m.phys) && m.held == s.mem.held
    && CloningDomain(s, m, src, dst, cur)
    && (forall k {:trigger CloningPage(s, m, src, dst, cur, k)} | k in m.flat :: CloningPage(s, m, src, dst, cur, k))
    && ContentsKept(s, m)
  }

  ghost predicate CloningDomain(s: Sys, m: Mem, src: nat, dst: nat, cur: nat) {
    forall k: Key :: k in m.flat <==> k in s.mem.flat || (k.root == dst && k.vpn < cur && Key(src, k.vpn) in s.mem.flat)
  }

  ghost predicate ContentsKept(s: Sys, m: Mem) {
    forall k | k in s.mem.flat :: k in m.flat && Contents(m, k) == Contents(s.mem, k)
  }

  ghost predicate CloningPage(s: Sys, m: Mem, src: nat, dst: nat, cur: nat, k: Key)
    requires Spaces(s) && k in m.flat
  {
    var o := Origin(k, src, dst);
    && o in s.mem.flat && m.flat[k].pfn == s.mem.flat[o].pfn
    && m.flat[k] == (if o.root == src && k.vpn < cur then CloneWord(Back(s.areas, o).flags, s.mem.flat[o]) else s.mem.flat[o])
    && (m.flat[k].pfn < |m.phys.pages| == |s.mem.phys.pages| ==>
          (s.mem.phys.pages[m.flat[k].pfn].flags.cow || (o.root == src && k.vpn < cur && CowArea(Back(s.areas, o).flags))
           ==> m.phys.pages[m.flat[k].pfn].flags.cow))
  }

  ghost predicate Cloned(s: Sys, s': Sys, src: nat, dst: nat)
    requires Spaces(s)
  {
    && src in s.areas && dst !in s.areas && s'.areas == s.areas[dst := s.areas[src]]
    && (forall r: nat :: IsRoot(s'.mem.dir, r) <==> IsRoot(s.mem.dir, r) || r == dst)
    && Cloning(s, s'.mem, src, dst, USER_PAGES)
  }

  lemma BackAfterClone(s: Sys, s': Sys, src: nat, dst: nat, k: Key)
    requires Spaces(s) && Cloned(s, s', src, dst)
    ensures Back(s'.areas, k) == Back(s.areas, Origin(k, src, dst))
  {
  }

  lemma ClonedOK(s: Sys, s': Sys, src: nat, dst: nat)
    requires SysInv(s) && Inv(s'.mem) && Cloned(s, s', src, dst)
    ensures SysInv(s')
    ensures forall k | k in s'.mem.flat :: Origin(k, src, dst) in s.mem.flat && Contents(s'.mem, k) == Contents(s.mem, Origin(k, src, dst))
  {
    hide Inv, At, WellFormed, PageOK, Cloned, Contents;
    ClonedSpaces(s, s', src, dst);
    forall k | k in s'.mem.flat
      ensures PageOK(s'.mem, Back(s'.areas, k), k)
      ensures Origin(k, src, dst) in s.mem.flat && Contents(s'.mem, k) == Contents(s.mem, Origin(k, src, dst))
    {
      ClonedPage(s, s', src, dst, k);
    }
    forall k, k' | k in s'.mem.flat && k' in s'.mem.flat && Alias(s'.mem.flat, k, k')
      ensures Back(s'.areas, k).flags.shared == Back(s'.areas, k').flags.shared
    {
      ClonedAlias(s, s', src, dst, k, k');
    }
  }

  lemma ClonedAlias(s: Sys, s': Sys, src: nat, dst: nat, k: Key, k': Key)
    requires SysInv(s) && Spaces(s') && Cloned(s, s', src, dst)
    requires k in s'.mem.flat && k' in s'.mem.flat && Alias(s'.mem.flat, k, k')
    ensures Back(s'.areas, k).flags.shared == Back(s'.areas, k').flags.shared
  {
    hide Inv, At, WellFormed, PageOK;
    BackAfterClone(s, s', src, dst, k);
    BackAfterClone(s, s', src, dst, k');
    assert CloningPage(s, s'.mem, src, dst, USER_PAGES, k) && CloningPage(s, s'.mem, src, dst, USER_PAGES, k');
    assert Alias(s.mem.flat, Origin(k, src, dst), Origin(k', src, dst));
  }

  lemma ClonedSpaces(s: Sys, s': Sys, src: nat, dst: nat)
    requires SysInv(s) && Cloned(s, s', src, dst)
    ensures Spaces(s')
  {
    hide Inv, At, WellFormed, Sharing;
    forall k: Key
      ensures k in s'.mem.flat <==> Back(s'.areas, k).Memory?
    {
      BackAfterClone(s, s', src, dst, k);
      LowPages(s.mem, Origin(k, src, dst));
    }
  }

  lemma LowPages(m: Mem, k: Key)
    requires Inv(m)
    ensures k in m.flat ==> k.vpn < USER_PAGES
  {
    assert k in m.flat ==> LeafOK(m.phys.ram, m.dir, m.who, m.flat, k);
  }

  lemma ClonedPage(s: Sys, s': Sys, src: nat, dst: nat, k: Key)
    requires SysInv(s) && Inv(s'.mem) && Spaces(s') && Cloned(s, s', src, dst) && k in s'.mem.flat
    ensures PageOK(s'.mem, Back(s'.areas, k), k)
    ensures Origin(k, src, dst) in s.mem.flat && Contents(s'.mem, k) == Contents(s.mem, Origin(k, src, dst))
  {
    hide Inv, At, WellFormed;
    var o := Origin(k, src, dst);
    assert CloningPage(s, s'.mem, src, dst, USER_PAGES, k);
    BackAfterClone(s, s', src, dst, k);
    MappedInRam(s'.mem);
    MappedInRam(s.mem);
    LowPages(s.mem, o);
    assert PageOK(s.mem, Back(s.areas, o), o);
    assert o in s'.mem.flat && CloningPage(s, s'.mem, src, dst, USER_PAGES, o);
    assert Contents(s'.mem, o) == Contents(s.mem, o);
    if o.root != src && Share(s.mem.flat, s.mem.flat[o].pfn) == 1 {
      UntouchedShare(s, s', src, dst, o);
    }
  }

  /** A frame no source page names has the same mappings after cloning. */
  lemma UntouchedShare(s: Sys, s': Sys, src: nat, dst: nat, k: Key)
    requires Spaces(s) && Cloned(s, s', src, dst) && k in s.mem.flat && k.root != src && Share(s.mem.flat, s.mem.flat[k].pfn) == 1
    ensures Share(s'.mem.flat, s.mem.flat[k].pfn) == 1
  {
    hide At, WellFormed, CowArea, CloneWord;
    var p := s.mem.flat[k].pfn;
    forall h | h in Mappings(s'.mem.flat, p)
      ensures h == k
    {
      assert CloningPage(s, s'.mem, src, dst, USER_PAGES, h);
      ShareUnique(s.mem.flat, k, Origin(h, src, dst));
    }
    assert k in s'.mem.flat && CloningPage(s, s'.mem, src, dst, USER_PAGES, k);
    assert k.root != dst by {
      assert Back(s.areas, k).Memory?;
    }
    assert Mappings(s'.mem.flat, p) == {k};
  }

  // Page faults and stores

  /** The fault handler gave page `k` its full protection: on its old frame if nobody else maps it, or on a
      fresh copy. Nothing else changed. */
  ghost predicate Faulted(s: Sys, s': Sys, k: Key)
    requires Spaces(s) && k in s.mem.flat && k in s'.mem.flat
  {
    var p, q, f := s.mem.flat[k].pfn, s'.mem.flat[k].pfn, Back(s.areas, k).flags;
    && s'.areas == s.areas && s'.mem.held == s.mem.held && SameRoots(s.mem, s'.mem) && SameReserved(s.mem.phys, s'.mem.phys)
    && CowArea(f) && s'.mem.flat == s.mem.flat[k := Word(q, Full(f))]
    && (if q == p then Share(s.mem.flat, p) == 1 else !Data(s.mem, q))
    && (forall h | h in s.mem.flat :: Contents(s'.mem, h) == Contents(s.mem, h))
    && (forall h | h in s.mem.flat && h != k :: SameMark(s.mem, s'.mem, s.mem.flat[h].pfn))
  }

  ghost predicate SameMark(m: Mem, m': Mem, p: nat) {
    p < |m.phys.pages| == |m'.phys.pages| ==> m'.phys.pages[p].flags.cow == m.phys.pages[p].flags.cow
  }

  lemma FaultedOK(s: Sys, s': Sys, k: Key)
    requires SysInv(s) && Inv(s'.mem) && k in s.mem.flat && k in s'.mem.flat && Faulted(s, s', k)
    ensures SysInv(s')
  {
    hide Inv, At, WellFormed, PageOK;
    assert Spaces(s');
    forall h | h in s'.mem.flat
      ensures PageOK(s'.mem, Back(s'.areas, h), h)
    {
      FaultedPage(s, s', k, h);
    }
    forall h, h' | h in s'.mem.flat && h' in s'.mem.flat && Alias(s'.mem.flat, h, h')
      ensures Back(s'.areas, h).flags.shared == Back(s'.areas, h').flags.shared
    {
      if h != k && h' != k {
        assert Alias(s.mem.flat, h, h');
      } else {
        FreshShare(s, s', k);
        ShareUnique(s'.mem.flat, h, h');
      }
    }
  }

  /** After a fault the page has its frame to itself. */
  lemma FreshShare(s: Sys, s': Sys, k: Key)
    requires SysInv(s) && k in s.mem.flat && k in s'.mem.flat && Faulted(s, s', k)
    ensures Share(s'.mem.flat, s'.mem.flat[k].pfn) == 1
  {
    hide At, WellFormed;
    var q := s'.mem.flat[k].pfn;
    forall h | h in Mappings(s'.mem.flat, q)
      ensures h == k
    {
      if h != k {
        SharePositive(s.mem.flat, h);
        ShareUnique(s.mem.flat, h, k);
      }
    }
    assert Mappings(s'.mem.flat, q) == {k};
  }

  lemma FaultedPage(s: Sys, s': Sys, k: Key, h: Key)
    requires SysInv(s) && Inv(s'.mem) && Spaces(s') && k in s.mem.flat && k in s'.mem.flat && Faulted(s, s', k) && h in s'.mem.flat
    ensures PageOK(s'.mem, Back(s'.areas, h), h)
  {
    hide Inv, At, WellFormed;
    MappedInRam(s'.mem);
    MappedInRam(s.mem);
    if h == k {
      FreshShare(s, s', k);
    } else {
      assert PageOK(s.mem, Back(s.areas, h), h);
      var p := s.mem.flat[h].pfn;
      assert SameMark(s.mem, s'.mem, p);
      if Share(s.mem.flat, p) == 1 {
        assert Mappings(s'.mem.flat, p) == {h} by {
          forall g | g in Mappings(s'.mem.flat, p)
            ensures g == h
          {
            if g == k {
              SharePositive(s.mem.flat, h);
              ShareUnique(s.mem.flat, h, k);
            } else {
              ShareUnique(s.mem.flat, h, g);
            }
          }
        }
      }
    }
  }

  /** A store of word `w` at index `i` of page `k`, through a writable entry. */
  ghost predicate Stored(s: Sys, s': Sys, k: Key, i: nat, w: Word) {
    && k in s.mem.flat && s.mem.flat[k].bits.writable && i < WORDS && s'.areas == s.areas
    && s.mem.flat[k].pfn < |s.mem.phys.ram| && |Contents(s.mem, k)| == WORDS
    && s'.mem == WithRam(s.mem, s.mem.phys.ram[s.mem.flat[k].pfn := Contents(s.mem, k)[i := w]])
  }

  /** A store changes the pages in the same cell and no other: in private memory, only the page itself. */
  lemma StoredOK(s: Sys, s': Sys, k: Key, i: nat, w: Word)
    requires SysInv(s) && Inv(s'.mem) && Stored(s, s', k, i, w)
    ensures SysInv(s')
    ensures forall h | h in s.mem.flat ::
              Contents(s'.mem, h) == if CellOf(s, h) == CellOf(s, k) then Contents(s.mem, k)[i := w] else Contents(s.mem, h)
  {
    hide Inv, At, WellFormed;
    assert Spaces(s');
    forall h | h in s'.mem.flat
      ensures PageOK(s'.mem, Back(s'.areas, h), h)
    {
      assert PageOK(s.mem, Back(s.areas, h), h);
    }
    forall h, h' | h in s'.mem.flat && h' in s'.mem.flat && Alias(s'.mem.flat, h, h')
      ensures Back(s'.areas, h).flags.shared == Back(s'.areas, h').flags.shared
    {
      assert Alias(s.mem.flat, h, h');
    }
    forall h | h in s.mem.flat
      ensures Contents(s'.mem, h) == if CellOf(s, h) == CellOf(s, k) then Contents(s.mem, k)[i := w] else Contents(s.mem, h)
    {
      StoredPage(s, s', k, i, w, h);
    }
  }

  lemma StoredPage(s: Sys, s': Sys, k: Key, i: nat, w: Word, h: Key)
    requires SysInv(s) && Stored(s, s', k, i, w) && h in s.mem.flat
    ensures Contents(s'.mem, h) == if CellOf(s, h) == CellOf(s, k) then Contents(s.mem, k)[i := w] else Contents(s.mem, h)
  {
    hide At, WellFormed;
    MappedInRam(s.mem);
    if Alias(s.mem.flat, h, k) {
      assert Alias(s.mem.flat, k, h);
      assert PageOK(s.mem, Back(s.areas, k), k);
      if !Back(s.areas, k).flags.shared {
        ShareUnique(s.mem.flat, k, h);
      }
    }
  }

  // What the processes see

  /** No process can tell the two states apart. */
  ghost predicate Unseen(s: Sys, s': Sys)
    requires Spaces(s) && Spaces(s')
  {
    && s'.areas == s.areas && s'.mem.held == s.mem.held && SameReserved(s.mem.phys, s'.mem.phys)
    && (forall h: Key :: h in s'.mem.flat <==> h in s.mem.flat)
    && (forall h | h in s.mem.flat :: CellOf(s', h) == CellOf(s, h) && Contents(s'.mem, h) == Contents(s.mem, h))
  }

  /** One store as the processes see it: the cell of page `k` changes in one word, no other cell does. */
  ghost predicate Wrote(s: Sys, s': Sys, k: Key, i: nat, w: Word)
    requires Spaces(s)
  {
    && s'.areas == s.areas && s'.mem.held == s.mem.held && SameReserved(s.mem.phys, s'.mem.phys)
    && k in s.mem.flat && i < |Contents(s.mem, k)| && Spaces(s')
    && (forall h: Key :: h in s'.mem.flat <==> h in s.mem.flat)
    && (forall h | h in s.mem.flat :: CellOf(s', h) == CellOf(s, h))
    && (forall h | h in s.mem.flat ::
          Contents(s'.mem, h) == if CellOf(s, h) == CellOf(s, k) then Contents(s.mem, k)[i := w] else Contents(s.mem, h))
  }
}
