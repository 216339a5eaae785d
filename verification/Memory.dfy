/** Physical memory and page tables together: the elementary steps the paging code is made of. */
module Memory {
  import opened Machine
  import opened PhysicalMemory
  import opened PageTree
  import opened FrameCounts

  datatype Mem = Mem(phys: Phys, dir: Dir, who: Who, flat: Flat, held: multiset<nat>)

  /** The invariant, with `slack` tables excused from being nonempty and `dead` entries dangling. */
  ghost predicate Partial(m: Mem, slack: set<Node>, dead: Dead) {
    && Counts(m.phys, m.who, m.flat, m.held)
    && Tree(m.phys.ram, m.dir, m.who, m.flat, slack, dead)
    && (forall p | p in m.held :: p !in m.who)
  }

  ghost predicate Inv(m: Mem) {
    Partial(m, {}, {})
  }

  /** Frame `p` holds data: something maps it or holds a handle on it. */
  ghost predicate Data(m: Mem, p: nat) {
    Owned(m.flat, m.held, p)
  }

  ghost predicate Owned(flat: Flat, held: multiset<nat>, p: nat) {
    Share(flat, p) + held[p] > 0
  }

  ghost predicate Same(m: Mem, m': Mem, p: nat)
    requires |m.phys.ram| == |m.phys.pages| == |m'.phys.ram| == |m'.phys.pages|
  {
    p < |m.phys.ram| ==> m'.phys.ram[p] == m.phys.ram[p] && m'.phys.pages[p].flags.cow == m.phys.pages[p].flags.cow
  }

  /** Data that stays owned keeps its contents and its copy-on-write mark; reserved frames stay reserved. */
  ghost predicate DataKept(m: Mem, m': Mem) {
    && |m.phys.ram| == |m.phys.pages| == |m'.phys.ram| == |m'.phys.pages|
    && SameReserved(m.phys, m'.phys)
    && forall p: nat {:trigger Same(m, m', p)} | Data(m, p) && Data(m', p) :: Same(m, m', p)
  }

  predicate IsRoot(dir: Dir, r: nat) { Node(r, 4, 0) in dir }

  /** The upper half of a PML4 is the kernel's. */
  ghost predicate KernelAbove(m: Mem, r: nat) {
    r < |m.phys.ram| && |m.phys.ram[r]| == WORDS && m.phys.ram[r][USER_ENTRIES..] == KERNEL[USER_ENTRIES..]
  }

  lemma RootsHaveKernel(m: Mem)
    requires Inv(m)
    ensures forall r: nat | IsRoot(m.dir, r) :: KernelAbove(m, r)
  {
    forall r: nat | IsRoot(m.dir, r)
      ensures KernelAbove(m, r)
    {
      assert NodeOK(m.phys.ram, m.dir, m.who, Node(r, 4, 0));
    }
  }

  ghost predicate SameRoots(m: Mem, m': Mem) {
    forall r: nat :: IsRoot(m'.dir, r) <==> IsRoot(m.dir, r)
  }

  lemma CountsIgnoreRam(s: Phys, ram: seq<Frame>, who: Who, flat: Flat, held: multiset<nat>)
    requires Counts(s, who, flat, held) && |ram| == |s.ram| && RamOK(ram)
    ensures Counts(s.(ram := ram), who, flat, held)
  {
    var t := s.(ram := ram);
    forall i | 0 <= i < |t.fl|
      ensures Linked(t.pages, t.fl, i)
    {
      assert Linked(s.pages, s.fl, i);
    }
    forall q | 0 <= q < |t.pages|
      ensures FrameOK(t, who, flat, held, q)
    {
      assert FrameOK(s, who, flat, held, q);
    }
  }

  ghost predicate CanLink(m: Mem, n: Node, i: nat) {
    && n in m.dir && NodeLevelOK(m, n) && n.level > 1 && InHalf(n, i)
    && !m.phys.ram[m.dir[n]][i].bits.present
    && m.phys.fl != []
  }

  ghost predicate NodeLevelOK(m: Mem, n: Node)
    requires n in m.dir
  {
    RamOK(m.phys.ram) && NodeOK(m.phys.ram, m.dir, m.who, n)
  }

  /** `_table_next` creating a table. */
  ghost function TableLinked(m: Mem, n: Node, i: nat, bits: Bits): Mem
    requires FreeListOK(m.phys) && CanLink(m, n, i)
  {
    var f := m.phys.fl[0];
    var ram := m.phys.ram[f := ZeroFrame()];
    Mem(Popped(m.phys).(ram := ram[m.dir[n] := ram[m.dir[n]][i := Word(f, bits)]]),
        m.dir[n.Down(i) := f], m.who[f := n.Down(i)], m.flat, m.held)
  }

  lemma TableLinkedOK(m: Mem, n: Node, i: nat, bits: Bits, slack: set<Node>)
    requires Partial(m, slack, {}) && slack <= {n} && CanLink(m, n, i)
    requires bits.present && bits.writable && !bits.huge
    ensures Partial(TableLinked(m, n, i, bits), {n.Down(i)}, {})
    ensures DataKept(m, TableLinked(m, n, i, bits)) && SameRoots(m, TableLinked(m, n, i, bits))
  {
    var m' := TableLinked(m, n, i, bits);
    var s, f, c := m.phys, m.phys.fl[0], n.Down(i);
    UnownedIsFree(s, m.who, m.flat, m.held);
    assert Mappings(m.flat, f) == {};
    assert Tree(m'.phys.ram, m'.dir, m'.who, m'.flat, {c}, {}) by {
      LinkTable(s.ram, m'.phys.ram, m.dir, m.who, m.flat, slack, n, i, f, Word(f, bits));
      assert slack - {n} + {c} == {c};
    }
    assert Counts(m'.phys, m'.who, m'.flat, m'.held) by {
      CountAlloc(s, m.who, m.flat, m.held, m'.who, m.held);
      CountsIgnoreRam(Popped(s), m'.phys.ram, m'.who, m.flat, m.held);
    }
    AllocKeepsData(m, slack, {}, m');
  }

  /** Frames with data are neither free nor page tables. */
  lemma DataFrame(m: Mem, slack: set<Node>, dead: Dead, p: nat)
    requires Partial(m, slack, dead) && Data(m, p)
    ensures 0 < p < |m.phys.pages| && p !in m.who && p !in m.phys.fl
  {
    if Share(m.flat, p) > 0 {
      var k :| k in Mappings(m.flat, p);
      assert LeafOK(m.phys.ram, m.dir, m.who, m.flat, k);
    }
    assert FrameOK(m.phys, m.who, m.flat, m.held, p);
  }

  /** A frame nobody owns, free or reserved, does not look used. */
  lemma UnownedIsUnused(m: Mem, slack: set<Node>, dead: Dead, p: nat)
    requires Partial(m, slack, dead) && p < |m.phys.pages| && p !in m.who && !Data(m, p)
    ensures !m.phys.pages[p].flags.used && !m.phys.pages[p].flags.poison
  {
    assert FrameOK(m.phys, m.who, m.flat, m.held, p);
    if p in m.phys.fl {
      var i :| 0 <= i < |m.phys.fl| && m.phys.fl[i] == p;
      assert Linked(m.phys.pages, m.phys.fl, i);
    }
  }

  /** Popping a frame and writing only to it and to page tables leaves data alone. */
  lemma AllocKeepsData(m: Mem, slack: set<Node>, dead: Dead, m': Mem)
    requires Partial(m, slack, dead) && m.phys.fl != []
    requires m'.phys.pages == Popped(m.phys).pages && |m'.phys.ram| == |m.phys.ram|
    requires forall f | 0 <= f < |m.phys.ram| && f != m.phys.fl[0] && f !in m.who :: m'.phys.ram[f] == m.phys.ram[f]
    ensures DataKept(m, m')
  {
    PoppedOK(m.phys);
    assert Linked(m.phys.pages, m.phys.fl, 0);
    ReservedKept(m.phys, m.phys.fl[0]);
    forall p: nat | Data(m, p) && Data(m', p)
      ensures Same(m, m', p)
    {
      DataFrame(m, slack, dead, p);
    }
  }

  /** Writing a leaf entry: `*pte = ...`, `page_share`, `page_ref`. */
  ghost function LeafSet(m: Mem, k: Key, w: Word): Mem
    requires RamOK(m.phys.ram) && k.Table() in m.dir && m.dir[k.Table()] < |m.phys.ram| && w.pfn < |m.phys.pages|
  {
    var s, t := m.phys, m.dir[k.Table()];
    Mem(WithPage(s, w.pfn, Shared(s.pages[w.pfn]).(refcount := s.pages[w.pfn].refcount + 1))
        .(ram := s.ram[t := s.ram[t][k.Idx() := w]]),
        m.dir, m.who, m.flat[k := w], m.held)
  }

  lemma LeafSetOK(m: Mem, k: Key, w: Word, slack: set<Node>, dead: Dead)
    requires Partial(m, slack, dead) && k.Table() in m.dir && NodeLevelOK(m, k.Table())
    requires k !in m.flat && k.vpn < USER_PAGES && w.bits.present && Data(m, w.pfn)
    requires slack <= {k.Table()} && dead <= {(k.Table(), k.Idx())}
    ensures w.pfn < |m.phys.pages| && LooksUsed(m.phys.pages[w.pfn]) && LooksUsed(Shared(m.phys.pages[w.pfn]))
    ensures Inv(LeafSet(m, k, w))
    ensures DataKept(m, LeafSet(m, k, w)) && SameRoots(m, LeafSet(m, k, w))
  {
    DataFrame(m, slack, dead, w.pfn);
    var m' := LeafSet(m, k, w);
    var s, t := m.phys, m.dir[k.Table()];
    assert Tree(m'.phys.ram, m'.dir, m'.who, m'.flat, {}, {}) by {
      WriteLeaf(s.ram, m'.phys.ram, m.dir, m.who, m.flat, slack, dead, k, w);
      assert slack - {k.Table()} == {} && dead - {(k.Table(), k.Idx())} == {};
    }
    CountMap(s, m.who, m.flat, m.held, k, w);
    CountsIgnoreRam(WithPage(s, w.pfn, Shared(s.pages[w.pfn]).(refcount := s.pages[w.pfn].refcount + 1)),
                    m'.phys.ram, m.who, m'.flat, m.held);
    forall p: nat | Data(m, p) && Data(m', p)
      ensures Same(m, m', p)
    {
      DataFrame(m, slack, dead, p);
    }
  }

  /** `page_unshare` and `page_unref` for an entry that stays in memory, dangling. */
  ghost function LeafDropped(m: Mem, k: Key): Mem
    requires Counts(m.phys, m.who, m.flat, m.held) && k in m.flat
  {
    var s, p := m.phys, m.flat[k].pfn;
    CountUnmap(s, m.who, m.flat, m.held, k);
    Mem(Unreffed(WithPage(s, p, Unshared(s.pages[p])), p), m.dir, m.who, m.flat - {k}, m.held)
  }

  lemma LeafDroppedOK(m: Mem, k: Key, slack: set<Node>, dead: Dead)
    requires Partial(m, slack, dead) && k in m.flat
    ensures 0 < m.flat[k].pfn < |m.phys.pages| && LooksUsed(m.phys.pages[m.flat[k].pfn])
    ensures var pg := Unshared(m.phys.pages[m.flat[k].pfn]);
            LooksUsed(pg) && (pg.refcount == 1 ==> pg.u2 == 0 && !pg.flags.free && !pg.flags.reserved)
    ensures FreeListOK(WithPage(m.phys, m.flat[k].pfn, Unshared(m.phys.pages[m.flat[k].pfn])))
    ensures Partial(LeafDropped(m, k), slack, dead + {(k.Table(), k.Idx())})
    ensures DataKept(m, LeafDropped(m, k))
  {
    var s, p, m' := m.phys, m.flat[k].pfn, LeafDropped(m, k);
    CountUnmap(s, m.who, m.flat, m.held, k);
    var s1 := WithPage(s, p, Unshared(s.pages[p]));
    CountUnref(s1, m.who, m.flat - {k}, m.held + multiset{p}, m.who, m.held, p);
    SharePositive(m.flat, k);
    DataFrame(m, slack, dead, p);
    assert Tree(m'.phys.ram, m'.dir, m'.who, m'.flat, slack, dead + {(k.Table(), k.Idx())}) by {
      ForgetLeaf(s.ram, m.dir, m.who, m.flat, slack, dead, k);
      KeptTables(s.ram, m'.phys.ram, m.dir, m.who, m.flat - {k}, slack, dead + {(k.Table(), k.Idx())});
    }
    UnrefKeepsData(m', s1, p);
    assert FrameOK(s1, m.who, m.flat - {k}, m.held + multiset{p}, p);
    forall q: nat | Data(m, q) && Data(m', q)
      ensures Same(m, m', q)
    {
      DataFrame(m, slack, dead, q);
    }
  }

  /** Dropping a reference changes only that frame, and only when it was the last. */
  lemma UnrefKeepsData(m': Mem, s: Phys, p: nat)
    requires FreeListOK(s) && 0 < p < |s.pages| && p !in s.fl && s.pages[p].refcount > 0
    requires m'.phys == Unreffed(s, p)
    ensures forall q | 0 <= q < |s.pages| && q != p && q !in s.fl :: m'.phys.pages[q] == s.pages[q] && m'.phys.ram[q] == s.ram[q]
    ensures s.pages[p].refcount > 1 ==> m'.phys.ram == s.ram && m'.phys.pages[p].flags == s.pages[p].flags
    ensures !s.pages[p].flags.reserved ==> SameReserved(s, m'.phys)
  {
    PushedOK(s, p);
    if !s.pages[p].flags.reserved {
      ReservedKept(s, p);
    }
  }

  ghost function WithRam(m: Mem, ram: seq<Frame>): Mem {
    m.(phys := m.phys.(ram := ram))
  }

  /** Clearing a dangling entry. */
  ghost function EntryZeroed(m: Mem, n: Node, i: nat): Mem
    requires RamOK(m.phys.ram) && n in m.dir && m.dir[n] < |m.phys.ram| && i < WORDS
  {
    WithRam(m, m.phys.ram[m.dir[n] := m.phys.ram[m.dir[n]][i := ZERO]])
  }

  lemma EntryZeroedOK(m: Mem, n: Node, i: nat, slack: set<Node>, dead: Dead)
    requires Partial(m, slack, dead) && (n, i) in dead && n in m.dir && NodeLevelOK(m, n) && i < WORDS
    ensures Partial(EntryZeroed(m, n, i), slack + {n}, dead - {(n, i)})
    ensures DataKept(m, EntryZeroed(m, n, i))
  {
    var m' := EntryZeroed(m, n, i);
    ZeroDead(m.phys.ram, m'.phys.ram, m.dir, m.who, m.flat, slack, dead, n, i);
    CountsIgnoreRam(m.phys, m'.phys.ram, m.who, m.flat, m.held);
    TableWriteKeepsData(m, slack, dead, m');
  }

  lemma TableWriteKeepsData(m: Mem, slack: set<Node>, dead: Dead, m': Mem)
    requires Partial(m, slack, dead) && m'.phys.pages == m.phys.pages && |m'.phys.ram| == |m.phys.ram|
    requires forall f | 0 <= f < |m.phys.ram| && f !in m.who :: m'.phys.ram[f] == m.phys.ram[f]
    ensures DataKept(m, m')
  {
    forall p: nat | Data(m, p) && Data(m', p)
      ensures Same(m, m', p)
    {
      DataFrame(m, slack, dead, p);
    }
  }

  /** `_free_pt` of a table none of whose entries is alive. */
  ghost function TableDropped(m: Mem, c: Node): Mem
    requires FreeListOK(m.phys) && c in m.dir && m.dir[c] < |m.phys.pages| && m.phys.pages[m.dir[c]].refcount > 0
  {
    m.(phys := Unreffed(m.phys, m.dir[c]), dir := m.dir - {c}, who := m.who - {m.dir[c]})
  }

  lemma TableDroppedOK(m: Mem, c: Node, slack: set<Node>, dead: Dead)
    requires Partial(m, slack, dead) && c in m.dir && NodeLevelOK(m, c) && Barren(m.phys.ram, m.dir, dead, c)
    ensures 0 < m.dir[c] < |m.phys.pages| && LooksUsed(m.phys.pages[m.dir[c]])
    ensures m.phys.pages[m.dir[c]].refcount == 1 && m.phys.pages[m.dir[c]].u2 == 0
    ensures !m.phys.pages[m.dir[c]].flags.free && !m.phys.pages[m.dir[c]].flags.reserved
    ensures Partial(TableDropped(m, c), slack, DeadAfter(dead, c))
    ensures DataKept(m, TableDropped(m, c))
    ensures TableDropped(m, c).phys.fl == [m.dir[c]] + m.phys.fl
  {
    var f := m.dir[c];
    assert FrameOK(m.phys, m.who, m.flat, m.held, f);
    assert m.held[f] == 0;
    if Share(m.flat, f) > 0 {
      DataFrame(m, slack, dead, f);
    }
    var m' := TableDropped(m, c);
    CountUnref(m.phys, m.who, m.flat, m.held, m'.who, m.held, f);
    UnrefKeepsData(m', m.phys, f);
    DropTable(m.phys.ram, m'.phys.ram, m.dir, m.who, m.flat, slack, dead, c);
    forall q: nat | Data(m, q) && Data(m', q)
      ensures Same(m, m', q)
    {
      DataFrame(m, slack, dead, q);
    }
  }

  /** `palloc_page` on behalf of the caller. */
  ghost function Allocated(m: Mem): Mem
    requires FreeListOK(m.phys) && m.phys.fl != []
  {
    m.(phys := Popped(m.phys), held := m.held + multiset{m.phys.fl[0]})
  }

  lemma AllocatedOK(m: Mem)
    requires Inv(m) && m.phys.fl != []
    ensures Inv(Allocated(m)) && DataKept(m, Allocated(m)) && !Data(m, m.phys.fl[0])
    ensures !Allocated(m).phys.pages[m.phys.fl[0]].flags.cow
  {
    var s, f, m' := m.phys, m.phys.fl[0], Allocated(m);
    UnownedIsFree(s, m.who, m.flat, m.held);
    assert Mappings(m.flat, f) == {};
    CountAlloc(s, m.who, m.flat, m.held, m.who, m'.held);
    PoppedOK(s);
    AllocKeepsData(m, {}, {}, m');
  }

  /** `page_ref` on behalf of the caller. */
  ghost function Reffed(m: Mem, p: nat): Mem
    requires p < |m.phys.pages|
  {
    m.(phys := WithPage(m.phys, p, m.phys.pages[p].(refcount := m.phys.pages[p].refcount + 1)), held := m.held + multiset{p})
  }

  lemma ReffedOK(m: Mem, p: nat)
    requires Inv(m) && Data(m, p)
    ensures p < |m.phys.pages| && LooksUsed(m.phys.pages[p])
    ensures Inv(Reffed(m, p)) && DataKept(m, Reffed(m, p))
  {
    DataFrame(m, {}, {}, p);
    assert FrameOK(m.phys, m.who, m.flat, m.held, p);
    var m' := Reffed(m, p);
    Recount(m.phys, m.who, m.flat, m.held, m.who, m.flat, m'.held, p, m'.phys.pages[p]);
  }

  /** `page_unref` of a handle the caller holds. */
  ghost function Released(m: Mem, p: nat): Mem
    requires FreeListOK(m.phys) && p < |m.phys.pages| && m.phys.pages[p].refcount > 0
  {
    m.(phys := Unreffed(m.phys, p), held := m.held - multiset{p})
  }

  lemma ReleasedOK(m: Mem, p: nat)
    requires Inv(m) && p in m.held
    ensures 0 < p < |m.phys.pages| && LooksUsed(m.phys.pages[p])
    ensures !m.phys.pages[p].flags.free && !m.phys.pages[p].flags.reserved
    ensures m.phys.pages[p].refcount == 1 ==> m.phys.pages[p].u2 == 0
    ensures Inv(Released(m, p)) && DataKept(m, Released(m, p))
  {
    DataFrame(m, {}, {}, p);
    assert FrameOK(m.phys, m.who, m.flat, m.held, p);
    var m' := Released(m, p);
    CountUnref(m.phys, m.who, m.flat, m.held, m.who, m'.held, p);
    UnrefKeepsData(m', m.phys, p);
    KeptTables(m.phys.ram, m'.phys.ram, m.dir, m.who, m.flat, {}, {});
    forall q: nat | Data(m, q) && Data(m', q)
      ensures Same(m, m', q)
    {
      DataFrame(m, {}, {}, q);
    }
  }

  ghost function Marked(m: Mem, p: nat, cow: bool): Mem
    requires p < |m.phys.pages|
  {
    m.(phys := WithPage(m.phys, p, m.phys.pages[p].(flags := m.phys.pages[p].flags.(cow := cow))))
  }

  lemma MarkedOK(m: Mem, p: nat, cow: bool)
    requires Inv(m) && Data(m, p)
    ensures p < |m.phys.pages| && LooksUsed(m.phys.pages[p])
    ensures Inv(Marked(m, p, cow)) && SameReserved(m.phys, Marked(m, p, cow).phys)
  {
    DataFrame(m, {}, {}, p);
    assert FrameOK(m.phys, m.who, m.flat, m.held, p);
    Recount(m.phys, m.who, m.flat, m.held, m.who, m.flat, m.held, p, Marked(m, p, cow).phys.pages[p]);
  }

  /** Storing into a frame that holds data cannot disturb a page table. */
  lemma DataWriteOK(m: Mem, p: nat, f: Frame)
    requires Inv(m) && Data(m, p) && |f| == WORDS
    ensures p < |m.phys.ram| && Inv(WithRam(m, m.phys.ram[p := f]))
  {
    DataFrame(m, {}, {}, p);
    var ram := m.phys.ram[p := f];
    KeptTables(m.phys.ram, ram, m.dir, m.who, m.flat, {}, {});
    CountsIgnoreRam(m.phys, ram, m.who, m.flat, m.held);
  }

  /** `ptable_create` */
  ghost function Planted(m: Mem, t: Frame): Mem
    requires FreeListOK(m.phys) && m.phys.fl != []
  {
    var r := m.phys.fl[0];
    m.(phys := Popped(m.phys).(ram := m.phys.ram[r := t]), dir := m.dir[Node(r, 4, 0) := r], who := m.who[r := Node(r, 4, 0)])
  }

  lemma PlantedOK(m: Mem, t: Frame)
    requires Inv(m) && m.phys.fl != []
    requires |t| == WORDS && (forall i | 0 <= i < USER_ENTRIES :: !t[i].bits.present) && t[USER_ENTRIES..] == KERNEL[USER_ENTRIES..]
    ensures !IsRoot(m.dir, m.phys.fl[0])
    ensures Inv(Planted(m, t)) && DataKept(m, Planted(m, t))
  {
    var s, r, m' := m.phys, m.phys.fl[0], Planted(m, t);
    UnownedIsFree(s, m.who, m.flat, m.held);
    assert Mappings(m.flat, r) == {};
    PlantRoot(s.ram, m.dir, m.who, m.flat, r, t);
    CountAlloc(s, m.who, m.flat, m.held, m'.who, m.held);
    CountsIgnoreRam(Popped(s), m'.phys.ram, m'.who, m.flat, m.held);
    AllocKeepsData(m, {}, {}, m');
  }

  /** Two steps that keep data do so together, if everything owned at both ends is owned in between. */
  lemma DataKeptTrans(a: Mem, b: Mem, c: Mem)
    requires DataKept(a, b) && DataKept(b, c)
    requires forall p: nat | Data(a, p) && Data(c, p) :: Data(b, p)
    ensures DataKept(a, c)
  {
    forall p: nat | Data(a, p) && Data(c, p)
      ensures Same(a, c, p)
    {
      assert Same(a, b, p) && Same(b, c, p);
    }
  }
}
