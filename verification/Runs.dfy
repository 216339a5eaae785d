/** Whole runs: any interleaving of operations over any number of address spaces. */
module MemoryRuns {
  import opened Lists
  import opened Machine
  import opened PhysicalMemory
  import opened PageTree
  import opened FrameCounts
  import opened Memory
  import opened Areas
  import opened CopyOnWrite

  datatype Op =
    | Create(root: nat)
    | MapAnon(root: nat, area: Vad)
    | Unmap(root: nat, start: nat, end: nat)
    | Clone(src: nat, dst: nat)
    | Destroy(root: nat)
    | Fault(key: Key)
    | Store(key: Key, i: nat, w: Word)
    | Hold(page: nat)
    | Drop(page: nat)

  /** One operation on the machine, as the methods of `Vmm` and `Mmu` guarantee it; `MemoryCalls` shows that they do.
      A user store that hits a read-only entry is a `Fault` followed by the `Store`. */
  ghost predicate Step(op: Op, s: Sys, s': Sys)
    requires SysInv(s)
  {
    && Inv(s'.mem)
    && match op
       case Create(r) => Created(s, s', r)
       case MapAnon(r, v) => r in s.areas && MappedAnon(s, s', r, v)
       case Unmap(r, start, end) => 
         r in s.areas && Aligned(start) && Aligned(end) && !Straddled(s.areas[r], start, end) && Unmapped(s, s', r, start, end)
       case Clone(src, dst) => Cloned(s, s', src, dst)
       case Destroy(r) => r in s.areas && Destroyed(s, s', r)
       case Fault(k) => k in s.mem.flat && k in s'.mem.flat && Faulted(s, s', k)
       case Store(k, i, w) => Stored(s, s', k, i, w)
       case Hold(p) => OnlyHandles(s, s') && s'.mem.held == s.mem.held + multiset{p}
       case Drop(p) => OnlyHandles(s, s') && p in s.mem.held && s'.mem.held == s.mem.held - multiset{p}
  }

  /** The rest of the kernel took or dropped a reference. */
  ghost predicate OnlyHandles(s: Sys, s': Sys) {
    s'.areas == s.areas && s'.mem.flat == s.mem.flat && SameRoots(s.mem, s'.mem) && DataKept(s.mem, s'.mem)
  }

  // The eager machine: cloning copies every private page at once, and shared pages keep their cell.

  ghost function Restricted(e: Eager, gone: Key -> bool): Eager {
    Eager(map k | k in e.cells && !gone(k) :: e.cells[k], map k | k in e.view && !gone(k) :: e.view[k])
  }

  ghost predicate EagerMap(e: Eager, e': Eager, root: nat, v: Vad)
    requires e.cells.Keys == e.view.Keys && e'.cells.Keys == e'.view.Keys
  {
    && (forall k: Key :: k in e'.cells <==> k in e.cells || InRange(k, root, v.start, v.end))
    && (forall k | k in e.cells :: !InRange(k, root, v.start, v.end) && e'.cells[k] == e.cells[k] && e'.view[k] == e.view[k])
    && (forall k, h | k in e'.cells && h in e'.cells && k !in e.cells && h != k :: e'.cells[k] != e'.cells[h])
    && (forall k | k in e'.cells && k !in e.cells :: if v.flags.shared then e'.cells[k].Common? else e'.cells[k] == Private(k))
  }

  ghost predicate EagerClone(e: Eager, e': Eager, src: nat, dst: nat)
    requires e.cells.Keys == e.view.Keys && e'.cells.Keys == e'.view.Keys
  {
    && (forall k: Key :: k in e'.cells <==> k in e.cells || (k.root == dst && Key(src, k.vpn) in e.cells))
    && (forall k | k in e.cells :: k.root != dst && e'.cells[k] == e.cells[k] && e'.view[k] == e.view[k])
    && (forall k | k in e'.cells && k.root == dst ::
          var o := Key(src, k.vpn);
          && o in e.cells && e'.view[k] == e.view[o]
          && e'.cells[k] == if e.cells[o].Private? then Private(k) else e.cells[o])
  }

  ghost predicate EagerStore(e: Eager, e': Eager, k: Key, i: nat, w: Word)
    requires e.cells.Keys == e.view.Keys && e'.cells.Keys == e'.view.Keys
  {
    && k in e.cells && i < |e.view[k]| && e'.cells == e.cells
    && forall h | h in e.cells :: e'.view[h] == if e.cells[h] == e.cells[k] then e.view[k][i := w] else e.view[h]
  }

  ghost predicate EagerStep(op: Op, e: Eager, e': Eager)
    requires e.cells.Keys == e.view.Keys && e'.cells.Keys == e'.view.Keys
  {
    match op
    case MapAnon(r, v) => EagerMap(e, e', r, v)
    case Unmap(r, start, end) => e' == Restricted(e, k => InRange(k, r, start, end))
    case Clone(src, dst) => EagerClone(e, e', src, dst)
    case Destroy(r) => e' == Restricted(e, (k: Key) => k.root == r)
    case Store(k, i, w) => EagerStore(e, e', k, i, w)
    case _ => e' == e
  }

  /** The abstraction is given page by page. */
  ghost predicate SamePage(s: Sys, s': Sys, k: Key)
    requires Spaces(s) && Spaces(s') && k in s.mem.flat && k in s'.mem.flat
  {
    CellOf(s', k) == CellOf(s, k) && Contents(s'.mem, k) == Contents(s.mem, k)
  }

  lemma AbstractRestricted(s: Sys, s': Sys, gone: Key -> bool)
    requires SysInv(s) && SysInv(s')
    requires forall k: Key :: k in s'.mem.flat <==> k in s.mem.flat && !gone(k)
    requires forall k | k in s'.mem.flat :: SamePage(s, s', k)
    ensures Abstract(s') == Restricted(Abstract(s), gone)
  {
    hide Inv, Spaces, Sharing, CellOf, Contents;
    var e, e' := Restricted(Abstract(s), gone), Abstract(s');
    forall k | k in e'.cells
      ensures e'.cells[k] == e.cells[k] && e'.view[k] == e.view[k]
    {
      assert SamePage(s, s', k);
    }
    assert e'.cells == e.cells && e'.view == e.view;
  }

  lemma AbstractSame(s: Sys, s': Sys)
    requires SysInv(s) && SysInv(s')
    requires forall k: Key :: k in s'.mem.flat <==> k in s.mem.flat
    requires forall k | k in s'.mem.flat :: SamePage(s, s', k)
    ensures Abstract(s') == Abstract(s)
  {
    hide Inv, Spaces, Sharing, CellOf, Contents;
    var e, e' := Abstract(s), Abstract(s');
    forall k | k in e'.cells
      ensures e'.cells[k] == e.cells[k] && e'.view[k] == e.view[k]
    {
      assert SamePage(s, s', k);
    }
    assert e'.cells == e.cells && e'.view == e.view;
  }

  lemma HandlesOK(s: Sys, s': Sys)
    requires SysInv(s) && Inv(s'.mem) && OnlyHandles(s, s')
    ensures SysInv(s') && Abstract(s') == Abstract(s)
  {
    hide Inv, DataKept, At, WellFormed, PageOK;
    assert Spaces(s');
    forall k | k in s'.mem.flat
      ensures PageOK(s'.mem, Back(s'.areas, k), k) && Contents(s'.mem, k) == Contents(s.mem, k)
    {
      assert PageOK(s.mem, Back(s.areas, k), k);
      PageSurvives(s.mem, s'.mem, Back(s.areas, k), k);
    }
    forall k, k' | k in s'.mem.flat && k' in s'.mem.flat && Alias(s'.mem.flat, k, k')
      ensures Back(s'.areas, k).flags.shared == Back(s'.areas, k').flags.shared
    {
      assert Alias(s.mem.flat, k, k');
    }
    AbstractSame(s, s');
  }

  lemma UnmapSimulates(s: Sys, s': Sys, root: nat, start: nat, end: nat)
    requires SysInv(s) && Inv(s'.mem) && root in s.areas && Unmapped(s, s', root, start, end)
    requires Aligned(start) && Aligned(end) && !Straddled(s.areas[root], start, end)
    ensures SysInv(s') && Abstract(s') == Restricted(Abstract(s), k => InRange(k, root, start, end))
  {
    hide Inv, DataKept, At, WellFormed, Sharing, Abstract, Restricted, Straddled;
    UnmappedOK(s, s', root, start, end);
    forall k | k in s'.mem.flat
      ensures SamePage(s, s', k)
    {
      BackAfterRemove(s, s', root, start, end, k);
    }
    AbstractRestricted(s, s', k => InRange(k, root, start, end));
  }

  lemma DestroySimulates(s: Sys, s': Sys, root: nat)
    requires SysInv(s) && Inv(s'.mem) && Destroyed(s, s', root)
    ensures SysInv(s') && Abstract(s') == Restricted(Abstract(s), (k: Key) => k.root == root)
  {
    hide Inv, DataKept, At, WellFormed, Sharing, Abstract, Restricted;
    DestroyedOK(s, s', root);
    forall k | k in s'.mem.flat
      ensures SamePage(s, s', k)
    {
      assert Back(s'.areas, k) == Back(s.areas, k);
    }
    AbstractRestricted(s, s', (k: Key) => k.root == root);
  }

  lemma CreateSimulates(s: Sys, s': Sys, root: nat)
    requires SysInv(s) && Inv(s'.mem) && Created(s, s', root)
    ensures SysInv(s') && Abstract(s') == Abstract(s)
  {
    hide Inv, DataKept, WellFormed, Sharing, Abstract;
    CreatedOK(s, s', root);
    forall k | k in s'.mem.flat
      ensures SamePage(s, s', k)
    {
      assert Back(s'.areas, k).Memory?;
      assert Back(s'.areas, k) == Back(s.areas, k);
    }
    AbstractSame(s, s');
  }

  lemma FaultSimulates(s: Sys, s': Sys, k: Key)
    requires SysInv(s) && Inv(s'.mem) && k in s.mem.flat && k in s'.mem.flat && Faulted(s, s', k)
    ensures SysInv(s') && Abstract(s') == Abstract(s)
  {
    hide Inv, At, WellFormed, Sharing, Abstract;
    FaultedOK(s, s', k);
    forall h | h in s'.mem.flat
      ensures SamePage(s, s', h)
    {
    }
    AbstractSame(s, s');
  }

  lemma StoreSimulates(s: Sys, s': Sys, k: Key, i: nat, w: Word)
    requires SysInv(s) && Inv(s'.mem) && Stored(s, s', k, i, w)
    ensures SysInv(s') && EagerStore(Abstract(s), Abstract(s'), k, i, w)
  {
    hide Inv, At, WellFormed, Sharing, Contents;
    StoredOK(s, s', k, i, w);
    SameCells(s, s');
    var e, e' := Abstract(s), Abstract(s');
    assert e.view[k] == Contents(s.mem, k);
    assert i < |e.view[k]| by {
      assert |Contents(s.mem, k)| == WORDS;
    }
    forall h | h in e.cells
      ensures e'.view[h] == if e.cells[h] == e.cells[k] then e.view[k][i := w] else e.view[h]
    {
      assert e'.view[h] == Contents(s'.mem, h) && e.view[h] == Contents(s.mem, h);
    }
  }

  lemma SameCells(s: Sys, s': Sys)
    requires SysInv(s) && SysInv(s') && s'.areas == s.areas && s'.mem.flat == s.mem.flat
    ensures Abstract(s').cells == Abstract(s).cells
  {
    hide Inv, At, WellFormed, Sharing, Contents;
    forall h | h in s.mem.flat
      ensures CellOf(s', h) == CellOf(s, h)
    {
    }
  }

  /** Where a page of either space comes from, and which cell it has. */
  lemma ClonedCell(s: Sys, s': Sys, src: nat, dst: nat, k: Key)
    requires SysInv(s) && SysInv(s') && Cloned(s, s', src, dst) && k in s'.mem.flat
    ensures var o := Origin(k, src, dst);
            o in s.mem.flat && CellOf(s', k) == if CellOf(s, o).Private? then Private(k) else CellOf(s, o)
  {
    hide Inv, At, WellFormed, Sharing;
    BackAfterClone(s, s', src, dst, k);
    assert CloningPage(s, s'.mem, src, dst, USER_PAGES, k);
  }

  lemma ClonedKeys(s: Sys, s': Sys, src: nat, dst: nat, k: Key)
    requires SysInv(s) && Cloned(s, s', src, dst)
    ensures k in s'.mem.flat <==> k in s.mem.flat || (k.root == dst && Key(src, k.vpn) in s.mem.flat)
    ensures k in s.mem.flat ==> k.root != dst
  {
    hide Inv, At, WellFormed, Sharing;
    LowPages(s.mem, Key(src, k.vpn));
    assert k in s.mem.flat ==> Back(s.areas, k).Memory?;
  }

  lemma CloneSimulates(s: Sys, s': Sys, src: nat, dst: nat)
    requires SysInv(s) && Inv(s'.mem) && Cloned(s, s', src, dst)
    ensures SysInv(s') && EagerClone(Abstract(s), Abstract(s'), src, dst)
  {
    hide Inv, Spaces, Sharing, CellOf, Contents, Cloned;
    ClonedOK(s, s', src, dst);
    forall k: Key
      ensures k in s'.mem.flat <==> k in s.mem.flat || (k.root == dst && Key(src, k.vpn) in s.mem.flat)
      ensures k in s.mem.flat ==> k.root != dst
    {
      ClonedKeys(s, s', src, dst, k);
    }
    var e, e' := Abstract(s), Abstract(s');
    forall k | k in e'.cells
      ensures var o := Origin(k, src, dst);
              && o in e.cells && e'.view[k] == e.view[o]
              && e'.cells[k] == if e.cells[o].Private? then Private(k) else e.cells[o]
    {
      ClonedCell(s, s', src, dst, k);
    }
    forall k | k in e.cells
      ensures e'.cells[k] == e.cells[k]
    {
      assert Origin(k, src, dst) == k;
      PrivateCell(s, k);
    }
  }

  lemma PrivateCell(s: Sys, k: Key)
    requires Spaces(s) && k in s.mem.flat
    ensures CellOf(s, k).Private? ==> CellOf(s, k) == Private(k)
  {
  }

  lemma MappedCell(s: Sys, s': Sys, root: nat, v: Vad, k: Key)
    requires SysInv(s) && SysInv(s') && root in s.areas && MappedAnon(s, s', root, v) && k in s'.mem.flat
    ensures k in s.mem.flat ==> !InRange(k, root, v.start, v.end) && SamePage(s, s', k)
    ensures k !in s.mem.flat ==> CellOf(s', k) == if v.flags.shared then Common(s'.mem.flat[k].pfn) else Private(k)
  {
    hide Inv, At, WellFormed, Sharing, DataKept;
    BackAfterInsert(s, s', root, v, k);
    if k in s.mem.flat {
      OldShares(s.mem, s'.mem, root, v.start, v.end, v.flags, k);
      MappedPage(s, s', root, v, k);
    }
  }

  /** A page mapped now shares its cell with no other page. */
  lemma MappedCellsDiffer(s: Sys, s': Sys, root: nat, v: Vad, k: Key, h: Key)
    requires SysInv(s) && SysInv(s') && root in s.areas && MappedAnon(s, s', root, v)
    requires k in s'.mem.flat && h in s'.mem.flat && k !in s.mem.flat && h != k
    ensures CellOf(s', k) != CellOf(s', h)
  {
    hide Inv, At, WellFormed, Sharing, DataKept;
    if Alias(s'.mem.flat, k, h) {
      assert Share(s'.mem.flat, s'.mem.flat[k].pfn) == 1;
      ShareUnique(s'.mem.flat, k, h);
    }
  }

  lemma MapSimulates(s: Sys, s': Sys, root: nat, v: Vad)
    requires SysInv(s) && Inv(s'.mem) && root in s.areas && MappedAnon(s, s', root, v)
    ensures SysInv(s') && EagerMap(Abstract(s), Abstract(s'), root, v)
  {
    hide Inv, Spaces, Sharing, CellOf, Contents;
    MappedAnonOK(s, s', root, v);
    var e, e' := Abstract(s), Abstract(s');
    forall k | k in e'.cells
      ensures k in e.cells ==> !InRange(k, root, v.start, v.end) && e'.cells[k] == e.cells[k] && e'.view[k] == e.view[k]
      ensures k !in e.cells ==> if v.flags.shared then e'.cells[k].Common? else e'.cells[k] == Private(k)
    {
      MappedCell(s, s', root, v, k);
    }
    forall k, h | k in e'.cells && h in e'.cells && k !in e.cells && h != k
      ensures e'.cells[k] != e'.cells[h]
    {
      MappedCellsDiffer(s, s', root, v, k, h);
    }
  }

  /** Every operation keeps the invariant and is, to the processes, the same operation on the eager machine. */
  lemma StepSimulates(op: Op, s: Sys, s': Sys)
    requires SysInv(s) && Step(op, s, s')
    ensures SysInv(s') && EagerStep(op, Abstract(s), Abstract(s'))
  {
    hide Inv, Spaces, Sharing, Abstract, Straddled;
    match op
    case Create(r) => CreateSimulates(s, s', r);
    case MapAnon(r, v) => MapSimulates(s, s', r, v);
    case Unmap(r, start, end) => UnmapSimulates(s, s', r, start, end);
    case Clone(src, dst) => CloneSimulates(s, s', src, dst);
    case Destroy(r) => DestroySimulates(s, s', r);
    case Fault(k) => FaultSimulates(s, s', k);
    case Store(k, i, w) => StoreSimulates(s, s', k, i, w);
    case Hold(p) => HandlesOK(s, s');
    case Drop(p) => HandlesOK(s, s');
  }

  /** A run starts in a good state and makes one operation after another. */
  ghost predicate Run(ss: seq<Sys>, ops: seq<Op>) {
    && |ss| == |ops| + 1 && SysInv(ss[0])
    && forall i {:trigger ops[i]} | 0 <= i < |ops| && SysInv(ss[i]) :: Step(ops[i], ss[i], ss[i + 1])
  }

  /** Every reachable state is good. */
  lemma {:induction false} RunInvariant(ss: seq<Sys>, ops: seq<Op>, i: nat)
    requires Run(ss, ops) && i <= |ops|
    ensures SysInv(ss[i])
  {
    hide SysInv, Step;
    if i > 0 {
      RunInvariant(ss, ops, i - 1);
      StepSimulates(ops[i - 1], ss[i - 1], ss[i]);
    }
  }

  /** Along every run each address space has the kernel's upper half. */
  lemma RunKeepsKernel(ss: seq<Sys>, ops: seq<Op>, i: nat)
    requires Run(ss, ops) && i <= |ops|
    ensures forall r | r in ss[i].areas :: IsRoot(ss[i].mem.dir, r) && KernelAbove(ss[i].mem, r)
  {
    hide Inv, Sharing, Step, KernelAbove;
    RunInvariant(ss, ops, i);
    RootsHaveKernel(ss[i].mem);
  }

  /** Copy-on-write refines eager copying: along every run, what the processes read evolves exactly as on the
      machine that copies everything at clone time. */
  lemma RunRefinesEager(ss: seq<Sys>, ops: seq<Op>, i: nat)
    requires Run(ss, ops) && i < |ops|
    ensures SysInv(ss[i]) && SysInv(ss[i + 1]) && EagerStep(ops[i], Abstract(ss[i]), Abstract(ss[i + 1]))
  {
    hide SysInv, Step, EagerStep, Abstract;
    RunInvariant(ss, ops, i);
    StepSimulates(ops[i], ss[i], ss[i + 1]);
  }

  /** The operations that change or remove private page `k` itself. */
  predicate Touches(op: Op, k: Key) {
    match op
    case Store(h, _, _) => h == k
    case Unmap(r, start, end) => InRange(k, r, start, end)
    case Destroy(r) => k.root == r
    case _ => false
  }

  lemma CellKinds(s: Sys, k: Key)
    requires SysInv(s) && k in Abstract(s).cells && Abstract(s).cells[k].Private?
    ensures Abstract(s).cells[k] == Private(k)
  {
  }

  /** Isolation: whatever happens in other spaces, a private page keeps its contents until its own space stores
      to it or gives it up. */
  lemma {:induction false} PrivatePagesAreIsolated(ss: seq<Sys>, ops: seq<Op>, a: nat, b: nat, k: Key)
    requires Run(ss, ops) && a <= b <= |ops| && SysInv(ss[a])
    requires k in Abstract(ss[a]).cells && Abstract(ss[a]).cells[k].Private?
    requires forall i | a <= i < b :: !Touches(ops[i], k)
    ensures SysInv(ss[b]) && k in Abstract(ss[b]).cells && Abstract(ss[b]).cells[k] == Private(k)
    ensures Abstract(ss[b]).view[k] == Abstract(ss[a]).view[k]
  {
    hide SysInv, Step, Abstract;
    if a == b {
      CellKinds(ss[a], k);
    } else {
      PrivatePagesAreIsolated(ss, ops, a, b - 1, k);
      RunRefinesEager(ss, ops, b - 1);
      assert !Touches(ops[b - 1], k);
      UntouchedStep(ops[b - 1], ss[b - 1], ss[b], k);
    }
  }

  lemma UntouchedStep(op: Op, s: Sys, s': Sys, k: Key)
    requires SysInv(s) && SysInv(s') && EagerStep(op, Abstract(s), Abstract(s')) && !Touches(op, k)
    requires k in Abstract(s).cells && Abstract(s).cells[k] == Private(k)
    ensures k in Abstract(s').cells && Abstract(s').cells[k] == Private(k) && Abstract(s').view[k] == Abstract(s).view[k]
  {
    hide SysInv, Abstract;
    if op.Store? && Abstract(s).cells[op.key].Private? {
      CellKinds(s, op.key);
    }
  }

  /** Fork: long after cloning, a private page of the copy still reads what the source had at that moment, until
      the copy itself writes it; and the other way round. */
  lemma CloneIsASnapshot(ss: seq<Sys>, ops: seq<Op>, a: nat, b: nat, src: nat, dst: nat, vpn: nat)
    requires Run(ss, ops) && a < b <= |ops| && ops[a] == Clone(src, dst) && SysInv(ss[a])
    requires Key(src, vpn) in Abstract(ss[a]).cells && Abstract(ss[a]).cells[Key(src, vpn)].Private?
    ensures SysInv(ss[b])
    ensures (forall i | a < i < b :: !Touches(ops[i], Key(dst, vpn))) ==>
              Key(dst, vpn) in Abstract(ss[b]).view && Abstract(ss[b]).view[Key(dst, vpn)] == Abstract(ss[a]).view[Key(src, vpn)]
    ensures (forall i | a < i < b :: !Touches(ops[i], Key(src, vpn))) ==>
              Key(src, vpn) in Abstract(ss[b]).view && Abstract(ss[b]).view[Key(src, vpn)] == Abstract(ss[a]).view[Key(src, vpn)]
  {
    hide SysInv, Step, Abstract;
    RunInvariant(ss, ops, b);
    RunRefinesEager(ss, ops, a);
    assert EagerClone(Abstract(ss[a]), Abstract(ss[a + 1]), src, dst);
    if forall i | a < i < b :: !Touches(ops[i], Key(dst, vpn)) {
      PrivatePagesAreIsolated(ss, ops, a + 1, b, Key(dst, vpn));
    }
    if forall i | a < i < b :: !Touches(ops[i], Key(src, vpn)) {
      PrivatePagesAreIsolated(ss, ops, a + 1, b, Key(src, vpn));
    }
  }

  /** The operations that take page `k` away. */
  predicate Removes(op: Op, k: Key) {
    match op
    case Unmap(r, start, end) => InRange(k, r, start, end)
    case Destroy(r) => k.root == r
    case _ => false
  }

  lemma CommonCell(s: Sys, k: Key, h: Key)
    requires SysInv(s) && k in Abstract(s).cells && h in Abstract(s).cells
    requires Abstract(s).cells[k].Common? && Abstract(s).cells[h] == Abstract(s).cells[k]
    ensures Abstract(s).view[h] == Abstract(s).view[k]
  {
  }

  /** A page of shared memory keeps its cell until it is taken away, whatever is stored. */
  lemma {:induction false} SharedCellStays(ss: seq<Sys>, ops: seq<Op>, a: nat, b: nat, k: Key)
    requires Run(ss, ops) && a <= b <= |ops| && SysInv(ss[a])
    requires k in Abstract(ss[a]).cells && Abstract(ss[a]).cells[k].Common?
    requires forall i | a <= i < b :: !Removes(ops[i], k)
    ensures SysInv(ss[b]) && k in Abstract(ss[b]).cells && Abstract(ss[b]).cells[k] == Abstract(ss[a]).cells[k]
  {
    hide SysInv, Step, Abstract;
    if a < b {
      SharedCellStays(ss, ops, a, b - 1, k);
      RunRefinesEager(ss, ops, b - 1);
      assert !Removes(ops[b - 1], k);
    }
  }

  /** Shared memory stays shared after cloning: a shared page of the source and its copy read the same at every later
      point, with any stores by either side or by others in between, until one of the two is taken away; and a store
      to one is at once a store to the other. */
  lemma SharedPagesAgree(ss: seq<Sys>, ops: seq<Op>, a: nat, b: nat, src: nat, dst: nat, vpn: nat)
    requires Run(ss, ops) && a < b <= |ops| && ops[a] == Clone(src, dst) && SysInv(ss[a])
    requires Key(src, vpn) in Abstract(ss[a]).cells && Abstract(ss[a]).cells[Key(src, vpn)].Common?
    requires forall i | a < i < b :: !Removes(ops[i], Key(src, vpn)) && !Removes(ops[i], Key(dst, vpn))
    ensures SysInv(ss[b]) && Key(src, vpn) in Abstract(ss[b]).cells && Key(dst, vpn) in Abstract(ss[b]).cells
    ensures Abstract(ss[b]).cells[Key(src, vpn)] == Abstract(ss[b]).cells[Key(dst, vpn)] == Abstract(ss[a]).cells[Key(src, vpn)]
    ensures Abstract(ss[b]).view[Key(src, vpn)] == Abstract(ss[b]).view[Key(dst, vpn)]
    ensures b < |ops| && ops[b].Store? && ops[b].key in {Key(src, vpn), Key(dst, vpn)} ==>
              && SysInv(ss[b + 1]) && Key(src, vpn) in Abstract(ss[b + 1]).view && ops[b].i < |Abstract(ss[b]).view[Key(dst, vpn)]|
              && Abstract(ss[b + 1]).view[Key(src, vpn)] == Abstract(ss[b]).view[Key(dst, vpn)][ops[b].i := ops[b].w]
              && Key(dst, vpn) in Abstract(ss[b + 1]).view
              && Abstract(ss[b + 1]).view[Key(dst, vpn)] == Abstract(ss[b]).view[Key(src, vpn)][ops[b].i := ops[b].w]
  {
    hide SysInv, Step, Abstract;
    var k, h := Key(src, vpn), Key(dst, vpn);
    RunRefinesEager(ss, ops, a);
    assert EagerClone(Abstract(ss[a]), Abstract(ss[a + 1]), src, dst);
    SharedCellStays(ss, ops, a + 1, b, k);
    SharedCellStays(ss, ops, a + 1, b, h);
    CommonCell(ss[b], k, h);
    if b < |ops| && ops[b].Store? && ops[b].key in {k, h} {
      RunRefinesEager(ss, ops, b);
    }
  }

  /** Runs one after the other are a run. */
  lemma RunAppend(ss: seq<Sys>, ops: seq<Op>, tt: seq<Sys>, more: seq<Op>)
    requires Run(ss, ops) && Run(tt, more) && ss[|ops|] == tt[0]
    ensures Run(ss + tt[1..], ops + more) && (ss + tt[1..])[|ops + more|] == tt[|more|]
    ensures forall i | 0 <= i <= |ops| :: (ss + tt[1..])[i] == ss[i]
  {
    hide SysInv, Step;
    var uu, all := ss + tt[1..], ops + more;
    forall i | 0 <= i < |all| && SysInv(uu[i])
      ensures Step(all[i], uu[i], uu[i + 1])
    {
      if i < |ops| {
        assert ops[i] == all[i];
      } else {
        assert more[i - |ops|] == all[i] && uu[i] == tt[i - |ops|] && uu[i + 1] == tt[i - |ops| + 1];
      }
    }
  }

  // Conservation of frames

  lemma StepReserved(op: Op, s: Sys, s': Sys)
    requires SysInv(s) && Step(op, s, s')
    ensures SameReserved(s.mem.phys, s'.mem.phys)
    ensures !op.Hold? && !op.Drop? ==> s'.mem.held == s.mem.held
  {
    hide SysInv;
  }

  lemma {:induction false} RunReserved(ss: seq<Sys>, ops: seq<Op>, i: nat)
    requires Run(ss, ops) && i <= |ops|
    ensures SameReserved(ss[0].mem.phys, ss[i].mem.phys)
  {
    hide SysInv, Step;
    if i > 0 {
      RunReserved(ss, ops, i - 1);
      RunInvariant(ss, ops, i - 1);
      StepReserved(ops[i - 1], ss[i - 1], ss[i]);
    }
  }

  /** With no address space left there is no table and no mapping, so a frame is free unless it is reserved or
      held by the rest of the kernel. */
  lemma NoSpacesNoFrames(s: Sys, p: nat)
    requires SysInv(s) && s.areas == map[] && p < |s.mem.phys.pages|
    ensures p in s.mem.phys.fl <==> s.mem.held[p] == 0 && !s.mem.phys.pages[p].flags.reserved
  {
    var m := s.mem;
    if p in m.who {
      NodeHasRoot(m, m.who[p]);
      assert false;
    }
    forall k: Key
      ensures k !in m.flat
    {
      assert Back(s.areas, k) == Nothing;
    }
    assert Mappings(m.flat, p) == {};
    assert FrameOK(m.phys, m.who, m.flat, m.held, p);
    if p in m.phys.fl {
      var i :| 0 <= i < |m.phys.fl| && m.phys.fl[i] == p;
      assert Linked(m.phys.pages, m.phys.fl, i);
    }
  }

  lemma NodeHasRoot(m: Mem, n: Node)
    requires Inv(m) && n in m.dir
    ensures IsRoot(m.dir, n.root)
    decreases 4 - n.level
  {
    assert NodeOK(m.phys.ram, m.dir, m.who, n);
    if n.level < 4 {
      assert NodeOK(m.phys.ram, m.dir, m.who, n.Up());
      NodeHasRoot(m, n.Up());
    }
  }

  /** Conservation: a run that ends with every space destroyed and the same handles held as at the start gives
      back exactly the frames that were free at the start, page tables included. */
  lemma FramesAreConserved(ss: seq<Sys>, ops: seq<Op>)
    requires Run(ss, ops) && ss[0].areas == map[] && ss[|ops|].areas == map[] && ss[|ops|].mem.held == ss[0].mem.held
    ensures Elements(ss[|ops|].mem.phys.fl) == Elements(ss[0].mem.phys.fl)
    ensures ss[|ops|].mem.phys.freePages == ss[0].mem.phys.freePages
  {
    hide Step, Spaces, Sharing;
    var s, t := ss[0], ss[|ops|];
    RunInvariant(ss, ops, |ops|);
    RunReserved(ss, ops, |ops|);
    forall p: nat
      ensures p in t.mem.phys.fl <==> p in s.mem.phys.fl
    {
      if p < |s.mem.phys.pages| {
        NoSpacesNoFrames(s, p);
        NoSpacesNoFrames(t, p);
      }
    }
    SetOfDistinct(s.mem.phys.fl);
    SetOfDistinct(t.mem.phys.fl);
  }

  // Counting

  /** In every good state the counts are exact: mappings over all tables, and all owners together. */
  lemma CountsAreExact(s: Sys, p: nat)
    requires SysInv(s) && p < |s.mem.phys.pages| && s.mem.phys.pages[p].flags.used
    ensures s.mem.phys.pages[p].u2 == |set k | k in s.mem.flat && s.mem.flat[k].pfn == p|
    ensures s.mem.phys.pages[p].refcount == s.mem.phys.pages[p].u2 + (if p in s.mem.who then 1 else 0) + s.mem.held[p] > 0
    ensures s.mem.phys.pages[p].flags.shared <==> s.mem.phys.pages[p].u2 > 1
    ensures p !in s.mem.phys.fl
  {
    forall i | 0 <= i < |s.mem.phys.fl|
      ensures s.mem.phys.pages[s.mem.phys.fl[i]].flags == FREE
    {
      assert Linked(s.mem.phys.pages, s.mem.phys.fl, i);
    }
    assert FrameOK(s.mem.phys, s.mem.who, s.mem.flat, s.mem.held, p);
  }

  /** The number of the word in memory that holds a page's entry. */
  ghost function EntryNumber(m: Mem, k: Key): nat
    requires Inv(m) && k in m.flat
  {
    assert LeafOK(m.phys.ram, m.dir, m.who, m.flat, k);
    m.dir[k.Table()] * WORDS + k.Idx()
  }

  lemma EntryNumbers(m: Mem, k: Key, h: Key)
    requires Inv(m) && k in m.flat && h in m.flat
    ensures EntryNumber(m, k) < |m.phys.pages| * WORDS
    ensures EntryNumber(m, k) == EntryNumber(m, h) ==> k == h
  {
    assert LeafOK(m.phys.ram, m.dir, m.who, m.flat, k) && LeafOK(m.phys.ram, m.dir, m.who, m.flat, h);
    assert NodeOK(m.phys.ram, m.dir, m.who, k.Table()) && NodeOK(m.phys.ram, m.dir, m.who, h.Table());
  }

  lemma {:induction false} KeysBelow(m: Mem, ks: set<Key>, bound: nat)
    requires Inv(m) && (forall k | k in ks :: k in m.flat && EntryNumber(m, k) < bound)
    ensures |ks| <= bound
    decreases bound
  {
    if k :| k in ks && EntryNumber(m, k) == bound - 1 {
      forall h | h in ks - {k}
        ensures h in m.flat && EntryNumber(m, h) < bound - 1
      {
        EntryNumbers(m, k, h);
      }
      KeysBelow(m, ks - {k}, bound - 1);
    } else if bound > 0 {
      KeysBelow(m, ks, bound - 1);
    } else {
      assert forall k :: k !in ks;
      assert ks == {};
    }
  }

  /** The 32-bit reference count cannot wrap on a machine of up to 16 GiB, as long as the rest of the kernel holds
      fewer than 2^31 - 1 handles on the frame. */
  lemma RefcountFitsIn32Bits(s: Sys, p: nat)
    requires SysInv(s) && p < |s.mem.phys.pages| <= 0x40_0000 && s.mem.held[p] < 0x7FFF_FFFF
    ensures Refs(s.mem.who, s.mem.flat, s.mem.held, p) < 0x1_0000_0000
  {
    var m := s.mem;
    forall k | k in Mappings(m.flat, p)
      ensures k in m.flat && EntryNumber(m, k) < |m.phys.pages| * WORDS
    {
      EntryNumbers(m, k, k);
    }
    KeysBelow(m, Mappings(m.flat, p), |m.phys.pages| * WORDS);
  }
}
