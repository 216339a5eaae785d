/** Any sequence of calls on the memory manager, by any number of processes, is a run. */
module MemoryCalls {
  import opened Lists
  import opened Machine
  import opened PhysicalMemory
  import opened PageTree
  import opened FrameCounts
  import opened Memory
  import opened Paging
  import opened Areas
  import opened CopyOnWrite
  import opened VirtualMemory
  import Runs = MemoryRuns
  import Boot
  import opened Sizes

  type Address = x: nat | x < U64

  /** What processes and the rest of the kernel ask for; a process is named by its PML4. */
  datatype Call =
    | Create
    | Map(root: nat, hint: Address, length: Address, flags: VadFlags)
    | Unmap(root: nat, start: Address, length: Address)
    | Clone(root: nat)
    | Destroy(root: nat)
    | Fault(root: nat, addr: Address, write: bool, present: bool)
    | Store(root: nat, addr: Address, w: Word)
    | Access(root: nat, addr: Address, len: Address, write: bool)
    | Hold(root: nat, addr: Address)
    | Drop(handle: nat)

  ghost predicate Trace(ss: seq<Sys>, ops: seq<Runs.Op>, s: Sys, s': Sys) {
    Runs.Run(ss, ops) && ss[0] == s && ss[|ops|] == s'
  }

  lemma NoStep(s: Sys)
    requires SysInv(s)
    ensures Trace([s], [], s, s)
  {
  }

  lemma OneStep(op: Runs.Op, s: Sys, s': Sys)
    requires SysInv(s) && Runs.Step(op, s, s')
    ensures Trace([s, s'], [op], s, s') && SysInv(s')
  {
    hide SysInv, Runs.Step;
    Runs.StepSimulates(op, s, s');
  }

  lemma MoreSteps(ss: seq<Sys>, ops: seq<Runs.Op>, tt: seq<Sys>, more: seq<Runs.Op>, s: Sys, s': Sys, s'': Sys)
    requires Trace(ss, ops, s, s') && Trace(tt, more, s', s'')
    ensures Trace(ss + tt[1..], ops + more, s, s'')
    ensures forall i | 0 <= i <= |ops| :: (ss + tt[1..])[i] == ss[i]
  {
    hide Runs.Run;
    assert |ss| == |ops| + 1 && |tt| == |more| + 1 by { RunLength(ss, ops); RunLength(tt, more); }
    Runs.RunAppend(ss, ops, tt, more);
  }

  lemma RunLength(ss: seq<Sys>, ops: seq<Runs.Op>)
    requires Runs.Run(ss, ops)
    ensures |ss| == |ops| + 1
  {
  }

  /** Where in its frame a store lands. */
  function WordAt(addr: nat): nat { addr % PAGE_SIZE / 8 }

  function PageAt(root: nat, addr: nat): Key { Key(root, addr / PAGE_SIZE) }

  /** The mapping calls a caller must not make, by what it can check beforehand. */
  predicate Refused(areas: seq<Vad>, c: Call) {
    match c
    case Map(_, _, length, _) => length > U64 - PAGE_SIZE
    case Unmap(_, start, length) => length > 0 && Straddled(areas, AlignDown(start), Add(AlignDown(start), AlignUp(length)))
    case _ => false
  }

  /** What the calls depend on besides the machine: where each process maps next, and the handles held. */
  datatype Context = Context(starts: map<nat, nat>, handles: seq<nat>)

  /** The place a mapping call gets, or -1. */
  ghost function Place(s: Sys, x: Context, root: nat, hint: nat, length: nat, f: VadFlags): int {
    if root in s.areas && root in x.starts && 0 < length <= U64 - PAGE_SIZE
    then Placement(s.areas[root], x.starts[root], hint, AlignUp(length), f.fixed) else -1
  }

  function AnonArea(base: nat, length: nat, f: VadFlags): Vad {
    Vad(base, base + AlignUp(length), f.(anonymous := true), NoFile, 0)
  }

  /** The operations of the machine that a call amounts to. */
  ghost predicate Amounts(c: Call, s: Sys, x: Context, ops: seq<Runs.Op>)
    requires SysInv(s)
  {
    match c
    case Create => exists r :: ops == [Runs.Create(r)]
    case Map(root, hint, length, f) =>
      var b := Place(s, x, root, hint, length, f);
      ops == if b < 0 then [] else [Runs.MapAnon(root, AnonArea(b, length, f))]
    case Unmap(root, start, length) =>
      ops == if root in s.areas && length > 0 && !Refused(s.areas[root], c)
             then [Runs.Unmap(root, AlignDown(start), Add(AlignDown(start), AlignUp(length)))] else []
    case Clone(root) => if root in s.areas then exists r :: ops == [Runs.Clone(root, r)] else ops == []
    case Destroy(root) => ops == if root in s.areas then [Runs.Destroy(root)] else []
    case Fault(root, addr, write, present) =>
      ops == if write && present && Breakable(s, PageAt(root, addr)) then [Runs.Fault(PageAt(root, addr))] else []
    case Store(root, addr, w) =>
      var last := [Runs.Store(PageAt(root, addr), WordAt(addr), w)];
      if MayWrite(s, PageAt(root, addr)) then ops == last || ops == [Runs.Fault(PageAt(root, addr))] + last else ops == []
    case Access(root, _, _, _) => forall i | 0 <= i < |ops| :: ops[i].Fault? && ops[i].key.root == root
    case Hold(root, addr) => ops == if PageAt(root, addr) in s.mem.flat then [Runs.Hold(s.mem.flat[PageAt(root, addr)].pfn)] else []
    case Drop(i) => ops == if i < |x.handles| then [Runs.Drop(x.handles[i])] else []
  }

  /** Every process is listed under its PML4, with the areas the machine knows. */
  ghost predicate TableOK(table: map<nat, Vas>, areas: map<nat, seq<Vad>>)
    reads table.Values
  {
    && table.Keys == areas.Keys
    && forall r | r in table :: table[r].pml4 == r && table[r].areas == areas[r]
  }

  lemma NewEntry(table: map<nat, Vas>, areas: map<nat, seq<Vad>>, vas: Vas)
    requires TableOK(table, areas)
    ensures TableOK(table[vas.pml4 := vas], areas[vas.pml4 := vas.areas])
    ensures table[vas.pml4 := vas].Values <= table.Values + {vas}
  {
  }

  lemma TableEntry(table: map<nat, Vas>, areas: map<nat, seq<Vad>>, root: nat)
    requires TableOK(table, areas)
    ensures root in table <==> root in areas
    ensures root in table ==> table[root].pml4 == root && table[root].areas == areas[root]
  {
  }

  class Processes {
    const vmm: Vmm
    var table: map<nat, Vas>
    var handles: seq<nat>

    ghost function View(): Sys
      reads this, vmm, vmm.mmu, vmm.mmu.pmm
    {
      vmm.View()
    }

    ghost function Around(): Context
      reads this, table.Values
    {
      Context(map r | r in table :: table[r].userStart, handles)
    }

    ghost predicate Valid()
      reads this, vmm, vmm.mmu, vmm.mmu.pmm, table.Values
    {
      SysInv(View()) && TableOK(table, vmm.areas) && multiset(handles) <= vmm.mmu.held
    }

    /** A machine on which nothing is mapped yet. */
    constructor (mmu: Mmu)
      requires Inv(mmu.View()) && mmu.dir == map[] && mmu.flat == map[]
      ensures Valid() && table == map[] && View().areas == map[] && vmm.mmu == mmu && View().mem == mmu.View() && fresh(vmm)
    {
      vmm := new Vmm(mmu);
      table, handles := map[], [];
    }

    method DoCreate() returns (s: Status, ghost ss: seq<Sys>, ghost ops: seq<Runs.Op>)
      requires Valid()
      modifies this, vmm, vmm.mmu, vmm.mmu.pmm
      ensures s.Panic? ==> s == Panic(OutOfMemory)
      ensures s.Ok? ==> Valid() && fresh(table.Values - old(table.Values)) && Trace(ss, ops, old(View()), View())
      ensures s.Ok? ==> Amounts(Create, old(View()), old(Around()), ops)
    {
      hide SysInv, Trace, Amounts, Created, TableOK;
      ghost var s0 := View();
      ss, ops := [], [];
      var vas :- vmm.Create();
      NewEntry(table, s0.areas, vas);
      table := table[vas.pml4 := vas];
      CreateIsStep(s0, View(), vas.pml4);
      CreateAmounts(s0, old(Around()), vas.pml4);
      ss, ops := [s0, View()], [Runs.Create(vas.pml4)];
      s := Ok;
    }

    method DoMap(root: nat, hint: Address, length: Address, f: VadFlags) returns (s: Status, ghost ss: seq<Sys>, ghost ops: seq<Runs.Op>)
      requires Valid()
      modifies this, vmm, vmm.mmu, vmm.mmu.pmm, table.Values
      ensures s.Panic? ==> s == Panic(OutOfMemory)
      ensures s.Ok? ==> Valid() && table == old(table) && Trace(ss, ops, old(View()), View())
      ensures s.Ok? ==> Amounts(Map(root, hint, length, f), old(View()), old(Around()), ops)
    {
      hide SysInv, Trace, Amounts, MappedAnon, AlignUp, Placement;
      ghost var s0, x := View(), Around();
      NoStep(s0);
      MapAmounts(s0, x, root, hint, length, f);
      ss, ops := [s0], [];
      if root !in table || length > U64 - PAGE_SIZE {
        return Ok, ss, ops;
      }
      ghost var b := Place(s0, x, root, hint, length, f);
      Rounded(length);
      var base :- vmm.MapAnon(table[root], hint, length, f);
      if b >= 0 {
        MapIsStep(s0, View(), root, AnonArea(b, length, f));
        ss, ops := [s0, View()], [Runs.MapAnon(root, AnonArea(b, length, f))];
      }
      s := Ok;
    }

    method DoUnmap(root: nat, start: Address, length: Address) returns (ghost ss: seq<Sys>, ghost ops: seq<Runs.Op>)
      requires Valid()
      modifies this, vmm, vmm.mmu, vmm.mmu.pmm, table.Values
      ensures Valid() && table == old(table) && Trace(ss, ops, old(View()), View())
      ensures Amounts(Unmap(root, start, length), old(View()), old(Around()), ops)
    {
      hide SysInv, Trace, Amounts, Unmapped, AlignUp, AlignDown, Add, Straddled;
      ghost var s0 := View();
      NoStep(s0);
      ss, ops := [s0], [];
      UnmapAmounts(s0, Around(), root, start, length);
      if root !in table || Refused(table[root].areas, Unmap(root, start, length)) {
        return;
      }
      vmm.Unmap(table[root], start, length);
      if length > 0 {
        UnmapIsStep(s0, View(), root, start, length);
        ss, ops := [s0, View()], [Runs.Unmap(root, AlignDown(start), Add(AlignDown(start), AlignUp(length)))];
      }
    }

    method DoClone(root: nat) returns (s: Status, ghost ss: seq<Sys>, ghost ops: seq<Runs.Op>)
      requires Valid()
      modifies this, vmm, vmm.mmu, vmm.mmu.pmm
      ensures s.Panic? ==> s == Panic(OutOfMemory)
      ensures s.Ok? ==> Valid() && fresh(table.Values - old(table.Values)) && Trace(ss, ops, old(View()), View())
      ensures s.Ok? ==> Amounts(Clone(root), old(View()), old(Around()), ops)
    {
      hide SysInv, Trace, Amounts, Cloned, TableOK;
      ghost var s0 := View();
      NoStep(s0);
      TableEntry(table, vmm.areas, root);
      CloneAmounts(s0, Around(), root);
      ss, ops := [s0], [];
      if root !in table {
        return Ok, ss, ops;
      }
      var vas :- vmm.Clone(table[root]);
      NewEntry(table, s0.areas, vas);
      table := table[vas.pml4 := vas];
      CloneIsStep(s0, View(), root, vas.pml4);
      ss, ops := [s0, View()], [Runs.Clone(root, vas.pml4)];
      s := Ok;
    }

    method DoDestroy(root: nat) returns (ghost ss: seq<Sys>, ghost ops: seq<Runs.Op>)
      requires Valid()
      modifies this, vmm, vmm.mmu, vmm.mmu.pmm
      ensures Valid() && table.Values <= old(table.Values) && Trace(ss, ops, old(View()), View())
      ensures Amounts(Destroy(root), old(View()), old(Around()), ops)
    {
      hide SysInv, Trace, Amounts, Destroyed;
      ghost var s0 := View();
      NoStep(s0);
      DestroyAmounts(s0, Around(), root);
      ss, ops := [s0], [];
      if root !in table {
        return;
      }
      vmm.Destroy(table[root]);
      table := table - {root};
      DestroyIsStep(s0, View(), root);
      ss, ops := [s0, View()], [Runs.Destroy(root)];
    }

    method DoFault(root: nat, addr: Address, write: bool, present: bool) returns (s: Status, ghost ss: seq<Sys>, ghost ops: seq<Runs.Op>)
      requires Valid()
      modifies this, vmm, vmm.mmu, vmm.mmu.pmm
      ensures s.Panic? ==> s == Panic(OutOfMemory)
      ensures s.Ok? ==> Valid() && table == old(table) && Trace(ss, ops, old(View()), View())
      ensures s.Ok? ==> Amounts(Fault(root, addr, write, present), old(View()), old(Around()), ops)
    {
      hide SysInv, Trace, Amounts, TableOK, Faulted, Breakable, Inv;
      ghost var s0 := View();
      NoStep(s0);
      TableEntry(table, vmm.areas, root);
      FaultAmounts(s0, Around(), root, addr, write, present);
      PageOf(s0, PageAt(root, addr));
      ss, ops := [s0], [];
      if root !in table {
        return Ok, ss, ops;
      }
      var r :- vmm.HandleFault(table[root], addr, write, present);
      InvOf(View());
      if r == 0 {
        FaultIsStep(s0, View(), PageAt(root, addr));
        ss, ops := [s0, View()], [Runs.Fault(PageAt(root, addr))];
      }
      s := Ok;
    }

    method DoStore(root: nat, addr: Address, w: Word) returns (s: Status, ghost ss: seq<Sys>, ghost ops: seq<Runs.Op>)
      requires Valid()
      modifies this, vmm, vmm.mmu, vmm.mmu.pmm
      ensures s.Panic? ==> s == Panic(OutOfMemory)
      ensures s.Ok? ==> Valid() && table == old(table) && Trace(ss, ops, old(View()), View())
      ensures s.Ok? ==> Amounts(Store(root, addr, w), old(View()), old(Around()), ops)
    {
      hide SysInv, Trace, Amounts, TableOK, Stored, FaultStep, MayWrite, Wrote, Inv;
      ghost var s0, k := View(), PageAt(root, addr);
      NoStep(s0);
      TableEntry(table, vmm.areas, root);
      PageOf(s0, k);
      StoreAmounts(s0, Around(), root, addr, w);
      ss, ops := [s0], [];
      if root !in table || addr / PAGE_SIZE >= USER_PAGES {
        return Ok, ss, ops;
      }
      var ok, mid :- vmm.Store(table[root], addr, w);
      if ok {
        StoreSteps(s0, mid, View(), k, WordAt(addr), w);
        ops := [Runs.Store(k, WordAt(addr), w)];
        if mid == s0 {
          ss := [s0, View()];
        } else {
          ss, ops := [s0, mid, View()], [Runs.Fault(k)] + ops;
        }
      }
      s := Ok;
    }

    method DoAccess(root: nat, addr: Address, len: Address, write: bool) returns (s: Status, ghost ss: seq<Sys>, ghost ops: seq<Runs.Op>)
      requires Valid()
      modifies this, vmm, vmm.mmu, vmm.mmu.pmm
      ensures s.Panic? ==> s == Panic(OutOfMemory)
      ensures s.Ok? ==> Valid() && table == old(table) && Trace(ss, ops, old(View()), View())
      ensures s.Ok? ==> Amounts(Access(root, addr, len, write), old(View()), old(Around()), ops)
    {
      hide SysInv, Trace, Amounts, TableOK, Faults;
      ghost var s0 := View();
      NoStep(s0);
      TableEntry(table, vmm.areas, root);
      AccessAmounts(s0, Around(), root, addr, len, write, []);
      ss, ops := [s0], [];
      if root !in table {
        return Ok, ss, ops;
      }
      var r, tt, ks :- vmm.UserAccessOk(table[root], addr, len, write);
      ss, ops := tt, FaultOps(ks);
      AccessSteps(tt, ks, root, s0, View());
      AccessAmounts(s0, old(Around()), root, addr, len, write, ks);
      s := Ok;
    }

    method DoHold(root: nat, addr: Address) returns (ghost ss: seq<Sys>, ghost ops: seq<Runs.Op>)
      requires Valid()
      modifies this, vmm, vmm.mmu, vmm.mmu.pmm
      ensures Valid() && table == old(table) && Trace(ss, ops, old(View()), View())
      ensures Amounts(Hold(root, addr), old(View()), old(Around()), ops)
    {
      hide SysInv, Trace, Amounts, TableOK, DataKept, Data, Inv;
      ghost var s0, k := View(), PageAt(root, addr);
      NoStep(s0);
      TableEntry(table, vmm.areas, root);
      PageOf(s0, k);
      HoldAmounts(s0, Around(), root, addr);
      ss, ops := [s0], [];
      if root !in table || addr / PAGE_SIZE >= USER_PAGES {
        return;
      }
      var phys := vmm.mmu.GetPhys(root, addr);
      if phys != 0 {
        var s := vmm.mmu.RefPage(phys / PAGE_SIZE);
        handles := handles + [phys / PAGE_SIZE];
        HandleIsStep(Runs.Hold(phys / PAGE_SIZE), s0, View());
        ss, ops := [s0, View()], [Runs.Hold(phys / PAGE_SIZE)];
      }
    }

    method DoDrop(i: nat) returns (ghost ss: seq<Sys>, ghost ops: seq<Runs.Op>)
      requires Valid()
      modifies this, vmm, vmm.mmu, vmm.mmu.pmm
      ensures Valid() && table == old(table) && Trace(ss, ops, old(View()), View())
      ensures Amounts(Drop(i), old(View()), old(Around()), ops)
    {
      hide SysInv, Trace, Amounts, TableOK, DataKept, Data, Inv;
      ghost var s0 := View();
      NoStep(s0);
      ss, ops := [s0], [];
      DropAmounts(s0, Around(), i);
      if i >= |handles| {
        return;
      }
      HandleOut(handles, i, vmm.mmu.held);
      var p := handles[i];
      InvOf(s0);
      var s := vmm.mmu.UnrefPage(p);
      handles := handles[..i] + handles[i + 1..];
      HandleIsStep(Runs.Drop(p), s0, View());
      ss, ops := [s0, View()], [Runs.Drop(p)];
    }

    /** One call, whatever it is. */
    method Do(c: Call) returns (s: Status, ghost ss: seq<Sys>, ghost ops: seq<Runs.Op>)
      requires Valid()
      modifies this, vmm, vmm.mmu, vmm.mmu.pmm, table.Values
      ensures s.Panic? ==> s == Panic(OutOfMemory)
      ensures s.Ok? ==> Valid() && fresh(table.Values - old(table.Values)) && Trace(ss, ops, old(View()), View())
      ensures s.Ok? ==> Amounts(c, old(View()), old(Around()), ops)
    {
      hide SysInv, Trace, Amounts, TableOK, Around, View;
      s := Ok;
      match c
      case Create => s, ss, ops := DoCreate();
      case Map(root, hint, length, f) => s, ss, ops := DoMap(root, hint, length, f);
      case Unmap(root, start, length) => ss, ops := DoUnmap(root, start, length);
      case Clone(root) => s, ss, ops := DoClone(root);
      case Destroy(root) => ss, ops := DoDestroy(root);
      case Fault(root, addr, write, present) => s, ss, ops := DoFault(root, addr, write, present);
      case Store(root, addr, w) => s, ss, ops := DoStore(root, addr, w);
      case Access(root, addr, len, write) => s, ss, ops := DoAccess(root, addr, len, write);
      case Hold(root, addr) => ss, ops := DoHold(root, addr);
      case Drop(i) => ss, ops := DoDrop(i);
    }

    /** Any sequence of calls: unless memory runs out, the machine makes a run of operations and ends in a good state;
        `ends` says where each call's operations end
        and `xs` in what context it was made. If no process is left, and the handles are those of the
        beginning, every frame is back. */
    method Execute(calls: seq<Call>) returns (s: Status, ghost ss: seq<Sys>, ghost ops: seq<Runs.Op>, ghost ends: seq<nat>, ghost xs: seq<Context>)
      requires Valid()
      modifies this, vmm, vmm.mmu, vmm.mmu.pmm, table.Values
      ensures s.Panic? ==> s == Panic(OutOfMemory)
      ensures s.Ok? ==> Valid() && Trace(ss, ops, old(View()), View()) && Made(calls, xs, ss, ops, ends, |calls|)
      ensures s.Ok? && old(View()).areas == map[] && View().areas == map[] && View().mem.held == old(View()).mem.held ==>
                && Elements(View().mem.phys.fl) == Elements(old(View()).mem.phys.fl)
                && View().mem.phys.freePages == old(View()).mem.phys.freePages
    {
      hide SysInv, Trace, Amounts, TableOK, Made;
      ghost var s0 := View();
      NoStep(s0);
      ss, ops, ends, xs := [s0], [], [0], [];
      MadeNothing(calls, ss);
      for i := 0 to |calls|
        invariant Valid() && fresh(table.Values - old(table.Values))
        invariant Trace(ss, ops, s0, View()) && Made(calls, xs, ss, ops, ends, i)
      {
        ghost var s1, x := View(), Around();
        var tt, more :- Do(calls[i]);
        MadeMore(calls, xs, ss, ops, ends, i, tt, more, x, s0, s1, View());
        ss, ops, ends, xs := ss + tt[1..], ops + more, ends + [|ops + more|], xs + [x];
      }
      if s0.areas == map[] && View().areas == map[] && View().mem.held == s0.mem.held {
        Conserved(ss, ops, s0, View());
      }
      s := Ok;
    }
  }

  /** From the boot loader's memory map through any sequence of calls: the kernel stops only for want of memory.
      Otherwise it has made a run from a machine without processes. If no process is left, and no handle, the free
      frames are all usable frames but frame 0 and those of the frame database. */
  method BootAndRun(regions: seq<Region>, frames: nat -> Frame, junk: nat -> nat, calls: seq<Call>)
    returns (s: Status, p: Processes?, m: nat, at: nat,
             ghost ss: seq<Sys>, ghost ops: seq<Runs.Op>, ghost ends: seq<nat>, ghost xs: seq<Context>)
    requires (forall f :: |frames(f)| == WORDS)
    ensures m == Boot.MaxFrame(regions)
    ensures s == Panic(NoBootRegion) <==> forall i | 0 <= i < |regions| :: !Boot.Roomy(regions[i], Boot.DatabaseSize(m))
    ensures s.Ok? || s == Panic(OutOfMemory) || s == Panic(NoBootRegion)
    ensures s.Ok? ==> p != null && p.Valid() && |ss| > 0 && Trace(ss, ops, ss[0], p.View()) && Made(calls, xs, ss, ops, ends, |calls|)
    ensures s.Ok? ==> ss[0].areas == map[] && ss[0].mem.held == multiset{}
    ensures s.Ok? && Boot.MapOK(regions) && p.View().areas == map[] && p.View().mem.held == multiset{} ==>
              forall f: nat :: f in p.View().mem.phys.fl <==>
                0 < f && Usable(regions, f) && !(at <= f * PAGE_SIZE < at + Boot.DatabaseSize(m))
    ensures s.Ok? && Boot.MapOK(regions) && p.View().areas == map[] && p.View().mem.held == multiset{} ==>
              forall f, r: nat | f in p.View().mem.phys.fl && r <= m :: !Boot.RecordIn(at, r, f)
  {
    hide Inv, SysInv, TableOK, Made, Runs.Run, Usable, Boot.MapOK, Boot.DatabaseSize, Boot.Roomy;
    p, ss, ops, ends, xs := null, [], [], [], [];
    var mmu: Mmu?;
    s, mmu, m, at := Boot.Start(regions, frames, junk);
    if s.Panic? {
      return;
    }
    p := new Processes(mmu);
    assert p.table.Values == {};
    ghost var fl := p.View().mem.phys.fl;
    s, ss, ops, ends, xs := p.Execute(calls);
    if s.Ok? {
      RunLength(ss, ops);
      SameElements(fl, p.View().mem.phys.fl);
    }
  }

  lemma SameElements(a: seq<nat>, b: seq<nat>)
    ensures Elements(a) == Elements(b) ==> forall x :: x in a <==> x in b
  {
    forall x | Elements(a) == Elements(b)
      ensures x in a <==> x in b
    {
      assert x in a <==> x in Elements(a);
      assert x in b <==> x in Elements(b);
    }
  }

  /** The first `n` calls made these operations, call by call. */
  ghost predicate Made(calls: seq<Call>, xs: seq<Context>, ss: seq<Sys>, ops: seq<Runs.Op>, ends: seq<nat>, n: nat) {
    && n <= |calls| && |ends| == n + 1 && |xs| == n && ends[0] == 0 && ends[n] == |ops| && |ss| == |ops| + 1
    && forall i | 0 <= i < n :: CallMade(calls[i], xs[i], ss, ops, ends[i], ends[i + 1])
  }

  /** The operations from `a` to `b` are what the call amounts to. */
  ghost predicate CallMade(c: Call, x: Context, ss: seq<Sys>, ops: seq<Runs.Op>, a: nat, b: nat) {
    a <= b <= |ops| && a < |ss| && SysInv(ss[a]) && Amounts(c, ss[a], x, ops[a..b])
  }

  lemma StillMade(c: Call, x: Context, ss: seq<Sys>, ops: seq<Runs.Op>, a: nat, b: nat, tt: seq<Sys>, more: seq<Runs.Op>)
    requires CallMade(c, x, ss, ops, a, b)
    ensures CallMade(c, x, ss + tt, ops + more, a, b)
  {
    hide SysInv, Amounts;
    assert (ops + more)[a..b] == ops[a..b];
  }

  lemma MadeNothing(calls: seq<Call>, ss: seq<Sys>)
    requires |ss| == 1
    ensures Made(calls, [], ss, [], [0], 0)
  {
  }

  lemma MadeMore(calls: seq<Call>, xs: seq<Context>, ss: seq<Sys>, ops: seq<Runs.Op>, ends: seq<nat>, n: nat,
                 tt: seq<Sys>, more: seq<Runs.Op>, x: Context, s0: Sys, s1: Sys, s2: Sys)
    requires n < |calls| && Made(calls, xs, ss, ops, ends, n) && SysInv(s1) && Amounts(calls[n], s1, x, more)
    requires Trace(ss, ops, s0, s1) && Trace(tt, more, s1, s2)
    ensures |tt| > 0 && Trace(ss + tt[1..], ops + more, s0, s2)
    ensures Made(calls, xs + [x], ss + tt[1..], ops + more, ends + [|ops + more|], n + 1)
  {
    hide SysInv, Amounts, Runs.Run;
    RunLength(tt, more);
    MoreSteps(ss, ops, tt, more, s0, s1, s2);
    var uu, all, ends' := ss + tt[1..], ops + more, ends + [|ops + more|];
    assert CallMade(calls[n], x, uu, all, |ops|, |all|) by {
      assert all[|ops|..|all|] == more && uu[|ops|] == s1;
    }
    hide CallMade;
    forall i | 0 <= i < n + 1
      ensures CallMade(calls[i], (xs + [x])[i], uu, all, ends'[i], ends'[i + 1])
    {
      if i < n {
        StillMade(calls[i], xs[i], ss, ops, ends[i], ends[i + 1], tt[1..], more);
      }
    }
  }

  lemma Conserved(ss: seq<Sys>, ops: seq<Runs.Op>, s: Sys, s': Sys)
    requires Trace(ss, ops, s, s') && s.areas == map[] && s'.areas == map[] && s'.mem.held == s.mem.held
    ensures Elements(s'.mem.phys.fl) == Elements(s.mem.phys.fl) && s'.mem.phys.freePages == s.mem.phys.freePages
  {
    hide Runs.Run;
    Runs.FramesAreConserved(ss, ops);
  }

  // The calls one by one

  lemma CreateAmounts(s: Sys, x: Context, r: nat)
    requires SysInv(s)
    ensures Amounts(Create, s, x, [Runs.Create(r)])
  {
    hide SysInv;
  }

  lemma MapAmounts(s: Sys, x: Context, root: nat, hint: Address, length: Address, f: VadFlags)
    requires SysInv(s)
    ensures var b := Place(s, x, root, hint, length, f);
            Amounts(Map(root, hint, length, f), s, x, if b < 0 then [] else [Runs.MapAnon(root, AnonArea(b, length, f))])
  {
    hide SysInv, Place;
  }

  lemma UnmapAmounts(s: Sys, x: Context, root: nat, start: Address, length: Address)
    requires SysInv(s)
    ensures Amounts(Unmap(root, start, length), s, x,
                    if root in s.areas && length > 0 && !Refused(s.areas[root], Unmap(root, start, length))
                    then [Runs.Unmap(root, AlignDown(start), Add(AlignDown(start), AlignUp(length)))] else [])
  {
    hide SysInv, Refused, AlignDown, AlignUp, Add;
  }

  lemma CloneAmounts(s: Sys, x: Context, root: nat)
    requires SysInv(s)
    ensures if root in s.areas then forall r :: Amounts(Clone(root), s, x, [Runs.Clone(root, r)]) else Amounts(Clone(root), s, x, [])
  {
    hide SysInv;
  }

  lemma DestroyAmounts(s: Sys, x: Context, root: nat)
    requires SysInv(s)
    ensures Amounts(Destroy(root), s, x, if root in s.areas then [Runs.Destroy(root)] else [])
  {
    hide SysInv;
  }

  lemma FaultAmounts(s: Sys, x: Context, root: nat, addr: Address, write: bool, present: bool)
    requires SysInv(s)
    ensures Amounts(Fault(root, addr, write, present), s, x,
                    if write && present && Breakable(s, PageAt(root, addr)) then [Runs.Fault(PageAt(root, addr))] else [])
    ensures Breakable(s, PageAt(root, addr)) ==> PageAt(root, addr) in s.mem.flat
  {
    hide SysInv;
  }

  lemma StoreAmounts(s: Sys, x: Context, root: nat, addr: Address, w: Word)
    requires SysInv(s)
    ensures MayWrite(s, PageAt(root, addr)) ==> PageAt(root, addr) in s.mem.flat
    ensures var last := [Runs.Store(PageAt(root, addr), WordAt(addr), w)];
            if MayWrite(s, PageAt(root, addr)) then
              Amounts(Store(root, addr, w), s, x, last) && Amounts(Store(root, addr, w), s, x, [Runs.Fault(PageAt(root, addr))] + last)
            else Amounts(Store(root, addr, w), s, x, [])
  {
    hide WordAt;
  }

  lemma AccessAmounts(s: Sys, x: Context, root: nat, addr: Address, len: Address, write: bool, ks: seq<Key>)
    requires SysInv(s) && forall i | 0 <= i < |ks| :: FaultOps(ks)[i].key.root == root
    ensures Amounts(Access(root, addr, len, write), s, x, []) && Amounts(Access(root, addr, len, write), s, x, FaultOps(ks))
  {
    hide SysInv;
  }

  lemma HoldAmounts(s: Sys, x: Context, root: nat, addr: Address)
    requires SysInv(s)
    ensures Amounts(Hold(root, addr), s, x,
                    if PageAt(root, addr) in s.mem.flat then [Runs.Hold(s.mem.flat[PageAt(root, addr)].pfn)] else [])
  {
    hide SysInv;
  }

  lemma DropAmounts(s: Sys, x: Context, i: nat)
    requires SysInv(s)
    ensures Amounts(Drop(i), s, x, if i < |x.handles| then [Runs.Drop(x.handles[i])] else [])
  {
    hide SysInv;
  }

  lemma Rounded(length: nat)
    requires length < U64
    ensures length == 0 || (AlignUp(length) != 0 <==> length <= U64 - PAGE_SIZE)
  {
    if length > 0 {
      RoundLength(length);
    }
  }

  /** A page belongs to a process and lies in user space; the frame behind it is in use. */
  lemma PageOf(s: Sys, k: Key)
    requires SysInv(s)
    ensures k in s.mem.flat <==> Back(s.areas, k).Memory?
    ensures k in s.mem.flat ==> k.root in s.areas && k.vpn < USER_PAGES && Data(s.mem, s.mem.flat[k].pfn)
    ensures Inv(s.mem) && (k.root in s.areas ==> IsRoot(s.mem.dir, k.root))
  {
    if k in s.mem.flat {
      LowPages(s.mem, k);
      SharePositive(s.mem.flat, k);
    }
  }

  lemma InvOf(s: Sys)
    requires SysInv(s)
    ensures Inv(s.mem)
  {
  }

  lemma HandleOut(handles: seq<nat>, i: nat, held: multiset<nat>)
    requires i < |handles| && multiset(handles) <= held
    ensures handles[i] in held && multiset(handles[..i] + handles[i + 1..]) <= held - multiset{handles[i]}
  {
    assert handles == handles[..i] + [handles[i]] + handles[i + 1..];
  }

  lemma CreateIsStep(s: Sys, s': Sys, r: nat)
    requires SysInv(s) && SysInv(s') && Created(s, s', r)
    ensures Trace([s, s'], [Runs.Create(r)], s, s') && s'.areas == s.areas[r := []] && s'.mem.held == s.mem.held
  {
    hide SysInv, Trace;
    InvOf(s');
    OneStep(Runs.Create(r), s, s');
  }

  lemma MapIsStep(s: Sys, s': Sys, root: nat, v: Vad)
    requires SysInv(s) && SysInv(s') && root in s.areas && AnonListed(s, s', root, v) && v.start < v.end
    ensures Trace([s, s'], [Runs.MapAnon(root, v)], s, s') && s'.areas.Keys == s.areas.Keys && s'.mem.held == s.mem.held
    ensures forall r | r in s.areas && r != root :: s'.areas[r] == s.areas[r]
  {
    hide SysInv, Trace;
    InvOf(s');
    OneStep(Runs.MapAnon(root, v), s, s');
  }

  lemma UnmapIsStep(s: Sys, s': Sys, root: nat, start: Address, length: Address)
    requires SysInv(s) && SysInv(s') && root in s.areas && length > 0 && !Refused(s.areas[root], Unmap(root, start, length))
    requires Unmapped(s, s', root, AlignDown(start), Add(AlignDown(start), AlignUp(length)))
    ensures Trace([s, s'], [Runs.Unmap(root, AlignDown(start), Add(AlignDown(start), AlignUp(length)))], s, s')
    ensures s'.areas.Keys == s.areas.Keys && s'.mem.held == s.mem.held
    ensures forall r | r in s.areas && r != root :: s'.areas[r] == s.areas[r]
  {
    hide SysInv, Trace, Straddled, Unmapped;
    RoundStart(start);
    AddAligned(AlignDown(start), length);
    hide AlignDown, AlignUp, Add;
    InvOf(s');
    OneStep(Runs.Unmap(root, AlignDown(start), Add(AlignDown(start), AlignUp(length))), s, s');
    assert s'.areas == s.areas[root := RemoveRange(s.areas[root], AlignDown(start), Add(AlignDown(start), AlignUp(length)))]
           && s'.mem.held == s.mem.held by { UnmappedAreas(s, s', root, AlignDown(start), Add(AlignDown(start), AlignUp(length))); }
  }

  lemma UnmappedAreas(s: Sys, s': Sys, root: nat, lo: nat, hi: nat)
    requires root in s.areas && Unmapped(s, s', root, lo, hi)
    ensures s'.areas == s.areas[root := RemoveRange(s.areas[root], lo, hi)] && s'.mem.held == s.mem.held
  {
  }

  lemma CloneIsStep(s: Sys, s': Sys, src: nat, dst: nat)
    requires SysInv(s) && SysInv(s') && Cloned(s, s', src, dst)
    ensures Trace([s, s'], [Runs.Clone(src, dst)], s, s')
    ensures src in s.areas && s'.areas == s.areas[dst := s.areas[src]] && dst !in s.areas && s'.mem.held == s.mem.held
  {
    hide SysInv, Trace;
    InvOf(s');
    OneStep(Runs.Clone(src, dst), s, s');
  }

  lemma DestroyIsStep(s: Sys, s': Sys, root: nat)
    requires SysInv(s) && SysInv(s') && root in s.areas && Destroyed(s, s', root)
    ensures Trace([s, s'], [Runs.Destroy(root)], s, s') && s'.areas == s.areas - {root} && s'.mem.held == s.mem.held
  {
    hide SysInv, Trace;
    InvOf(s');
    OneStep(Runs.Destroy(root), s, s');
  }

  lemma FaultIsStep(s: Sys, s': Sys, k: Key)
    requires SysInv(s) && Inv(s'.mem) && k in s.mem.flat && k in s'.mem.flat && Faulted(s, s', k)
    ensures SysInv(s') && Trace([s, s'], [Runs.Fault(k)], s, s') && s'.areas == s.areas && s'.mem.held == s.mem.held
  {
    hide SysInv, Trace;
    OneStep(Runs.Fault(k), s, s');
  }

  lemma StoreSteps(s: Sys, mid: Sys, s': Sys, k: Key, i: nat, w: Word)
    requires SysInv(s) && (mid == s || FaultStep(s, mid, k)) && Inv(s'.mem) && Stored(mid, s', k, i, w)
    ensures s'.areas == s.areas && s'.mem.held == s.mem.held
    ensures if mid == s then Trace([s, s'], [Runs.Store(k, i, w)], s, s')
            else Trace([s, mid, s'], [Runs.Fault(k)] + [Runs.Store(k, i, w)], s, s')
  {
    hide SysInv, Trace, Faulted;
    if mid == s {
      OneStep(Runs.Store(k, i, w), s, s');
    } else {
      FaultIsStep(s, mid, k);
      OneStep(Runs.Store(k, i, w), mid, s');
      MoreSteps([s, mid], [Runs.Fault(k)], [mid, s'], [Runs.Store(k, i, w)], s, mid, s');
      assert [s, mid] + [mid, s'][1..] == [s, mid, s'];
    }
  }

  ghost function FaultOps(ks: seq<Key>): (ops: seq<Runs.Op>)
    ensures |ops| == |ks| && forall i | 0 <= i < |ks| :: ops[i] == Runs.Fault(ks[i])
  {
    seq(|ks|, i requires 0 <= i < |ks| => Runs.Fault(ks[i]))
  }

  lemma AccessSteps(ss: seq<Sys>, ks: seq<Key>, root: nat, s: Sys, s': Sys)
    requires SysInv(s) && Faults(ss, ks, root) && ss[0] == s && ss[|ks|] == s'
    ensures Trace(ss, FaultOps(ks), s, s')
    ensures forall i | 0 <= i < |ks| :: FaultOps(ks)[i].key.root == root
  {
    hide SysInv, Faulted;
    var ops := FaultOps(ks);
    forall i {:trigger ops[i]} | 0 <= i < |ops| && SysInv(ss[i])
      ensures Runs.Step(ops[i], ss[i], ss[i + 1])
    {
      assert ks[i].root == root;
    }
  }

  lemma HandleIsStep(op: Runs.Op, s: Sys, s': Sys)
    requires SysInv(s) && Inv(s'.mem) && DataKept(s.mem, s'.mem)
    requires s'.areas == s.areas && s'.mem.flat == s.mem.flat && s'.mem.dir == s.mem.dir
    requires match op
             case Hold(p) => s'.mem.held == s.mem.held + multiset{p}
             case Drop(p) => p in s.mem.held && s'.mem.held == s.mem.held - multiset{p}
             case _ => false
    ensures SysInv(s') && Trace([s, s'], [op], s, s')
  {
    hide SysInv, Trace, DataKept;
    assert Runs.OnlyHandles(s, s');
    OneStep(op, s, s');
  }
}
