/** From the boot loader's memory map to a machine on which nothing is mapped. */
module Boot {
  import opened Machine
  import opened PhysicalMemory
  import opened Memory
  import opened Paging
  import opened Sizes

  /** The size of a record of the frame database. */
  const RECORD: nat := 64

  function FrameEnd(r: Region): nat { (r.base + r.length + PAGE_SIZE - 1) / PAGE_SIZE }

  /** Where the highest usable region ends. */
  function MaxFrame(regions: seq<Region>): nat {
    if regions == [] then 0
    else
      var r, m := regions[|regions| - 1], MaxFrame(regions[..|regions| - 1]);
      if r.usable && FrameEnd(r) > m then FrameEnd(r) else m
  }

  /** `_pfndb_calc_max_pfn`: the least number that no frame of a usable region, whole or not, reaches beyond. */
  method MaxPfn(regions: seq<Region>) returns (m: nat)
    ensures m == MaxFrame(regions)
    ensures forall i | 0 <= i < |regions| && regions[i].usable :: FrameEnd(regions[i]) <= m
    ensures m == 0 || exists i :: 0 <= i < |regions| && regions[i].usable && FrameEnd(regions[i]) == m
  {
    m := 0;
    for i := 0 to |regions|
      invariant forall j | 0 <= j < i && regions[j].usable :: FrameEnd(regions[j]) <= m
      invariant m == MaxFrame(regions[..i])
      invariant m == 0 || exists j :: 0 <= j < i && regions[j].usable && FrameEnd(regions[j]) == m
    {
      assert regions[..i + 1][..i] == regions[..i];
      if regions[i].usable && FrameEnd(regions[i]) > m {
        m := FrameEnd(regions[i]);
      }
    }
    assert regions[..|regions|] == regions;
  }

  /** Bytes of the frame database, in whole pages. */
  function DatabaseSize(m: nat): nat { ((m + 1) * RECORD + PAGE_SIZE - 1) / PAGE_SIZE * PAGE_SIZE }

  predicate Roomy(r: Region, size: nat) { r.usable && r.length >= size }

  function Shrunk(r: Region, size: nat): Region
    requires r.length >= size
  {
    Region(r.base + size, r.length - size, r.usable)
  }

  /** `_pfndb_reserve`: the first usable region that is large enough gives up its beginning. */
  method Reserve(regions: seq<Region>, size: nat) returns (s: Status, at: nat, left: seq<Region>)
    ensures s == Panic(NoBootRegion) <==> forall i | 0 <= i < |regions| :: !Roomy(regions[i], size)
    ensures s.Ok? || s == Panic(NoBootRegion)
    ensures s.Ok? ==> exists i :: 0 <= i < |regions| && Roomy(regions[i], size) && at == regions[i].base &&
                                  left == regions[i := Shrunk(regions[i], size)] && forall j | 0 <= j < i :: !Roomy(regions[j], size)
  {
    at, left := 0, regions;
    for i := 0 to |regions|
      invariant forall j | 0 <= j < i :: !Roomy(regions[j], size)
    {
      if regions[i].usable && regions[i].length >= size {
        assert Roomy(regions[i], size);
        return Ok, regions[i].base, regions[i := Shrunk(regions[i], size)];
      }
    }
    s := Panic(NoBootRegion);
  }

  /** What the boot protocol promises: usable regions are made of whole frames and do not meet. */
  ghost predicate MapOK(regions: seq<Region>) {
    && (forall i | 0 <= i < |regions| && regions[i].usable :: regions[i].base % PAGE_SIZE == 0 && regions[i].length % PAGE_SIZE == 0)
    && (forall i, j | 0 <= i < |regions| && 0 <= j < |regions| && i != j && regions[i].usable && regions[j].usable ::
          regions[i].base + regions[i].length <= regions[j].base || regions[j].base + regions[j].length <= regions[i].base)
  }

  /** The frames of the database itself are no longer usable. */
  lemma DatabaseIsTaken(regions: seq<Region>, i: nat, size: nat, p: nat)
    requires MapOK(regions) && i < |regions| && Roomy(regions[i], size) && size % PAGE_SIZE == 0
    ensures Usable(regions[i := Shrunk(regions[i], size)], p) <==>
              Usable(regions, p) && !(regions[i].base <= p * PAGE_SIZE < regions[i].base + size)
  {
    var left := regions[i := Shrunk(regions[i], size)];
    forall j | 0 <= j < |regions| && j != i
      ensures left[j] == regions[j]
      ensures InRegion(regions[j], p) ==> !(regions[i].base <= p * PAGE_SIZE < regions[i].base + size)
    {
      assert regions[j].usable ==> regions[j].base % PAGE_SIZE == 0 && regions[j].length % PAGE_SIZE == 0;
    }
    assert InRegion(left[i], p) <==> InRegion(regions[i], p) && !(regions[i].base <= p * PAGE_SIZE < regions[i].base + size);
    if Usable(regions, p) {
      var j :| 0 <= j < |regions| && InRegion(regions[j], p);
      assert j != i ==> InRegion(left[j], p);
    }
    if Usable(left, p) {
      var j :| 0 <= j < |left| && InRegion(left[j], p);
      assert j != i ==> InRegion(regions[j], p);
    }
  }

  /** `pfndb_init` and `pmm_init`: the kernel stops exactly if no region can hold the database. Otherwise nothing is
      mapped, the invariant of the paging layer holds, and the frames to be had are exactly those of usable regions,
      except frame 0 and the frames of the database. */
  method Start(regions: seq<Region>, frames: nat -> Frame, junk: nat -> nat) returns (s: Status, mmu: Mmu?, m: nat, at: nat)
    requires forall p :: |frames(p)| == WORDS
    ensures m == MaxFrame(regions)
    ensures s == Panic(NoBootRegion) <==> forall i | 0 <= i < |regions| :: !Roomy(regions[i], DatabaseSize(m))
    ensures s.Ok? || s == Panic(NoBootRegion)
    ensures s.Ok? ==> mmu != null && fresh(mmu) && fresh(mmu.pmm) && Inv(mmu.View()) && mmu.dir == map[] && mmu.flat == map[] && mmu.held == multiset{}
    ensures s.Ok? && MapOK(regions) ==> forall p: nat ::
              p in mmu.pmm.fl <==> 0 < p && Usable(regions, p) && !(at <= p * PAGE_SIZE < at + DatabaseSize(m))
    ensures s.Ok? && MapOK(regions) ==> at % PAGE_SIZE == 0 && forall f, r: nat | f in mmu.pmm.fl && r <= m :: !RecordIn(at, r, f)
  {
    hide Inv, DatabaseSize, RecordIn;
    mmu, at := null, 0;
    m := MaxPfn(regions);
    var left;
    s, at, left := Reserve(regions, DatabaseSize(m));
    if s.Panic? {
      return;
    }
    var ram := seq(m + 1, p requires 0 <= p < m + 1 => frames(p));
    var pmm := new Pmm(left, m, ram, junk);
    ghost var pages := pmm.pages;
    pmm.Init();
    mmu := new Mmu(pmm);
    if MapOK(regions) {
      FreeAtStart(regions, left, m, at, pages, pmm.fl);
    }
  }

  lemma FreeAtStart(regions: seq<Region>, left: seq<Region>, m: nat, at: nat, pages: seq<Page>, fl: seq<nat>)
    requires MapOK(regions) && forall i | 0 <= i < |regions| && regions[i].usable :: FrameEnd(regions[i]) <= m
    requires exists i :: 0 <= i < |regions| && Roomy(regions[i], DatabaseSize(m)) && at == regions[i].base &&
                         left == regions[i := Shrunk(regions[i], DatabaseSize(m))]
    requires |pages| == m + 1 && forall p | 0 <= p < |pages| :: pages[p].flags == if p > 0 && Usable(left, p) then FREE else RESERVED
    requires (forall p | 0 <= p < |pages| :: p in fl <==> pages[p].flags.free) && (forall p | p in fl :: p < |pages|)
    ensures at % PAGE_SIZE == 0 && forall f, r: nat | f in fl && r <= m :: !RecordIn(at, r, f)
    ensures forall p: nat :: p in fl <==> 0 < p && Usable(regions, p) && !(at <= p * PAGE_SIZE < at + DatabaseSize(m))
  {
    var i :| 0 <= i < |regions| && Roomy(regions[i], DatabaseSize(m)) && at == regions[i].base &&
             left == regions[i := Shrunk(regions[i], DatabaseSize(m))];
    forall p: nat
      ensures p in fl <==> 0 < p && Usable(regions, p) && !(at <= p * PAGE_SIZE < at + DatabaseSize(m))
    {
      DatabaseIsTaken(regions, i, DatabaseSize(m), p);
      UsableIsLow(regions, m, p);
    }
    forall f, r: nat | f in fl && r <= m
      ensures !RecordIn(at, r, f)
    {
      RecordsAreReserved(m, at, r, f);
    }
  }

  /** Some byte of record `r` of a database at `at` is in frame `f`. */
  predicate RecordIn(at: nat, r: nat, f: nat) {
    at + 64 * r < (f + 1) * PAGE_SIZE && f * PAGE_SIZE < at + 64 * r + 64
  }

  /** The frames reserved hold the record of every frame up to the last. */
  lemma RecordsAreReserved(m: nat, at: nat, r: nat, f: nat)
    requires at % PAGE_SIZE == 0 && r <= m
    ensures RecordIn(at, r, f) ==> at <= f * PAGE_SIZE < at + DatabaseSize(m)
  {
  }

  lemma UsableIsLow(regions: seq<Region>, m: nat, p: nat)
    requires forall i | 0 <= i < |regions| && regions[i].usable :: FrameEnd(regions[i]) <= m
    ensures Usable(regions, p) ==> p < m
  {
    if Usable(regions, p) {
      var i :| 0 <= i < |regions| && InRegion(regions[i], p);
      assert FrameEnd(regions[i]) <= m;
    }
  }
}
