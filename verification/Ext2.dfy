/** ext2 as the kernel runs it: bitmap allocation and the lookup and growth of a file's block map. */
module Ext2 {
  import opened Bytes
  import opened Ext2Disk
  import opened Ext2Map

  datatype Errno = ENOSYS | EINVAL

  datatype Result = Ok(value: nat) | Err(error: Errno)

  /** The part of an in-core inode that the block map and regular files use. */
  datatype Inode = Inode(block: seq<nat>, size: nat)

  function Tops(inodes: map<nat, Inode>): map<nat, seq<nat>> {
    map ino | ino in inodes :: inodes[ino].block
  }

  predicate SameInodes(inodes: map<nat, Inode>, inodes': map<nat, Inode>) {
    inodes'.Keys == inodes.Keys && forall ino | ino in inodes :: inodes'[ino].size == inodes[ino].size
  }

  function Sum(s: seq<nat>): nat {
    if s == [] then 0 else s[0] + Sum(s[1..])
  }

  lemma {:induction false} SumDrops(s: seq<nat>, k: nat)
    requires k < |s| && s[k] > 0
    ensures Sum(s) > 0 && Sum(s[k := s[k] - 1]) == Sum(s) - 1
  {
    var t := s[k := s[k] - 1];
    if k == 0 {
      assert t[1..] == s[1..];
    } else {
      SumDrops(s[1..], k - 1);
      assert t[1..] == s[1..][k - 1 := s[k] - 1];
    }
  }

  /** In group `k` set bits plus the free count make up the whole group. */
  ghost predicate GroupCounted(g: Geo, disk: seq<Block>, free: seq<nat>, k: nat)
    requires GeoOK(g) && DiskOK(g, disk) && k < |g.bitmaps| == |free|
  {
    free[k] + SetBits(disk[g.bitmaps[k]], g.bpg) == g.bpg
  }

  ghost predicate Counted(g: Geo, disk: seq<Block>, free: seq<nat>, total: nat)
    requires GeoOK(g) && DiskOK(g, disk)
  {
    && |free| == |g.bitmaps| && total == Sum(free)
    && forall k: nat {:trigger GroupCounted(g, disk, free, k)} | k < |free| :: GroupCounted(g, disk, free, k)
  }

  /** Every block of the groups below `n` is in use. */
  ghost predicate FullBelow(g: Geo, disk: seq<Block>, n: nat)
    requires GeoOK(g) && DiskOK(g, disk) && n <= |g.bitmaps|
  {
    forall k, bit | 0 <= k < n && 0 <= bit < g.bpg :: Bit(disk[g.bitmaps[k]], bit)
  }

  lemma {:induction false} FullBits(b: Block, n: nat, k: nat)
    requires n <= 8 * |b| && SetBits(b, n) == n && k < n
    ensures Bit(b, k)
  {
    if k < n - 1 {
      FullBits(b, n - 1, k);
    }
  }

  lemma FullMeansMarked(g: Geo, disk: seq<Block>)
    requires GeoOK(g) && DiskOK(g, disk) && FullBelow(g, disk, |g.bitmaps|)
    ensures forall b | g.first <= b < g.count :: Marked(g, disk, b)
  {
    forall b | g.first <= b < g.count
      ensures Marked(g, disk, b)
    {
      GroupInRange(g, b);
    }
  }

  lemma BlockOfBit(g: Geo, group: nat, bit: nat)
    requires GeoOK(g) && group < |g.bitmaps| && bit < g.bpg
    ensures var b := group * g.bpg + bit + g.first;
            g.first <= b < g.first + |g.bitmaps| * g.bpg && g.GroupOf(b) == group && g.BitIn(b) == bit
  {
    MulLe(group + 1, |g.bitmaps|, g.bpg);
    DivMod(group, bit, g.bpg);
  }

  /** Only the counts of the group allocated from move, and by one. */
  lemma CountedAfterAlloc(g: Geo, fs: Fs, fs': Fs, b: nat, free: seq<nat>, total: nat)
    requires Consistent(g, fs) && Counted(g, fs.disk, free, total) && Allocated(g, fs, fs', b) && b !in g.meta
    requires DiskOK(g, fs'.disk)
    requires g.GroupOf(b) < |free| && free[g.GroupOf(b)] > 0
    ensures total > 0 && Counted(g, fs'.disk, free[g.GroupOf(b) := free[g.GroupOf(b)] - 1], total - 1)
  {
    GroupInRange(g, b);
    var m := g.GroupOf(b);
    var free' := free[m := free[m] - 1];
    SumDrops(free, m);
    forall k: nat | k < |free'|
      ensures GroupCounted(g, fs'.disk, free', k)
    {
      assert GroupCounted(g, fs.disk, free, k);
      assert g.bitmaps[k] in g.meta;
      SetBitsGrows(fs.disk[g.bitmaps[m]], g.BitIn(b), g.bpg);
    }
  }

  /** Setting the bit, adjusting the counts and zeroing the block. */
  lemma TakeBlock(g: Geo, fs: Fs, group: nat, bit: nat, free: seq<nat>, total: nat)
    requires Consistent(g, fs) && Counted(g, fs.disk, free, total) && group < |free| && free[group] > 0
    requires bit < g.bpg && !Bit(fs.disk[g.bitmaps[group]], bit)
    ensures total > 0 && g.first <= group * g.bpg + bit + g.first < g.count
    ensures var b := group * g.bpg + bit + g.first;
            var bm := g.bitmaps[group];
            var fs' := fs.(disk := fs.disk[bm := SetBit(fs.disk[bm], bit)][b := Zeros(g.bs)]);
            && Allocated(g, fs, fs', b) && Consistent(g, fs') && Counted(g, fs'.disk, free[group := free[group] - 1], total - 1)
  {
    var b := group * g.bpg + bit + g.first;
    BlockOfBit(g, group, bit);
    assert !Marked(g, fs.disk, b);
    var bm := g.bitmaps[group];
    var fs' := fs.(disk := fs.disk[bm := SetBit(fs.disk[bm], bit)][b := Zeros(g.bs)]);
    AllocatedOK(g, fs, fs', b);
    CountedAfterAlloc(g, fs, fs', b, free, total);
  }

  /** Blocks that hold no bitmap do not matter to the counts. */
  lemma CountedElsewhere(g: Geo, disk: seq<Block>, disk': seq<Block>, free: seq<nat>, total: nat)
    requires GeoOK(g) && DiskOK(g, disk) && DiskOK(g, disk') && Counted(g, disk, free, total)
    requires forall b | 0 <= b < |disk| && b in g.meta :: disk'[b] == disk[b]
    ensures Counted(g, disk', free, total)
  {
    forall k: nat | k < |free|
      ensures GroupCounted(g, disk', free, k)
    {
      assert GroupCounted(g, disk, free, k) && g.bitmaps[k] in g.meta;
    }
  }

  lemma Spans(g: Geo)
    ensures Cover(g, 1) == g.Ptrs() && Cover(g, 2) == g.Ptrs() * g.Ptrs()
    ensures Cover(g, 3) == g.Ptrs() * g.Ptrs() * g.Ptrs()
  {
    var p := g.Ptrs();
    assert Span(p, 1) == 1 && Span(p, 2) == p * Span(p, 1) && Span(p, 3) == p * Span(p, 2);
  }

  ghost predicate NoneFree(g: Geo, disk: seq<Block>)
    requires GeoOK(g) && DiskOK(g, disk)
  {
    forall b | g.first <= b < g.count :: Marked(g, disk, b)
  }

  /** Of the blocks in use before, only `q` may have changed. */
  ghost predicate Elsewhere(fs: Fs, fs': Fs, q: nat) {
    forall c | c in fs.own && c < |fs.disk| && c != q :: c < |fs'.disk| && fs'.disk[c] == fs.disk[c]
  }

  /** Storing the number of a fresh block in an empty entry of a pointer block. */
  ghost function EntrySet(fs: Fs, q: nat, j: nat, b: nat, level: nat): Fs
    requires q < |fs.disk| && 4 * j + 4 <= |fs.disk[q]| && b < U32
  {
    Fs(fs.disk[q := SetPtr(fs.disk[q], j, b)], fs.top, fs.own[b := Owner(Ind(q, j), level)])
  }

  lemma EntrySetIsLinked(g: Geo, fs: Fs, fs1: Fs, q: nat, j: nat, b: nat)
    requires Consistent(g, fs) && Allocated(g, fs, fs1, b) && Consistent(g, fs1) && Fresh(g, fs1, b)
    requires Live(g, fs, Ind(q, j)) && Live(g, fs1, Ind(q, j))
    ensures q < |fs1.disk| && fs1.disk[q] == fs.disk[q] && 4 * j + 4 <= |fs.disk[q]| && b < U32 && q !in g.meta
    ensures b != 0 && b !in fs.own
    ensures EntrySet(fs1, q, j, b, SlotLevel(fs, Ind(q, j))) == Linked(g, fs1, Ind(q, j), b)
  {
    AllocatedOK(g, fs, fs1, b);
    assert OwnOK(g, fs, q);
  }

  lemma EntrySetOK(g: Geo, fs: Fs, fs1: Fs, q: nat, j: nat, b: nat, free: seq<nat>, total: nat)
    requires Consistent(g, fs) && Allocated(g, fs, fs1, b) && Consistent(g, fs1) && Counted(g, fs1.disk, free, total)
    requires Live(g, fs, Ind(q, j)) && Value(g, fs, Ind(q, j)) == 0
    ensures q < |fs1.disk| && fs1.disk[q] == fs.disk[q] && 4 * j + 4 <= |fs.disk[q]| && b < U32 && b != 0 && b !in fs.own
    ensures var fs2 := EntrySet(fs1, q, j, b, SlotLevel(fs, Ind(q, j)));
            && Consistent(g, fs2) && Counted(g, fs2.disk, free, total) && Value(g, fs2, Ind(q, j)) == b
            && Grown(g, fs, fs2, Filled(fs, Ind(q, j))) && Elsewhere(fs, fs2, q)
  {
    hide Value, Grown, Filled, SetPtr, Allocated, Counted, Marked;
    GrowOK(g, fs, fs1, Ind(q, j), b);
    EntrySetIsLinked(g, fs, fs1, q, j, b);
    CountedElsewhere(g, fs1.disk, EntrySet(fs1, q, j, b, SlotLevel(fs, Ind(q, j))).disk, free, total);
  }

  /** The same for one of an inode's own slots. */
  ghost function TopSet(fs: Fs, ino: nat, j: nat, b: nat): Fs
    requires ino in fs.top && j < |fs.top[ino]|
  {
    var slots: seq<nat> := fs.top[ino][j := b];
    Fs(fs.disk, fs.top[ino := slots], fs.own[b := Owner(Top(ino, j), TopLevel(j))])
  }

  lemma TopSetOK(g: Geo, fs: Fs, fs1: Fs, ino: nat, j: nat, b: nat)
    requires Consistent(g, fs) && Allocated(g, fs, fs1, b) && Live(g, fs, Top(ino, j)) && Value(g, fs, Top(ino, j)) == 0
    ensures ino in fs1.top && |fs1.top[ino]| == N_BLOCKS && b != 0 && b !in fs.own
    ensures var fs2 := TopSet(fs1, ino, j, b);
            && Consistent(g, fs2) && Value(g, fs2, Top(ino, j)) == b
            && Grown(g, fs, fs2, Filled(fs, Top(ino, j))) && Elsewhere(fs, fs2, 0)
  {
    hide Value, Grown, Filled, Marked;
    AllocatedOK(g, fs, fs1, b);
    GrowOK(g, fs, fs1, Top(ino, j), b);
    assert TopSet(fs1, ino, j, b) == Linked(g, fs1, Top(ino, j), b);
  }

  /** Blocks no way down from `root` leads to: with a block they hold the block that names it. */
  ghost predicate Apart(fs: Fs, base: set<nat>, root: nat) {
    && root !in base && base <= fs.own.Keys
    && forall b | b in base :: fs.own[b].slot.Ind? ==> fs.own[b].slot.block in base
  }

  lemma ApartBelow(g: Geo, fs: Fs, base: set<nat>, root: nat, j: nat)
    requires Consistent(g, fs) && Apart(fs, base, root) && Live(g, fs, Ind(root, j)) && Value(g, fs, Ind(root, j)) != 0
    ensures Apart(fs, base, Value(g, fs, Ind(root, j)))
  {
    assert SlotOK(g, fs, Ind(root, j));
  }

  lemma ApartGrown(g: Geo, fs: Fs, fs': Fs, p: Place, base: set<nat>, root: nat)
    requires Consistent(g, fs) && Consistent(g, fs') && Grown(g, fs, fs', p) && Apart(fs, base, root)
    ensures Apart(fs', base, root)
  {
  }

  lemma GrownWeaken(g: Geo, fs: Fs, fs': Fs, p: Place)
    requires Consistent(g, fs) && Consistent(g, fs') && Grown(g, fs, fs', Hole)
    ensures Grown(g, fs, fs', p)
  {
    forall ino, i: nat | ino in fs.top && i < MaxBlocks(g)
      ensures GrownAt(g, fs, fs', p, ino, i)
    {
      assert GrownAt(g, fs, fs', Hole, ino, i);
    }
  }

  /** The outcome of making sure that index `idx` below pointer block `root` has a disk block. */
  ghost predicate Ensured(g: Geo, fs: Fs, fs': Fs, root: nat, depth: nat, idx: nat, r: Result, base: set<nat>)
    requires Consistent(g, fs) && Consistent(g, fs')
  {
    && SameBase(fs, fs', base)
    && (r.Err? ==> Grown(g, fs, fs', Hole))
    && (r.Ok? ==> Walk(g, fs', root, depth, idx) == r.value != 0 && Grown(g, fs, fs', Loc(g, fs', root, depth, idx)))
  }

  ghost predicate SameBase(fs: Fs, fs': Fs, base: set<nat>) {
    forall c | c in base && c < |fs.disk| :: c < |fs'.disk| && fs'.disk[c] == fs.disk[c]
  }

  lemma EnsuredAfter(g: Geo, fs: Fs, fs1: Fs, fs2: Fs, root: nat, depth: nat, idx: nat, r: Result, base: set<nat>)
    requires Consistent(g, fs) && Consistent(g, fs1) && Consistent(g, fs2)
    requires Grown(g, fs, fs1, Hole) && SameBase(fs, fs1, base) && Ensured(g, fs1, fs2, root, depth, idx, r, base)
    ensures Ensured(g, fs, fs2, root, depth, idx, r, base)
  {
    hide Consistent, Grown, Loc, Walk;
    GrownTrans(g, fs, fs1, fs2, if r.Err? then Hole else Loc(g, fs2, root, depth, idx));
  }

  lemma FailedSame(g: Geo, fs: Fs, root: nat, depth: nat, idx: nat, base: set<nat>)
    requires Consistent(g, fs)
    ensures Ensured(g, fs, fs, root, depth, idx, Err(ENOSYS), base)
  {
    GrownSame(g, fs);
  }

  /** What a slot names, it goes on naming. */
  lemma SlotKept(g: Geo, fs: Fs, fs': Fs, p: Place, s: Slot)
    requires Consistent(g, fs) && Consistent(g, fs') && Grown(g, fs, fs', p) && Live(g, fs, s) && Value(g, fs, s) != 0
    ensures Value(g, fs', s) == Value(g, fs, s)
  {
    assert SlotOK(g, fs, s);
    assert OwnOK(g, fs', Value(g, fs, s));
  }

  /** An outcome one step down is the outcome for the whole index. */
  lemma EnsuredDown(g: Geo, fs: Fs, fs': Fs, root: nat, depth: nat, idx: nat, r: Result, base: set<nat>)
    requires Consistent(g, fs) && Consistent(g, fs') && depth > 1 && Rooted(fs, root, depth) && root != 0
    requires idx < Cover(g, depth)
    requires Value(g, fs, Ind(root, Pick(g, depth, idx))) != 0
    requires Ensured(g, fs, fs', Value(g, fs, Ind(root, Pick(g, depth, idx))), depth - 1, Left(g, depth, idx), r, base)
    ensures Ensured(g, fs, fs', root, depth, idx, r, base)
  {
    hide Consistent, Grown, Cover, Pick, Left, Value;
    if r.Ok? {
      var s := Ind(root, Pick(g, depth, idx));
      var p := Loc(g, fs', Value(g, fs, s), depth - 1, Left(g, depth, idx));
      StepDown(g, fs, root, depth, idx);
      SlotKept(g, fs, fs', p, s);
      RootedKept(g, fs, fs', p, root, depth);
      StepDown(g, fs', root, depth, idx);
    }
  }

  lemma RootedKept(g: Geo, fs: Fs, fs': Fs, p: Place, q: nat, depth: nat)
    requires Consistent(g, fs) && Consistent(g, fs') && Grown(g, fs, fs', p) && Rooted(fs, q, depth)
    ensures Rooted(fs', q, depth)
  {
  }

  /** What one allocation into an entry of `root` means for the blocks apart from it. */
  lemma EntryOutcome(g: Geo, fs: Fs, fs': Fs, root: nat, j: nat, depth: nat, base: set<nat>)
    requires Consistent(g, fs) && Consistent(g, fs') && Rooted(fs, root, depth) && root != 0 && depth >= 1
    requires Live(g, fs, Ind(root, j)) && Apart(fs, base, root)
    requires Grown(g, fs, fs', Filled(fs, Ind(root, j))) && Elsewhere(fs, fs', root)
    ensures SameBase(fs, fs', base) && Apart(fs', base, root) && Rooted(fs', root, depth) && Live(g, fs', Ind(root, j))
    ensures Filled(fs, Ind(root, j)) == if depth == 1 then At(Ind(root, j)) else Hole
  {
    hide Consistent, GrownAt;
    ApartGrown(g, fs, fs', Filled(fs, Ind(root, j)), base, root);
  }

  lemma HomeRooted(g: Geo, fs: Fs, home: Slot)
    requires Consistent(g, fs) && Live(g, fs, home)
    ensures Rooted(fs, Value(g, fs, home), SlotLevel(fs, home))
  {
    assert SlotOK(g, fs, home);
    assert Value(g, fs, home) in fs.own ==> OwnOK(g, fs, Value(g, fs, home));
  }

  /** What allocating the root means for the blocks apart from it. */
  lemma RootOutcome(g: Geo, fs: Fs, fs': Fs, home: Slot, base: set<nat>)
    requires Consistent(g, fs) && Consistent(g, fs') && Live(g, fs, home) && home.Top? && SlotLevel(fs, home) >= 1
    requires Apart(fs, base, 0) && Grown(g, fs, fs', Filled(fs, home)) && Elsewhere(fs, fs', 0)
    requires Value(g, fs', home) !in fs.own
    ensures Grown(g, fs, fs', Hole) && SameBase(fs, fs', base) && Apart(fs', base, Value(g, fs', home)) && Live(g, fs', home)
  {
    hide Consistent, GrownAt, Value;
    ApartGrown(g, fs, fs', Hole, base, 0);
  }

  /** Nothing a reader sees has changed, and no index of any file but `(ino, i)` has another disk block. */
  ghost predicate KeptAt(g: Geo, fs: Fs, fs': Fs, ino: nat, i: nat, ino': nat, i': nat) {
    && Content(g, fs', ino', i') == Content(g, fs, ino', i')
    && ((ino', i') != (ino, i) ==> FileBlock(g, fs', ino', i') == FileBlock(g, fs, ino', i'))
  }

  ghost predicate MapsKept(g: Geo, fs: Fs, fs': Fs, ino: nat, i: nat) {
    forall ino', i': nat {:trigger KeptAt(g, fs, fs', ino, i, ino', i')} | ino' in fs.top && i' < MaxBlocks(g) ::
      KeptAt(g, fs, fs', ino, i, ino', i')
  }

  /** The new block went to `(ino, i)` and nowhere else. */
  lemma GrownIsKept(g: Geo, fs: Fs, fs': Fs, ino: nat, i: nat)
    requires Consistent(g, fs) && Consistent(g, fs') && ino in fs'.top && i < MaxBlocks(g)
    requires FileBlock(g, fs', ino, i) != 0 && Grown(g, fs, fs', FileLoc(g, fs', ino, i))
    ensures MapsKept(g, fs, fs', ino, i)
  {
    hide Consistent, Content, FileBlock, FileLoc, MaxBlocks;
    FileBlockOwned(g, fs', ino, i);
    forall ino', i': nat | ino' in fs.top && i' < MaxBlocks(g)
      ensures KeptAt(g, fs, fs', ino, i, ino', i')
    {
      assert GrownAt(g, fs, fs', FileLoc(g, fs', ino, i), ino', i');
      if FileLoc(g, fs', ino', i') == FileLoc(g, fs', ino, i) {
        FileLocInjective(g, fs', ino, i, ino', i');
      }
    }
  }

  lemma UnchangedIsKept(g: Geo, fs: Fs, fs': Fs, ino: nat, i: nat)
    requires Consistent(g, fs) && Consistent(g, fs') && Grown(g, fs, fs', Hole)
    ensures MapsKept(g, fs, fs', ino, i)
  {
    hide Consistent, Content, FileBlock, FileLoc, MaxBlocks;
    forall ino', i': nat | ino' in fs.top && i' < MaxBlocks(g)
      ensures KeptAt(g, fs, fs', ino, i, ino', i')
    {
      assert GrownAt(g, fs, fs', Hole, ino', i');
    }
  }

  /** A failed attempt whose root was never stored: what it allocated is lost, and no file has changed. */
  lemma AbandonedIsKept(g: Geo, fs: Fs, disk': seq<Block>, ino: nat, i: nat)
    requires Consistent(g, fs) && Calm(g, fs, disk') && SameBase(fs, fs.(disk := disk'), fs.own.Keys)
    ensures Consistent(g, fs.(disk := disk')) && MapsKept(g, fs, fs.(disk := disk'), ino, i)
  {
    hide Consistent, FileBlock, MaxBlocks, Calm;
    CalmOK(g, fs, disk');
    forall ino', i': nat | ino' in fs.top && i' < MaxBlocks(g)
      ensures KeptAt(g, fs, fs.(disk := disk'), ino, i, ino', i')
    {
      FileCalm(g, fs, disk', ino', i');
      if FileBlock(g, fs, ino', i') != 0 {
        FileBlockOwned(g, fs, ino', i');
      }
    }
  }

  lemma AbandonedIsCalm(g: Geo, fs: Fs, fs': Fs)
    requires Consistent(g, fs) && Consistent(g, fs') && Grown(g, fs, fs', Hole) && SameBase(fs, fs', fs.own.Keys)
    ensures Calm(g, fs, fs'.disk)
  {
  }

  lemma AllApart(g: Geo, fs: Fs)
    requires Consistent(g, fs)
    ensures Apart(fs, fs.own.Keys, 0) && Apart(fs, {}, 0)
  {
    assert 0 in fs.own ==> OwnOK(g, fs, 0);
    forall b | b in fs.own && fs.own[b].slot.Ind?
      ensures fs.own[b].slot.block in fs.own
    {
      assert OwnOK(g, fs, b);
    }
  }

  /** A block found through the inode's slot `j` is the block of index `i`. */
  lemma ThroughSlot(g: Geo, fs: Fs, ino: nat, j: nat, idx: nat, i: nat)
    requires Region(g, i) == (j, idx) && j >= 12
    ensures FileLoc(g, fs, ino, i) == Loc(g, fs, Value(g, fs, Top(ino, j)), j - 11, idx)
    ensures FileBlock(g, fs, ino, i) == Walk(g, fs, Value(g, fs, Top(ino, j)), j - 11, idx)
  {
  }

  class Volume {
    const g: Geo
    var disk: seq<Block>
    /** Free block counts, per group and in the superblock. */
    var free: seq<nat>
    var sbFree: nat
    var inodes: map<nat, Inode>
    /** Which slot names each block in use, and the inodes' slots including a root that is not yet stored. */
    ghost var own: map<nat, Owner>
    ghost var top: map<nat, seq<nat>>

    ghost function View(): Fs
      reads this
    {
      Fs(disk, top, own)
    }

    /** Holds at every step of growing a map. */
    ghost predicate Ready()
      reads this
    {
      Consistent(g, View()) && Counted(g, disk, free, sbFree)
    }

    ghost predicate Valid()
      reads this
    {
      Ready() && top == Tops(inodes)
    }

    /** `mount` of a consistent image. */
    constructor (geo: Geo, disk: seq<Block>, free: seq<nat>, sbFree: nat, inodes: map<nat, Inode>, ghost own: map<nat, Owner>)
      requires Consistent(geo, Fs(disk, Tops(inodes), own)) && Counted(geo, disk, free, sbFree)
      ensures Valid() && g == geo && this.disk == disk && this.inodes == inodes && this.own == own
    {
      g := geo;
      this.disk, this.free, this.sbFree, this.inodes := disk, free, sbFree, inodes;
      this.own, this.top := own, Tops(inodes);
    }

    /** `bitmap_alloc`: the lowest clear bit. */
    method BitmapAlloc(bitmap: nat, maxBits: nat) returns (r: Result)
      requires bitmap < |disk| && maxBits <= 8 * |disk[bitmap]|
      modifies `disk
      ensures r.Ok? ==> r.value < maxBits && !Bit(old(disk[bitmap]), r.value)
      ensures r.Ok? ==> forall k | 0 <= k < r.value :: Bit(old(disk[bitmap]), k)
      ensures r.Ok? ==> disk == old(disk)[bitmap := SetBit(old(disk[bitmap]), r.value)]
      ensures r.Err? ==> disk == old(disk) && forall k | 0 <= k < maxBits :: Bit(disk[bitmap], k)
    {
      var bits := disk[bitmap];
      for bit := 0 to maxBits
        invariant disk == old(disk)
        invariant forall k | 0 <= k < bit :: Bit(bits, k)
      {
        if Bit(bits, bit) { continue; }
        bits := SetBit(bits, bit);
        disk := disk[bitmap := bits];
        return Ok(bit);
      }
      return Err(ENOSYS);
    }

    /** `alloc_block`: takes and zeroes a free block; fails exactly when none is left. */
    method AllocBlock() returns (r: Result)
      requires Ready()
      modifies `disk, `free, `sbFree
      ensures r.Ok? ==> Allocated(g, old(View()), View(), r.value) && Ready()
      ensures r.Err? ==> r == Err(ENOSYS) && Ready() && disk == old(disk) && free == old(free) && sbFree == old(sbFree)
      ensures r.Err? <==> old(NoneFree(g, disk))
    {
      hide Consistent, Counted, Marked, Allocated, SetBit, Sum;
      ReadyGeo();
      for group := 0 to |free|
        invariant disk == old(disk) && free == old(free) && sbFree == old(sbFree)
        invariant FullBelow(g, disk, group)
      {
        if free[group] == 0 {
          GroupFull(group);
          continue;
        }
        var bit := BitmapAlloc(g.bitmaps[group], g.bpg);
        if bit.Err? { continue; }
        var block := group * g.bpg + bit.value + g.first;
        TakeBlock(g, old(View()), group, bit.value, free, sbFree);
        if block >= g.count { return Err(EINVAL); }
        free := free[group := free[group] - 1];
        sbFree := sbFree - 1;
        disk := disk[block := Zeros(g.bs)];
        return Ok(block);
      }
      FullMeansMarked(g, disk);
      return Err(ENOSYS);
    }

    lemma ReadyGeo()
      requires Ready()
      ensures GeoOK(g) && DiskOK(g, disk) && |free| == |g.bitmaps| && g.Ptrs() > 0
    {
    }

    lemma GroupFull(group: nat)
      requires Ready() && group < |free| && free[group] == 0
      ensures forall bit | 0 <= bit < g.bpg :: Bit(disk[g.bitmaps[group]], bit)
    {
      assert GroupCounted(g, disk, free, group);
      forall bit | 0 <= bit < g.bpg
        ensures Bit(disk[g.bitmaps[group]], bit)
      {
        FullBits(disk[g.bitmaps[group]], g.bpg, bit);
      }
    }
  
    /** `ext2_index_span` */
    method IndexSpan(depth: nat) returns (span: nat)
      ensures span == Span(g.Ptrs(), depth)
    {
      span := 1;
      var d := depth;
      while d > 1
        invariant 0 <= d <= depth && span * Span(g.Ptrs(), d) == Span(g.Ptrs(), depth)
      {
        Assoc(span, g.Ptrs(), Span(g.Ptrs(), d - 1));
        span := span * g.Ptrs();
        d := d - 1;
      }
    }

    /** The arithmetic both walks begin with: whether `idx` is below a block at `depth`, through which entry, and
        the index below that. */
    method SplitAt(depth: nat, idx: nat) returns (fits: bool, slot: nat, next: nat)
      requires g.Ptrs() > 0
      ensures (fits <==> idx < Cover(g, depth)) && slot == Pick(g, depth, idx) && next == Left(g, depth, idx)
    {
      var span := IndexSpan(depth);
      SpanPositive(g.Ptrs(), depth);
      fits, slot, next := idx < span * g.Ptrs(), idx / span, idx % span;
    }

    /** `file_block_indirect` */
    method FileBlockIndirect(block: nat, depth: nat, idx: nat) returns (r: Result)
      requires Ready() && depth >= 1 && Rooted(View(), block, depth)
      ensures r == if block == 0 then Ok(0)
                   else if idx >= Cover(g, depth) then Err(ENOSYS)
                   else Ok(Walk(g, View(), block, depth, idx))
      decreases depth
    {
      hide Consistent, Counted, Cover, Pick, Left, Value, Ptr;
      if block == 0 { return Ok(0); }
      OwnedOnDisk(block);
      var fits, slot, next := SplitAt(depth, idx);
      if !fits { return Err(ENOSYS); }
      var ptrs := disk[block];
      if depth == 1 {
        UnitSpan(g);
        PtrIsValue(block, idx);
        return Ok(Ptr(ptrs, idx));
      }
      StepDown(g, View(), block, depth, idx);
      PtrIsValue(block, slot);
      r := FileBlockIndirect(Ptr(ptrs, slot), depth - 1, next);
    }

    lemma OwnedOnDisk(block: nat)
      requires Ready() && block in own
      ensures 0 < block < |disk| && |disk[block]| == g.bs && g.bs == 4 * g.Ptrs() > 0 && block !in g.meta
    {
      assert OwnOK(g, View(), block);
    }

    lemma PtrIsValue(block: nat, j: nat)
      requires Ready() && block in own && j < g.Ptrs()
      ensures block < |disk| && 4 * j + 4 <= |disk[block]| && Ptr(disk[block], j) == Value(g, View(), Ind(block, j))
    {
      OwnedOnDisk(block);
    }

    lemma InodeSlots(ino: nat)
      requires Valid() && ino in inodes
      ensures ino in top && top[ino] == inodes[ino].block && |inodes[ino].block| == N_BLOCKS
      ensures forall j | 0 <= j < N_BLOCKS :: inodes[ino].block[j] == Value(g, View(), Top(ino, j))
      ensures forall j | 12 <= j < N_BLOCKS :: Rooted(View(), inodes[ino].block[j], j - 11)
    {
      assert top[ino] == inodes[ino].block;
      forall j | 12 <= j < N_BLOCKS
        ensures Rooted(View(), inodes[ino].block[j], j - 11)
      {
        TopRooted(g, View(), ino, j);
      }
    }

    /** `file_block` */
    method FileBlockOf(ino: nat, i: nat) returns (r: Result)
      requires Valid() && ino in inodes
      ensures r == if i < MaxBlocks(g) then Ok(FileBlock(g, View(), ino, i)) else Err(ENOSYS)
      ensures r.Err? <==> i >= 12 + g.Ptrs() + g.Ptrs() * g.Ptrs() + g.Ptrs() * g.Ptrs() * g.Ptrs()
      ensures |inodes[ino].block| == N_BLOCKS
      ensures i < 12 ==> r == Ok(inodes[ino].block[i])
      ensures r.Ok? ==> forall a: nat | a < g.Ptrs() && i == 12 + a :: r.value == Follow(disk, inodes[ino].block[12], a)
      ensures r.Ok? ==> forall a: nat, b: nat | a < g.Ptrs() && b < g.Ptrs() && i == 12 + g.Ptrs() + a * g.Ptrs() + b ::
                          r.value == Follow(disk, Follow(disk, inodes[ino].block[13], a), b)
      ensures r.Ok? ==> forall a: nat, b: nat, c: nat |
                          && a < g.Ptrs() && b < g.Ptrs() && c < g.Ptrs()
                          && i == 12 + g.Ptrs() + g.Ptrs() * g.Ptrs() + (a * g.Ptrs() + b) * g.Ptrs() + c ::
                          r.value == Follow(disk, Follow(disk, Follow(disk, inodes[ino].block[14], a), b), c)
    {
      hide Consistent, Counted, Cover, Pick, Left, Value, Tops, Follow;
      InodeSlots(ino);
      Layout(g, View(), ino, i);
      Spans(g);
      var slots := inodes[ino].block;
      if i < 12 { return Ok(slots[i]); }
      var idx := i - 12;
      var ptrs := g.Ptrs();
      if idx < ptrs {
        r := FileBlockIndirect(slots[12], 1, idx);
        return;
      }
      idx := idx - ptrs;
      if idx < ptrs * ptrs {
        r := FileBlockIndirect(slots[13], 2, idx);
        return;
      }
      idx := idx - ptrs * ptrs;
      if idx < ptrs * ptrs * ptrs {
        r := FileBlockIndirect(slots[14], 3, idx);
        return;
      }
      return Err(ENOSYS);
    }
  
    /** Allocates a block and stores its number in entry `j` of pointer block `q`, read before as `ptrs`. */
    method AllocInto(q: nat, j: nat, ptrs: Block) returns (r: Result)
      requires Ready() && Live(g, View(), Ind(q, j)) && Value(g, View(), Ind(q, j)) == 0
      requires q < |disk| && ptrs == disk[q]
      modifies `disk, `free, `sbFree, `own
      ensures Ready()
      ensures r.Err? ==> r == Err(ENOSYS) && View() == old(View()) && NoneFree(g, disk)
      ensures r.Ok? ==> Value(g, View(), Ind(q, j)) == r.value != 0 && r.value !in old(own)
      ensures r.Ok? ==> Grown(g, old(View()), View(), Filled(old(View()), Ind(q, j)))
      ensures r.Ok? ==> Elsewhere(old(View()), View(), q)
    {
      hide Consistent, Counted, Value, Grown, Filled, SetPtr, Ptr, Allocated, Elsewhere, Live, SlotLevel;
      r := AllocBlock();
      if r.Err? {
        return;
      }
      EntrySetOK(g, old(View()), View(), q, j, r.value, free, sbFree);
      disk := disk[q := SetPtr(ptrs, j, r.value)];
      own := own[r.value := Owner(Ind(q, j), SlotLevel(old(View()), Ind(q, j)))];
    }
  
    /** Allocates a block for slot `j` of an inode; only the ghost map knows yet that the slot will name it. */
    method AllocTop(ghost ino: nat, ghost j: nat) returns (r: Result)
      requires Ready() && Live(g, View(), Top(ino, j)) && Value(g, View(), Top(ino, j)) == 0
      modifies `disk, `free, `sbFree, `own, `top
      ensures Ready()
      ensures r.Err? ==> r == Err(ENOSYS) && View() == old(View()) && NoneFree(g, disk)
      ensures r.Ok? ==> Value(g, View(), Top(ino, j)) == r.value != 0 && r.value !in old(own)
      ensures r.Ok? ==> Grown(g, old(View()), View(), Filled(old(View()), Top(ino, j))) && Elsewhere(old(View()), View(), 0)
      ensures r.Ok? ==> var slots: seq<nat> := old(top[ino])[j := r.value]; top == old(top)[ino := slots]
    {
      hide Consistent, Counted, Value, Grown, Filled, Allocated, Elsewhere;
      r := AllocBlock();
      if r.Err? {
        return;
      }
      TopSetOK(g, old(View()), View(), ino, j, r.value);
      ghost var fs := TopSet(View(), ino, j, r.value);
      own, top := fs.own, fs.top;
    }
  
    /** `ensure_file_block_indirect`. `root` is what slot `home` names; when it is 0 the root is allocated and returned,
        and storing it in the inode is left to the caller. Blocks in `base` are not touched. */
    method EnsureIndirect(ghost home: Slot, root: nat, depth: nat, idx: nat, ghost base: set<nat>) returns (r: Result, root': nat)
      requires Ready() && depth >= 1 && Live(g, View(), home) && Value(g, View(), home) == root && SlotLevel(View(), home) == depth
      requires Apart(View(), base, root) && (root == 0 ==> home.Top?)
      modifies `disk, `free, `sbFree, `own, `top
      ensures Ready() && Ensured(g, old(View()), View(), root', depth, idx, r, base)
      ensures r.Err? ==> r == Err(ENOSYS) && (idx < Cover(g, depth) ==> NoneFree(g, disk))
      ensures r.Ok? ==> idx < Cover(g, depth) && root' != 0
      ensures root != 0 ==> root' == root && top == old(top)
      ensures root == 0 && root' == 0 ==> View() == old(View())
      ensures root == 0 && root' != 0 ==> var slots: seq<nat> := old(top[home.ino])[home.j := root']; top == old(top)[home.ino := slots]
      decreases depth, 1
    {
      hide Consistent, Counted, Value, Grown, Ensured, Live, Loc, Walk, Cover, Pick, Left;
      root' := root;
      ReadyGeo();
      var fits, slot, next := SplitAt(depth, idx);
      GrownSame(g, View());
      if !fits {
        FailedSame(g, View(), root, depth, idx, base);
        return Err(ENOSYS), root;
      }
      if root == 0 {
        r := AllocTop(home.ino, home.j);
        if r.Err? {
          FailedSame(g, View(), root, depth, idx, base);
          return;
        }
        root' := r.value;
        RootOutcome(g, old(View()), View(), home, base);
      }
      HomeRooted(g, View(), home);
      ghost var fs1 := View();
      r := EnsureBelow(root', depth, idx, slot, next, base);
      EnsuredAfter(g, old(View()), fs1, View(), root', depth, idx, r, base);
    }

    /** The last level: entry `idx` of `root` is the data block's number. */
    method EnsureEntry(root: nat, idx: nat, ptrs: Block, ghost base: set<nat>) returns (r: Result)
      requires Ready() && root != 0 && Rooted(View(), root, 1) && Apart(View(), base, root) && idx < g.Ptrs()
      requires root < |disk| && ptrs == disk[root]
      modifies `disk, `free, `sbFree, `own
      ensures Ready() && Ensured(g, old(View()), View(), root, 1, idx, r, base)
      ensures r.Err? ==> r == Err(ENOSYS) && NoneFree(g, disk)
    {
      hide Consistent, Counted, Value, Grown, Ptr, Filled, Elsewhere;
      PtrIsValue(root, idx);
      GrownSame(g, View());
      if Ptr(ptrs, idx) == 0 {
        r := AllocInto(root, idx, ptrs);
        if r.Ok? {
          EntryOutcome(g, old(View()), View(), root, idx, 1, base);
        }
      } else {
        GrownWeaken(g, View(), View(), At(Ind(root, idx)));
        return Ok(Ptr(ptrs, idx));
      }
    }

    method EnsureBelow(root: nat, depth: nat, idx: nat, slot: nat, next: nat, ghost base: set<nat>) returns (r: Result)
      requires Ready() && depth >= 1 && root != 0 && Rooted(View(), root, depth) && Apart(View(), base, root)
      requires idx < Cover(g, depth) && slot == Pick(g, depth, idx) && next == Left(g, depth, idx)
      modifies `disk, `free, `sbFree, `own, `top
      ensures Ready() && Ensured(g, old(View()), View(), root, depth, idx, r, base) && top == old(top)
      ensures r.Err? ==> r == Err(ENOSYS) && NoneFree(g, disk)
      decreases depth, 0
    {
      hide Consistent, Counted, Value, Grown, Ensured, Live, Loc, Walk, Cover, Pick, Left, Ptr, Filled, Apart, SameBase, NoneFree, SlotLevel;
      OwnedOnDisk(root);
      var ptrs := disk[root];
      if depth == 1 {
        UnitSpan(g);
        r := EnsureEntry(root, idx, ptrs, base);
        return;
      }
      StepDown(g, View(), root, depth, idx);
      r := ChildOf(root, slot, ptrs, depth, base);
      ghost var fs1 := View();
      if r.Err? {
        FailedSame(g, fs1, root, depth, idx, base);
        return;
      }
      var same;
      r, same := EnsureIndirect(Ind(root, slot), r.value, depth - 1, next, base);
      EnsuredDown(g, fs1, View(), root, depth, idx, r, base);
      EnsuredAfter(g, old(View()), fs1, View(), root, depth, idx, r, base);
    }

    /** The pointer block in entry `slot` of `root`, allocated if there is none. */
    method ChildOf(root: nat, slot: nat, ptrs: Block, depth: nat, ghost base: set<nat>) returns (r: Result)
      requires Ready() && depth > 1 && root != 0 && Rooted(View(), root, depth) && Apart(View(), base, root) && slot < g.Ptrs()
      requires root < |disk| && ptrs == disk[root]
      modifies `disk, `free, `sbFree, `own
      ensures Ready() && Grown(g, old(View()), View(), Hole) && SameBase(old(View()), View(), base)
      ensures r.Err? ==> r == Err(ENOSYS) && View() == old(View()) && NoneFree(g, disk)
      ensures r.Ok? ==> Rooted(View(), root, depth) && Live(g, View(), Ind(root, slot)) && SlotLevel(View(), Ind(root, slot)) == depth - 1
      ensures r.Ok? ==> Value(g, View(), Ind(root, slot)) == r.value != 0 && Apart(View(), base, r.value)
    {
      hide Consistent, Counted, Value, Grown, Ptr, Filled, Elsewhere;
      PtrIsValue(root, slot);
      r := Ok(Ptr(ptrs, slot));
      GrownSame(g, View());
      if r.value == 0 {
        r := AllocInto(root, slot, ptrs);
        if r.Err? { return; }
        EntryOutcome(g, old(View()), View(), root, slot, depth, base);
      }
      ApartBelow(g, View(), base, root, slot);
    }

    /** The indirect cases of `ensure_file_block`: through the inode's slot `j`, storing a new root on success. */
    method EnsureThrough(ino: nat, j: nat, idx: nat, ghost i: nat) returns (r: Result)
      requires Valid() && ino in inodes && i < MaxBlocks(g) && Region(g, i) == (j, idx) && 12 <= j < N_BLOCKS
      modifies `disk, `free, `sbFree, `own, `top, `inodes
      ensures Valid() && SameInodes(old(inodes), inodes)
      ensures r.Err? ==> r == Err(ENOSYS) && NoneFree(g, disk) && inodes == old(inodes)
      ensures r.Ok? ==> r.value == FileBlock(g, View(), ino, i) != 0
      ensures MapsKept(g, old(View()), View(), ino, i)
    {
      hide Consistent, Counted, Value, Grown, Loc, Walk, Cover, Pick, Left, FileBlock, FileLoc, Region, MaxBlocks, MapsKept;
      ReadyGeo();
      InodeSlots(ino);
      AllApart(g, View());
      RegionBound(g, i);
      var root := inodes[ino].block[j];
      var root';
      r, root' := EnsureIndirect(Top(ino, j), root, j - 11, idx, if root == 0 then own.Keys else {});
      if r.Ok? {
        if root' != root {
          inodes := inodes[ino := inodes[ino].(block := inodes[ino].block[j := root'])];
        }
        InodeSlots(ino);
        ThroughSlot(g, View(), ino, j, idx, i);
        GrownIsKept(g, old(View()), View(), ino, i);
      } else if root == 0 {
        AbandonedIsCalm(g, old(View()), View());
        AbandonedIsKept(g, old(View()), disk, ino, i);
        own, top := old(own), old(top);
      } else {
        UnchangedIsKept(g, old(View()), View(), ino, i);
      }
    }
  
    /** `ensure_file_block` */
    method EnsureFileBlock(ino: nat, i: nat) returns (r: Result)
      requires Valid() && ino in inodes
      modifies `disk, `free, `sbFree, `own, `top, `inodes
      ensures Valid() && SameInodes(old(inodes), inodes)
      ensures r.Err? ==> r == Err(ENOSYS) && inodes == old(inodes)
      ensures r.Err? ==> if i < MaxBlocks(g) then NoneFree(g, disk) else View() == old(View())
      ensures r.Ok? ==> i < MaxBlocks(g) && r.value == FileBlock(g, View(), ino, i) != 0
      ensures MapsKept(g, old(View()), View(), ino, i)
    {
      hide Consistent, Counted, Value, Grown, Loc, Walk, Cover, Pick, Left, FileBlock, FileLoc, MapsKept;
      GrownSame(g, View());
      UnchangedIsKept(g, View(), View(), ino, i);
      r := FileBlockOf(ino, i);
      if r.Err? || r.value != 0 { return; }
      InodeSlots(ino);
      if i < 12 {
        r := EnsureDirect(ino, i);
        return;
      }
      var idx := i - 12;
      var ptrs := g.Ptrs();
      if idx < ptrs {
        r := EnsureThrough(ino, 12, idx, i);
        return;
      }
      idx := idx - ptrs;
      if idx < ptrs * ptrs {
        r := EnsureThrough(ino, 13, idx, i);
        return;
      }
      idx := idx - ptrs * ptrs;
      r := EnsureThrough(ino, 14, idx, i);
    }

    method EnsureDirect(ino: nat, i: nat) returns (r: Result)
      requires Valid() && ino in inodes && i < 12 <= |inodes[ino].block| && FileBlock(g, View(), ino, i) == 0
      modifies `disk, `free, `sbFree, `own, `top, `inodes
      ensures Valid() && SameInodes(old(inodes), inodes)
      ensures r.Err? ==> r == Err(ENOSYS) && NoneFree(g, disk) && inodes == old(inodes)
      ensures r.Ok? ==> r.value == FileBlock(g, View(), ino, i) != 0 && inodes[ino].block == old(inodes[ino].block)[i := r.value]
      ensures MapsKept(g, old(View()), View(), ino, i)
    {
      hide Consistent, Counted, Grown, Cover, Pick, Left, MapsKept, Value;
      InodeSlots(ino);
      GrownSame(g, View());
      UnchangedIsKept(g, View(), View(), ino, i);
      r := AllocTop(ino, i);
      if r.Err? { return; }
      inodes := inodes[ino := inodes[ino].(block := inodes[ino].block[i := r.value])];
      GrownIsKept(g, old(View()), View(), ino, i);
    }
  }
}
