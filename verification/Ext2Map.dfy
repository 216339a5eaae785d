/** The block map of ext2: direct, single, double and triple indirect pointers, and who owns which block. */
module Ext2Map {
  import opened Bytes
  import opened Ext2Disk

  /** What `mount` reads from the superblock and the group descriptors. `meta` are the blocks in use by the file
      system itself: superblock, descriptors, bitmaps and inode tables. */
  datatype Geo = Geo(bs: nat, bpg: nat, first: nat, count: nat, bitmaps: seq<nat>, meta: set<nat>) {
    /** Pointers per block. */
    function Ptrs(): nat { bs / 4 }

    function GroupOf(b: nat): nat
      requires first <= b && bpg > 0
    {
      (b - first) / bpg
    }

    function BitIn(b: nat): nat
      requires first <= b && bpg > 0
    {
      (b - first) % bpg
    }
  }

  ghost predicate GeoOK(g: Geo) {
    && g.bs in {1024, 2048, 4096} && 0 < g.bpg <= 8 * g.bs && g.count <= U32
    && g.count <= g.first + |g.bitmaps| * g.bpg
    && (forall i | 0 <= i < |g.bitmaps| :: g.bitmaps[i] in g.meta && g.bitmaps[i] < g.count)
    && (forall i, j | 0 <= i < j < |g.bitmaps| :: g.bitmaps[i] != g.bitmaps[j])
    && 0 in g.meta
  }

  /** A place that holds a block number: one of an inode's fifteen, or one in a pointer block. */
  datatype Slot = Top(ino: nat, j: nat) | Ind(block: nat, j: nat)

  /** The slot that names a block; level 0 is data, level d a pointer block d steps above data. */
  datatype Owner = Owner(slot: Slot, level: nat)

  datatype Fs = Fs(disk: seq<Block>, top: map<nat, seq<nat>>, own: map<nat, Owner>)

  const N_BLOCKS: nat := 15

  function TopLevel(j: nat): nat { if j < 12 then 0 else j - 11 }

  ghost predicate DiskOK(g: Geo, disk: seq<Block>) {
    |disk| == g.count && forall b | 0 <= b < |disk| :: |disk[b]| == g.bs
  }

  /** The bitmap bit of block `b` is set. */
  ghost predicate Marked(g: Geo, disk: seq<Block>, b: nat)
    requires GeoOK(g) && DiskOK(g, disk)
  {
    && g.first <= b < g.first + |g.bitmaps| * g.bpg
    && (GroupInRange(g, b); Bit(disk[g.bitmaps[g.GroupOf(b)]], g.BitIn(b)))
  }

  lemma GroupInRange(g: Geo, b: nat)
    requires GeoOK(g) && g.first <= b < g.first + |g.bitmaps| * g.bpg
    ensures g.GroupOf(b) < |g.bitmaps| && g.BitIn(b) < g.bpg
    ensures b == g.first + g.GroupOf(b) * g.bpg + g.BitIn(b)
  {
    MulDiv(b - g.first, g.bpg, |g.bitmaps|);
  }

  /** The block number in a slot; 0 means none. */
  function Value(g: Geo, fs: Fs, s: Slot): nat {
    match s
    case Top(ino, j) => if ino in fs.top && j < |fs.top[ino]| then fs.top[ino][j] else 0
    case Ind(q, j) => if q < |fs.disk| && 4 * j + 4 <= |fs.disk[q]| then Ptr(fs.disk[q], j) else 0
  }

  /** Slots that are part of some file's map. */
  ghost predicate Live(g: Geo, fs: Fs, s: Slot) {
    match s
    case Top(ino, j) => ino in fs.top && j < N_BLOCKS
    case Ind(q, j) => q in fs.own && fs.own[q].level > 0 && j < g.Ptrs()
  }

  function SlotLevel(fs: Fs, s: Slot): nat {
    match s
    case Top(ino, j) => TopLevel(j)
    case Ind(q, j) => if q in fs.own && fs.own[q].level > 0 then fs.own[q].level - 1 else 0
  }

  /** A block in use is marked in the bitmap, is not metadata, and the slot that owns it names it. */
  ghost predicate OwnOK(g: Geo, fs: Fs, b: nat)
    requires GeoOK(g) && DiskOK(g, fs.disk) && b in fs.own
  {
    && 0 < b < g.count && b !in g.meta && Marked(g, fs.disk, b)
    && Live(g, fs, fs.own[b].slot) && Value(g, fs, fs.own[b].slot) == b
    && fs.own[b].level == SlotLevel(fs, fs.own[b].slot)
  }

  ghost predicate SlotOK(g: Geo, fs: Fs, s: Slot) {
    Value(g, fs, s) != 0 ==> Value(g, fs, s) in fs.own && fs.own[Value(g, fs, s)].slot == s
  }

  /** A consistent image: no two live slots name the same block, and every block in use, metadata block and
      padding bit is marked. */
  ghost predicate Consistent(g: Geo, fs: Fs) {
    && GeoOK(g) && DiskOK(g, fs.disk)
    && (forall ino | ino in fs.top :: |fs.top[ino]| == N_BLOCKS)
    && (forall b {:trigger OwnOK(g, fs, b)} | b in fs.own :: OwnOK(g, fs, b))
    && (forall s {:trigger SlotOK(g, fs, s)} | Live(g, fs, s) :: SlotOK(g, fs, s))
    && (forall b | b in g.meta && g.first <= b < g.count :: Marked(g, fs.disk, b))
    && (forall b | g.count <= b < g.first + |g.bitmaps| * g.bpg :: Marked(g, fs.disk, b))
  }

  /** No two data or pointer slots name the same disk block. */
  lemma NoBlockIsShared(g: Geo, fs: Fs, s: Slot, t: Slot)
    requires Consistent(g, fs) && Live(g, fs, s) && Live(g, fs, t) && Value(g, fs, s) == Value(g, fs, t) != 0
    ensures s == t
  {
    assert SlotOK(g, fs, s) && SlotOK(g, fs, t);
  }

  // Allocation

  /** `alloc_block` took block `b`: its bit is set and it is zeroed. */
  ghost predicate Allocated(g: Geo, fs: Fs, fs': Fs, b: nat)
    requires GeoOK(g) && DiskOK(g, fs.disk)
  {
    && g.first <= b < g.count && (GroupInRange(g, b); !Marked(g, fs.disk, b))
    && fs' == fs.(disk := var bm := g.bitmaps[g.GroupOf(b)];
                          fs.disk[bm := SetBit(fs.disk[bm], g.BitIn(b))][b := Zeros(g.bs)])
  }

  lemma MarkAfterAlloc(g: Geo, fs: Fs, fs': Fs, b: nat, c: nat)
    requires Consistent(g, fs) && Allocated(g, fs, fs', b)
    requires g.first <= c < g.first + |g.bitmaps| * g.bpg
    ensures DiskOK(g, fs'.disk) && (Marked(g, fs'.disk, c) <==> c == b || Marked(g, fs.disk, c))
  {
    GroupInRange(g, b);
    GroupInRange(g, c);
    var bm, cm := g.bitmaps[g.GroupOf(b)], g.bitmaps[g.GroupOf(c)];
    assert bm in g.meta && cm in g.meta;
    assert b !in g.meta;
    if g.GroupOf(b) == g.GroupOf(c) {
      BitSetBit(fs.disk[bm], g.BitIn(b), g.BitIn(c));
    }
  }

  // Walking the map

  /** `ext2_index_span`: data blocks below one pointer of a block at `depth`. */
  function Span(p: nat, depth: nat): nat {
    if depth <= 1 then 1 else p * Span(p, depth - 1)
  }

  lemma SpanPositive(p: nat, depth: nat)
    requires p > 0
    ensures Span(p, depth) > 0
  {
    if depth > 1 {
      SpanPositive(p, depth - 1);
    }
  }

  /** Data blocks below a whole pointer block at `depth`. */
  function Cover(g: Geo, depth: nat): nat { Span(g.Ptrs(), depth) * g.Ptrs() }

  /** Which entry of a pointer block at `depth` leads to data block `idx` below it, and the index below that entry. */
  function Pick(g: Geo, depth: nat, idx: nat): nat {
    var sp := Span(g.Ptrs(), depth);
    if sp == 0 then 0 else idx / sp
  }

  function Left(g: Geo, depth: nat, idx: nat): nat {
    var sp := Span(g.Ptrs(), depth);
    if sp == 0 then 0 else idx % sp
  }

  lemma SplitIndex(g: Geo, depth: nat, idx: nat)
    requires GeoOK(g) && depth > 1 && idx < Cover(g, depth)
    ensures Pick(g, depth, idx) < g.Ptrs() && Left(g, depth, idx) < Cover(g, depth - 1)
  {
    SpanPositive(g.Ptrs(), depth);
    MulDiv(idx, Span(g.Ptrs(), depth), g.Ptrs());
  }

  /** Below `q`, a pointer block at `depth` or 0, the slot that holds data block `idx`; none in a hole. */
  datatype Place = Hole | At(slot: Slot)

  function Loc(g: Geo, fs: Fs, q: nat, depth: nat, idx: nat): Place
    decreases depth
  {
    if q == 0 || depth == 0 then Hole
    else if depth == 1 then At(Ind(q, idx))
    else Loc(g, fs, Value(g, fs, Ind(q, Pick(g, depth, idx))), depth - 1, Left(g, depth, idx))
  }

  /** `file_block_indirect` */
  function Walk(g: Geo, fs: Fs, q: nat, depth: nat, idx: nat): nat {
    match Loc(g, fs, q, depth, idx)
    case Hole => 0
    case At(s) => Value(g, fs, s)
  }

  /** Which of the inode's slots leads to block `i` of a file, and the index below it. */
  function Region(g: Geo, i: nat): (r: (nat, nat)) {
    var p := g.Ptrs();
    if i < 12 then (i, 0)
    else if i - 12 < p then (12, i - 12)
    else if i - 12 - p < p * p then (13, i - 12 - p)
    else (14, i - 12 - p - p * p)
  }

  /** One past the largest block index the map can hold. */
  function MaxBlocks(g: Geo): nat {
    var p := g.Ptrs();
    12 + p + p * p + p * p * p
  }

  function FileLoc(g: Geo, fs: Fs, ino: nat, i: nat): Place {
    var (j, idx) := Region(g, i);
    if j < 12 then At(Top(ino, j)) else Loc(g, fs, Value(g, fs, Top(ino, j)), j - 11, idx)
  }

  /** `file_block`, for an index the map can hold: the disk block, or 0 for a hole. */
  function FileBlock(g: Geo, fs: Fs, ino: nat, i: nat): nat {
    match FileLoc(g, fs, ino, i)
    case Hole => 0
    case At(s) => Value(g, fs, s)
  }

  // The layout on disk, level by level

  /** Entry `j` of pointer block `q`, a little-endian number; an absent block has no entries. */
  function Follow(disk: seq<Block>, q: nat, j: nat): nat {
    if q == 0 || q >= |disk| || 4 * j + 4 > |disk[q]| then 0 else
      var b := disk[q][4 * j..4 * j + 4];
      b[0] as int + 256 * (b[1] as int + 256 * (b[2] as int + 256 * (b[3] as int)))
  }

  /**
   * Where a file's blocks are: the first twelve in the inode, the next ones
   * behind slot 12, then those two steps behind slot 13, then those three
   * steps behind slot 14. A step through an absent block leads to none.
   */
  lemma Layout(g: Geo, fs: Fs, ino: nat, i: nat)
    requires ino in fs.top && |fs.top[ino]| == N_BLOCKS
    ensures i < 12 ==> FileBlock(g, fs, ino, i) == fs.top[ino][i]
    ensures forall a: nat | a < g.Ptrs() && i == 12 + a :: FileBlock(g, fs, ino, i) == Follow(fs.disk, fs.top[ino][12], a)
    ensures forall a: nat, b: nat | a < g.Ptrs() && b < g.Ptrs() && i == 12 + g.Ptrs() + a * g.Ptrs() + b ::
              FileBlock(g, fs, ino, i) == Follow(fs.disk, Follow(fs.disk, fs.top[ino][13], a), b)
    ensures forall a: nat, b: nat, c: nat |
              a < g.Ptrs() && b < g.Ptrs() && c < g.Ptrs() && i == 12 + g.Ptrs() + g.Ptrs() * g.Ptrs() + (a * g.Ptrs() + b) * g.Ptrs() + c ::
              FileBlock(g, fs, ino, i) == Follow(fs.disk, Follow(fs.disk, Follow(fs.disk, fs.top[ino][14], a), b), c)
  {
    var p := g.Ptrs();
    forall a: nat | a < p && i == 12 + a
      ensures FileBlock(g, fs, ino, i) == Follow(fs.disk, fs.top[ino][12], a)
    {
      SingleLayout(g, fs, ino, a);
    }
    forall a: nat, b: nat | a < p && b < p && i == 12 + p + a * p + b
      ensures FileBlock(g, fs, ino, i) == Follow(fs.disk, Follow(fs.disk, fs.top[ino][13], a), b)
    {
      DoubleLayout(g, fs, ino, a, b);
    }
    forall a: nat, b: nat, c: nat | a < p && b < p && c < p && i == 12 + p + p * p + (a * p + b) * p + c
      ensures FileBlock(g, fs, ino, i) == Follow(fs.disk, Follow(fs.disk, Follow(fs.disk, fs.top[ino][14], a), b), c)
    {
      TripleLayout(g, fs, ino, a, b, c);
    }
  }

  lemma SingleLayout(g: Geo, fs: Fs, ino: nat, a: nat)
    requires ino in fs.top && |fs.top[ino]| == N_BLOCKS && a < g.Ptrs()
    ensures FileBlock(g, fs, ino, 12 + a) == Follow(fs.disk, fs.top[ino][12], a)
  {
  }

  lemma DoubleLayout(g: Geo, fs: Fs, ino: nat, a: nat, b: nat)
    requires ino in fs.top && |fs.top[ino]| == N_BLOCKS && a < g.Ptrs() && b < g.Ptrs()
    ensures FileBlock(g, fs, ino, 12 + g.Ptrs() + a * g.Ptrs() + b) == Follow(fs.disk, Follow(fs.disk, fs.top[ino][13], a), b)
  {
    var p := g.Ptrs();
    MulLe(a + 1, p, p);
    assert Region(g, 12 + p + a * p + b) == (13, a * p + b);
    hide Region, Pick, Left, Le32;
    DoubleWalk(g, fs, fs.top[ino][13], a, b);
  }

  lemma TripleLayout(g: Geo, fs: Fs, ino: nat, a: nat, b: nat, c: nat)
    requires ino in fs.top && |fs.top[ino]| == N_BLOCKS && a < g.Ptrs() && b < g.Ptrs() && c < g.Ptrs()
    ensures var p := g.Ptrs();
            FileBlock(g, fs, ino, 12 + p + p * p + (a * p + b) * p + c) ==
            Follow(fs.disk, Follow(fs.disk, Follow(fs.disk, fs.top[ino][14], a), b), c)
  {
    hide Region, Pick, Left, Follow, Walk, Loc;
    TripleRegion(g, (a * g.Ptrs() + b) * g.Ptrs() + c);
    TripleWalk(g, fs, fs.top[ino][14], a, b, c);
    ThroughRegion(g, fs, ino, 12 + g.Ptrs() + g.Ptrs() * g.Ptrs() + ((a * g.Ptrs() + b) * g.Ptrs() + c));
  }

  lemma TripleRegion(g: Geo, idx: nat)
    ensures Region(g, 12 + g.Ptrs() + g.Ptrs() * g.Ptrs() + idx) == (14, idx)
  {
  }

  lemma ThroughRegion(g: Geo, fs: Fs, ino: nat, i: nat)
    requires ino in fs.top && |fs.top[ino]| == N_BLOCKS && 12 <= Region(g, i).0 < N_BLOCKS
    ensures FileBlock(g, fs, ino, i) == Walk(g, fs, fs.top[ino][Region(g, i).0], Region(g, i).0 - 11, Region(g, i).1)
  {
    hide Region, Loc;
  }

  lemma DoubleWalk(g: Geo, fs: Fs, q: nat, a: nat, b: nat)
    requires a < g.Ptrs() && b < g.Ptrs()
    ensures Walk(g, fs, q, 2, a * g.Ptrs() + b) == Follow(fs.disk, Follow(fs.disk, q, a), b)
  {
    var p := g.Ptrs();
    DivMod(a, b, p);
    assert Span(p, 1) == 1 && Span(p, 2) == p;
    assert Pick(g, 2, a * p + b) == a && Left(g, 2, a * p + b) == b;
    hide Pick, Left, Le32;
    FollowIsValue(g, fs, q, a);
    FollowIsValue(g, fs, Follow(fs.disk, q, a), b);
  }

  lemma TripleWalk(g: Geo, fs: Fs, q: nat, a: nat, b: nat, c: nat)
    requires a < g.Ptrs() && b < g.Ptrs() && c < g.Ptrs()
    ensures Walk(g, fs, q, 3, (a * g.Ptrs() + b) * g.Ptrs() + c) == Follow(fs.disk, Follow(fs.disk, Follow(fs.disk, q, a), b), c)
  {
    var p := g.Ptrs();
    var idx := (a * p + b) * p + c;
    hide Pick, Left, Follow, Value, Span;
    TripleIndex(g, a, b, c);
    FollowIsValue(g, fs, q, a);
    DoubleWalk(g, fs, Follow(fs.disk, q, a), b, c);
    FollowNothing(fs.disk, b, c);
  }

  lemma FollowIsValue(g: Geo, fs: Fs, q: nat, j: nat)
    ensures Follow(fs.disk, q, j) == if q == 0 then 0 else Value(g, fs, Ind(q, j))
  {
  }

  lemma FollowNothing(disk: seq<Block>, b: nat, c: nat)
    ensures Follow(disk, 0, b) == 0 && Follow(disk, Follow(disk, 0, b), c) == 0
  {
  }

  lemma TripleIndex(g: Geo, a: nat, b: nat, c: nat)
    requires a < g.Ptrs() && b < g.Ptrs() && c < g.Ptrs()
    ensures var p, idx := g.Ptrs(), (a * g.Ptrs() + b) * g.Ptrs() + c;
            Pick(g, 3, idx) == a && Left(g, 3, idx) == b * p + c
  {
    var p := g.Ptrs();
    MulLe(b + 1, p, p);
    Regrouped(p, a, b, c);
    DivMod(a, b * p + c, p * p);
    assert Span(p, 2) == p && Span(p, 3) == p * p;
  }

  lemma Regrouped(p: nat, a: nat, b: nat, c: nat)
    ensures (a * p + b) * p + c == a * (p * p) + (b * p + c)
  {
    Assoc(a, p, p);
  }

  lemma RegionBound(g: Geo, i: nat)
    requires GeoOK(g) && i < MaxBlocks(g)
    ensures var (j, idx) := Region(g, i); j < N_BLOCKS && (j >= 12 ==> idx < Cover(g, j - 11))
  {
    var p := g.Ptrs();
    assert Span(p, 1) == 1 && Span(p, 2) == p * Span(p, 1) && Span(p, 3) == p * Span(p, 2);
    assert p * p * p == p * (p * p);
  }

  lemma RegionInjective(g: Geo, i: nat, k: nat)
    requires GeoOK(g) && Region(g, i) == Region(g, k)
    ensures i == k
  {
  }

  /** Where a pointer block at `depth` may stand. */
  ghost predicate Rooted(fs: Fs, q: nat, depth: nat) {
    q != 0 ==> q in fs.own && fs.own[q].level == depth
  }

  lemma {:induction false} LocLive(g: Geo, fs: Fs, q: nat, depth: nat, idx: nat)
    requires Consistent(g, fs) && Rooted(fs, q, depth) && idx < Cover(g, depth)
    ensures Loc(g, fs, q, depth, idx).At? ==>
              Live(g, fs, Loc(g, fs, q, depth, idx).slot) && SlotLevel(fs, Loc(g, fs, q, depth, idx).slot) == 0 && depth >= 1
    decreases depth
  {
    if q != 0 && depth > 1 {
      SplitIndex(g, depth, idx);
      var s := Ind(q, Pick(g, depth, idx));
      assert SlotOK(g, fs, s);
      assert Value(g, fs, s) in fs.own ==> OwnOK(g, fs, Value(g, fs, s));
      LocLive(g, fs, Value(g, fs, s), depth - 1, Left(g, depth, idx));
    }
  }

  /** One step down from a pointer block. */
  lemma StepDown(g: Geo, fs: Fs, q: nat, depth: nat, idx: nat)
    requires Consistent(g, fs) && Rooted(fs, q, depth) && q != 0 && depth > 1 && idx < Cover(g, depth)
    ensures var s := Ind(q, Pick(g, depth, idx));
            var c := Value(g, fs, s);
            && Live(g, fs, s) && Rooted(fs, c, depth - 1) && (c != 0 ==> fs.own[c].slot == s)
            && Left(g, depth, idx) < Cover(g, depth - 1)
            && Loc(g, fs, q, depth, idx) == Loc(g, fs, c, depth - 1, Left(g, depth, idx))
  {
    SplitIndex(g, depth, idx);
    var s := Ind(q, Pick(g, depth, idx));
    assert SlotOK(g, fs, s);
    assert Value(g, fs, s) in fs.own ==> OwnOK(g, fs, Value(g, fs, s));
  }

  /** Different indices lead to different slots. */
  lemma {:induction false} LocInjective(g: Geo, fs: Fs, q: nat, q': nat, depth: nat, idx: nat, idx': nat)
    requires Consistent(g, fs) && Rooted(fs, q, depth) && Rooted(fs, q', depth)
    requires idx < Cover(g, depth) && idx' < Cover(g, depth)
    requires Loc(g, fs, q, depth, idx) == Loc(g, fs, q', depth, idx') && Loc(g, fs, q, depth, idx).At?
    ensures q == q' && idx == idx'
    decreases depth
  {
    hide Consistent, Cover, Pick, Left, Value;
    if depth > 1 {
      StepDown(g, fs, q, depth, idx);
      StepDown(g, fs, q', depth, idx');
      var c, c' := Value(g, fs, Ind(q, Pick(g, depth, idx))), Value(g, fs, Ind(q', Pick(g, depth, idx')));
      LocInjective(g, fs, c, c', depth - 1, Left(g, depth, idx), Left(g, depth, idx'));
      assert c != 0;
      SameIndex(g, depth, idx, idx');
    }
  }

  lemma SameIndex(g: Geo, depth: nat, x: nat, y: nat)
    requires g.Ptrs() > 0 && Pick(g, depth, x) == Pick(g, depth, y) && Left(g, depth, x) == Left(g, depth, y)
    ensures x == y
  {
    SpanPositive(g.Ptrs(), depth);
    var d := Span(g.Ptrs(), depth);
    assert x == x / d * d + x % d && y == y / d * d + y % d;
  }

  /** The block that owns `b`, `n` steps up. */
  ghost function UpN(fs: Fs, b: nat, n: nat): nat {
    if n == 0 then b
    else if UpN(fs, b, n - 1) in fs.own && fs.own[UpN(fs, b, n - 1)].slot.Ind? then fs.own[UpN(fs, b, n - 1)].slot.block
    else 0
  }

  /** Climbing from a leaf slot through the owners retraces the way down. */
  lemma {:induction false} LocClimb(g: Geo, fs: Fs, q: nat, depth: nat, idx: nat)
    requires Consistent(g, fs) && Rooted(fs, q, depth) && idx < Cover(g, depth) && depth >= 1
    requires Loc(g, fs, q, depth, idx).At?
    ensures Loc(g, fs, q, depth, idx).slot.Ind? && q != 0
    ensures var b := Loc(g, fs, q, depth, idx).slot.block;
            && UpN(fs, b, depth - 1) == q
            && forall k: nat | k < depth - 1 :: UpN(fs, b, k) in fs.own && fs.own[UpN(fs, b, k)].slot.Ind?
    decreases depth
  {
    hide Consistent, Cover, Pick, Left, Value;
    if depth > 1 {
      StepDown(g, fs, q, depth, idx);
      LocClimb(g, fs, Value(g, fs, Ind(q, Pick(g, depth, idx))), depth - 1, Left(g, depth, idx));
    }
  }

  lemma FileLocLive(g: Geo, fs: Fs, ino: nat, i: nat)
    requires Consistent(g, fs) && ino in fs.top && i < MaxBlocks(g)
    ensures FileLoc(g, fs, ino, i).At? ==> Live(g, fs, FileLoc(g, fs, ino, i).slot) && SlotLevel(fs, FileLoc(g, fs, ino, i).slot) == 0
  {
    RegionBound(g, i);
    var (j, idx) := Region(g, i);
    if j >= 12 {
      TopRooted(g, fs, ino, j);
      LocLive(g, fs, Value(g, fs, Top(ino, j)), j - 11, idx);
    }
  }

  lemma TopRooted(g: Geo, fs: Fs, ino: nat, j: nat)
    requires Consistent(g, fs) && ino in fs.top && 12 <= j < N_BLOCKS
    ensures Rooted(fs, Value(g, fs, Top(ino, j)), j - 11)
    ensures Value(g, fs, Top(ino, j)) != 0 ==> fs.own[Value(g, fs, Top(ino, j))].slot == Top(ino, j)
  {
    assert SlotOK(g, fs, Top(ino, j));
    var q := Value(g, fs, Top(ino, j));
    assert q in fs.own ==> OwnOK(g, fs, q);
  }

  /** Every block of every file has a place of its own. */
  lemma FileLocInjective(g: Geo, fs: Fs, ino: nat, i: nat, ino': nat, i': nat)
    requires Consistent(g, fs) && ino in fs.top && ino' in fs.top && i < MaxBlocks(g) && i' < MaxBlocks(g)
    requires FileLoc(g, fs, ino, i) == FileLoc(g, fs, ino', i') && FileLoc(g, fs, ino, i).At?
    ensures ino == ino' && i == i'
  {
    hide Cover, Pick, Left, Value, Region, MaxBlocks;
    RegionBound(g, i);
    RegionBound(g, i');
    var (j, idx) := Region(g, i);
    var (j', idx') := Region(g, i');
    if j >= 12 {
      TopRooted(g, fs, ino, j);
      LocClimb(g, fs, Value(g, fs, Top(ino, j)), j - 11, idx);
    }
    if j' >= 12 {
      TopRooted(g, fs, ino', j');
      LocClimb(g, fs, Value(g, fs, Top(ino', j')), j' - 11, idx');
    }
    if j >= 12 && j' >= 12 {
      assert j == j';
      LocInjective(g, fs, Value(g, fs, Top(ino, j)), Value(g, fs, Top(ino', j')), j - 11, idx, idx');
    }
    DirectRegion(g, i);
    DirectRegion(g, i');
    RegionInjective(g, i, i');
  }

  lemma DirectRegion(g: Geo, i: nat)
    ensures Region(g, i).0 < 12 ==> Region(g, i).1 == 0
  {
  }

  // Changes that leave every pointer alone

  /** Block `i` of a file as a reader sees it: holes are zero. */
  function Content(g: Geo, fs: Fs, ino: nat, i: nat): Block {
    var b := FileBlock(g, fs, ino, i);
    if b == 0 || b >= |fs.disk| then Zeros(g.bs) else fs.disk[b]
  }

  /** The disk may change, but no pointer block does and no bitmap bit is cleared. */
  ghost predicate Calm(g: Geo, fs: Fs, disk': seq<Block>)
    requires GeoOK(g) && DiskOK(g, fs.disk)
  {
    && DiskOK(g, disk')
    && (forall q | q in fs.own && q < |fs.disk| && fs.own[q].level > 0 :: disk'[q] == fs.disk[q])
    && (forall c | Marked(g, fs.disk, c) :: Marked(g, disk', c))
  }

  lemma ValueCalm(g: Geo, fs: Fs, disk': seq<Block>, s: Slot)
    requires Consistent(g, fs) && Calm(g, fs, disk') && Live(g, fs, s)
    ensures Value(g, fs.(disk := disk'), s) == Value(g, fs, s)
  {
    if s.Ind? {
      assert OwnOK(g, fs, s.block);
    }
  }

  lemma CalmOK(g: Geo, fs: Fs, disk': seq<Block>)
    requires Consistent(g, fs) && Calm(g, fs, disk')
    ensures Consistent(g, fs.(disk := disk'))
  {
    var fs' := fs.(disk := disk');
    forall c | c in fs'.own
      ensures OwnOK(g, fs', c)
    {
      assert OwnOK(g, fs, c);
      ValueCalm(g, fs, disk', fs.own[c].slot);
    }
    forall s | Live(g, fs', s)
      ensures SlotOK(g, fs', s)
    {
      assert Live(g, fs, s) && SlotOK(g, fs, s);
      ValueCalm(g, fs, disk', s);
    }
  }

  lemma {:induction false} WalkCalm(g: Geo, fs: Fs, disk': seq<Block>, q: nat, depth: nat, idx: nat)
    requires Consistent(g, fs) && Calm(g, fs, disk') && Consistent(g, fs.(disk := disk'))
    requires Rooted(fs, q, depth) && idx < Cover(g, depth)
    ensures Loc(g, fs.(disk := disk'), q, depth, idx) == Loc(g, fs, q, depth, idx)
    decreases depth
  {
    hide Consistent, Cover, Pick, Left, Value, Calm;
    if q != 0 && depth > 1 {
      StepDown(g, fs, q, depth, idx);
      StepDown(g, fs.(disk := disk'), q, depth, idx);
      ValueCalm(g, fs, disk', Ind(q, Pick(g, depth, idx)));
      WalkCalm(g, fs, disk', Value(g, fs, Ind(q, Pick(g, depth, idx))), depth - 1, Left(g, depth, idx));
    }
  }

  lemma FileCalm(g: Geo, fs: Fs, disk': seq<Block>, ino: nat, i: nat)
    requires Consistent(g, fs) && Calm(g, fs, disk') && ino in fs.top && i < MaxBlocks(g)
    ensures FileLoc(g, fs.(disk := disk'), ino, i) == FileLoc(g, fs, ino, i)
    ensures FileBlock(g, fs.(disk := disk'), ino, i) == FileBlock(g, fs, ino, i)
  {
    hide Cover, Pick, Left, Region, MaxBlocks, Calm, Marked;
    CalmOK(g, fs, disk');
    RegionBound(g, i);
    var (j, idx) := Region(g, i);
    if j >= 12 {
      TopRooted(g, fs, ino, j);
      WalkCalm(g, fs, disk', Value(g, fs, Top(ino, j)), j - 11, idx);
    }
    FileLocLive(g, fs, ino, i);
    if FileLoc(g, fs, ino, i).At? {
      ValueCalm(g, fs, disk', FileLoc(g, fs, ino, i).slot);
    }
  }

  /** A block that holds file data is in use as data. */
  lemma FileBlockOwned(g: Geo, fs: Fs, ino: nat, i: nat)
    requires Consistent(g, fs) && ino in fs.top && i < MaxBlocks(g) && FileBlock(g, fs, ino, i) != 0
    ensures FileLoc(g, fs, ino, i).At?
    ensures var b := FileBlock(g, fs, ino, i);
            b in fs.own && fs.own[b] == Owner(FileLoc(g, fs, ino, i).slot, 0) && 0 < b < |fs.disk| && b !in g.meta
  {
    FileLocLive(g, fs, ino, i);
    assert SlotOK(g, fs, FileLoc(g, fs, ino, i).slot);
    assert OwnOK(g, fs, FileBlock(g, fs, ino, i));
  }

  /** No two blocks of files are the same disk block. */
  lemma FileBlocksDistinct(g: Geo, fs: Fs, ino: nat, i: nat, ino': nat, i': nat)
    requires Consistent(g, fs) && ino in fs.top && ino' in fs.top && i < MaxBlocks(g) && i' < MaxBlocks(g)
    requires FileBlock(g, fs, ino, i) == FileBlock(g, fs, ino', i') != 0
    ensures ino == ino' && i == i'
  {
    FileBlockOwned(g, fs, ino, i);
    FileBlockOwned(g, fs, ino', i');
    FileLocInjective(g, fs, ino, i, ino', i');
  }

  /** The block was nobody's, and no block in use changed. */
  lemma AllocatedOK(g: Geo, fs: Fs, fs': Fs, b: nat)
    requires Consistent(g, fs) && Allocated(g, fs, fs', b)
    ensures Calm(g, fs, fs'.disk) && Consistent(g, fs') && Fresh(g, fs', b)
    ensures forall q | q in fs.own && q < |fs.disk| :: fs'.disk[q] == fs.disk[q]
  {
    MarkAfterAlloc(g, fs, fs', b, b);
    GroupInRange(g, b);
    assert b in fs.own ==> OwnOK(g, fs, b);
    forall q | q in fs.own && q < |fs.disk|
      ensures fs'.disk[q] == fs.disk[q]
    {
      assert OwnOK(g, fs, q);
    }
    forall c | Marked(g, fs.disk, c)
      ensures Marked(g, fs'.disk, c)
    {
      MarkAfterAlloc(g, fs, fs', b, c);
    }
    CalmOK(g, fs, fs'.disk);
    assert fs' == fs.(disk := fs'.disk);
  }

  // Linking a fresh block into an empty slot

  ghost predicate Fresh(g: Geo, fs: Fs, b: nat)
    requires GeoOK(g) && DiskOK(g, fs.disk)
  {
    b !in fs.own && 0 < b < g.count && b !in g.meta && Marked(g, fs.disk, b) && fs.disk[b] == Zeros(g.bs)
  }

  ghost function Linked(g: Geo, fs: Fs, s: Slot, b: nat): Fs
    requires Consistent(g, fs) && Live(g, fs, s) && Fresh(g, fs, b)
  {
    var own := fs.own[b := Owner(s, SlotLevel(fs, s))];
    match s
    case Top(ino, j) =>
      var slots: seq<nat> := fs.top[ino][j := b];
      Fs(fs.disk, fs.top[ino := slots], own)
    case Ind(q, j) =>
      assert OwnOK(g, fs, q);
      Fs(fs.disk[q := SetPtr(fs.disk[q], j, b)], fs.top, own)
  }

  /** Only that slot changed; the new block holds no pointers. */
  lemma ValueAfterLink(g: Geo, fs: Fs, s: Slot, b: nat, t: Slot)
    requires Consistent(g, fs) && Live(g, fs, s) && Fresh(g, fs, b) && Live(g, Linked(g, fs, s, b), t)
    ensures Live(g, fs, t) ==> Value(g, Linked(g, fs, s, b), t) == if t == s then b else Value(g, fs, t)
    ensures !Live(g, fs, t) ==> t.Ind? && t.block == b && Value(g, Linked(g, fs, s, b), t) == 0
  {
    if s.Ind? {
      assert OwnOK(g, fs, s.block);
    }
    if t.Ind? && t.block in fs.own {
      assert OwnOK(g, fs, t.block);
      if s.Ind? && t.block == s.block {
        PtrSetPtr(fs.disk[s.block], s.j, b, t.j);
      }
    }
  }

  lemma MarkAfterLink(g: Geo, fs: Fs, s: Slot, b: nat, c: nat)
    requires Consistent(g, fs) && Live(g, fs, s) && Fresh(g, fs, b)
    requires g.first <= c < g.first + |g.bitmaps| * g.bpg
    ensures DiskOK(g, Linked(g, fs, s, b).disk) && (Marked(g, Linked(g, fs, s, b).disk, c) <==> Marked(g, fs.disk, c))
  {
    if s.Ind? {
      assert OwnOK(g, fs, s.block);
    }
    GroupInRange(g, c);
  }

  lemma OwnAfterLink(g: Geo, fs: Fs, s: Slot, b: nat, c: nat)
    requires Consistent(g, fs) && Live(g, fs, s) && Fresh(g, fs, b) && Value(g, fs, s) == 0
    requires c in Linked(g, fs, s, b).own && DiskOK(g, Linked(g, fs, s, b).disk)
    ensures OwnOK(g, Linked(g, fs, s, b), c)
  {
    assert c != b ==> OwnOK(g, fs, c);
    MarkAfterLink(g, fs, s, b, c);
    var t := if c == b then s else fs.own[c].slot;
    LiveGrows(g, fs, s, b, t);
    ValueAfterLink(g, fs, s, b, t);
  }

  lemma SlotAfterLink(g: Geo, fs: Fs, s: Slot, b: nat, t: Slot)
    requires Consistent(g, fs) && Live(g, fs, s) && Fresh(g, fs, b) && Live(g, Linked(g, fs, s, b), t)
    ensures SlotOK(g, Linked(g, fs, s, b), t)
  {
    ValueAfterLink(g, fs, s, b, t);
    if Live(g, fs, t) {
      assert SlotOK(g, fs, t);
    }
  }

  lemma LinkedOK(g: Geo, fs: Fs, s: Slot, b: nat)
    requires Consistent(g, fs) && Live(g, fs, s) && Fresh(g, fs, b) && Value(g, fs, s) == 0
    ensures Consistent(g, Linked(g, fs, s, b))
  {
    hide Value, SlotLevel, OwnOK, SlotOK;
    MarkAfterLink(g, fs, s, b, b);
    forall c | g.first <= c < g.first + |g.bitmaps| * g.bpg
      ensures Marked(g, Linked(g, fs, s, b).disk, c) <==> Marked(g, fs.disk, c)
    {
      MarkAfterLink(g, fs, s, b, c);
    }
    forall c | c in Linked(g, fs, s, b).own
      ensures OwnOK(g, Linked(g, fs, s, b), c)
    {
      OwnAfterLink(g, fs, s, b, c);
    }
    forall t | Live(g, Linked(g, fs, s, b), t)
      ensures SlotOK(g, Linked(g, fs, s, b), t)
    {
      SlotAfterLink(g, fs, s, b, t);
    }
  }

  /** Linking a pointer block changes no file; linking a data block changes the one index whose place it fills. */
  lemma {:induction false} WalkAfterLink(g: Geo, fs: Fs, s: Slot, b: nat, q: nat, depth: nat, idx: nat)
    requires Consistent(g, fs) && Live(g, fs, s) && Fresh(g, fs, b) && Value(g, fs, s) == 0 && Consistent(g, Linked(g, fs, s, b))
    requires Rooted(fs, q, depth) && idx < Cover(g, depth)
    ensures Walk(g, Linked(g, fs, s, b), q, depth, idx) ==
            if SlotLevel(fs, s) == 0 && Loc(g, fs, q, depth, idx) == At(s) then b else Walk(g, fs, q, depth, idx)
    ensures SlotLevel(fs, s) == 0 ==> Loc(g, Linked(g, fs, s, b), q, depth, idx) == Loc(g, fs, q, depth, idx)
    decreases depth
  {
    hide Consistent, Cover, Pick, Left, Value, Linked;
    if q != 0 && depth == 1 {
      LeafAfterLink(g, fs, s, b, q, idx);
    } else if q != 0 && depth > 1 {
      StepDown(g, fs, q, depth, idx);
      var t := Ind(q, Pick(g, depth, idx));
      LiveGrows(g, fs, s, b, t);
      ValueAfterLink(g, fs, s, b, t);
      RootedGrows(g, fs, s, b, q, depth);
      StepDown(g, Linked(g, fs, s, b), q, depth, idx);
      if t == s {
        LevelDown(fs, q, depth, t.j);
        EmptyWalk(g, fs, s, b, depth - 1, Left(g, depth, idx));
      } else {
        WalkAfterLink(g, fs, s, b, Value(g, fs, t), depth - 1, Left(g, depth, idx));
      }
    }
  }

  lemma LeafAfterLink(g: Geo, fs: Fs, s: Slot, b: nat, q: nat, idx: nat)
    requires Consistent(g, fs) && Live(g, fs, s) && Fresh(g, fs, b) && Rooted(fs, q, 1) && q != 0
    requires idx < Cover(g, 1)
    ensures Value(g, Linked(g, fs, s, b), Ind(q, idx)) == if Ind(q, idx) == s then b else Value(g, fs, Ind(q, idx))
    ensures Ind(q, idx) == s ==> SlotLevel(fs, s) == 0
  {
    assert Span(g.Ptrs(), 1) == 1;
    LiveGrows(g, fs, s, b, Ind(q, idx));
    ValueAfterLink(g, fs, s, b, Ind(q, idx));
  }

  lemma RootedGrows(g: Geo, fs: Fs, s: Slot, b: nat, q: nat, depth: nat)
    requires Consistent(g, fs) && Live(g, fs, s) && Fresh(g, fs, b) && Rooted(fs, q, depth)
    ensures Rooted(Linked(g, fs, s, b), q, depth)
  {
  }

  lemma LiveGrows(g: Geo, fs: Fs, s: Slot, b: nat, t: Slot)
    requires Consistent(g, fs) && Live(g, fs, s) && Fresh(g, fs, b) && Live(g, fs, t)
    ensures Live(g, Linked(g, fs, s, b), t)
  {
  }

  lemma LevelDown(fs: Fs, q: nat, depth: nat, j: nat)
    requires q in fs.own && fs.own[q].level == depth && depth > 1
    ensures SlotLevel(fs, Ind(q, j)) == depth - 1 > 0
  {
  }

  /** Below a freshly linked pointer block everything is a hole. */
  lemma EmptyWalk(g: Geo, fs: Fs, s: Slot, b: nat, depth: nat, idx: nat)
    requires Consistent(g, fs) && Live(g, fs, s) && Fresh(g, fs, b) && Consistent(g, Linked(g, fs, s, b))
    requires SlotLevel(fs, s) == depth > 0 && idx < Cover(g, depth)
    ensures Walk(g, Linked(g, fs, s, b), b, depth, idx) == 0
  {
    hide Consistent, Cover, Pick, Left, Value, SlotLevel, Linked, Fresh, Live;
    FreshRooted(g, fs, s, b);
    if depth == 1 {
      UnitSpan(g);
      ZeroSlot(g, fs, s, b, idx);
    } else {
      StepDown(g, Linked(g, fs, s, b), b, depth, idx);
      ZeroSlot(g, fs, s, b, Pick(g, depth, idx));
    }
  }

  lemma FreshRooted(g: Geo, fs: Fs, s: Slot, b: nat)
    requires Consistent(g, fs) && Live(g, fs, s) && Fresh(g, fs, b)
    ensures Rooted(Linked(g, fs, s, b), b, SlotLevel(fs, s)) && b != 0
  {
  }

  lemma UnitSpan(g: Geo)
    ensures Cover(g, 1) == g.Ptrs()
  {
  }

  lemma ZeroSlot(g: Geo, fs: Fs, s: Slot, b: nat, j: nat)
    requires Consistent(g, fs) && Live(g, fs, s) && Fresh(g, fs, b) && SlotLevel(fs, s) > 0 && j < g.Ptrs()
    ensures Value(g, Linked(g, fs, s, b), Ind(b, j)) == 0
  {
    assert Live(g, Linked(g, fs, s, b), Ind(b, j)) && !Live(g, fs, Ind(b, j));
    ValueAfterLink(g, fs, s, b, Ind(b, j));
  }

  lemma FileAfterLink(g: Geo, fs: Fs, s: Slot, b: nat, ino: nat, i: nat)
    requires Consistent(g, fs) && Live(g, fs, s) && Fresh(g, fs, b) && Value(g, fs, s) == 0 && Consistent(g, Linked(g, fs, s, b))
    requires ino in fs.top && i < MaxBlocks(g)
    ensures FileBlock(g, Linked(g, fs, s, b), ino, i) ==
            if SlotLevel(fs, s) == 0 && FileLoc(g, fs, ino, i) == At(s) then b else FileBlock(g, fs, ino, i)
    ensures SlotLevel(fs, s) == 0 ==> FileLoc(g, Linked(g, fs, s, b), ino, i) == FileLoc(g, fs, ino, i)
  {
    RegionBound(g, i);
    var (j, idx) := Region(g, i);
    LiveGrows(g, fs, s, b, Top(ino, j));
    ValueAfterLink(g, fs, s, b, Top(ino, j));
    if j >= 12 {
      TopRooted(g, fs, ino, j);
      if s == Top(ino, j) {
        EmptyWalk(g, fs, s, b, j - 11, idx);
      } else {
        WalkAfterLink(g, fs, s, b, Value(g, fs, Top(ino, j)), j - 11, idx);
      }
    }
  }

  // Growing a file's map

  /** What a reader sees of one block of one file is unchanged; its disk block is too, unless it was a hole and its
      place is now `p`. */
  ghost predicate GrownAt(g: Geo, fs: Fs, fs': Fs, p: Place, ino: nat, i: nat) {
    && Content(g, fs', ino, i) == Content(g, fs, ino, i)
    && (|| FileBlock(g, fs', ino, i) == FileBlock(g, fs, ino, i)
        || (FileBlock(g, fs, ino, i) == 0 && p.At? && FileLoc(g, fs', ino, i) == p))
  }

  ghost predicate Grown(g: Geo, fs: Fs, fs': Fs, p: Place)
    requires Consistent(g, fs) && Consistent(g, fs')
  {
    && fs'.top.Keys == fs.top.Keys
    && (forall b | b in fs.own :: b in fs'.own && fs'.own[b] == fs.own[b])
    && (forall c | Marked(g, fs.disk, c) :: Marked(g, fs'.disk, c))
    && (forall ino, i: nat {:trigger GrownAt(g, fs, fs', p, ino, i)} | ino in fs.top && i < MaxBlocks(g) :: GrownAt(g, fs, fs', p, ino, i))
  }

  lemma GrownTrans(g: Geo, fs: Fs, fs': Fs, fs'': Fs, p: Place)
    requires Consistent(g, fs) && Consistent(g, fs') && Consistent(g, fs'')
    requires Grown(g, fs, fs', Hole) && Grown(g, fs', fs'', p)
    ensures Grown(g, fs, fs'', p)
  {
    hide Consistent, Content, FileBlock, FileLoc, MaxBlocks;
    forall ino, i: nat | ino in fs.top && i < MaxBlocks(g)
      ensures GrownAt(g, fs, fs'', p, ino, i)
    {
      assert GrownAt(g, fs, fs', Hole, ino, i) && GrownAt(g, fs', fs'', p, ino, i);
    }
  }

  /** The place that linking a block into slot `s` fills, if it is a data slot. */
  function Filled(fs: Fs, s: Slot): Place {
    if SlotLevel(fs, s) == 0 then At(s) else Hole
  }

  lemma GrownSame(g: Geo, fs: Fs)
    requires Consistent(g, fs)
    ensures Grown(g, fs, fs, Hole)
  {
  }

  /** Allocating a block and linking it into an empty slot. */
  lemma GrowAt(g: Geo, fs: Fs, fs1: Fs, s: Slot, b: nat, ino: nat, i: nat)
    requires Consistent(g, fs) && Allocated(g, fs, fs1, b) && Consistent(g, fs1) && Calm(g, fs, fs1.disk)
    requires Fresh(g, fs1, b) && Live(g, fs1, s) && Value(g, fs1, s) == 0 && Consistent(g, Linked(g, fs1, s, b))
    requires forall q | q in fs.own && q < |fs.disk| :: fs1.disk[q] == fs.disk[q]
    requires ino in fs.top && i < MaxBlocks(g)
    ensures GrownAt(g, fs, Linked(g, fs1, s, b), Filled(fs, s), ino, i)
  {
    hide Cover, Pick, Left, Region, MaxBlocks, Calm, Marked, FileLoc;
    FileCalm(g, fs, fs1.disk, ino, i);
    assert fs1 == fs.(disk := fs1.disk);
    FileAfterLink(g, fs1, s, b, ino, i);
    if FileBlock(g, fs, ino, i) != 0 {
      FileBlockOwned(g, fs, ino, i);
    }
    assert s.Ind? ==> OwnOK(g, fs1, s.block);
  }

  lemma GrowOK(g: Geo, fs: Fs, fs1: Fs, s: Slot, b: nat)
    requires Consistent(g, fs) && Allocated(g, fs, fs1, b) && Live(g, fs, s) && Value(g, fs, s) == 0
    ensures Consistent(g, fs1) && Fresh(g, fs1, b) && Live(g, fs1, s) && Consistent(g, Linked(g, fs1, s, b))
    ensures Value(g, Linked(g, fs1, s, b), s) == b
    ensures Grown(g, fs, Linked(g, fs1, s, b), Filled(fs, s))
    ensures forall q | q in fs.own && q < |fs.disk| && Ind(q, s.j) != s :: Linked(g, fs1, s, b).disk[q] == fs.disk[q]
  {
    hide Cover, Pick, Left, MaxBlocks, Value, GrownAt, Filled, SlotLevel;
    AllocatedOK(g, fs, fs1, b);
    assert fs1 == fs.(disk := fs1.disk);
    ValueCalm(g, fs, fs1.disk, s);
    LinkedOK(g, fs1, s, b);
    LiveGrows(g, fs1, s, b, s);
    ValueAfterLink(g, fs1, s, b, s);
    forall ino, i: nat | ino in fs.top && i < MaxBlocks(g)
      ensures GrownAt(g, fs, Linked(g, fs1, s, b), Filled(fs, s), ino, i)
    {
      GrowAt(g, fs, fs1, s, b, ino, i);
    }
    forall c | Marked(g, fs.disk, c)
      ensures Marked(g, Linked(g, fs1, s, b).disk, c)
    {
      MarkAfterLink(g, fs1, s, b, c);
    }
  }
}
