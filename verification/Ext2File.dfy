/** Regular files of ext2 as byte arrays. */
module Ext2Files {
  import opened Bytes
  import opened Ext2Disk
  import opened Ext2Map
  import opened Ext2

  // Bytes of a file

  /** Bytes a block map can address. */
  function Capacity(g: Geo): nat { MaxBlocks(g) * g.bs }

  /** Byte `p` of a file, whatever its size says. */
  function ByteAt(g: Geo, fs: Fs, ino: nat, p: nat): byte
    requires g.bs > 0
  {
    var c := Content(g, fs, ino, p / g.bs);
    if p % g.bs < |c| then c[p % g.bs] else 0
  }

  /** `n` bytes from `at` on. */
  function Window(g: Geo, fs: Fs, ino: nat, at: nat, n: nat): (w: seq<byte>)
    requires g.bs > 0
    ensures |w| == n && forall k | 0 <= k < n :: w[k] == ByteAt(g, fs, ino, at + k)
  {
    seq<byte>(n, k requires 0 <= k < n => ByteAt(g, fs, ino, at + k))
  }

  /** What a reader of the whole file gets. */
  function File(g: Geo, fs: Fs, ino: nat, size: nat): (f: seq<byte>)
    requires g.bs > 0
    ensures |f| == size
  {
    Window(g, fs, ino, 0, size)
  }

  /** The file fits its block map and nothing but zeros is stored past its end. */
  ghost predicate Tidy(g: Geo, fs: Fs, ino: nat, size: nat)
    requires g.bs > 0
  {
    size <= Capacity(g) && forall p | size <= p < Capacity(g) :: ByteAt(g, fs, ino, p) == 0
  }

  /** `data` replaces the bytes at `at` of file `ino`; no other byte of any file changes. */
  ghost predicate SplicedAt(g: Geo, fs: Fs, fs': Fs, ino: nat, at: nat, data: seq<byte>, ino': nat, p: nat)
    requires g.bs > 0
  {
    ByteAt(g, fs', ino', p) == if ino' == ino && at <= p < at + |data| then data[p - at] else ByteAt(g, fs, ino', p)
  }

  ghost predicate Spliced(g: Geo, fs: Fs, fs': Fs, ino: nat, at: nat, data: seq<byte>)
    requires g.bs > 0
  {
    forall ino', p: nat {:trigger SplicedAt(g, fs, fs', ino, at, data, ino', p)} | ino' in fs.top && p < Capacity(g) ::
      SplicedAt(g, fs, fs', ino, at, data, ino', p)
  }

  // Offsets

  /** The block index of an offset goes through a 32-bit variable. */
  function IndexOf(g: Geo, pos: nat): nat
    requires g.bs > 0
  {
    pos / g.bs % U32
  }

  /** The offset that is actually used. */
  function Wrapped(g: Geo, pos: nat): nat
    requires g.bs > 0
  {
    pos % (U32 * g.bs)
  }

  lemma Regroup(e: nat, n: nat, d: nat, q: nat, r: nat)
    ensures e * (n * d) + (q * d + r) == (e * n + q) * d + r
  {
    Assoc(e, n, d);
  }

  lemma DivModSum(e: nat, n: nat, d: nat, q: nat, r: nat, x: nat)
    requires q < n && r < d && x == e * (n * d) + (q * d + r)
    ensures x / d % n == q && x % d == r
  {
    Regroup(e, n, d, q, r);
    DivMod(e * n + q, r, d);
    DivMod(e, q, n);
  }

  lemma ModSplit(x: nat, w: nat)
    requires w > 0
    ensures x == x / w * w + x % w && x % w < w && (x % w == x <==> x < w)
  {
  }

  lemma DivModMul(x: nat, d: nat, n: nat, w: nat)
    requires d > 0 && n > 0 && w == n * d && w > 0
    ensures x / d % n == x % w / d && x % d == x % w % d
  {
    ModSplit(x, w);
    MulDiv(x % w, d, n);
    DivModSum(x / w, n, d, x % w / d, x % w % d, x);
  }

  lemma IndexOfWrapped(g: Geo, pos: nat)
    requires g.bs > 0
    ensures IndexOf(g, pos) == Wrapped(g, pos) / g.bs && pos % g.bs == Wrapped(g, pos) % g.bs
  {
    DivModMul(pos, g.bs, U32, U32 * g.bs);
  }

  lemma ModIsExact(x: nat, d: nat, n: nat)
    requires d > 0 && n > 0
    ensures x / d % n == x / d <==> x < n * d
  {
    if x < n * d {
      MulDiv(x, d, n);
    } else {
      if x / d < n {
        MulLe(x / d + 1, n, d);
      }
    }
  }

  /** The block index is right exactly for offsets below 2^32 blocks. */
  lemma IndexIsExact(g: Geo, pos: nat)
    requires g.bs > 0
    ensures IndexOf(g, pos) == pos / g.bs <==> pos < U32 * g.bs
    ensures Wrapped(g, pos) == pos <==> pos < U32 * g.bs
  {
    ModIsExact(pos, g.bs, U32);
    ModSplit(pos, U32 * g.bs);
  }

  lemma WrappedNext(g: Geo, pos: nat, k: nat)
    requires g.bs > 0 && Wrapped(g, pos) + k < U32 * g.bs
    ensures Wrapped(g, pos + k) == Wrapped(g, pos) + k
  {
    var w := U32 * g.bs;
    DivMod(pos / w, Wrapped(g, pos) + k, w);
  }

  // Storing a data block

  ghost function Stored(fs: Fs, b: nat, blk: Block): Fs
    requires b < |fs.disk|
  {
    fs.(disk := fs.disk[b := blk])
  }

  lemma StoredCalm(g: Geo, fs: Fs, b: nat, blk: Block)
    requires Consistent(g, fs) && b in fs.own && fs.own[b].level == 0 && |blk| == g.bs
    ensures b < |fs.disk| && b !in g.meta && Calm(g, fs, Stored(fs, b, blk).disk) && Consistent(g, Stored(fs, b, blk))
  {
    assert OwnOK(g, fs, b);
    forall c | Marked(g, fs.disk, c)
      ensures Marked(g, Stored(fs, b, blk).disk, c)
    {
      GroupInRange(g, c);
    }
    CalmOK(g, fs, Stored(fs, b, blk).disk);
  }

  /** Block `i` of file `ino` reads as `blk`, every other block of every file as before. */
  ghost predicate BlockSetAt(g: Geo, fs: Fs, fs': Fs, ino: nat, i: nat, blk: Block, ino': nat, i': nat) {
    Content(g, fs', ino', i') == if ino' == ino && i' == i then blk else Content(g, fs, ino', i')
  }

  ghost predicate BlockSet(g: Geo, fs: Fs, fs': Fs, ino: nat, i: nat, blk: Block) {
    forall ino', i': nat {:trigger BlockSetAt(g, fs, fs', ino, i, blk, ino', i')} | ino' in fs.top && i' < MaxBlocks(g) ::
      BlockSetAt(g, fs, fs', ino, i, blk, ino', i')
  }

  lemma StoredIsSet(g: Geo, fs: Fs, ino: nat, i: nat, blk: Block)
    requires Consistent(g, fs) && ino in fs.top && i < MaxBlocks(g) && FileBlock(g, fs, ino, i) != 0 && |blk| == g.bs
    ensures FileBlock(g, fs, ino, i) < |fs.disk| && FileBlock(g, fs, ino, i) !in g.meta
    ensures var fs' := Stored(fs, FileBlock(g, fs, ino, i), blk); Consistent(g, fs') && BlockSet(g, fs, fs', ino, i, blk)
  {
    hide Consistent, FileBlock, MaxBlocks, Calm;
    FileBlockOwned(g, fs, ino, i);
    var b := FileBlock(g, fs, ino, i);
    StoredCalm(g, fs, b, blk);
    forall ino', i': nat | ino' in fs.top && i' < MaxBlocks(g)
      ensures BlockSetAt(g, fs, Stored(fs, b, blk), ino, i, blk, ino', i')
    {
      FileCalm(g, fs, Stored(fs, b, blk).disk, ino', i');
      if FileBlock(g, fs, ino', i') == b {
        FileBlocksDistinct(g, fs, ino, i, ino', i');
      }
    }
  }

  /** Growing the map first makes no difference to a reader. */
  lemma SetAfterKept(g: Geo, fs: Fs, fs1: Fs, fs2: Fs, ino: nat, i: nat, blk: Block)
    requires MapsKept(g, fs, fs1, ino, i) && BlockSet(g, fs1, fs2, ino, i, blk) && fs1.top.Keys == fs.top.Keys
    ensures BlockSet(g, fs, fs2, ino, i, blk)
  {
    hide Content, MaxBlocks;
    forall ino', i': nat | ino' in fs.top && i' < MaxBlocks(g)
      ensures BlockSetAt(g, fs, fs2, ino, i, blk, ino', i')
    {
      assert KeptAt(g, fs, fs1, ino, i, ino', i') && BlockSetAt(g, fs1, fs2, ino, i, blk, ino', i');
    }
  }

  lemma ByteInBlock(g: Geo, i: nat, boff: nat, n: nat, p: nat)
    requires g.bs > 0 && boff + n <= g.bs
    ensures i * g.bs + boff <= p < i * g.bs + boff + n <==> p / g.bs == i && boff <= p % g.bs < boff + n
    ensures p / g.bs == i ==> p - (i * g.bs + boff) == p % g.bs - boff
  {
    if i * g.bs <= p < i * g.bs + g.bs {
      DivMod(i, p - i * g.bs, g.bs);
    }
  }

  lemma SetAtSplice(g: Geo, fs: Fs, fs': Fs, ino: nat, i: nat, boff: nat, data: seq<byte>, blk: Block, ino': nat, p: nat)
    requires g.bs > 0 && boff + |data| <= g.bs == |Content(g, fs, ino, i)| && blk == Splice(Content(g, fs, ino, i), boff, data)
    requires BlockSetAt(g, fs, fs', ino, i, blk, ino', p / g.bs)
    ensures SplicedAt(g, fs, fs', ino, i * g.bs + boff, data, ino', p)
  {
    hide Splice, Content, ByteAt, SplicedAt, BlockSetAt;
    ByteInBlock(g, i, boff, |data|, p);
    SpliceAt(Content(g, fs, ino, i), boff, data);
    SplicedByte(g, fs, fs', ino, i, boff, data, blk, ino', p, i * g.bs + boff);
  }

  lemma SplicedByte(g: Geo, fs: Fs, fs': Fs, ino: nat, i: nat, boff: nat, data: seq<byte>, blk: Block, ino': nat, p: nat, at: nat)
    requires g.bs > 0 && boff + |data| <= g.bs == |Content(g, fs, ino, i)| == |blk| && BlockSetAt(g, fs, fs', ino, i, blk, ino', p / g.bs)
    requires forall k | 0 <= k < g.bs :: blk[k] == if boff <= k < boff + |data| then data[k - boff] else Content(g, fs, ino, i)[k]
    requires at <= p < at + |data| <==> p / g.bs == i && boff <= p % g.bs < boff + |data|
    requires p / g.bs == i ==> p - at == p % g.bs - boff
    ensures SplicedAt(g, fs, fs', ino, at, data, ino', p)
  {
    hide Content;
  }

  lemma SetIsSplice(g: Geo, fs: Fs, fs': Fs, ino: nat, i: nat, boff: nat, data: seq<byte>, blk: Block)
    requires Consistent(g, fs) && ino in fs.top && i < MaxBlocks(g) && boff + |data| <= g.bs == |Content(g, fs, ino, i)|
    requires blk == Splice(Content(g, fs, ino, i), boff, data) && BlockSet(g, fs, fs', ino, i, blk)
    ensures Spliced(g, fs, fs', ino, i * g.bs + boff, data)
  {
    hide Consistent, Content, MaxBlocks, FileBlock, Splice, SplicedAt, BlockSetAt;
    var at := i * g.bs + boff;
    forall ino', p: nat | ino' in fs.top && p < Capacity(g)
      ensures SplicedAt(g, fs, fs', ino, at, data, ino', p)
    {
      MulDiv(p, g.bs, MaxBlocks(g));
      assert BlockSetAt(g, fs, fs', ino, i, blk, ino', p / g.bs);
      SetAtSplice(g, fs, fs', ino, i, boff, data, blk, ino', p);
    }
  }

  lemma SpliceSame(g: Geo, fs: Fs, fs': Fs, ino: nat, i: nat, at: nat)
    requires Consistent(g, fs) && MapsKept(g, fs, fs', ino, i)
    ensures Spliced(g, fs, fs', ino, at, [])
  {
    hide Consistent, Content, MaxBlocks, FileBlock;
    forall ino', p: nat | ino' in fs.top && p < Capacity(g)
      ensures SplicedAt(g, fs, fs', ino, at, [], ino', p)
    {
      MulDiv(p, g.bs, MaxBlocks(g));
      assert KeptAt(g, fs, fs', ino, i, ino', p / g.bs);
    }
  }

  lemma SpliceTwice(g: Geo, fs: Fs, fs1: Fs, fs2: Fs, ino: nat, at: nat, d1: seq<byte>, d2: seq<byte>)
    requires g.bs > 0 && fs1.top.Keys == fs.top.Keys
    requires Spliced(g, fs, fs1, ino, at, d1) && Spliced(g, fs1, fs2, ino, at + |d1|, d2)
    ensures Spliced(g, fs, fs2, ino, at, d1 + d2)
  {
    hide ByteAt, Capacity;
    forall ino', p: nat | ino' in fs.top && p < Capacity(g)
      ensures SplicedAt(g, fs, fs2, ino, at, d1 + d2, ino', p)
    {
      assert SplicedAt(g, fs, fs1, ino, at, d1, ino', p) && SplicedAt(g, fs1, fs2, ino, at + |d1|, d2, ino', p);
    }
  }

  // Reading and writing

  datatype Read = Bytes(bytes: seq<byte>) | ReadError(error: Errno)

  datatype Written = Done(count: nat) | WriteError(error: Errno)

  /** One round of the loop of `ext2_write`: all in one block. */
  method WriteChunk(v: Volume, ino: nat, i: nat, boff: nat, data: seq<byte>) returns (r: Result)
    requires v.Valid() && ino in v.inodes && 0 < |data| && boff + |data| <= v.g.bs
    modifies v
    ensures v.Valid() && SameInodes(old(v.inodes), v.inodes)
    ensures r.Ok? ==> i < MaxBlocks(v.g) && Spliced(v.g, old(v.View()), v.View(), ino, i * v.g.bs + boff, data)
    ensures r.Err? ==> r == Err(ENOSYS) && forall at: nat :: Spliced(v.g, old(v.View()), v.View(), ino, at, [])
    ensures r.Err? ==> i >= MaxBlocks(v.g) || NoneFree(v.g, v.disk)
  {
    hide Consistent, Counted, MapsKept, Content, FileBlock, MaxBlocks, Spliced, BlockSet, NoneFree;
    v.ReadyGeo();
    r := v.EnsureFileBlock(ino, i);
    if r.Err? {
      forall at: nat
        ensures Spliced(v.g, old(v.View()), v.View(), ino, at, [])
      {
        SpliceSame(v.g, old(v.View()), v.View(), ino, i, at);
      }
      return;
    }
    v.ReadyGeo();
    ghost var fs1 := v.View();
    BlockRead(v.g, old(v.View()), fs1, ino, i);
    var blk := if boff != 0 || |data| != v.g.bs then v.disk[r.value] else Zeros(v.g.bs);
    blk := Splice(blk, boff, data);
    assert blk == Splice(Content(v.g, old(v.View()), ino, i), boff, data) by { WholeBlock(Content(v.g, old(v.View()), ino, i), Zeros(v.g.bs), data); }
    StoredIsSet(v.g, fs1, ino, i, blk);
    CountedElsewhere(v.g, v.disk, v.disk[r.value := blk], v.free, v.sbFree);
    v.disk := v.disk[r.value := blk];
    SetAfterKept(v.g, old(v.View()), fs1, v.View(), ino, i, blk);
    SetIsSplice(v.g, old(v.View()), v.View(), ino, i, boff, data, blk);
  }

  lemma BlockRead(g: Geo, fs: Fs, fs1: Fs, ino: nat, i: nat)
    requires Consistent(g, fs) && Consistent(g, fs1) && MapsKept(g, fs, fs1, ino, i) && ino in fs.top && ino in fs1.top
    requires i < MaxBlocks(g) && FileBlock(g, fs1, ino, i) != 0
    ensures FileBlock(g, fs1, ino, i) < |fs1.disk| && fs1.disk[FileBlock(g, fs1, ino, i)] == Content(g, fs, ino, i)
    ensures |Content(g, fs, ino, i)| == g.bs
  {
    hide MaxBlocks, FileBlock;
    FileBlockOwned(g, fs1, ino, i);
    assert KeptAt(g, fs, fs1, ino, i, ino, i);
  }

  lemma WholeBlock(c: Block, z: Block, data: seq<byte>)
    requires |data| <= |c| == |z|
    ensures |data| == |c| ==> Splice(c, 0, data) == Splice(z, 0, data)
  {
  }

  lemma MaxBlocksFit(g: Geo)
    requires GeoOK(g)
    ensures MaxBlocks(g) < U32 && Capacity(g) < U32 * g.bs
  {
    MulLe(MaxBlocks(g) + 1, U32, g.bs);
  }

  /** Block index and offset in the block, as the loops compute them from `off + copied`. */
  lemma LoopPosition(g: Geo, off: nat, copied: nat)
    requires GeoOK(g) && (copied > 0 ==> Wrapped(g, off) + copied <= Capacity(g))
    ensures var pos := off + copied; IndexOf(g, pos) * g.bs + pos % g.bs == Wrapped(g, off) + copied
  {
    MaxBlocksFit(g);
    ModSplit(off, U32 * g.bs);
    WrappedNext(g, off, copied);
    IndexOfWrapped(g, off + copied);
    ModSplit(Wrapped(g, off + copied), g.bs);
  }

  lemma ChunkFits(g: Geo, i: nat, boff: nat, n: nat)
    requires boff + n <= g.bs
    ensures i < MaxBlocks(g) ==> i * g.bs + boff + n <= Capacity(g)
    ensures i >= MaxBlocks(g) ==> i * g.bs + boff >= Capacity(g)
  {
    hide MaxBlocks;
    if i < MaxBlocks(g) {
      MulLe(i + 1, MaxBlocks(g), g.bs);
    } else {
      MulLe(MaxBlocks(g), i, g.bs);
    }
  }

  /** A write that stopped after the first `stored` bytes of `buf`. */
  ghost predicate Stopped(g: Geo, fs: Fs, fs': Fs, ino: nat, at: nat, buf: seq<byte>, stored: nat, r: Written)
    requires g.bs > 0
  {
    stored < |buf| && Spliced(g, fs, fs', ino, at, buf[..stored]) && r == if stored == 0 then WriteError(ENOSYS) else Done(0)
  }

  /** It leaves nothing past the end of the file exactly if it stored only zeros there. */
  lemma StoppedTidyIff(g: Geo, fs: Fs, fs': Fs, ino: nat, at: nat, data: seq<byte>, size: nat)
    requires g.bs > 0 && ino in fs.top && Tidy(g, fs, ino, size) && Spliced(g, fs, fs', ino, at, data)
    requires data != [] ==> at + |data| <= Capacity(g)
    ensures Tidy(g, fs', ino, size) <==> forall k | 0 <= k < |data| :: at + k < size || data[k] == 0
  {
    hide ByteAt, Capacity;
    forall p | 0 <= p < Capacity(g)
      ensures ByteAt(g, fs', ino, p) == if at <= p < at + |data| then data[p - at] else ByteAt(g, fs, ino, p)
    {
      assert SplicedAt(g, fs, fs', ino, at, data, ino, p);
    }
    if Tidy(g, fs', ino, size) {
      forall k | 0 <= k < |data|
        ensures at + k < size || data[k] == 0
      {
        assert ByteAt(g, fs', ino, at + k) == data[k];
      }
    }
  }

  lemma StoredTidyIff(g: Geo, fs: Fs, fs': Fs, ino: nat, at: nat, buf: seq<byte>, stored: nat, size: nat)
    requires g.bs > 0 && ino in fs.top && stored <= |buf| && Spliced(g, fs, fs', ino, at, buf[..stored])
    requires stored > 0 ==> at + stored <= Capacity(g)
    ensures Tidy(g, fs, ino, size) ==>
              (Tidy(g, fs', ino, size) <==> forall k | 0 <= k < |buf| :: k < stored && at + k >= size ==> buf[k] == 0)
  {
    hide Spliced, Tidy, Capacity;
    var data := buf[..stored];
    if Tidy(g, fs, ino, size) {
      StoppedTidyIff(g, fs, fs', ino, at, data, size);
      assert forall k | 0 <= k < stored :: data[k] == buf[k];
    }
  }

  /** `ext2_write`: a completed write is a splice at the wrapped offset and the size becomes the largest extent; one that
      stops early has stored some prefix, reports no bytes and leaves the size alone. Then the file stays tidy exactly if
      what was stored past its end is zero. Unless the disk is full, what was stored is all that the block map reaches. */
  method Write(v: Volume, ino: nat, off: nat, buf: seq<byte>) returns (r: Written, ghost stored: nat)
    requires v.Valid() && ino in v.inodes
    modifies v
    ensures v.Valid() && v.inodes.Keys == old(v.inodes.Keys)
    ensures forall ino' | ino' in v.inodes && ino' != ino :: v.inodes[ino'].size == old(v.inodes)[ino'].size
    ensures r == Done(|buf|) ==> Spliced(v.g, old(v.View()), v.View(), ino, Wrapped(v.g, off), buf)
    ensures r == Done(|buf|) && buf != [] ==> Wrapped(v.g, off) + |buf| <= Capacity(v.g)
    ensures r == Done(|buf|) && buf != [] ==> v.inodes[ino].size == Max(old(v.inodes)[ino].size, off + |buf|)
    ensures r == Done(|buf|) && buf != [] && off < U32 * v.g.bs ==>
              Step(v.g, ImageOf(old(v.View()), old(v.inodes)), ImageOf(v.View(), v.inodes), Op(ino, off, buf))
    ensures r != Done(|buf|) ==> v.inodes[ino].size == old(v.inodes)[ino].size
    ensures r != Done(|buf|) ==> Stopped(v.g, old(v.View()), v.View(), ino, Wrapped(v.g, off), buf, stored, r)
    ensures r != Done(|buf|) && old(Tidy(v.g, v.View(), ino, v.inodes[ino].size)) ==>
              (Tidy(v.g, v.View(), ino, v.inodes[ino].size) <==>
               forall k | 0 <= k < |buf| :: k < stored && Wrapped(v.g, off) + k >= v.inodes[ino].size ==> buf[k] == 0)
    ensures r != Done(|buf|) ==> NoneFree(v.g, v.disk) || stored == Reachable(v.g, Wrapped(v.g, off)) < |buf|
  {
    hide Consistent, Counted, Spliced, NoneFree, Capacity, Wrapped, Tidy;
    v.ReadyGeo();
    IndexIsExact(v.g, off);
    if |buf| == 0 {
      SpliceNothing(v.g, v.View(), ino, Wrapped(v.g, off));
      return Done(0), 0;
    }
    var copied, e := WriteLoop(v, ino, off, buf);
    if copied < |buf| {
      StoredTidyIff(v.g, old(v.View()), v.View(), ino, Wrapped(v.g, off), buf, copied, v.inodes[ino].size);
      r := if copied > 0 then Done(0) else WriteError(e.error);
      return r, copied;
    }
    assert buf[..copied] == buf;
    if off + copied > v.inodes[ino].size {
      v.inodes := v.inodes[ino := v.inodes[ino].(size := off + copied)];
    }
    return Done(copied), copied;
  }

  /** Bytes from `at` on that the block map reaches. */
  function Reachable(g: Geo, at: nat): nat {
    if at < Capacity(g) then Capacity(g) - at else 0
  }

  lemma SpliceNothing(g: Geo, fs: Fs, ino: nat, at: nat)
    requires Consistent(g, fs)
    ensures Spliced(g, fs, fs, ino, at, [])
  {
    GrownSame(g, fs);
    UnchangedIsKept(g, fs, fs, ino, 0);
    SpliceSame(g, fs, fs, ino, 0, at);
  }

  /** The loop of `ext2_write`: how much was stored, and why it stopped. */
  method WriteLoop(v: Volume, ino: nat, off: nat, buf: seq<byte>) returns (copied: nat, e: Result)
    requires v.Valid() && ino in v.inodes
    modifies v
    ensures v.Valid() && SameInodes(old(v.inodes), v.inodes) && copied <= |buf|
    ensures Spliced(v.g, old(v.View()), v.View(), ino, Wrapped(v.g, off), buf[..copied])
    ensures copied > 0 ==> Wrapped(v.g, off) + copied <= Capacity(v.g)
    ensures copied < |buf| ==> e == Err(ENOSYS) && (copied == Reachable(v.g, Wrapped(v.g, off)) || NoneFree(v.g, v.disk))
  {
    hide Consistent, Counted, MaxBlocks, Spliced, NoneFree, Capacity, IndexOf, Wrapped;
    v.ReadyGeo();
    ghost var at := Wrapped(v.g, off);
    SpliceNothing(v.g, v.View(), ino, at);
    assert buf[..0] == [];
    var bs := v.g.bs;
    copied, e := 0, Ok(0);
    while copied < |buf|
      invariant copied <= |buf| && v.Valid() && SameInodes(old(v.inodes), v.inodes)
      invariant Spliced(v.g, old(v.View()), v.View(), ino, at, buf[..copied])
      invariant copied > 0 ==> at + copied <= Capacity(v.g)
    {
      var pos := off + copied;
      var fblk, boff := IndexOf(v.g, pos), pos % bs;
      var chunk := Min(bs - boff, |buf| - copied);
      LoopPosition(v.g, off, copied);
      ChunkFits(v.g, fblk, boff, chunk);
      ghost var fs1 := v.View();
      e := WriteChunk(v, ino, fblk, boff, buf[copied..copied + chunk]);
      if e.Err? {
        SpliceTwice(v.g, old(v.View()), fs1, v.View(), ino, at, buf[..copied], []);
        assert buf[..copied] + [] == buf[..copied];
        return;
      }
      SpliceTwice(v.g, old(v.View()), fs1, v.View(), ino, at, buf[..copied], buf[copied..copied + chunk]);
      assert buf[..copied] + buf[copied..copied + chunk] == buf[..copied + chunk];
      copied := copied + chunk;
    }
  }

  /** `ext2_read` of a regular file: what is stored, at most to its end. */
  method ReadFile(v: Volume, ino: nat, off: nat, len: nat) returns (r: Read)
    requires v.Valid() && ino in v.inodes
    ensures r.Bytes? ==> r.bytes == Window(v.g, v.View(), ino, Wrapped(v.g, off), Readable(v.inodes[ino].size, off, len))
    ensures r.ReadError? ==> Wrapped(v.g, off) + Readable(v.inodes[ino].size, off, len) > Capacity(v.g)
    ensures Tidy(v.g, v.View(), ino, v.inodes[ino].size) ==>
              r == Bytes(ReadBytes(File(v.g, v.View(), ino, v.inodes[ino].size), off, len))
    ensures Tidy(v.g, v.View(), ino, v.inodes[ino].size) ==>
              && r.Bytes? && (off >= v.inodes[ino].size ==> r.bytes == [])
              && (off < v.inodes[ino].size ==>
                    && |r.bytes| == (if len <= v.inodes[ino].size - off then len else v.inodes[ino].size - off)
                    && forall k | 0 <= k < |r.bytes| :: r.bytes[k] == ByteAt(v.g, v.View(), ino, off + k))
  {
    ReadRefines(v.g, v.View(), ino, v.inodes[ino].size, off, len);
    hide Consistent, Counted, Capacity, Wrapped, ByteAt;
    var n := Readable(v.inodes[ino].size, off, len);
    if n == 0 { return Bytes([]); }
    r := ReadLoop(v, ino, off, n);
  }

  /** Its loop. */
  method ReadLoop(v: Volume, ino: nat, off: nat, n: nat) returns (r: Read)
    requires v.Valid() && ino in v.inodes && n > 0
    ensures r.Bytes? ==> r.bytes == Window(v.g, v.View(), ino, Wrapped(v.g, off), n)
    ensures r.ReadError? ==> Wrapped(v.g, off) + n > Capacity(v.g)
  {
    hide Consistent, Counted, MaxBlocks, Capacity, IndexOf, Wrapped, FileBlock, ByteAt, Window, Content, Follow;
    v.ReadyGeo();
    ghost var at := Wrapped(v.g, off);
    var bs := v.g.bs;
    var bytes := [];
    while |bytes| < n
      invariant |bytes| <= n && bytes == Window(v.g, v.View(), ino, at, |bytes|)
      invariant |bytes| > 0 ==> at + |bytes| <= Capacity(v.g)
    {
      var pos := off + |bytes|;
      var fblk, boff := IndexOf(v.g, pos), pos % bs;
      var chunk := Min(bs - boff, n - |bytes|);
      LoopPosition(v.g, off, |bytes|);
      ChunkFits(v.g, fblk, boff, chunk);
      var b := v.FileBlockOf(ino, fblk);
      if b.Err? { return ReadError(b.error); }
      BlockBytes(v.g, v.View(), ino, fblk);
      var blk := if b.value != 0 then v.disk[b.value] else Zeros(bs);
      WindowGrows(v.g, v.View(), ino, at, |bytes|, fblk, boff, chunk);
      bytes := bytes + blk[boff..boff + chunk];
    }
    return Bytes(bytes);
  }

  function Readable(size: nat, off: nat, len: nat): nat {
    if off >= size then 0 else Min(len, size - off)
  }

  lemma BlockBytes(g: Geo, fs: Fs, ino: nat, i: nat)
    requires Consistent(g, fs) && ino in fs.top && i < MaxBlocks(g)
    ensures FileBlock(g, fs, ino, i) < |fs.disk| || FileBlock(g, fs, ino, i) == 0
    ensures Content(g, fs, ino, i) == (if FileBlock(g, fs, ino, i) == 0 then Zeros(g.bs) else fs.disk[FileBlock(g, fs, ino, i)])
    ensures |Content(g, fs, ino, i)| == g.bs
  {
    hide FileBlock, MaxBlocks;
    if FileBlock(g, fs, ino, i) != 0 {
      FileBlockOwned(g, fs, ino, i);
    }
  }

  lemma ByteOfBlock(g: Geo, fs: Fs, ino: nat, i: nat, k: nat)
    requires g.bs > 0 && |Content(g, fs, ino, i)| == g.bs && k < g.bs
    ensures ByteAt(g, fs, ino, i * g.bs + k) == Content(g, fs, ino, i)[k]
  {
    DivMod(i, k, g.bs);
  }

  /** Byte `k` of block `i` is that byte of the disk block the map names, or zero in a hole. */
  lemma StoredByte(g: Geo, fs: Fs, ino: nat, i: nat, k: nat)
    requires Consistent(g, fs) && ino in fs.top && i < MaxBlocks(g) && k < g.bs
    ensures var b := FileBlock(g, fs, ino, i);
            if b == 0 then ByteAt(g, fs, ino, i * g.bs + k) == 0
            else b < |fs.disk| && k < |fs.disk[b]| && ByteAt(g, fs, ino, i * g.bs + k) == fs.disk[b][k]
  {
    hide Consistent, FileBlock, MaxBlocks, ByteAt;
    BlockBytes(g, fs, ino, i);
    ByteOfBlock(g, fs, ino, i, k);
  }

  lemma WindowGrows(g: Geo, fs: Fs, ino: nat, at: nat, m: nat, i: nat, boff: nat, n: nat)
    requires g.bs > 0 && |Content(g, fs, ino, i)| == g.bs && boff + n <= g.bs && i * g.bs + boff == at + m
    ensures Window(g, fs, ino, at, m) + Content(g, fs, ino, i)[boff..boff + n] == Window(g, fs, ino, at, m + n)
  {
    hide Content, ByteAt;
    var w, w' := Window(g, fs, ino, at, m) + Content(g, fs, ino, i)[boff..boff + n], Window(g, fs, ino, at, m + n);
    forall k | 0 <= k < m + n
      ensures w[k] == w'[k]
    {
      if k >= m {
        ByteOfBlock(g, fs, ino, i, boff + k - m);
      }
    }
  }

  // Files as byte arrays

  /** A completed write is a write to the byte array, and stores nothing past the new end; other files do not change. */
  lemma WriteRefines(g: Geo, fs: Fs, fs': Fs, ino: nat, size: nat, off: nat, data: seq<byte>)
    requires g.bs > 0 && ino in fs.top && Tidy(g, fs, ino, size) && Spliced(g, fs, fs', ino, off, data)
    requires off + |data| <= Capacity(g)
    ensures Tidy(g, fs', ino, Max(size, off + |data|))
    ensures File(g, fs', ino, Max(size, off + |data|)) == WriteBytes(File(g, fs, ino, size), off, data)
  {
    hide ByteAt, Capacity;
    forall p: nat | p < Capacity(g)
      ensures ByteAt(g, fs', ino, p) == if off <= p < off + |data| then data[p - off] else ByteAt(g, fs, ino, p)
    {
      assert SplicedAt(g, fs, fs', ino, off, data, ino, p);
    }
  }

  /** An offset of 2^32 blocks is not a place of its own: what is written there replaces the start of the file. */
  lemma FarWriteHitsTheStart(g: Geo, fs: Fs, fs': Fs, ino: nat, data: seq<byte>)
    requires GeoOK(g) && ino in fs.top && data != [] && Spliced(g, fs, fs', ino, Wrapped(g, U32 * g.bs), data)
    ensures ByteAt(g, fs', ino, 0) == data[0]
  {
    assert Wrapped(g, U32 * g.bs) == 0;
    assert Capacity(g) > 0 by { MulLe(1, MaxBlocks(g), g.bs); }
    assert SplicedAt(g, fs, fs', ino, 0, data, ino, 0);
  }

  lemma WriteElsewhere(g: Geo, fs: Fs, fs': Fs, ino: nat, off: nat, data: seq<byte>, ino': nat, size: nat)
    requires g.bs > 0 && ino' in fs.top && ino' != ino && Tidy(g, fs, ino', size) && Spliced(g, fs, fs', ino, off, data)
    ensures Tidy(g, fs', ino', size) && File(g, fs', ino', size) == File(g, fs, ino', size)
  {
    hide ByteAt, Capacity;
    forall p: nat | p < Capacity(g)
      ensures ByteAt(g, fs', ino', p) == ByteAt(g, fs, ino', p)
    {
      assert SplicedAt(g, fs, fs', ino, off, data, ino', p);
    }
  }

  /** Reading from a byte array. */
  function ReadBytes(f: seq<byte>, off: nat, len: nat): seq<byte> {
    if off >= |f| then [] else f[off..off + Min(len, |f| - off)]
  }

  lemma ReadRefines(g: Geo, fs: Fs, ino: nat, size: nat, off: nat, len: nat)
    requires Consistent(g, fs)
    ensures Tidy(g, fs, ino, size) ==>
              && (Readable(size, off, len) > 0 ==> Wrapped(g, off) + Readable(size, off, len) <= Capacity(g))
              && Window(g, fs, ino, Wrapped(g, off), Readable(size, off, len)) == ReadBytes(File(g, fs, ino, size), off, len)
  {
    hide Capacity, ByteAt;
    MaxBlocksFit(g);
    IndexIsExact(g, off);
  }

  // Runs of writes

  datatype Op = Op(ino: nat, off: nat, data: seq<byte>)

  /** A volume as the file operations see it. */
  datatype Image = Image(fs: Fs, size: map<nat, nat>)

  function ImageOf(fs: Fs, inodes: map<nat, Inode>): Image {
    Image(fs, map ino | ino in inodes :: inodes[ino].size)
  }

  /** What a completed `Write` below 2^32 blocks leaves behind. */
  ghost predicate Step(g: Geo, s: Image, s': Image, op: Op)
    requires g.bs > 0
  {
    && s.fs.top.Keys == s.size.Keys == s'.fs.top.Keys && op.ino in s.size && op.off + |op.data| <= Capacity(g)
    && Spliced(g, s.fs, s'.fs, op.ino, op.off, op.data)
    && s'.size == s.size[op.ino := Max(s.size[op.ino], op.off + |op.data|)]
  }

  ghost predicate Run(g: Geo, ss: seq<Image>, ops: seq<Op>)
    requires g.bs > 0
  {
    |ss| == |ops| + 1 && forall k {:trigger ops[k]} | 0 <= k < |ops| :: Step(g, ss[k], ss[k + 1], ops[k])
  }

  /** The largest extent ever written, or the initial size. */
  function Extent(size: nat, ops: seq<Op>, ino: nat): nat {
    if ops == [] then size
    else
      var op, n := ops[|ops| - 1], Extent(size, ops[..|ops| - 1], ino);
      if op.ino == ino then Max(n, op.off + |op.data|) else n
  }

  /** The byte of the last write that covers `p`; before any, the initial byte, and zero past the initial end. */
  function LastWritten(f: seq<byte>, ops: seq<Op>, ino: nat, p: nat): byte {
    if ops == [] then if p < |f| then f[p] else 0
    else
      var op := ops[|ops| - 1];
      if op.ino == ino && op.off <= p < op.off + |op.data| then op.data[p - op.off]
      else LastWritten(f, ops[..|ops| - 1], ino, p)
  }

  ghost predicate AllTidy(g: Geo, s: Image)
    requires g.bs > 0
  {
    forall ino | ino in s.size :: Tidy(g, s.fs, ino, s.size[ino])
  }

  /** `f'` is what a run of writes makes of `f`. */
  ghost predicate Holds(f: seq<byte>, ops: seq<Op>, ino: nat, f': seq<byte>) {
    && |f'| == Extent(|f|, ops, ino)
    && forall p: nat {:trigger LastWritten(f, ops, ino, p)} {:trigger f'[p]} | p < |f'| :: f'[p] == LastWritten(f, ops, ino, p)
  }

  lemma HoldsNext(f: seq<byte>, ops: seq<Op>, op: Op, ino: nat, f1: seq<byte>)
    requires Holds(f, ops, ino, f1)
    ensures Holds(f, ops + [op], ino, if ino == op.ino then WriteBytes(f1, op.off, op.data) else f1)
  {
    var ops' := ops + [op];
    var f' := if ino == op.ino then WriteBytes(f1, op.off, op.data) else f1;
    assert ops'[..|ops'| - 1] == ops && ops'[|ops'| - 1] == op;
    forall p: nat | p < |f'|
      ensures f'[p] == LastWritten(f, ops', ino, p)
    {
      if p < |f1| {
        assert f1[p] == LastWritten(f, ops, ino, p);
      } else {
        BeyondExtent(f, ops, ino, p);
      }
    }
  }

  /** After any run of completed writes every file is as long as the largest extent written and holds, at each
      position, what was written there last; holes and gaps are zero. */
  lemma {:induction false} RunKeepsLastWrites(g: Geo, ss: seq<Image>, ops: seq<Op>, n: nat, ino: nat)
    requires g.bs > 0 && Run(g, ss, ops) && n <= |ops| && AllTidy(g, ss[0]) && ino in ss[0].size
    ensures AllTidy(g, ss[n]) && ino in ss[n].size
    ensures Holds(File(g, ss[0].fs, ino, ss[0].size[ino]), ops[..n], ino, File(g, ss[n].fs, ino, ss[n].size[ino]))
  {
    hide Tidy, Spliced, File, WriteBytes;
    if n > 0 {
      RunKeepsLastWrites(g, ss, ops, n - 1, ino);
      var op := ops[n - 1];
      assert Step(g, ss[n - 1], ss[n], op);
      StepTidy(g, ss[n - 1], ss[n], op);
      StepFile(g, ss[n - 1], ss[n], op, ino);
      HoldsNext(File(g, ss[0].fs, ino, ss[0].size[ino]), ops[..n - 1], op, ino, File(g, ss[n - 1].fs, ino, ss[n - 1].size[ino]));
      assert ops[..n - 1] + [op] == ops[..n];
    }
  }

  lemma StepTidy(g: Geo, s: Image, s': Image, op: Op)
    requires g.bs > 0 && AllTidy(g, s) && Step(g, s, s', op)
    ensures AllTidy(g, s')
  {
    hide Tidy, Spliced, File;
    forall ino | ino in s'.size
      ensures Tidy(g, s'.fs, ino, s'.size[ino])
    {
      if ino == op.ino {
        WriteRefines(g, s.fs, s'.fs, ino, s.size[ino], op.off, op.data);
      } else {
        WriteElsewhere(g, s.fs, s'.fs, op.ino, op.off, op.data, ino, s.size[ino]);
      }
    }
  }

  lemma StepFile(g: Geo, s: Image, s': Image, op: Op, ino: nat)
    requires g.bs > 0 && AllTidy(g, s) && Step(g, s, s', op) && ino in s.size
    ensures File(g, s'.fs, ino, s'.size[ino]) ==
            if ino == op.ino then WriteBytes(File(g, s.fs, ino, s.size[ino]), op.off, op.data) else File(g, s.fs, ino, s.size[ino])
  {
    hide Tidy, Spliced, File;
    if ino == op.ino {
      WriteRefines(g, s.fs, s'.fs, ino, s.size[ino], op.off, op.data);
    } else {
      WriteElsewhere(g, s.fs, s'.fs, op.ino, op.off, op.data, ino, s.size[ino]);
    }
  }

  lemma {:induction false} BeyondExtent(f: seq<byte>, ops: seq<Op>, ino: nat, p: nat)
    requires p >= Extent(|f|, ops, ino)
    ensures LastWritten(f, ops, ino, p) == 0
    decreases |ops|
  {
    if ops != [] {
      BeyondExtent(f, ops[..|ops| - 1], ino, p);
    }
  }
}
