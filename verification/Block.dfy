/** Block devices and partitions, and byte-granular access to them. */
module BlockLayer {
  import opened Bytes

  /** Bytes in `n` blocks. */
  function Mul(n: nat, bs: nat): nat { n * bs }

  /** The block a byte position is in, and the position within it. */
  function LbaOf(pos: nat, bs: nat): nat
    requires bs > 0
  {
    pos / bs
  }

  function OffIn(pos: nat, bs: nat): nat
    requires bs > 0
  {
    pos % bs
  }

  datatype Errno = EINVAL | ENOSYS

  datatype Result = Success | Failure(error: Errno)

  /** A driver's device: `count` blocks of `bs` bytes, without I/O errors. */
  class Disk {
    const bs: nat
    const count: nat
    const writable: bool
    var data: seq<byte>

    constructor (bs: nat, writable: bool, data: seq<byte>, count: nat)
      requires |data| == Mul(count, bs)
      ensures this.bs == bs && this.count == count && this.writable == writable && this.data == data
    {
      this.bs, this.count, this.writable, this.data := bs, count, writable, data;
    }
  }

  /** A whole disk of `total` blocks of `size` bytes, or a run of blocks of another device. */
  datatype Device = Whole(size: nat, total: nat) | Partition(parent: Device, start: nat, count: nat) {

    function BlockSize(): nat {
      if Whole? then size else parent.BlockSize()
    }

    function Blocks(): nat {
      if Whole? then total else count
    }

    /** Blocks of the whole disk. */
    function DiskBlocks(): nat {
      if Whole? then total else parent.DiskBlocks()
    }

    /** The first block, counted on the disk. */
    function Base(): nat {
      if Whole? then 0 else parent.Base() + start
    }

    /** Partitions lie within their parents, as `block_register_partition` checks. */
    ghost predicate Nested() {
      Partition? ==> parent.Nested() && start < parent.Blocks() && count <= parent.Blocks() - start
    }

    function Size(): nat { Mul(Blocks(), BlockSize()) }

    lemma {:induction false} WithinDisk()
      requires Nested()
      ensures Base() + Blocks() <= DiskBlocks()
    {
      if Partition? {
        parent.WithinDisk();
      }
    }
  }

  /** `dev` is `disk` or some part of it. */
  ghost predicate On(dev: Device, disk: Disk)
    reads disk
  {
    dev.Nested() && dev.BlockSize() == disk.bs && dev.DiskBlocks() == disk.count && |disk.data| == Mul(disk.count, disk.bs)
  }

  /** `block_register_partition`: a partition that does not fit its device is not registered. */
  method RegisterPartition(dev: Device, number: nat, start: nat, count: nat) returns (part: seq<Device>)
    requires dev.Nested()
    ensures part != [] <==> number != 0 && count != 0 && start + count <= dev.Blocks()
    ensures part != [] ==> part == [Partition(dev, start, count)] && part[0].Nested() && part[0].BlockSize() == dev.BlockSize() && part[0].DiskBlocks() == dev.DiskBlocks()
  {
    if number == 0 || count == 0 { return []; }
    if start >= dev.Blocks() || count > dev.Blocks() - start { return []; }
    part := [Partition(dev, start, count)];
  }

  // Byte positions

  /** A device's first byte on the disk. */
  function Origin(dev: Device): nat { Mul(dev.Base(), dev.BlockSize()) }

  /** A partition starts that many blocks into its parent, and is that many blocks long. */
  lemma PartitionPlace(parent: Device, start: nat, count: nat)
    ensures var part, bs := Partition(parent, start, count), parent.BlockSize();
            Origin(part) == Origin(parent) + start * bs && part.Size() == count * bs && part.BlockSize() == bs
    ensures forall size: nat, total: nat :: Origin(Whole(size, total)) == 0 && Whole(size, total).Size() == total * size
  {
    Distribute(parent.Base(), start, parent.BlockSize());
  }

  lemma Distribute(a: nat, b: nat, d: nat)
    ensures Mul(a + b, d) == Mul(a, d) + Mul(b, d)
  {
  }

  lemma MulUp(a: nat, b: nat, d: nat)
    ensures a <= b ==> Mul(a, d) <= Mul(b, d)
  {
    MulMono(a, b, d);
  }

  lemma One(bs: nat)
    ensures Mul(1, bs) == bs && Mul(0, bs) == 0
  {
  }

  lemma InsideDisk(dev: Device)
    requires dev.Nested()
    ensures Origin(dev) + dev.Size() <= Mul(dev.DiskBlocks(), dev.BlockSize())
  {
    hide Mul;
    dev.WithinDisk();
    Distribute(dev.Base(), dev.Blocks(), dev.BlockSize());
    MulUp(dev.Base() + dev.Blocks(), dev.DiskBlocks(), dev.BlockSize());
  }

  // Whole blocks

  /** `read_blocks` of a disk, and `part_read_blocks`. */
  method ReadBlocks(disk: Disk, dev: Device, lba: nat, n: nat, buf: seq<byte>) returns (r: Result, out: seq<byte>)
    requires On(dev, disk) && Mul(n, dev.BlockSize()) <= |buf|
    ensures r == if n == 0 || lba + n <= dev.Blocks() then Success else Failure(EINVAL)
    ensures |out| == |buf|
    ensures r.Success? && n > 0 ==> Origin(dev) + Mul(lba, dev.BlockSize()) + Mul(n, dev.BlockSize()) <= |disk.data|
    ensures var bs, at := dev.BlockSize(), Origin(dev) + Mul(lba, dev.BlockSize());
            out == if r.Failure? || n == 0 then buf else disk.data[at..at + Mul(n, bs)] + buf[Mul(n, bs)..]
    decreases dev
  {
    hide Mul;
    if n == 0 { return Success, buf; }
    if lba >= dev.Blocks() || n > dev.Blocks() - lba { return Failure(EINVAL), buf; }
    Distribute(lba, n, dev.BlockSize());
    MulUp(lba + n, dev.Blocks(), dev.BlockSize());
    InsideDisk(dev);
    match dev {
      case Whole(_, _) =>
        out := disk.data[Mul(lba, dev.BlockSize())..Mul(lba + n, dev.BlockSize())] + buf[Mul(n, dev.BlockSize())..];
        r := Success;
      case Partition(parent, start, count) =>
        r, out := ReadBlocks(disk, parent, start + lba, n, buf);
        Distribute(start, lba, dev.BlockSize());
        Distribute(parent.Base(), start, dev.BlockSize());
    }
  }

  /** `write_blocks` of a disk, and `part_write_blocks`. */
  method WriteBlocks(disk: Disk, dev: Device, lba: nat, n: nat, buf: seq<byte>) returns (r: Result)
    requires On(dev, disk) && Mul(n, dev.BlockSize()) <= |buf| && disk.writable
    modifies disk
    ensures r == if n == 0 || lba + n <= dev.Blocks() then Success else Failure(EINVAL)
    ensures r.Success? && n > 0 ==> Origin(dev) + Mul(lba, dev.BlockSize()) + Mul(n, dev.BlockSize()) <= |old(disk.data)|
    ensures disk.data == if r.Failure? || n == 0 then old(disk.data)
                               else Splice(old(disk.data), Origin(dev) + Mul(lba, dev.BlockSize()), buf[..Mul(n, dev.BlockSize())])
    decreases dev
  {
    hide Mul, Splice;
    if n == 0 { return Success; }
    if lba >= dev.Blocks() || n > dev.Blocks() - lba { return Failure(EINVAL); }
    Distribute(lba, n, dev.BlockSize());
    MulUp(lba + n, dev.Blocks(), dev.BlockSize());
    InsideDisk(dev);
    match dev {
      case Whole(_, _) =>
        disk.data := Splice(disk.data, Mul(lba, dev.BlockSize()), buf[..Mul(n, dev.BlockSize())]);
        r := Success;
      case Partition(parent, start, count) =>
        r := WriteBlocks(disk, parent, start + lba, n, buf);
        Distribute(start, lba, dev.BlockSize());
        Distribute(parent.Base(), start, dev.BlockSize());
    }
  }

  // Bytes

  predicate InRange(dev: Device, off: nat, len: nat) {
    dev.BlockSize() > 0 && off < dev.Size() && len <= dev.Size() - off
  }

  /** How many bytes a transfer moves: the aligned path passes its block count as a 32-bit number. */
  function Moved(dev: Device, off: nat, len: nat): nat
    requires dev.BlockSize() > 0
  {
    var bs := dev.BlockSize();
    if OffIn(off, bs) == 0 && OffIn(len, bs) == 0 then Mul(LbaOf(len, bs) % U32, bs) else len
  }

  /** Everything is moved exactly when the path is the bounced one or the length is below 2^32 blocks. */
  lemma MovesAll(dev: Device, off: nat, len: nat)
    requires dev.BlockSize() > 0
    ensures var bs := dev.BlockSize();
            Moved(dev, off, len) == len <==> OffIn(off, bs) != 0 || OffIn(len, bs) != 0 || len < Mul(U32, bs)
    ensures Moved(dev, off, len) <= len
  {
    hide Mul, OffIn, LbaOf;
    if OffIn(len, dev.BlockSize()) == 0 {
      Truncates(len, dev.BlockSize());
    }
  }

  lemma WholeBlocks(len: nat, bs: nat)
    requires bs > 0 && OffIn(len, bs) == 0
    ensures len == Mul(LbaOf(len, bs), bs)
  {
  }

  lemma Truncates(len: nat, bs: nat)
    requires bs > 0 && OffIn(len, bs) == 0
    ensures Mul(LbaOf(len, bs) % U32, bs) <= len && (Mul(LbaOf(len, bs) % U32, bs) == len <==> len < Mul(U32, bs))
  {
    var q := LbaOf(len, bs);
    WholeBlocks(len, bs);
    hide Mul, LbaOf, OffIn;
    if q < U32 {
      MulLt(q, U32, bs);
    } else {
      if q > U32 {
        MulLt(U32, q, bs);
      }
      MulLt(q % U32, q, bs);
    }
  }

  lemma MulLt(a: nat, b: nat, d: nat)
    requires a < b && d > 0
    ensures Mul(a, d) < Mul(b, d)
  {
    Bytes.MulLe(a + 1, b, d);
  }

  lemma HugeMovesNothing(bs: nat)
    requires bs > 0
    ensures OffIn(0, bs) == 0 && OffIn(Mul(U32, bs), bs) == 0 && LbaOf(Mul(U32, bs), bs) == U32 && Mul(0, bs) == 0
  {
    DivMod(U32, 0, bs);
  }

  lemma BlockAt(pos: nat, bs: nat, n: nat)
    requires bs > 0 && pos < Mul(n, bs)
    ensures LbaOf(pos, bs) < n && pos == Mul(LbaOf(pos, bs), bs) + OffIn(pos, bs)
    ensures OffIn(pos, bs) < bs && Mul(LbaOf(pos, bs), bs) + bs <= Mul(n, bs)
  {
    MulDiv(pos, bs, n);
    MulLe(pos / bs + 1, n, bs);
  }

  /** The aligned path stays on the device. */
  lemma AlignedFits(dev: Device, off: nat, len: nat)
    requires InRange(dev, off, len) && OffIn(off, dev.BlockSize()) == 0 && OffIn(len, dev.BlockSize()) == 0
    ensures var bs, n := dev.BlockSize(), LbaOf(len, dev.BlockSize()) % U32;
            Mul(n, bs) <= len && Mul(LbaOf(off, bs), bs) == off && LbaOf(off, bs) + n <= dev.Blocks()
  {
    var bs := dev.BlockSize();
    WholeBlocks(off, bs);
    WholeBlocks(len, bs);
    hide Mul, LbaOf, OffIn;
    var a, q := LbaOf(off, bs), LbaOf(len, bs);
    MulUp(q % U32, q, bs);
    Distribute(a, q, bs);
    if a + q > dev.Blocks() {
      MulLt(dev.Blocks(), a + q, bs);
    }
  }

  /** `block_read` */
  method BlockRead(disk: Disk, dev: Device, off: nat, buf: seq<byte>) returns (r: Result, out: seq<byte>)
    requires On(dev, disk)
    ensures r == if buf == [] || (dev.BlockSize() > 0 && off < dev.Size() && off + |buf| <= dev.Size()) then Success else Failure(EINVAL)
    ensures |out| == |buf|
    ensures r.Failure? ==> out == buf
    ensures r.Success? && buf != [] ==> var m, at := Moved(dev, off, |buf|), Origin(dev) + off;
              m <= |buf| && at + m <= |disk.data| && out == disk.data[at..at + m] + buf[m..]
  {
    hide Mul, LbaOf, OffIn;
    out := buf;
    if |buf| == 0 { return Success, buf; }
    var bs := dev.BlockSize();
    var size := Mul(dev.Blocks(), bs);
    if bs == 0 || off >= size || |buf| > size - off { return Failure(EINVAL), buf; }
    InsideDisk(dev);
    MovesAll(dev, off, |buf|);
    One(bs);
    assert Origin(dev) + off + Moved(dev, off, |buf|) <= |disk.data|;
    if OffIn(off, bs) == 0 && OffIn(|buf|, bs) == 0 {
      AlignedFits(dev, off, |buf|);
      r, out := ReadBlocks(disk, dev, LbaOf(off, bs), LbaOf(|buf|, bs) % U32, buf);
      return;
    }
    out := ReadBounced(disk, dev, off, buf);
    r := Success;
  }

  /** One block into the bounce buffer. */
  method ReadOne(disk: Disk, dev: Device, lba: nat, bounce: seq<byte>) returns (block: seq<byte>)
    requires On(dev, disk) && lba < dev.Blocks() && |bounce| == dev.BlockSize()
    ensures var at := Origin(dev) + Mul(lba, dev.BlockSize());
            at + dev.BlockSize() <= |disk.data| && block == disk.data[at..at + dev.BlockSize()]
  {
    hide Mul;
    One(dev.BlockSize());
    var r;
    r, block := ReadBlocks(disk, dev, lba, 1, bounce);
    assert bounce[dev.BlockSize()..] == [];
  }

  /** The bounce path of `block_read`. */
  method ReadBounced(disk: Disk, dev: Device, off: nat, buf: seq<byte>) returns (out: seq<byte>)
    requires On(dev, disk) && InRange(dev, off, |buf|)
    ensures Origin(dev) + off + |buf| <= |disk.data|
    ensures out == disk.data[Origin(dev) + off..Origin(dev) + off + |buf|]
  {
    hide Mul, Splice, LbaOf, OffIn;
    InsideDisk(dev);
    var bs := dev.BlockSize();
    ghost var d, at := disk.data, Origin(dev) + off;
    out := buf;
    var bounce := seq(bs, _ => 0);
    var done := 0;
    while done < |buf|
      invariant done <= |buf| == |out| && |bounce| == bs
      invariant out[..done] == d[at..at + done]
    {
      var pos := off + done;
      var lba, boff := LbaOf(pos, bs), OffIn(pos, bs);
      BlockAt(pos, bs, dev.Blocks());
      var chunk := Min(bs - boff, |buf| - done);
      bounce := ReadOne(disk, dev, lba, bounce);
      Copied(d, Origin(dev) + Mul(lba, bs), bs, boff, at, done, chunk, bounce, out);
      out := Splice(out, done, bounce[boff..boff + chunk]);
      done := done + chunk;
    }
    assert out == out[..done];
  }

  lemma SpliceInner(d: seq<byte>, at: nat, n: nat, boff: nat, x: seq<byte>)
    requires at + n <= |d| && boff + |x| <= n
    ensures Splice(d, at, Splice(d[at..at + n], boff, x)) == Splice(d, at + boff, x)
  {
  }

  lemma SpliceNothing(d: seq<byte>, at: nat)
    requires at <= |d|
    ensures Splice(d, at, []) == d
  {
  }

  lemma SpliceNext(d: seq<byte>, at: nat, x: seq<byte>, y: seq<byte>)
    requires at + |x| + |y| <= |d|
    ensures Splice(Splice(d, at, x), at + |x|, y) == Splice(d, at, x + y)
  {
  }

  /** One round of the read loop. */
  lemma Copied(d: seq<byte>, base: nat, bs: nat, boff: nat, at: nat, done: nat, chunk: nat, bounce: seq<byte>, out: seq<byte>)
    requires base + bs <= |d| && bounce == d[base..base + bs] && base + boff == at + done && boff + chunk <= bs
    requires done + chunk <= |out| && out[..done] == d[at..at + done]
    ensures Splice(out, done, bounce[boff..boff + chunk])[..done + chunk] == d[at..at + (done + chunk)]
  {
    var x := bounce[boff..boff + chunk];
    forall k | 0 <= k < chunk
      ensures x[k] == d[at + done..at + done + chunk][k]
    {
      assert x[k] == bounce[boff + k] == d[base + (boff + k)];
    }
    assert Splice(out, done, x)[..done + chunk] == out[..done] + x;
  }

  /** One round of the write loop. */
  lemma Merged(d: seq<byte>, d1: seq<byte>, base: nat, bs: nat, boff: nat, at: nat, done: nat, chunk: nat, bounce: seq<byte>, buf: seq<byte>)
    requires base + bs <= |d| && base + boff == at + done && boff + chunk <= bs && done + chunk <= |buf| && at + |buf| <= |d|
    requires d1 == Splice(d, at, buf[..done]) && bounce == d1[base..base + bs]
    ensures Splice(d1, base, Splice(bounce, boff, buf[done..done + chunk])) == Splice(d, at, buf[..done + chunk])
  {
    var x := buf[done..done + chunk];
    SpliceInner(d1, base, bs, boff, x);
    SpliceNext(d, at, buf[..done], x);
    assert buf[..done] + x == buf[..done + chunk];
  }

  /** `block_write`: no byte outside the device's window, and none in it but those written, changes. */
  method BlockWrite(disk: Disk, dev: Device, off: nat, buf: seq<byte>) returns (r: Result)
    requires On(dev, disk)
    modifies disk
    ensures r == if !disk.writable then Failure(ENOSYS)
                 else if buf == [] || (dev.BlockSize() > 0 && off < dev.Size() && off + |buf| <= dev.Size()) then Success else Failure(EINVAL)
    ensures r.Failure? || buf == [] ==> disk.data == old(disk.data)
    ensures r.Success? && buf != [] ==> var m := Moved(dev, off, |buf|);
              && m <= |buf| && Origin(dev) + off + m <= |old(disk.data)|
              && disk.data == Splice(old(disk.data), Origin(dev) + off, buf[..m])
    ensures On(dev, disk)
  {
    hide Mul, LbaOf, OffIn, Splice;
    if !disk.writable { return Failure(ENOSYS); }
    if |buf| == 0 { return Success; }
    var bs := dev.BlockSize();
    var size := Mul(dev.Blocks(), bs);
    if bs == 0 || off >= size || |buf| > size - off { return Failure(EINVAL); }
    InsideDisk(dev);
    MovesAll(dev, off, |buf|);
    One(bs);
    assert Origin(dev) + off + Moved(dev, off, |buf|) <= |disk.data|;
    if OffIn(off, bs) == 0 && OffIn(|buf|, bs) == 0 {
      AlignedFits(dev, off, |buf|);
      SpliceNothing(disk.data, Origin(dev) + off);
      assert buf[..0] == [];
      r := WriteBlocks(disk, dev, LbaOf(off, bs), LbaOf(|buf|, bs) % U32, buf);
      return;
    }
    WriteBounced(disk, dev, off, buf);
    assert buf[..|buf|] == buf;
    r := Success;
  }

  /** The read-modify-write path of `block_write`. */
  method WriteBounced(disk: Disk, dev: Device, off: nat, buf: seq<byte>)
    requires On(dev, disk) && InRange(dev, off, |buf|) && disk.writable
    modifies disk
    ensures On(dev, disk) && Origin(dev) + off + |buf| <= |old(disk.data)|
    ensures disk.data == Splice(old(disk.data), Origin(dev) + off, buf)
  {
    hide Mul, Splice, LbaOf, OffIn;
    InsideDisk(dev);
    var bs := dev.BlockSize();
    ghost var d, at := disk.data, Origin(dev) + off;
    SpliceNothing(d, at);
    assert buf[..0] == [];
    var bounce := seq(bs, _ => 0);
    var done := 0;
    while done < |buf|
      invariant done <= |buf| && |bounce| == bs && On(dev, disk)
      invariant disk.data == Splice(d, at, buf[..done])
    {
      var pos := off + done;
      var lba, boff := LbaOf(pos, bs), OffIn(pos, bs);
      BlockAt(pos, bs, dev.Blocks());
      var chunk := Min(bs - boff, |buf| - done);
      ghost var d1 := disk.data;
      bounce := ReadOne(disk, dev, lba, bounce);
      Merged(d, d1, Origin(dev) + Mul(lba, bs), bs, boff, at, done, chunk, bounce, buf);
      bounce := Splice(bounce, boff, buf[done..done + chunk]);
      WriteOne(disk, dev, lba, bounce);
      done := done + chunk;
    }
    assert buf[..done] == buf;
  }

  /** One block back from the bounce buffer. */
  method WriteOne(disk: Disk, dev: Device, lba: nat, bounce: seq<byte>)
    requires On(dev, disk) && lba < dev.Blocks() && |bounce| == dev.BlockSize() && disk.writable
    modifies disk
    ensures On(dev, disk) && Origin(dev) + Mul(lba, dev.BlockSize()) + |bounce| <= |old(disk.data)|
    ensures disk.data == Splice(old(disk.data), Origin(dev) + Mul(lba, dev.BlockSize()), bounce)
  {
    hide Mul, Splice;
    One(dev.BlockSize());
    var r := WriteBlocks(disk, dev, lba, 1, bounce);
    assert bounce[..dev.BlockSize()] == bounce;
  }

  // A device as an array of blocks

  /** The blocks of a file system on a device. */
  function BlocksOf(d: seq<byte>, bs: nat, n: nat): (blocks: seq<seq<byte>>)
    requires Mul(n, bs) <= |d|
    ensures |blocks| == n
    ensures forall b | 0 <= b < n :: Mul(b, bs) + bs <= |d| && blocks[b] == d[Mul(b, bs)..Mul(b, bs) + bs]
  {
    if n == 0 then []
    else
      Distribute(n - 1, 1, bs);
      BlocksOf(d, bs, n - 1) + [d[Mul(n - 1, bs)..Mul(n - 1, bs) + bs]]
  }

  /** Writing one whole block at its byte offset replaces that block and no other: `read_block` and `write_block`
      of a file system are indexing and update of `BlocksOf`. */
  lemma WholeBlockWrite(d: seq<byte>, bs: nat, n: nat, b: nat, blk: seq<byte>)
    requires Mul(n, bs) <= |d| && b < n && |blk| == bs && Mul(b, bs) + bs <= |d|
    ensures BlocksOf(Splice(d, Mul(b, bs), blk), bs, n) == BlocksOf(d, bs, n)[b := blk]
  {
    hide Mul, BlocksOf, Splice;
    var d' := Splice(d, Mul(b, bs), blk);
    forall c | 0 <= c < n
      ensures BlocksOf(d', bs, n)[c] == BlocksOf(d, bs, n)[b := blk][c]
    {
      Apart(c, b, bs);
      Apart(c, n, bs);
      Apart(b, c, bs);
      SliceAfter(d, Mul(b, bs), blk, Mul(c, bs));
    }
  }

  lemma Apart(a: nat, b: nat, bs: nat)
    ensures a < b ==> Mul(a, bs) + bs <= Mul(b, bs)
  {
    MulMono(a + 1, b, bs);
  }

  /** A read of 2^32 aligned blocks, on any device that has them, reports success and leaves the buffer as it was. */
  method HugeReadMovesNothing(disk: Disk, dev: Device, buf: seq<byte>) returns (r: Result, out: seq<byte>)
    requires On(dev, disk) && dev.BlockSize() > 0 && dev.Blocks() >= U32 && |buf| == Mul(U32, dev.BlockSize())
    ensures r == Success && out == buf
  {
    HugeMovesNothing(dev.BlockSize());
    MulUp(U32, dev.Blocks(), dev.BlockSize());
    MulLt(0, U32, dev.BlockSize());
    hide Mul, OffIn, LbaOf;
    r, out := BlockRead(disk, dev, 0, buf);
  }

  /** And so does a write: it reports success and the disk is as it was. */
  method HugeWriteMovesNothing(disk: Disk, dev: Device, buf: seq<byte>) returns (r: Result)
    requires On(dev, disk) && dev.BlockSize() > 0 && dev.Blocks() >= U32 && |buf| == Mul(U32, dev.BlockSize()) && disk.writable
    modifies disk
    ensures r == Success && disk.data == old(disk.data)
  {
    HugeMovesNothing(dev.BlockSize());
    MulUp(U32, dev.Blocks(), dev.BlockSize());
    MulLt(0, U32, dev.BlockSize());
    hide Mul, OffIn, LbaOf;
    r := BlockWrite(disk, dev, 0, buf);
  }
}
