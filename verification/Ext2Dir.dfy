/** ext2 directories: records that tile the bytes of a file, each with an inode number, its own length and a name. */
module Ext2Dirs {
  import opened Bytes

  type Name = seq<byte>

  // Records

  function U16(d: seq<byte>, at: nat): (v: nat)
    requires at + 2 <= |d|
    ensures v < 0x1_0000
  {
    d[at] as int + 0x100 * (d[at + 1] as int)
  }

  /** `rec_len_for`: header and name, rounded up to four bytes. */
  function RecLenFor(n: nat): (r: nat)
    ensures 8 + n <= r < 12 + n && r % 4 == 0
  {
    (8 + n + 3) / 4 * 4
  }

  function Ino(rec: seq<byte>): nat
    requires |rec| >= 8
  {
    Le32(rec, 0)
  }

  function RecLen(rec: seq<byte>): nat
    requires |rec| >= 8
  {
    U16(rec, 4)
  }

  function NameOf(rec: seq<byte>): Name
    requires |rec| >= 8 && 8 + rec[6] as int <= |rec|
  {
    rec[8..8 + rec[6] as int]
  }

  /** A record is as long as it says and has room for its name. */
  predicate RecOK(rec: seq<byte>) {
    |rec| >= 8 && RecLen(rec) == |rec| && RecLenFor(rec[6]) <= |rec|
  }

  function SetIno(rec: seq<byte>, ino: nat): (r: seq<byte>)
    requires |rec| >= 8 && ino < U32
    ensures |r| == |rec|
  {
    Le32Bytes(ino) + rec[4..]
  }

  function SetLen(rec: seq<byte>, n: nat): (r: seq<byte>)
    requires |rec| >= 8 && n < 0x1_0000
    ensures |r| == |rec|
  {
    rec[..4] + [n % 0x100, n / 0x100] + rec[6..]
  }

  lemma SetInoOK(rec: seq<byte>, ino: nat)
    requires RecOK(rec) && ino < U32
    ensures RecOK(SetIno(rec, ino)) && Ino(SetIno(rec, ino)) == ino && NameOf(SetIno(rec, ino)) == NameOf(rec)
  {
    hide Le32, Le32Bytes;
    var r := SetIno(rec, ino);
    assert r[4] == rec[4] && r[5] == rec[5] && r[6] == rec[6];
    assert r[0..4] == Le32Bytes(ino)[0..4];
    Le32Same(r, 0, Le32Bytes(ino), 0);
    Le32RoundTrip(ino);
  }

  /** Cutting a record, or joining it with what follows, changes its length and nothing a reader sees. */
  lemma SetLenOK(rec: seq<byte>, tail: seq<byte>, n: nat)
    requires |rec| >= 8 && RecLenFor(rec[6]) <= |rec| && n == |rec| + |tail| < 0x1_0000
    ensures var r := SetLen(rec, n) + tail; RecOK(r) && Ino(r) == Ino(rec) && NameOf(r) == NameOf(rec) && r[7] == rec[7]
  {
    var r := SetLen(rec, n) + tail;
    assert r[4] == n % 0x100 && r[5] == n / 0x100 && r[6] == rec[6];
    assert forall k | 8 <= k < |rec| :: r[k] == rec[k];
  }

  // Directories as lists of records

  function Flat(recs: seq<seq<byte>>): seq<byte> {
    if recs == [] then [] else recs[0] + Flat(recs[1..])
  }

  lemma {:induction false} FlatAppend(a: seq<seq<byte>>, b: seq<seq<byte>>)
    ensures Flat(a + b) == Flat(a) + Flat(b)
  {
    if a == [] {
      assert a + b == b;
    } else {
      FlatAppend(a[1..], b);
      assert a + b == [a[0]] + (a[1..] + b);
      FlatOne(a[0], a[1..] + b);
      Assoc3(a[0], Flat(a[1..]), Flat(b));
    }
  }

  /** Record `i` stands where the records before it end. */
  lemma FlatAt(recs: seq<seq<byte>>, i: nat)
    requires i < |recs|
    ensures Flat(recs) == Flat(recs[..i]) + recs[i] + Flat(recs[i + 1..])
  {
    hide Flat;
    var tail := [recs[i]] + recs[i + 1..];
    SplitList(recs, i);
    FlatAppend(recs[..i], tail);
    FlatOne(recs[i], recs[i + 1..]);
    Assoc3(Flat(recs[..i]), recs[i], Flat(recs[i + 1..]));
  }

  lemma SplitList(recs: seq<seq<byte>>, i: nat)
    requires i < |recs|
    ensures recs == recs[..i] + ([recs[i]] + recs[i + 1..]) && recs == recs[..i] + [recs[i]] + recs[i + 1..]
  {
  }

  lemma FlatOne(rec: seq<byte>, rest: seq<seq<byte>>)
    ensures Flat([rec] + rest) == rec + Flat(rest)
  {
    assert ([rec] + rest)[1..] == rest;
  }

  lemma Assoc3(a: seq<byte>, b: seq<byte>, c: seq<byte>)
    ensures a + (b + c) == a + b + c
  {
  }

  ghost predicate Tiled(recs: seq<seq<byte>>) {
    forall i | 0 <= i < |recs| :: RecOK(recs[i])
  }

  predicate Binds(rec: seq<byte>, n: Name) {
    RecOK(rec) && Ino(rec) != 0 && NameOf(rec) == n
  }

  /** The directory as a map: the inode number bound to a name, 0 for none. */
  function Bound(recs: seq<seq<byte>>, n: Name): nat {
    if recs == [] then 0 else if Binds(recs[0], n) then Ino(recs[0]) else Bound(recs[1..], n)
  }

  /** The file type stored with a binding, in byte 7 of its record; 0 without one. */
  function Kind(recs: seq<seq<byte>>, n: Name): byte {
    if recs == [] then 0 else if Binds(recs[0], n) then recs[0][7] else Kind(recs[1..], n)
  }

  /** How many records bind a name. */
  function Uses(recs: seq<seq<byte>>, n: Name): nat {
    if recs == [] then 0 else (if Binds(recs[0], n) then 1 else 0) + Uses(recs[1..], n)
  }

  ghost predicate UniqueNames(recs: seq<seq<byte>>) {
    forall n: Name {:trigger Uses(recs, n)} :: Uses(recs, n) <= 1
  }

  lemma {:induction false} BoundAppend(a: seq<seq<byte>>, b: seq<seq<byte>>, n: Name)
    ensures Bound(a + b, n) == if Bound(a, n) != 0 then Bound(a, n) else Bound(b, n)
    ensures Kind(a + b, n) == if Bound(a, n) != 0 then Kind(a, n) else Kind(b, n)
    ensures Uses(a + b, n) == Uses(a, n) + Uses(b, n)
  {
    if a == [] {
      assert a + b == b;
    } else {
      BoundAppend(a[1..], b, n);
      assert (a + b)[1..] == a[1..] + b;
    }
  }

  lemma {:induction false} BoundIffUsed(recs: seq<seq<byte>>, n: Name)
    ensures Bound(recs, n) != 0 <==> Uses(recs, n) > 0
    ensures Bound(recs, n) == 0 ==> Kind(recs, n) == 0
  {
    if recs != [] {
      BoundIffUsed(recs[1..], n);
    }
  }

  /** A directory in three parts. */
  lemma Parts(a: seq<seq<byte>>, m: seq<seq<byte>>, b: seq<seq<byte>>, n: Name)
    ensures Uses(a + m + b, n) == Uses(a, n) + Uses(m, n) + Uses(b, n)
    ensures Bound(a + m + b, n) == if Bound(a, n) != 0 then Bound(a, n) else if Bound(m, n) != 0 then Bound(m, n) else Bound(b, n)
    ensures Kind(a + m + b, n) == if Bound(a, n) != 0 then Kind(a, n) else if Bound(m, n) != 0 then Kind(m, n) else Kind(b, n)
    ensures Flat(a + m + b) == Flat(a) + Flat(m) + Flat(b)
  {
    BoundAppend(a + m, b, n);
    BoundAppend(a, m, n);
    FlatAppend(a + m, b);
    FlatAppend(a, m);
  }

  lemma One(rec: seq<byte>, n: Name)
    ensures Uses([rec], n) == (if Binds(rec, n) then 1 else 0) && Bound([rec], n) == (if Binds(rec, n) then Ino(rec) else 0)
    ensures Kind([rec], n) == (if Binds(rec, n) then rec[7] else 0) && Flat([rec]) == rec
  {
    assert [rec][1..] == [];
  }

  lemma Two(x: seq<byte>, y: seq<byte>, n: Name)
    ensures Uses([x, y], n) == (if Binds(x, n) then 1 else 0) + (if Binds(y, n) then 1 else 0)
    ensures Bound([x, y], n) == if Binds(x, n) then Ino(x) else if Binds(y, n) then Ino(y) else 0
    ensures Kind([x, y], n) == if Binds(x, n) then x[7] else if Binds(y, n) then y[7] else 0
    ensures Flat([x, y]) == x + y
  {
    assert [x, y][1..] == [y];
    One(y, n);
  }

  // Scanning

  function Offset(recs: seq<seq<byte>>, i: nat): nat
    requires i <= |recs|
  {
    |Flat(recs[..i])|
  }

  /** The scan meets the records one by one and ends exactly at the end of the directory. */
  lemma ScanAt(recs: seq<seq<byte>>, i: nat)
    requires i <= |recs|
    ensures i == |recs| ==> Offset(recs, i) == |Flat(recs)|
    ensures i < |recs| ==> Offset(recs, i) + |recs[i]| == Offset(recs, i + 1) <= |Flat(recs)|
    ensures i < |recs| ==> Flat(recs)[Offset(recs, i)..Offset(recs, i) + |recs[i]|] == recs[i]
  {
    if i == |recs| {
      assert recs[..i] == recs;
    } else {
      FlatAt(recs, i);
      assert recs[..i + 1] == recs[..i] + [recs[i]];
      FlatAppend(recs[..i], [recs[i]]);
      One(recs[i], []);
      var a, m, b := Flat(recs[..i]), recs[i], Flat(recs[i + 1..]);
      assert (a + m + b)[|a|..|a| + |m|] == m;
    }
  }

  datatype Found = NotFound | Corrupt | FoundAt(off: nat, prev: int, ino: nat, recLen: nat)

  /** Reading past the end of a directory gives zeros. */
  function Peek(d: seq<byte>, at: nat, n: nat): (r: seq<byte>)
    ensures |r| == n && (at + n <= |d| ==> r == d[at..at + n])
  {
    seq<byte>(n, k requires 0 <= k < n => if at + k < |d| then d[at + k] else 0)
  }

  /** The header at `off` has a sensible length. */
  predicate Sound(d: seq<byte>, off: nat) {
    off + 8 <= |d| && 8 <= U16(d, off + 4) <= |d| - off
  }

  predicate Matches(d: seq<byte>, off: nat, name: Name)
    requires off + 8 <= |d|
  {
    Le32(d, off) != 0 && d[off + 6] as int == |name| && Peek(d, off + 8, |name|) == name
  }

  /** The scan of `find_dirent` over any bytes, from `off` on; `prev` is the header before, or -1. */
  function Scan(d: seq<byte>, off: nat, prev: int, name: Name): (r: Found)
    requires off <= |d| && (prev == -1 || (prev >= 0 && Sound(d, prev) && prev + U16(d, prev + 4) == off))
    ensures r.FoundAt? ==> Sound(d, r.off) && r.recLen == U16(d, r.off + 4)
    ensures r.FoundAt? ==> r.prev == -1 || (r.prev >= 0 && Sound(d, r.prev) && r.prev + U16(d, r.prev + 4) == r.off)
    decreases |d| - off
  {
    if off + 8 > |d| then NotFound
    else if !Sound(d, off) then Corrupt
    else if Matches(d, off, name) then FoundAt(off, prev, Le32(d, off), U16(d, off + 4))
    else Scan(d, off + U16(d, off + 4), off, name)
  }

  const DOT: Name := [46]
  const DOTDOT: Name := [46, 46]

  /** A directory's bytes; `recs` are the records they consist of. */
  class Directory {
    const bs: nat
    var data: seq<byte>
    ghost var recs: seq<seq<byte>>

    ghost predicate Valid()
      reads this
    {
      data == Flat(recs) && Tiled(recs) && UniqueNames(recs) && 1024 <= bs < 0x1_0000
    }

    constructor (bs: nat, data: seq<byte>, ghost recs: seq<seq<byte>>)
      requires data == Flat(recs) && Tiled(recs) && UniqueNames(recs) && 1024 <= bs < 0x1_0000
      ensures Valid() && this.recs == recs && this.data == data
    {
      this.bs, this.data, this.recs := bs, data, recs;
    }

    /** `find_dirent`, on any bytes; `i` is the number of the record found, and `prev` -1 stands for none. */
    method FindDirent(name: Name) returns (r: Found, ghost i: nat)
      ensures r == Scan(data, 0, -1, name)
      ensures Valid() ==> Located(recs, name, r, i)
    {
      i := 0;
      if Valid() {
        i := ScanRecords(recs, name);
      }
      var prev, off := -1, 0;
      while off + 8 <= |data|
        invariant off <= |data| && (prev == -1 || (prev >= 0 && Sound(data, prev) && prev + U16(data, prev + 4) == off))
        invariant Scan(data, 0, -1, name) == Scan(data, off, prev, name)
        decreases |data| - off
      {
        var hdr := data[off..off + 8];
        HeaderBytes(data, off);
        var ino, recLen, nameLen := Le32(hdr, 0), U16(hdr, 4), hdr[6] as int;
        if recLen < 8 || off + recLen > |data| { return Corrupt, i; }
        if ino != 0 && nameLen == |name| && Peek(data, off + 8, nameLen) == name {
          return FoundAt(off, prev, ino, recLen), i;
        }
        prev := off;
        off := off + recLen;
      }
      r := NotFound;
    }

    /** `ext2_lookup`: "." is the directory itself, any other name is looked for. */
    method Lookup(name: Name) returns (self: bool, ino: nat)
      requires Valid()
      ensures self <==> name == DOT
      ensures !self ==> ino == Bound(recs, name)
    {
      if name == DOT { return true, 0; }
      var r, i := FindDirent(name);
      self, ino := false, if r.FoundAt? then r.ino else 0;
    }

    /** `add_dirent` of an absent name: in the slack of the first record with enough of it, or in a new block; `room`
        says whether a block could be had. */
    method AddDirent(name: Name, ino: nat, fileType: byte, room: bool) returns (ok: bool)
      requires Valid() && |name| <= 255 && 0 < ino < U32 && Bound(recs, name) == 0
      modifies this
      ensures Valid() && (!ok ==> !room && data == old(data) && recs == old(recs))
      ensures ok ==> Rebound(old(recs), recs, name, ino, fileType)
    {
      hide Bound, Kind, Uses, UniqueNames, Tiled, Rebound, Entry, Splice, SetLen, Slack, Head, U16;
      var need := RecLenFor(|name|);
      var off := 0;
      ghost var i := 0;
      assert recs[..0] == [];
      assert Offset(recs, 0) == 0;
      hide Flat;
      while off + 8 <= |data|
        invariant i <= |recs| && off == Offset(recs, i) && Valid() && data == old(data) && recs == old(recs)
        decreases |recs| - i
      {
        ScanAt(recs, i);
        Header(recs, i);
        var hdr := data[off..off + 8];
        var recLen, nameLen := U16(hdr, 4), hdr[6] as int;
        if recLen < 8 || off + recLen > |data| { return false; }
        var used := RecLenFor(nameLen);
        if recLen >= used + need {
          SplitBytes(recs, i, name, ino, fileType);
          data := Splice(data, off, SetLen(hdr, used));
          data := Splice(data, off + used, Entry(name, ino, fileType, recLen - used));
          recs := recs[..i] + [Head(recs[i], used), Slack(recs[i], used, name, ino, fileType)] + recs[i + 1..];
          return true;
        }
        off := off + recLen;
        i := i + 1;
      }
      if !room { return false; }
      NewBlock(recs, name, ino, fileType, bs);
      data := data + Entry(name, ino, fileType, bs) + Zeros(bs - need);
      recs := recs + [Entry(name, ino, fileType, bs) + Zeros(bs - need)];
      ok := true;
    }

    /** `remove_dirent`, on any bytes: the record is joined to the one before it, and the first record only loses its
        inode number. The joined length is a 16-bit number, on which `RemoveIff` has more. */
    method RemoveDirent(name: Name) returns (r: Found, ghost i: nat)
      modifies this
      ensures r == Scan(old(data), 0, -1, name) && data == Cleared(old(data), r)
      ensures old(Valid()) ==> Located(old(recs), name, r, i)
      ensures old(Valid()) && r.NotFound? ==> Valid() && recs == old(recs)
      ensures old(Valid()) && r.FoundAt? && Joinable(old(recs), i) ==> Valid() && Rebound(old(recs), recs, name, 0, 0)
    {
      hide Flat, Bound, Kind, Uses, UniqueNames, Tiled, Rebound, Splice, SetLen, SetIno, U16, Scan, Binds, Le32;
      r, i := FindDirent(name);
      if !r.FoundAt? { return; }
      HeaderBytes(data, r.off);
      if Valid() && Joinable(recs, i) {
        ClearedRecords(recs, name, r, i);
      }
      if r.prev >= 0 {
        var prev := r.prev as nat;
        HeaderBytes(data, prev);
        var hdr := data[prev..prev + 8];
        var prevLen := U16(hdr, 4);
        if prevLen < 8 || prev + prevLen > |data| { return Corrupt, i; }
        data := Splice(data, prev, SetLen(hdr, JoinedLen(prevLen, r.recLen)));
      } else {
        var hdr := data[r.off..r.off + 8];
        data := Splice(data, r.off, SetIno(hdr, 0));
      }
      if old(Valid()) && Joinable(recs, i) {
        recs := Without(recs, i);
      }
    }

    /** `replace_dirent_ino` */
    method ReplaceIno(name: Name, ino: nat, fileType: byte) returns (r: Found)
      requires Valid() && ino < U32
      modifies this
      ensures Valid() && !r.Corrupt? && (r.NotFound? <==> old(Bound(recs, name)) == 0)
      ensures r.NotFound? ==> data == old(data) && recs == old(recs)
      ensures r.FoundAt? ==> Rebound(old(recs), recs, name, ino, if ino == 0 then 0 else fileType)
    {
      hide Flat, Bound, Kind, Uses, UniqueNames, Tiled, Rebound, Splice, SetIno, U16;
      ghost var i;
      r, i := FindDirent(name);
      assert Located(recs, name, r, i);
      if !r.FoundAt? { return; }
      Header(recs, i);
      ReplaceBytes(recs, i, name, ino, fileType);
      var hdr := data[r.off..r.off + 8];
      data := Splice(data, r.off, SetIno(hdr, ino)[7 := fileType]);
      recs := recs[..i] + [SetIno(recs[i], ino)[7 := fileType]] + recs[i + 1..];
    }

    /** `dir_is_empty`: nothing but "." and ".." is bound. */
    method IsEmpty() returns (empty: bool)
      requires Valid()
      ensures empty <==> OnlyDots(recs)
    {
      hide Flat, Uses, UniqueNames, U16, Le32;
      var off := 0;
      ghost var i := 0;
      OffsetZero(recs);
      while off + 8 <= |data|
        invariant i <= |recs| && off == Offset(recs, i)
        invariant OnlyDots(recs[..i])
        decreases |recs| - i
      {
        ScanAt(recs, i);
        Header(recs, i);
        var hdr := data[off..off + 8];
        var ino, recLen, nameLen := Le32(hdr, 0), U16(hdr, 4), hdr[6] as int;
        if recLen < 8 || off + recLen > |data| { return false; }
        if ino != 0 && nameLen != 0 {
          var name := data[off + 8..off + 8 + nameLen];
          if !((nameLen == 1 && name[0] == 46) || (nameLen == 2 && name[0] == 46 && name[1] == 46)) {
            UsedIsBound(recs, i);
            return false;
          }
          assert name == DOT || name == DOTDOT;
        }
        assert Ino(recs[i]) != 0 && NameOf(recs[i]) != [] ==> NameOf(recs[i]) == DOT || NameOf(recs[i]) == DOTDOT;
        NextDots(recs, i);
        off := off + recLen;
        i := i + 1;
      }
      ScanEnds(recs, i);
      assert recs[..i] == recs;
      empty := true;
    }
  }

  lemma Header(recs: seq<seq<byte>>, i: nat)
    requires Tiled(recs) && i < |recs|
    ensures var d, off, rec := Flat(recs), Offset(recs, i), recs[i];
            && off + |rec| <= |d| && RecOK(rec) && d[off..off + 8] == rec[..8]
            && Le32(d[off..off + 8], 0) == Ino(rec) && U16(d[off..off + 8], 4) == |rec| && d[off..off + 8][6] == rec[6]
            && d[off + 8..off + 8 + rec[6] as int] == NameOf(rec)
  {
    hide Flat;
    ScanAt(recs, i);
    var d, off, rec := Flat(recs), Offset(recs, i), recs[i];
    assert RecOK(rec);
    hide Offset;
    Within(d, off, rec, 0, 8);
    Within(d, off, rec, 8, 8 + rec[6] as int);
  }

  lemma PrefixBound(recs: seq<seq<byte>>, i: nat, n: Name)
    requires i < |recs| && Bound(recs[..i], n) == 0
    ensures Bound(recs[..i + 1], n) == if Binds(recs[i], n) then Ino(recs[i]) else 0
    ensures Binds(recs[i], n) ==> Bound(recs, n) == Ino(recs[i])
  {
    assert recs[..i + 1] == recs[..i] + [recs[i]];
    BoundAppend(recs[..i], [recs[i]], n);
    One(recs[i], n);
    assert recs == recs[..i + 1] + recs[i + 1..];
    BoundAppend(recs[..i + 1], recs[i + 1..], n);
  }

  lemma ScanEnds(recs: seq<seq<byte>>, i: nat)
    requires Tiled(recs) && i <= |recs| && Offset(recs, i) + 8 > |Flat(recs)|
    ensures i == |recs|
  {
    if i < |recs| {
      ScanAt(recs, i);
    }
  }

  lemma HeaderBytes(d: seq<byte>, off: nat)
    requires off + 8 <= |d|
    ensures var h := d[off..off + 8]; U16(h, 4) == U16(d, off + 4) && Le32(h, 0) == Le32(d, off) && h[6] == d[off + 6]
  {
    var h := d[off..off + 8];
    assert h[..4] == d[off..off + 4];
    Le32Same(h, 0, d, off);
  }

  /** What a scan finds in a directory: the record that binds the name, with the one before it. */
  ghost predicate Located(recs: seq<seq<byte>>, name: Name, r: Found, i: nat) {
    && !r.Corrupt? && (r.NotFound? <==> Bound(recs, name) == 0)
    && (r.FoundAt? ==>
          && i < |recs| && Binds(recs[i], name) && r.ino == Ino(recs[i]) == Bound(recs, name)
          && r.off == Offset(recs, i) && r.recLen == |recs[i]| && r.prev == Before(recs, i))
  }

  function Before(recs: seq<seq<byte>>, i: nat): int
    requires i <= |recs|
  {
    if i == 0 then -1 else Offset(recs, i - 1)
  }

  /** On a tiled directory the scan never gives up, and finds exactly what is bound. */
  lemma ScanRecords(recs: seq<seq<byte>>, name: Name) returns (j: nat)
    requires Tiled(recs)
    ensures Located(recs, name, Scan(Flat(recs), 0, -1, name), j)
  {
    OffsetZero(recs);
    assert recs[..0] == [];
    BeforeOK(recs, 0);
    j := ScanFrom(recs, name, 0);
  }

  lemma BeforeOK(recs: seq<seq<byte>>, i: nat)
    requires Tiled(recs) && i <= |recs|
    ensures var d, prev := Flat(recs), Before(recs, i);
            && Offset(recs, i) <= |d|
            && (prev == -1 || (prev >= 0 && Sound(d, prev) && prev + U16(d, prev + 4) == Offset(recs, i)))
  {
    hide Flat, U16, Le32;
    ScanAt(recs, i);
    if i > 0 {
      ScanAt(recs, i - 1);
      Header(recs, i - 1);
      HeaderBytes(Flat(recs), Offset(recs, i - 1));
    }
  }

  lemma {:induction false} ScanFrom(recs: seq<seq<byte>>, name: Name, i: nat) returns (j: nat)
    requires Tiled(recs) && i <= |recs| && Bound(recs[..i], name) == 0
    requires var d, prev := Flat(recs), Before(recs, i);
             && Offset(recs, i) <= |d|
             && (prev == -1 || (prev >= 0 && Sound(d, prev) && prev + U16(d, prev + 4) == Offset(recs, i)))
    ensures Located(recs, name, Scan(Flat(recs), Offset(recs, i), Before(recs, i), name), j)
    decreases |recs| - i
  {
    hide Flat, U16, Le32, Bound, Binds, Sound, Offset;
    var d, off := Flat(recs), Offset(recs, i);
    j := i;
    if i == |recs| {
      ScanAt(recs, i);
      assert recs[..i] == recs;
    } else {
      ScanHeader(recs, i, name);
      PrefixBound(recs, i, name);
      BeforeOK(recs, i + 1);
      if !Matches(d, off, name) {
        hide Matches;
        j := ScanFrom(recs, name, i + 1);
      }
    }
  }

  /** What the scan sees of record `i`. */
  lemma ScanHeader(recs: seq<seq<byte>>, i: nat, name: Name)
    requires Tiled(recs) && i < |recs|
    ensures var d, off := Flat(recs), Offset(recs, i);
            && Sound(d, off) && U16(d, off + 4) == |recs[i]| && off + |recs[i]| == Offset(recs, i + 1)
            && Le32(d, off) == Ino(recs[i]) && (Matches(d, off, name) <==> Binds(recs[i], name))
  {
    hide Flat, U16, Le32;
    ScanAt(recs, i);
    Header(recs, i);
    HeaderBytes(Flat(recs), Offset(recs, i));
  }

  // Changing a directory

  /** The bytes `add_dirent` prepares. */
  function Entry(name: Name, ino: nat, fileType: byte, recLen: nat): (e: seq<byte>)
    requires |name| <= 255 && ino < U32 && recLen < 0x1_0000
    ensures |e| == RecLenFor(|name|)
  {
    Le32Bytes(ino) + [recLen % 0x100, recLen / 0x100, |name|, fileType] + name + Zeros(RecLenFor(|name|) - 8 - |name|)
  }

  lemma EntryOK(name: Name, ino: nat, fileType: byte, tail: seq<byte>)
    requires |name| <= 255 && ino < U32 && RecLenFor(|name|) + |tail| < 0x1_0000
    ensures var rec := Entry(name, ino, fileType, RecLenFor(|name|) + |tail|) + tail; RecOK(rec) && Ino(rec) == ino && NameOf(rec) == name && rec[7] == fileType
  {
    hide Le32, Le32Bytes;
    var n := RecLenFor(|name|) + |tail|;
    var rec := Entry(name, ino, fileType, n) + tail;
    assert rec[4] == n % 0x100 && rec[5] == n / 0x100 && rec[6] == |name|;
    assert rec[0..4] == Le32Bytes(ino)[0..4];
    Le32Same(rec, 0, Le32Bytes(ino), 0);
    Le32RoundTrip(ino);
    assert rec[8..8 + |name|] == name;
  }

  ghost predicate Same(rec: seq<byte>, rec': seq<byte>) {
    RecOK(rec) && RecOK(rec') && Ino(rec') == Ino(rec) && NameOf(rec') == NameOf(rec) && rec'[7] == rec[7]
  }

  /** `name` is bound to `ino`, with type `kind`, and nothing else changes. */
  ghost predicate Rebound(recs: seq<seq<byte>>, recs': seq<seq<byte>>, name: Name, ino: nat, kind: byte) {
    && (forall n: Name {:trigger Bound(recs', n)} :: Bound(recs', n) == if n == name then ino else Bound(recs, n))
    && (forall n: Name {:trigger Kind(recs', n)} :: Kind(recs', n) == if n == name then kind else Kind(recs, n))
  }

  /** A record is replaced by one that reads the same and one that binds a new name. */
  lemma SplitRecord(a: seq<seq<byte>>, rec: seq<byte>, b: seq<seq<byte>>, x: seq<byte>, y: seq<byte>)
    requires Tiled(a + [rec] + b) && UniqueNames(a + [rec] + b) && Same(rec, x) && RecOK(y) && Ino(y) != 0
    requires Bound(a + [rec] + b, NameOf(y)) == 0
    ensures var recs' := a + [x, y] + b; Tiled(recs') && UniqueNames(recs') && Rebound(a + [rec] + b, recs', NameOf(y), Ino(y), y[7])
  {
    var recs, recs' := a + [rec] + b, a + [x, y] + b;
    forall n: Name
      ensures Uses(recs', n) <= 1 && Bound(recs', n) == if n == NameOf(y) then Ino(y) else Bound(recs, n)
      ensures Kind(recs', n) == if n == NameOf(y) then y[7] else Kind(recs, n)
    {
      Parts(a, [rec], b, n);
      Parts(a, [x, y], b, n);
      One(rec, n);
      Two(x, y, n);
      BoundIffUsed(recs, n);
      assert Uses(recs, n) <= 1;
    }
    assert forall i | 0 <= i < |a| :: a[i] == recs[i];
    assert forall i | 0 <= i < |b| :: b[i] == recs[|a| + 1 + i];
  }

  /** A record is appended. */
  lemma AppendRecord(recs: seq<seq<byte>>, y: seq<byte>)
    requires Tiled(recs) && UniqueNames(recs) && RecOK(y) && Ino(y) != 0 && Bound(recs, NameOf(y)) == 0
    ensures Tiled(recs + [y]) && UniqueNames(recs + [y]) && Rebound(recs, recs + [y], NameOf(y), Ino(y), y[7]) && Flat(recs + [y]) == Flat(recs) + y
  {
    FlatAppend(recs, [y]);
    One(y, []);
    forall n: Name
      ensures Uses(recs + [y], n) <= 1 && Bound(recs + [y], n) == if n == NameOf(y) then Ino(y) else Bound(recs, n)
      ensures Kind(recs + [y], n) == if n == NameOf(y) then y[7] else Kind(recs, n)
    {
      BoundAppend(recs, [y], n);
      One(y, n);
      BoundIffUsed(recs, n);
      assert Uses(recs, n) <= 1;
    }
  }

  /** Two records are replaced by one that reads like the first. */
  lemma MergeRecords(a: seq<seq<byte>>, prev: seq<byte>, rec: seq<byte>, b: seq<seq<byte>>, x: seq<byte>, name: Name)
    requires Tiled(a + [prev, rec] + b) && UniqueNames(a + [prev, rec] + b) && Same(prev, x) && Binds(rec, name)
    ensures var recs' := a + [x] + b; Tiled(recs') && UniqueNames(recs') && Rebound(a + [prev, rec] + b, recs', name, 0, 0)
  {
    var recs, recs' := a + [prev, rec] + b, a + [x] + b;
    forall n: Name
      ensures Uses(recs', n) <= 1 && Bound(recs', n) == if n == name then 0 else Bound(recs, n)
      ensures Kind(recs', n) == if n == name then 0 else Kind(recs, n)
    {
      Parts(a, [prev, rec], b, n);
      Parts(a, [x], b, n);
      Two(prev, rec, n);
      One(x, n);
      BoundIffUsed(recs', n);
      assert Uses(recs, n) <= 1;
    }
    assert forall i | 0 <= i < |a| :: a[i] == recs[i];
    assert forall i | 0 <= i < |b| :: b[i] == recs[|a| + 2 + i];
  }

  /** A record is replaced by one with the same name and another inode number, or none. */
  lemma ChangeRecord(a: seq<seq<byte>>, rec: seq<byte>, b: seq<seq<byte>>, x: seq<byte>, name: Name)
    requires Tiled(a + [rec] + b) && UniqueNames(a + [rec] + b) && Binds(rec, name) && RecOK(x) && NameOf(x) == name
    ensures var recs' := a + [x] + b; Tiled(recs') && UniqueNames(recs') && Rebound(a + [rec] + b, recs', name, Ino(x), if Ino(x) == 0 then 0 else x[7])
  {
    var recs, recs' := a + [rec] + b, a + [x] + b;
    forall n: Name
      ensures Uses(recs', n) <= 1 && Bound(recs', n) == if n == name then Ino(x) else Bound(recs, n)
      ensures Kind(recs', n) == if n == name then (if Ino(x) == 0 then 0 else x[7]) else Kind(recs, n)
    {
      Parts(a, [rec], b, n);
      Parts(a, [x], b, n);
      One(rec, n);
      One(x, n);
      BoundIffUsed(a, n);
      BoundIffUsed(b, n);
      assert Uses(recs, n) <= 1;
    }
    assert forall i | 0 <= i < |a| :: a[i] == recs[i];
    assert forall i | 0 <= i < |b| :: b[i] == recs[|a| + 1 + i];
  }

  // Bytes in place

  lemma PutInside(p: seq<byte>, r: seq<byte>, s: seq<byte>, k: nat, w: seq<byte>)
    requires k + |w| <= |r|
    ensures Splice(p + r + s, |p| + k, w) == p + Splice(r, k, w) + s
  {
  }

  /** What is left of a record that is cut. */
  function Head(rec: seq<byte>, used: nat): seq<byte>
    requires 8 <= used <= |rec| && used < 0x1_0000
  {
    SetLen(rec[..used], used)
  }

  /** The record in the slack. */
  function Slack(rec: seq<byte>, used: nat, name: Name, ino: nat, fileType: byte): seq<byte>
    requires |name| <= 255 && ino < U32 && used + RecLenFor(|name|) <= |rec| && |rec| - used < 0x1_0000
  {
    Entry(name, ino, fileType, |rec| - used) + rec[used + RecLenFor(|name|)..]
  }

  lemma CutRecord(rec: seq<byte>, name: Name, ino: nat, fileType: byte)
    requires RecOK(rec) && |name| <= 255 && 0 < ino < U32 && RecLenFor(rec[6]) + RecLenFor(|name|) <= |rec|
    ensures var used := RecLenFor(rec[6]);
            var y := Slack(rec, used, name, ino, fileType);
            && Same(rec, Head(rec, used)) && RecOK(y) && Ino(y) == ino && NameOf(y) == name && y[7] == fileType
            && Splice(Splice(rec, 0, SetLen(rec[..8], used)), used, Entry(name, ino, fileType, |rec| - used)) == Head(rec, used) + y
  {
    var used, need := RecLenFor(rec[6]), RecLenFor(|name|);
    CutHead(rec);
    EntryOK(name, ino, fileType, rec[used + need..]);
    CutBytes(rec, used, Entry(name, ino, fileType, |rec| - used));
  }

  lemma CutHead(rec: seq<byte>)
    requires RecOK(rec)
    ensures Same(rec, Head(rec, RecLenFor(rec[6])))
  {
    var used := RecLenFor(rec[6]);
    SetLenOK(rec[..used], [], used);
    assert Head(rec, used) + [] == Head(rec, used);
    assert rec[..used][8..8 + rec[6] as int] == rec[8..8 + rec[6] as int];
  }

  lemma CutBytes(rec: seq<byte>, used: nat, e: seq<byte>)
    requires 8 <= used < 0x1_0000 && used + |e| <= |rec|
    ensures Splice(Splice(rec, 0, SetLen(rec[..8], used)), used, e) == Head(rec, used) + (e + rec[used + |e|..])
  {
    var h := SetLen(rec[..8], used);
    assert Splice(rec, 0, h) == h + rec[8..];
    assert Head(rec, used) == h + rec[8..used];
    assert (h + rec[8..])[..used] == h + rec[8..used] && (h + rec[8..])[used + |e|..] == rec[used + |e|..];
  }

  lemma SplitBytes(recs: seq<seq<byte>>, i: nat, name: Name, ino: nat, fileType: byte)
    requires Tiled(recs) && UniqueNames(recs) && i < |recs| && |name| <= 255 && 0 < ino < U32 && Bound(recs, name) == 0
    requires RecLenFor(recs[i][6]) + RecLenFor(|name|) <= |recs[i]|
    ensures var d, off, rec, used := Flat(recs), Offset(recs, i), recs[i], RecLenFor(recs[i][6]);
            var recs' := recs[..i] + [Head(rec, used), Slack(rec, used, name, ino, fileType)] + recs[i + 1..];
            && off + |rec| <= |d| && d[off..off + 8] == rec[..8]
            && Splice(Splice(d, off, SetLen(rec[..8], used)), off + used, Entry(name, ino, fileType, |rec| - used)) == Flat(recs')
            && Tiled(recs') && UniqueNames(recs') && Rebound(recs, recs', name, ino, fileType)
  {
    hide Flat, Bound, Kind, Uses, Rebound, UniqueNames, Splice, SetLen, Entry, Le32, Same, NameOf;
    assert RecOK(recs[i]);
    var rec, used := recs[i], RecLenFor(recs[i][6]);
    var a, b := recs[..i], recs[i + 1..];
    var x, y := Head(rec, used), Slack(rec, used, name, ino, fileType);
    assert recs == a + [rec] + b;
    FlatAt(recs, i);
    CutRecord(rec, name, ino, fileType);
    SplitRecord(a, rec, b, x, y);
    Parts(a, [x, y], b, []);
    Two(x, y, []);
    PutInside(Flat(a), rec, Flat(b), 0, SetLen(rec[..8], used));
    PutInside(Flat(a), Splice(rec, 0, SetLen(rec[..8], used)), Flat(b), used, Entry(name, ino, fileType, |rec| - used));
  }

  lemma NewBlock(recs: seq<seq<byte>>, name: Name, ino: nat, fileType: byte, bs: nat)
    requires Tiled(recs) && UniqueNames(recs) && |name| <= 255 && 0 < ino < U32 && Bound(recs, name) == 0 && 1024 <= bs < 0x1_0000
    ensures var y := Entry(name, ino, fileType, bs) + Zeros(bs - RecLenFor(|name|));
            && Tiled(recs + [y]) && UniqueNames(recs + [y]) && Rebound(recs, recs + [y], name, ino, fileType)
            && Flat(recs + [y]) == Flat(recs) + Entry(name, ino, fileType, bs) + Zeros(bs - RecLenFor(|name|))
  {
    EntryOK(name, ino, fileType, Zeros(bs - RecLenFor(|name|)));
    AppendRecord(recs, Entry(name, ino, fileType, bs) + Zeros(bs - RecLenFor(|name|)));
    Assoc3(Flat(recs), Entry(name, ino, fileType, bs), Zeros(bs - RecLenFor(|name|)));
  }

  // Removing and replacing

  function JoinedLen(a: nat, b: nat): nat { (a + b) % 0x1_0000 }

  /** The joined record is as long as its header can say. */
  predicate Joinable(recs: seq<seq<byte>>, i: nat)
    requires i < |recs|
  {
    i == 0 || |recs[i - 1]| + |recs[i]| < 0x1_0000
  }

  /** Directories below 65536 bytes have no other. */
  lemma SmallIsJoinable(recs: seq<seq<byte>>, i: nat)
    requires i < |recs| && |Flat(recs)| < 0x1_0000
    ensures Joinable(recs, i)
  {
    if i > 0 {
      ScanAt(recs, i - 1);
      ScanAt(recs, i);
    }
  }

  /** The bytes `remove_dirent` leaves after a scan with result `r`. */
  function Cleared(d: seq<byte>, r: Found): (d': seq<byte>)
    requires r.FoundAt? ==> Sound(d, r.off) && r.recLen == U16(d, r.off + 4) && (r.prev == -1 || (r.prev >= 0 && Sound(d, r.prev)))
    ensures |d'| == |d|
  {
    if !r.FoundAt? then d
    else if r.prev >= 0 then
      var hdr := d[r.prev..r.prev + 8];
      Splice(d, r.prev, SetLen(hdr, JoinedLen(U16(hdr, 4), r.recLen)))
    else Splice(d, r.off, SetIno(d[r.off..r.off + 8], 0))
  }

  ghost function Joined(recs: seq<seq<byte>>, i: nat): seq<seq<byte>>
    requires 0 < i < |recs| && Joinable(recs, i) && |recs[i - 1]| >= 8
  {
    recs[..i - 1] + [SetLen(recs[i - 1], |recs[i - 1]| + |recs[i]|) + recs[i]] + recs[i + 1..]
  }

  lemma JoinBytes(recs: seq<seq<byte>>, i: nat, name: Name)
    requires Tiled(recs) && UniqueNames(recs) && 0 < i < |recs| && Joinable(recs, i) && Binds(recs[i], name) && |recs[i - 1]| >= 8
    ensures var d, off, prev, sum := Flat(recs), Offset(recs, i - 1), recs[i - 1], |recs[i - 1]| + |recs[i]|;
            && off + 8 <= |d| && d[off..off + 8] == prev[..8]
            && Splice(d, off, SetLen(prev[..8], sum)) == Flat(Joined(recs, i))
            && Tiled(Joined(recs, i)) && UniqueNames(Joined(recs, i)) && Rebound(recs, Joined(recs, i), name, 0, 0)
  {
    hide Flat, Bound, Kind, Uses, Rebound, UniqueNames, Le32;
    var prev, rec, sum := recs[i - 1], recs[i], |recs[i - 1]| + |recs[i]|;
    var a, b := recs[..i - 1], recs[i + 1..];
    assert RecOK(prev);
    assert recs == a + [prev, rec] + b;
    SetLenOK(prev, rec, sum);
    var x := SetLen(prev, sum) + rec;
    MergeRecords(a, prev, rec, b, x, name);
    Parts(a, [prev, rec], b, []);
    Two(prev, rec, []);
    Parts(a, [x], b, []);
    One(x, []);
    PutInside(Flat(a), prev + rec, Flat(b), 0, SetLen(prev[..8], sum));
    assert Splice(prev + rec, 0, SetLen(prev[..8], sum)) == x;
  }

  lemma ReplaceBytes(recs: seq<seq<byte>>, i: nat, name: Name, ino: nat, fileType: byte)
    requires Tiled(recs) && UniqueNames(recs) && i < |recs| && Binds(recs[i], name) && ino < U32
    ensures var d, off, rec := Flat(recs), Offset(recs, i), recs[i];
            var recs' := recs[..i] + [SetIno(rec, ino)[7 := fileType]] + recs[i + 1..];
            && off + 8 <= |d| && d[off..off + 8] == rec[..8]
            && Splice(d, off, SetIno(rec[..8], ino)[7 := fileType]) == Flat(recs')
            && Tiled(recs') && UniqueNames(recs') && Rebound(recs, recs', name, ino, if ino == 0 then 0 else fileType)
    ensures fileType == recs[i][7] ==> SetIno(recs[i], ino)[7 := fileType] == SetIno(recs[i], ino)
    ensures fileType == recs[i][7] ==> SetIno(recs[i][..8], ino)[7 := fileType] == SetIno(recs[i][..8], ino)
  {
    hide Flat, Bound, Kind, Uses;
    var rec := recs[i];
    var a, b := recs[..i], recs[i + 1..];
    assert recs == a + [rec] + b;
    FlatAt(recs, i);
    SetInoOK(rec, ino);
    var x := SetIno(rec, ino)[7 := fileType];
    assert NameOf(x) == NameOf(rec);
    ChangeRecord(a, rec, b, x, name);
    Parts(a, [x], b, []);
    One(x, []);
    PutInside(Flat(a), rec, Flat(b), 0, SetIno(rec[..8], ino)[7 := fileType]);
    assert Splice(rec, 0, SetIno(rec[..8], ino)[7 := fileType]) == x;
  }

  /** The records after a removal that can join. */
  ghost function Without(recs: seq<seq<byte>>, i: nat): seq<seq<byte>>
    requires i < |recs| && Joinable(recs, i) && Tiled(recs)
  {
    if i == 0 then [SetIno(recs[0], 0)] + recs[1..] else Joined(recs, i)
  }

  lemma ClearedRecords(recs: seq<seq<byte>>, name: Name, r: Found, i: nat)
    requires Tiled(recs) && UniqueNames(recs) && r == Scan(Flat(recs), 0, -1, name) && r.FoundAt? && Located(recs, name, r, i)
    requires Joinable(recs, i)
    ensures Cleared(Flat(recs), r) == Flat(Without(recs, i)) && Tiled(Without(recs, i)) && UniqueNames(Without(recs, i))
    ensures Rebound(recs, Without(recs, i), name, 0, 0)
  {
    hide Flat, Bound, Kind, Uses, Splice, SetLen, SetIno, U16, Le32, Scan, Rebound, UniqueNames;
    if i > 0 {
      ClearedJoined(recs, name, r, i);
    } else {
      Header(recs, i);
      ReplaceBytes(recs, i, name, 0, recs[i][7]);
      assert recs[..0] + [SetIno(recs[0], 0)] + recs[1..] == [SetIno(recs[0], 0)] + recs[1..];
    }
  }

  lemma ClearedJoined(recs: seq<seq<byte>>, name: Name, r: Found, i: nat)
    requires Tiled(recs) && UniqueNames(recs) && r == Scan(Flat(recs), 0, -1, name) && r.FoundAt? && Located(recs, name, r, i)
    requires 0 < i && Joinable(recs, i)
    ensures |recs[i - 1]| >= 8 && Cleared(Flat(recs), r) == Flat(Joined(recs, i))
    ensures Tiled(Joined(recs, i)) && UniqueNames(Joined(recs, i)) && Rebound(recs, Joined(recs, i), name, 0, 0)
  {
    hide Flat, Bound, Kind, Uses, Splice, SetLen, SetIno, U16, Le32, Scan, Rebound, UniqueNames;
    Header(recs, i - 1);
    JoinBytes(recs, i, name);
  }

  // When removal is right

  /** The bytes after removing the name of record `i`. */
  ghost function AfterRemoval(recs: seq<seq<byte>>, name: Name): seq<byte> {
    Cleared(Flat(recs), Scan(Flat(recs), 0, -1, name))
  }

  /** They are a directory again, which has lost that name and nothing else. */
  ghost predicate RemovedRight(recs: seq<seq<byte>>, name: Name) {
    exists recs' :: Flat(recs') == AfterRemoval(recs, name) && Tiled(recs') && UniqueNames(recs') && Rebound(recs, recs', name, 0, 0)
  }

  /** A directory in which a record of `a` bytes stands before one of `b` bytes, which binds `name`. */
  ghost predicate Neighbours(recs: seq<seq<byte>>, i: nat, name: Name, a: nat, b: nat) {
    && Tiled(recs) && UniqueNames(recs) && 0 < i < |recs| && |recs[i - 1]| == a && |recs[i]| == b && Binds(recs[i], name)
  }

  lemma OnlyBinding(recs: seq<seq<byte>>, i: nat, j: nat, name: Name)
    requires UniqueNames(recs) && i < |recs| && j < |recs| && Binds(recs[i], name) && Binds(recs[j], name)
    ensures i == j
  {
    if i < j {
      UsesPrefix(recs, i, j, name);
    } else if j < i {
      UsesPrefix(recs, j, i, name);
    }
    assert Uses(recs, name) <= 1;
  }

  lemma UsesPrefix(recs: seq<seq<byte>>, i: nat, j: nat, name: Name)
    requires i < j < |recs| && Binds(recs[i], name) && Binds(recs[j], name)
    ensures Uses(recs, name) >= 2
  {
    assert recs == recs[..j] + [recs[j]] + recs[j + 1..];
    Parts(recs[..j], [recs[j]], recs[j + 1..], name);
    One(recs[j], name);
    UsedIsBound(recs[..j], i);
    BoundIffUsed(recs[..j], name);
  }

  lemma ShortIsRight(recs: seq<seq<byte>>, i: nat, name: Name, a: nat, b: nat)
    requires Neighbours(recs, i, name, a, b) && a + b < 0x1_0000
    ensures RemovedRight(recs, name)
  {
    hide Flat, Bound, Kind, Uses, Scan, Cleared, UniqueNames, Rebound;
    var j := ScanRecords(recs, name);
    var r := Scan(Flat(recs), 0, -1, name);
    StillBound(recs, i, name);
    OnlyBinding(recs, i, j, name);
    ClearedRecords(recs, name, r, i);
    assert Flat(Without(recs, i)) == AfterRemoval(recs, name);
  }

  lemma StillBound(recs: seq<seq<byte>>, i: nat, name: Name)
    requires i < |recs| && Binds(recs[i], name)
    ensures Bound(recs, name) != 0
  {
    UsedIsBound(recs, i);
  }

  /** Where a scan gives up there is no directory. */
  lemma CorruptIsWrong(recs: seq<seq<byte>>, name: Name, n: Name)
    requires Scan(AfterRemoval(recs, name), 0, -1, n) == Corrupt
    ensures !RemovedRight(recs, name)
  {
    hide Flat, Bound, Kind, Uses, Cleared, UniqueNames, Rebound, Scan;
    if RemovedRight(recs, name) {
      var recs' :| Flat(recs') == AfterRemoval(recs, name) && Tiled(recs') && UniqueNames(recs') && Rebound(recs, recs', name, 0, 0);
      var j := ScanRecords(recs', n);
    }
  }

  /** A record that binds nothing. */
  function Blank(n: nat): (rec: seq<byte>)
    requires 8 <= n < 0x1_0000
    ensures |rec| == n
  {
    Entry([], 0, 0, n) + Zeros(n - 8)
  }

  function Single(name: Name, ino: nat, n: nat): (rec: seq<byte>)
    requires |name| <= 255 && RecLenFor(|name|) <= n < 0x1_0000 && 0 < ino < U32
    ensures |rec| == n
  {
    Entry(name, ino, 1, n) + Zeros(n - RecLenFor(|name|))
  }

  /** A directory of two records, and what removing the second one's name leaves. */
  lemma PairRemoval(x: seq<byte>, y: seq<byte>, name: Name)
    requires RecOK(x) && Binds(y, name) && (Ino(x) != 0 ==> NameOf(x) != name)
    ensures Neighbours([x, y], 1, name, |x|, |y|) && Flat([x, y]) == x + y
    ensures |x + y| >= 8 && AfterRemoval([x, y], name) == Splice(x + y, 0, SetLen((x + y)[..8], JoinedLen(|x|, |y|)))
  {
    hide Scan, Le32, Splice, SetLen, Cleared, U16;
    var recs := [x, y];
    Two(x, y, name);
    forall n: Name
      ensures Uses(recs, n) <= 1
    {
      Two(x, y, n);
    }
    var j := ScanRecords(recs, name);
    StillBound(recs, 1, name);
    assert j == 1;
    OffsetZero(recs);
    var r := Scan(Flat(recs), 0, -1, name);
    assert r.prev == 0 && r.recLen == |y|;
    Header(recs, 0);
    ClearedBehind(Flat(recs), r);
  }

  /** Two records, of which only the second binds a name. */
  lemma TwoRecords(a: nat, b: nat, name: Name, ino: nat)
    requires 8 <= a < 0x1_0000 && |name| <= 255 && RecLenFor(|name|) <= b < 0x1_0000 && 0 < ino < U32
    ensures var recs, d := [Blank(a), Single(name, ino, b)], Blank(a) + Single(name, ino, b);
            Neighbours(recs, 1, name, a, b) && AfterRemoval(recs, name) == Splice(d, 0, SetLen(d[..8], JoinedLen(a, b)))
  {
    EntryOK([], 0, 0, Zeros(a - 8));
    EntryOK(name, ino, 1, Zeros(b - RecLenFor(|name|)));
    PairRemoval(Blank(a), Single(name, ino, b), name);
  }

  lemma ClearedBehind(d: seq<byte>, r: Found)
    requires r.FoundAt? && r.prev >= 0 && Sound(d, r.off) && r.recLen == U16(d, r.off + 4) && Sound(d, r.prev)
    ensures Cleared(d, r) == Splice(d, r.prev, SetLen(d[r.prev..r.prev + 8], JoinedLen(U16(d[r.prev..r.prev + 8], 4), r.recLen)))
  {
  }

  /** Bytes of two such records after the removal. */
  lemma JoinedAt(a: nat, b: nat, name: Name, ino: nat, k: nat)
    requires 8 <= a < 0x1_0000 && |name| <= 255 && RecLenFor(|name|) <= b < 0x1_0000 && 0 < ino < U32 && k < a + b
    ensures var d := Blank(a) + Single(name, ino, b);
            var d', n := Splice(d, 0, SetLen(d[..8], JoinedLen(a, b))), JoinedLen(a, b);
            && |d'| == a + b
            && (k == 4 ==> d'[k] == n % 0x100) && (k == 5 ==> d'[k] == n / 0x100) && (k < 4 || 6 <= k < a ==> d'[k] == 0)
            && (a <= k < a + 4 ==> d'[k] == Le32Bytes(ino)[k - a])
            && (k == a + 4 ==> d'[k] == b % 0x100) && (k == a + 5 ==> d'[k] == b / 0x100)
            && (a + RecLenFor(|name|) <= k ==> d'[k] == 0)
  {
    hide Le32Bytes;
    var d := Blank(a) + Single(name, ino, b);
    SpliceAt(d, 0, SetLen(d[..8], JoinedLen(a, b)));
    BlankAt(a, if k < a then k else 0);
    SingleAt(name, ino, b, if k >= a then k - a else 0);
  }

  lemma BlankAt(a: nat, k: nat)
    requires 8 <= a < 0x1_0000 && k < a
    ensures k < 4 || 6 <= k ==> Blank(a)[k] == 0
  {
    assert Le32Bytes(0) == [0, 0, 0, 0];
  }

  lemma SingleAt(name: Name, ino: nat, b: nat, k: nat)
    requires |name| <= 255 && RecLenFor(|name|) <= b < 0x1_0000 && 0 < ino < U32 && k < b
    ensures var rec := Single(name, ino, b);
            && (k < 4 ==> rec[k] == Le32Bytes(ino)[k]) && (k == 4 ==> rec[k] == b % 0x100) && (k == 5 ==> rec[k] == b / 0x100)
            && (k >= RecLenFor(|name|) ==> rec[k] == 0)
  {
    hide Le32Bytes;
  }

  /** An inode number that puts zeros where the scan looks for a length, if `c` bytes of the first record are left. */
  function Tricky(c: nat): nat { if c <= 2 then 1 else 0x100_0000 }

  lemma TrickyBytes(c: nat)
    ensures Le32Bytes(Tricky(c)) == if c <= 2 then [1, 0, 0, 0] else [0, 0, 0, 1]
  {
  }

  /** The two records, with a sum that does not fit, after the removal. */
  function LongJoined(a: nat, b: nat, name: Name): (d: seq<byte>)
    requires 8 <= a < 0x1_0000 && |name| <= 1 && RecLenFor(|name|) <= b < 0x1_0000 && a + b >= 0x1_0000
    ensures |d| == a + b
  {
    var d := Blank(a) + Single(name, Tricky(0x1_0000 - b), b);
    Splice(d, 0, SetLen(d[..8], JoinedLen(a, b)))
  }

  lemma LongFirst(a: nat, b: nat, name: Name)
    requires 8 <= a < 0x1_0000 && |name| <= 1 && RecLenFor(|name|) <= b < 0x1_0000 && a + b >= 0x1_0000
    ensures var d := LongJoined(a, b, name); U16(d, 4) == a + b - 0x1_0000 && Le32(d, 0) == 0
  {
    JoinedAt(a, b, name, Tricky(0x1_0000 - b), 4);
    JoinedAt(a, b, name, Tricky(0x1_0000 - b), 5);
    forall k | 0 <= k < 4
      ensures LongJoined(a, b, name)[k] == 0
    {
      JoinedAt(a, b, name, Tricky(0x1_0000 - b), k);
    }
    hide LongJoined;
  }

  lemma LongSecond(a: nat, b: nat, name: Name)
    requires 8 <= a < 0x1_0000 && |name| <= 1 && RecLenFor(|name|) <= b < 0x1_0000 && a + b >= 0x1_0008
    ensures var d, n := LongJoined(a, b, name), a + b - 0x1_0000;
            if b == 0xFFFF then U16(d, n + 4) == 0xFF00 && d[n + 6] == 0xFF && U16(d, n + 0xFF04) == 0 else U16(d, n + 4) == 0
  {
    var c, n := 0x1_0000 - b, a + b - 0x1_0000;
    TrickyBytes(c);
    JoinedAt(a, b, name, Tricky(c), n + 4);
    JoinedAt(a, b, name, Tricky(c), n + 5);
    JoinedAt(a, b, name, Tricky(c), n + 6);
    JoinedAt(a, b, name, Tricky(c), n + 0xFF04);
    JoinedAt(a, b, name, Tricky(c), n + 0xFF05);
    hide Splice, Blank, Single, SetLen, Le32Bytes;
  }

  /** At lengths that do not fit, after the removal of the second record's name the scan gives up. */
  lemma LongIsCorrupt(a: nat, b: nat, name: Name)
    requires 8 <= a < 0x1_0000 && |name| <= 1 && RecLenFor(|name|) <= b < 0x1_0000 && a + b >= 0x1_0000
    ensures Scan(LongJoined(a, b, name), 0, -1, name) == Corrupt
  {
    hide LongJoined, U16, Le32, Peek;
    var d, n := LongJoined(a, b, name), a + b - 0x1_0000;
    LongFirst(a, b, name);
    if n >= 8 {
      LongSecond(a, b, name);
      assert Sound(d, 0) && !Matches(d, 0, name);
      assert Scan(d, 0, -1, name) == Scan(d, n, 0, name);
      if b == 0xFFFF {
        assert Sound(d, n) && !Matches(d, n, name) && !Sound(d, n + 0xFF00);
        assert Scan(d, n, 0, name) == Scan(d, n + 0xFF00, n, name);
      } else {
        assert !Sound(d, n);
      }
    }
  }

  /** Removal is right in every directory with two neighbours of these lengths exactly if their sum fits 16 bits. */
  lemma RemoveIff(a: nat, b: nat)
    requires 8 <= a < 0x1_0000 && 8 <= b < 0x1_0000
    ensures (forall recs, i, name {:trigger Neighbours(recs, i, name, a, b)} | Neighbours(recs, i, name, a, b) :: RemovedRight(recs, name))
            <==> a + b < 0x1_0000
  {
    hide Neighbours, RemovedRight;
    if a + b < 0x1_0000 {
      forall recs, i, name | Neighbours(recs, i, name, a, b)
        ensures RemovedRight(recs, name)
      {
        ShortIsRight(recs, i, name, a, b);
      }
    } else {
      var name: Name := if b >= 12 then [97] else [];
      var ino := Tricky(0x1_0000 - b);
      TwoRecords(a, b, name, ino);
      LongIsCorrupt(a, b, name);
      var recs := [Blank(a), Single(name, ino, b)];
      CorruptIsWrong(recs, name, name);
      assert Neighbours(recs, 1, name, a, b);
    }
  }

  /** Two records of 32768 bytes: removing the second name leaves a directory whose first name is not found either,
      because the scan gives up at a length of 0. */
  method LongRemovalLosesAll() returns (removed: Found, kept: Found)
    ensures removed.FoundAt? && kept == Corrupt
  {
    hide Scan, Le32, Splice, SetLen, Cleared, Single;
    var x, y := Single([97], 1, 0x8000), Single([98], 2, 0x8000);
    PairIsDirectory();
    var dir := new Directory(4096, x + y, [x, y]);
    ghost var i;
    removed, i := dir.RemoveDirent([98]);
    kept, i := dir.FindDirent([97]);
    NoLengthIsCorrupt(dir.data, [97]);
  }

  lemma PairIsDirectory()
    ensures var x, y := Single([97], 1, 0x8000), Single([98], 2, 0x8000);
            && Tiled([x, y]) && UniqueNames([x, y]) && Flat([x, y]) == x + y && Bound([x, y], [98]) != 0
            && U16(AfterRemoval([x, y], [98]), 4) == 0
  {
    var x, y := Single([97], 1, 0x8000), Single([98], 2, 0x8000);
    EntryOK([97], 1, 1, Zeros(0x8000 - 12));
    EntryOK([98], 2, 1, Zeros(0x8000 - 12));
    hide Single, Entry, Scan, Cleared;
    PairRemoval(x, y, [98]);
    StillBound([x, y], 1, [98]);
    SpliceAt(x + y, 0, SetLen((x + y)[..8], 0));
  }

  lemma NoLengthIsCorrupt(d: seq<byte>, name: Name)
    requires |d| >= 8 && U16(d, 4) == 0
    ensures Scan(d, 0, -1, name) == Corrupt
  {
  }

  /** A record that holds, behind its own name, the headers of two records that were joined to it earlier, the first of
      which bound "c" to inode `k`. */
  function StaleRec(k: nat): (rec: seq<byte>)
    requires k < U32
    ensures |rec| == 40012
  {
    Entry([97], 1, 1, 40012) + StaleTail(k)
  }

  function StaleTail(k: nat): (t: seq<byte>)
    requires k < U32
    ensures |t| == 40000
  {
    Entry([99], k, 1, 0x8000) + Zeros(0x8000 - 12) + (Entry([], 0, 0, 0x8000) + Zeros(7224))
  }

  /** The records that come to light when "b" is removed behind it. */
  function Uncovered(k: nat): seq<seq<byte>>
    requires k < U32
  {
    [Entry([97], 1, 1, 12), Entry([99], k, 1, 0x8000) + Zeros(0x8000 - 12),
     Entry([], 0, 0, 0x8000) + (Zeros(7224) + Single([98], 2, 25536))]
  }

  lemma StaleIsDirectory(k: nat)
    requires k < U32
    ensures var x, y := StaleRec(k), Single([98], 2, 25536);
            && Tiled([x, y]) && UniqueNames([x, y]) && Flat([x, y]) == x + y && Bound([x, y], [98]) != 0 && Bound([x, y], [99]) == 0
            && AfterRemoval([x, y], [98]) == Splice(x + y, 0, SetLen((x + y)[..8], 12))
    ensures forall n :: Bound([StaleRec(k), Single([98], 2, 25536)], n) == if n == [97] then 1 else if n == [98] then 2 else 0
    ensures forall n :: Kind([StaleRec(k), Single([98], 2, 25536)], n) == if n == [97] || n == [98] then 1 else 0
  {
    var x, y := StaleRec(k), Single([98], 2, 25536);
    EntryOK([97], 1, 1, StaleTail(k));
    EntryOK([98], 2, 1, Zeros(25524));
    hide Single, Entry, Scan, Cleared, StaleRec;
    PairRemoval(x, y, [98]);
    StillBound([x, y], 1, [98]);
    forall n
      ensures Bound([x, y], n) == if n == [97] then 1 else if n == [98] then 2 else 0
      ensures Kind([x, y], n) == if n == [97] || n == [98] then 1 else 0
    {
      Two(x, y, n);
    }
  }

  lemma Relabelled(tail: seq<byte>)
    ensures var e := Entry([97], 1, 1, 40012);
            Splice(e + tail, 0, SetLen((e + tail)[..8], 12)) == Entry([97], 1, 1, 12) + tail
  {
  }

  lemma UncoveredBytes(k: nat)
    requires k < U32
    ensures var d := StaleRec(k) + Single([98], 2, 25536); Splice(d, 0, SetLen(d[..8], 12)) == Flat(Uncovered(k))
  {
    hide Entry, Single, Splice, SetLen, Zeros;
    var e, c, o, z, y := Entry([97], 1, 1, 12), Entry([99], k, 1, 0x8000), Entry([], 0, 0, 0x8000), Zeros(7224), Single([98], 2, 25536);
    var g := Zeros(0x8000 - 12);
    var tail := StaleTail(k) + y;
    Assoc3(Entry([97], 1, 1, 40012), StaleTail(k), y);
    Relabelled(tail);
    assert tail == c + g + (o + (z + y));
    assert Uncovered(k) == [e] + [c + g, o + (z + y)];
    FlatOne(e, [c + g, o + (z + y)]);
    Two(c + g, o + (z + y), []);
  }

  lemma UncoveredBinds(k: nat)
    requires k < U32
    ensures Tiled(Uncovered(k)) && UniqueNames(Uncovered(k))
    ensures forall n :: Bound(Uncovered(k), n) == if n == [97] then 1 else if n == [99] then k else 0
    ensures forall n :: Kind(Uncovered(k), n) == if n == [97] || (n == [99] && k != 0) then 1 else 0
  {
    hide Entry, Single, RecOK, Ino, NameOf, Bound, Kind, Uses, UniqueNames, Tiled;
    EntryOK([97], 1, 1, []);
    EntryOK([99], k, 1, Zeros(0x8000 - 12));
    EntryOK([], 0, 0, Zeros(7224) + Single([98], 2, 25536));
    assert Entry([97], 1, 1, 12) + [] == Entry([97], 1, 1, 12);
    var l := Uncovered(k);
    ThreeRecords(l[0], l[1], l[2], k);
    assert l == [l[0], l[1], l[2]];
  }

  lemma ThreeRecords(x: seq<byte>, y: seq<byte>, z: seq<byte>, k: nat)
    requires RecOK(x) && RecOK(y) && RecOK(z) && Ino(x) == 1 && NameOf(x) == [97] && Ino(y) == k && NameOf(y) == [99] && Ino(z) == 0 && x[7] == y[7] == 1
    ensures Tiled([x, y, z]) && UniqueNames([x, y, z])
    ensures forall n :: Bound([x, y, z], n) == if n == [97] then 1 else if n == [99] then k else 0
    ensures forall n :: Kind([x, y, z], n) == if n == [97] || (n == [99] && k != 0) then 1 else 0
  {
    hide RecOK, Ino, NameOf;
    assert [x, y, z] == [x] + [y, z];
    forall n
      ensures Uses([x, y, z], n) <= 1 && Bound([x, y, z], n) == if n == [97] then 1 else if n == [99] then k else 0
      ensures Kind([x, y, z], n) == if n == [97] || (n == [99] && k != 0) then 1 else 0
    {
      BoundAppend([x], [y, z], n);
      One(x, n);
      Two(y, z, n);
    }
  }

  /** A name that was removed is bound again by the removal of another: the joined length wraps to that of the first
      record alone, and behind it the old headers are read. */
  method StaleNameReturns(ino: nat) returns (before: Found, removed: Found, after: Found)
    requires 0 < ino < U32
    ensures before == NotFound && removed.FoundAt? && after.FoundAt? && after.ino == ino
  {
    hide Scan, Le32, Splice, SetLen, Cleared, Single, StaleRec, Bound;
    var x, y := StaleRec(ino), Single([98], 2, 25536);
    StaleIsDirectory(ino);
    UncoveredBytes(ino);
    UncoveredBinds(ino);
    var dir := new Directory(4096, x + y, [x, y]);
    ghost var i;
    before, i := dir.FindDirent([99]);
    removed, i := dir.RemoveDirent([98]);
    after, i := dir.FindDirent([99]);
    ghost var j := ScanRecords(Uncovered(ino), [99]);
  }

  /** The lengths alone do not make it wrong: with an unused old header in that place the same removal is right. */
  lemma LongRemovalCanBeRight()
    ensures var recs := [StaleRec(0), Single([98], 2, 25536)];
            Neighbours(recs, 1, [98], 40012, 25536) && 40012 + 25536 >= 0x1_0000 && RemovedRight(recs, [98])
  {
    EntryOK([98], 2, 1, Zeros(25524));
    hide Entry, Single, StaleRec, Uncovered, AfterRemoval, Rebound, RecOK, Ino, NameOf, Flat, Splice, SetLen;
    StaleIsDirectory(0);
    UncoveredBytes(0);
    UncoveredBinds(0);
    StaleIsRebound();
  }

  lemma StaleIsRebound()
    ensures Rebound([StaleRec(0), Single([98], 2, 25536)], Uncovered(0), [98], 0, 0)
  {
    hide Entry, Single, StaleRec, Uncovered, AfterRemoval, Bound, Kind, Tiled, UniqueNames, Flat, Splice, SetLen;
    StaleIsDirectory(0);
    UncoveredBinds(0);
  }

  lemma OffsetZero(recs: seq<seq<byte>>)
    ensures Offset(recs, 0) == 0
  {
    assert recs[..0] == [];
  }

  lemma UsedIsBound(recs: seq<seq<byte>>, i: nat)
    requires i < |recs| && RecOK(recs[i]) && Ino(recs[i]) != 0
    ensures Bound(recs, NameOf(recs[i])) != 0
  {
    var n := NameOf(recs[i]);
    assert recs == recs[..i] + [recs[i]] + recs[i + 1..];
    Parts(recs[..i], [recs[i]], recs[i + 1..], n);
    One(recs[i], n);
  }

  /** Nothing but "." and ".." is bound. */
  ghost predicate OnlyDots(recs: seq<seq<byte>>) {
    forall n: Name {:trigger Bound(recs, n)} | n != [] && Bound(recs, n) != 0 :: n == DOT || n == DOTDOT
  }

  lemma NextDots(recs: seq<seq<byte>>, i: nat)
    requires i < |recs| && OnlyDots(recs[..i]) && RecOK(recs[i])
    requires Ino(recs[i]) != 0 && NameOf(recs[i]) != [] ==> NameOf(recs[i]) == DOT || NameOf(recs[i]) == DOTDOT
    ensures OnlyDots(recs[..i + 1])
  {
    var next := recs[..i + 1];
    assert next == recs[..i] + [recs[i]];
    forall n: Name | n != [] && Bound(next, n) != 0
      ensures n == DOT || n == DOTDOT
    {
      BoundAppend(recs[..i], [recs[i]], n);
      One(recs[i], n);
    }
  }
}
