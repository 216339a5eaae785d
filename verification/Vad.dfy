/** The sorted list of areas of an address space, and the searches over it. Addresses are 64-bit words. */
module Areas {
  import opened Machine
  import opened Sizes

  /** VAS_USER_END is not page-aligned: the last page below it is never used. */
  const USER_END: nat := 0x7FFF_FFFF_FFFF

  type Address = x: nat | x < U64

  function AlignDown(x: nat): nat { x / PAGE_SIZE * PAGE_SIZE }

  /** ALIGN_UP in 64-bit arithmetic: it wraps to 0 above the last page boundary. */
  function AlignUp(x: nat): nat { (x + (PAGE_SIZE - 1)) % U64 / PAGE_SIZE * PAGE_SIZE }

  function Add(a: nat, b: nat): nat { (a + b) % U64 }

  predicate Aligned(x: nat) { x % PAGE_SIZE == 0 }

  lemma AlignUpExact(x: nat)
    requires x <= U64 - PAGE_SIZE
    ensures Aligned(AlignUp(x)) && x <= AlignUp(x) < x + PAGE_SIZE
    ensures Aligned(x) ==> AlignUp(x) == x
  {
  }

  lemma AddAligned(lo: nat, length: nat)
    requires Aligned(lo)
    ensures Aligned(Add(lo, AlignUp(length)))
  {
  }

  lemma AlignUpLeast(x: nat, c: nat)
    requires x <= U64 - PAGE_SIZE && x <= c && Aligned(c)
    ensures AlignUp(x) <= c
  {
  }

  datatype File = NoFile | File(id: nat)

  /** `vad_t::flags`: protection bits (low twelve and NX) and the VAD_ bits above them. */
  datatype VadFlags = VadFlags(prot: Bits, anonymous: bool, fixed: bool, shared: bool)

  datatype Vad = Vad(start: nat, end: nat, flags: VadFlags, file: File, offset: nat)

  predicate VadOK(v: Vad) {
    v.start < v.end <= USER_END && Aligned(v.start) && Aligned(v.end) && (v.file == NoFile ==> v.offset == 0)
  }

  /** Areas are page-aligned, nonempty, sorted and pairwise disjoint. */
  ghost predicate WellFormed(l: seq<Vad>) {
    && (forall i | 0 <= i < |l| :: VadOK(l[i]))
    && (forall i, j | 0 <= i < j < |l| :: l[i].end <= l[j].start)
  }

  predicate Covers(v: Vad, addr: nat) { v.start <= addr < v.end }

  ghost predicate Covered(l: seq<Vad>, addr: nat) {
    exists i :: 0 <= i < |l| && Covers(l[i], addr)
  }

  /** `vas_find` */
  function Find(l: seq<Vad>, addr: nat): (i: int)
    ensures 0 <= i ==> i < |l| && Covers(l[i], addr)
    ensures i < 0 <==> !Covered(l, addr)
  {
    if l == [] then -1
    else if Covers(l[0], addr) then 0
    else
      var i := Find(l[1..], addr);
      assert Covered(l[1..], addr) ==> Covered(l, addr) by {
        if j :| 0 <= j < |l[1..]| && Covers(l[1..][j], addr) {
          assert Covers(l[j + 1], addr);
        }
      }
      assert Covered(l, addr) ==> Covered(l[1..], addr) by {
        if j :| 0 <= j < |l| && Covers(l[j], addr) {
          assert Covers(l[1..][j - 1], addr);
        }
      }
      if i < 0 then -1 else i + 1
  }

  /** What backs one address: protection, and for files the place in the file. */
  datatype Backing = Nothing | Memory(flags: VadFlags, file: File, at: nat)

  function BackingOf(v: Vad, addr: nat): Backing
    requires v.start <= addr
  {
    Memory(v.flags, v.file, if v.file == NoFile then 0 else v.offset + (addr - v.start))
  }

  function At(l: seq<Vad>, addr: nat): Backing {
    var i := Find(l, addr);
    if i < 0 then Nothing else BackingOf(l[i], addr)
  }

  lemma AtIs(l: seq<Vad>, i: nat, addr: nat)
    requires WellFormed(l) && i < |l| && Covers(l[i], addr)
    ensures Find(l, addr) == i && At(l, addr) == BackingOf(l[i], addr)
  {
    assert Covered(l, addr);
    var j := Find(l, addr);
    assert j == i || j < i || i < j;
  }

  /** Where `_vad_insert` stops: before the first area that does not start below `start`. */
  function InsertPos(l: seq<Vad>, start: nat): (p: nat)
    ensures p <= |l|
    ensures forall i | 0 <= i < p :: l[i].start < start
    ensures p < |l| ==> l[p].start >= start
  {
    if l == [] || l[0].start >= start then 0 else 1 + InsertPos(l[1..], start)
  }

  /** `_vad_insert` */
  function Insert(l: seq<Vad>, v: Vad): seq<Vad> {
    var p := InsertPos(l, v.start);
    l[..p] + [v] + l[p..]
  }

  /** The range meets no area. */
  ghost predicate Apart(l: seq<Vad>, start: nat, end: nat) {
    forall i | 0 <= i < |l| :: end <= l[i].start || l[i].end <= start
  }

  lemma InsertOK(l: seq<Vad>, v: Vad)
    requires WellFormed(l) && VadOK(v) && Apart(l, v.start, v.end)
    ensures WellFormed(Insert(l, v))
  {
    var p := InsertPos(l, v.start);
    InsertSplit(l, v, p);
    AppendOK(l[..p], [v], v.start);
    AppendOK(l[..p] + [v], l[p..], v.end);
  }

  lemma InsertSplit(l: seq<Vad>, v: Vad, p: nat)
    requires WellFormed(l) && VadOK(v) && Apart(l, v.start, v.end) && p == InsertPos(l, v.start)
    ensures WellFormed(l[..p]) && WellFormed(l[p..])
    ensures forall x | x in l[..p] :: x.end <= v.start
    ensures forall x | x in l[p..] :: v.end <= x.start
  {
    hide Aligned, InsertPos;
    forall i | p <= i < |l|
      ensures v.end <= l[i].start
    {
      assert VadOK(l[p]) && VadOK(l[i]);
    }
  }

  /** An empty area breaks every list it is inserted into. */
  lemma EmptyAreaBreaks(l: seq<Vad>, v: Vad)
    requires v.start == v.end
    ensures !WellFormed(Insert(l, v))
  {
    InsertIndex(l, v);
    assert !VadOK(Insert(l, v)[InsertPos(l, v.start)]);
  }

  lemma InsertContents(l: seq<Vad>, v: Vad)
    ensures multiset(Insert(l, v)) == multiset(l) + multiset{v}
  {
    var p := InsertPos(l, v.start);
    assert l == l[..p] + l[p..];
  }

  /** Inserting an area backs its own addresses and changes no other. */
  lemma InsertAt(l: seq<Vad>, v: Vad, addr: nat)
    requires WellFormed(l) && VadOK(v) && Apart(l, v.start, v.end)
    ensures At(Insert(l, v), addr) == if Covers(v, addr) then BackingOf(v, addr) else At(l, addr)
  {
    hide Aligned;
    InsertOK(l, v);
    InsertIndex(l, v);
    hide Insert, InsertPos, WellFormed;
    var p, r := InsertPos(l, v.start), Insert(l, v);
    if Covers(v, addr) {
      AtIs(r, p, addr);
    } else if Covered(l, addr) {
      var i :| 0 <= i < |l| && Covers(l[i], addr);
      var j := if i < p then i else i + 1;
      assert r[j] == l[i];
      AtIs(r, j, addr);
      AtIs(l, i, addr);
    } else {
      forall j | 0 <= j < |r|
        ensures !Covers(r[j], addr)
      {
        assert j < p ==> !Covers(l[j], addr);
        assert j > p ==> !Covers(l[j - 1], addr);
      }
    }
  }

  lemma InsertIndex(l: seq<Vad>, v: Vad)
    ensures var p, r := InsertPos(l, v.start), Insert(l, v);
            && p <= |l| && |r| == |l| + 1 && r[p] == v
            && (forall i | 0 <= i < p :: r[i] == l[i]) && (forall i | p < i < |r| :: r[i] == l[i - 1])
  {
    hide InsertPos;
  }

  /** `_vad_clone_segment` */
  function Segment(v: Vad, start: nat, end: nat): Vad
    requires v.start <= start
  {
    Vad(start, end, v.flags, v.file, if v.file == NoFile then 0 else v.offset + (start - v.start))
  }

  /** What `_vad_remove_range` leaves of one area. */
  function Cut(v: Vad, start: nat, end: nat): seq<Vad> {
    if v.end <= start || v.start >= end then [v]
    else
      (if v.start < start then [Segment(v, v.start, start)] else []) +
      (if v.end > end then [Segment(v, end, v.end)] else [])
  }

  function RemoveRange(l: seq<Vad>, start: nat, end: nat): seq<Vad> {
    if l == [] then [] else Cut(l[0], start, end) + RemoveRange(l[1..], start, end)
  }

  /** An unmapping whose end wrapped below its start meets an area that spans both. */
  predicate Straddled(l: seq<Vad>, start: nat, end: nat) {
    exists i :: 0 <= i < |l| && l[i].start < end < start < l[i].end
  }

  /** Every piece lies inside the area it came from, and outside the removed range. */
  lemma CutInside(v: Vad, start: nat, end: nat)
    requires VadOK(v) && Aligned(start) && Aligned(end) && start <= end
    ensures WellFormed(Cut(v, start, end))
    ensures forall x | x in Cut(v, start, end) :: v.start <= x.start && x.end <= v.end
  {
  }

  lemma {:induction false} RemoveRangeOK(l: seq<Vad>, start: nat, end: nat)
    requires WellFormed(l) && Aligned(start) && Aligned(end) && start <= end
    ensures WellFormed(RemoveRange(l, start, end))
    ensures forall x | x in RemoveRange(l, start, end) :: l != [] && l[0].start <= x.start
  {
    if l != [] {
      var v, c, r := l[0], Cut(l[0], start, end), RemoveRange(l[1..], start, end);
      assert VadOK(v) && WellFormed(l[1..]);
      RemoveRangeOK(l[1..], start, end);
      CutInside(v, start, end);
      forall x | x in r
        ensures v.end <= x.start
      {
        assert l[1..][0] == l[1];
      }
      AppendOK(c, r, v.end);
    }
  }

  lemma AppendOK(a: seq<Vad>, b: seq<Vad>, mid: nat)
    requires WellFormed(a) && WellFormed(b)
    requires (forall x | x in a :: x.end <= mid) && (forall x | x in b :: mid <= x.start)
    ensures WellFormed(a + b)
  {
    forall i, j | 0 <= i < j < |a + b|
      ensures (a + b)[i].end <= (a + b)[j].start
    {
      if i < |a| <= j {
        assert a[i] in a && b[j - |a|] in b;
      }
    }
  }

  lemma AppendAt(a: seq<Vad>, b: seq<Vad>, addr: nat)
    requires WellFormed(a + b)
    ensures At(a + b, addr) == if Covered(a, addr) then At(a, addr) else At(b, addr)
  {
    PrefixOK(a, b);
    SuffixOK(a, b);
    hide WellFormed, BackingOf;
    if i :| 0 <= i < |a| && Covers(a[i], addr) {
      AtIs(a, i, addr);
      AtIs(a + b, i, addr);
    } else if i :| 0 <= i < |b| && Covers(b[i], addr) {
      AtIs(b, i, addr);
      AtIs(a + b, |a| + i, addr);
    } else {
      forall j | 0 <= j < |a + b|
        ensures !Covers((a + b)[j], addr)
      {
        assert (a + b)[j] == if j < |a| then a[j] else b[j - |a|];
      }
    }
  }

  lemma CutAt(v: Vad, start: nat, end: nat, addr: nat)
    requires VadOK(v) && Aligned(start) && Aligned(end) && start <= end
    ensures At(Cut(v, start, end), addr) == if start <= addr < end || !Covers(v, addr) then Nothing else BackingOf(v, addr)
  {
    CutInside(v, start, end);
    var c := Cut(v, start, end);
    forall i | 0 <= i < |c| && Covers(c[i], addr)
      ensures !(start <= addr < end) && Covers(v, addr) && BackingOf(c[i], addr) == BackingOf(v, addr)
    {
    }
    if Covers(v, addr) && !(start <= addr < end) {
      assert Covers(c[0], addr) || Covers(c[|c| - 1], addr);
    }
    if Covered(c, addr) {
      var i :| 0 <= i < |c| && Covers(c[i], addr);
      AtIs(c, i, addr);
    }
  }

  /** Removing a range takes away exactly the addresses in it; protection and file offset of every other address
      stay, also when an area splits in two. */
  lemma {:induction false} RemoveRangeAt(l: seq<Vad>, start: nat, end: nat, addr: nat)
    requires WellFormed(l) && Aligned(start) && Aligned(end) && start <= end
    ensures At(RemoveRange(l, start, end), addr) == if start <= addr < end then Nothing else At(l, addr)
  {
    RemoveRangeOK(l, start, end);
    if l != [] {
      var v, c, r := l[0], Cut(l[0], start, end), RemoveRange(l[1..], start, end);
      assert WellFormed(l[1..]) && l == [v] + l[1..];
      RemoveRangeAt(l[1..], start, end, addr);
      CutAt(v, start, end, addr);
      AppendAt(c, r, addr);
      AppendAt([v], l[1..], addr);
      assert Covers([v][0], addr) <==> Covered([v], addr);
      if Covers(v, addr) {
        AtIs([v], 0, addr);
        AtIs(l, 0, addr);
        assert !Covered(l[1..], addr);
      }
    }
  }

  lemma {:induction false} StraddleOverlaps(l: seq<Vad>, start: nat, end: nat)
    requires Straddled(l, start, end)
    ensures !WellFormed(RemoveRange(l, start, end))
  {
    hide WellFormed, Cut;
    var i :| 0 <= i < |l| && l[i].start < end < start < l[i].end;
    var rest := RemoveRange(l[1..], start, end);
    if i == 0 {
      StraddledCut(l[0], start, end, rest);
    } else {
      assert l[1..][i - 1] == l[i];
      StraddleOverlaps(l[1..], start, end);
      SuffixOK(Cut(l[0], start, end), rest);
    }
  }

  lemma StraddledCut(v: Vad, start: nat, end: nat, rest: seq<Vad>)
    requires v.start < end < start < v.end
    ensures !WellFormed(Cut(v, start, end) + rest)
  {
    hide Aligned;
    var c := Cut(v, start, end);
    assert (c + rest)[0] == c[0] && (c + rest)[1] == c[1] && c[0].end > c[1].start;
  }

  lemma PrefixOK(a: seq<Vad>, b: seq<Vad>)
    ensures WellFormed(a + b) ==> WellFormed(a)
  {
    hide Aligned;
    assert forall j | 0 <= j < |a| :: a[j] == (a + b)[j];
  }

  lemma SuffixOK(a: seq<Vad>, b: seq<Vad>)
    ensures WellFormed(a + b) ==> WellFormed(b)
  {
    hide Aligned;
    assert forall j | 0 <= j < |b| :: b[j] == (a + b)[|a| + j];
  }

  lemma {:induction false} NothingToRemove(l: seq<Vad>, start: nat, end: nat)
    requires end < start && !Straddled(l, start, end)
    ensures RemoveRange(l, start, end) == l
  {
    if l != [] {
      assert l == [l[0]] + l[1..];
      forall j | 0 <= j < |l[1..]|
        ensures !(l[1..][j].start < end < start < l[1..][j].end)
      {
        assert l[1..][j] == l[j + 1];
      }
      assert !(l[0].start < end < start < l[0].end);
      NothingToRemove(l[1..], start, end);
    }
  }

  /** `vas_unmap` computes its end in 64 bits. The list stays sorted and disjoint exactly when the end did not
      wrap below the start inside a single area. */
  lemma RemoveRangeKeepsOrderIff(l: seq<Vad>, start: nat, end: nat)
    requires WellFormed(l) && Aligned(start) && Aligned(end)
    ensures WellFormed(RemoveRange(l, start, end)) <==> !Straddled(l, start, end)
    ensures end < start && !Straddled(l, start, end) ==> RemoveRange(l, start, end) == l
  {
    if Straddled(l, start, end) {
      StraddleOverlaps(l, start, end);
    } else if end < start {
      NothingToRemove(l, start, end);
    } else {
      RemoveRangeOK(l, start, end);
    }
  }

  /** The failing case exists: an area of four pages and a length that wraps to minus one page. */
  lemma UnmapCanOverlap(prot: Bits)
    ensures var l := [Vad(0x1000, 0x5000, VadFlags(prot, true, false, false), NoFile, 0)];
            var start, end := 0x3000, Add(0x3000, AlignUp(U64 - 0x1000));
            WellFormed(l) && Straddled(l, start, end) &&
            RemoveRange(l, start, end) == [Vad(0x1000, 0x3000, l[0].flags, NoFile, 0), Vad(0x2000, 0x5000, l[0].flags, NoFile, 0)]
  {
    var v := Vad(0x1000, 0x5000, VadFlags(prot, true, false, false), NoFile, 0);
    var l, end := [v], Add(0x3000, AlignUp(U64 - 0x1000));
    assert end == 0x2000;
    assert l[0].start < end < 0x3000 < l[0].end;
    assert l[1..] == [] && RemoveRange(l[1..], 0x3000, end) == [];
    assert RemoveRange(l, 0x3000, end) == Cut(v, 0x3000, end) + [];
  }

  /** The scan of `_vas_find_free`: the candidate base moves past every area it would run into. */
  function Scan(l: seq<Vad>, base: nat, length: nat): nat {
    if l == [] || Add(base, length) <= l[0].start then base
    else Scan(l[1..], if base < l[0].end then AlignUp(l[0].end) else base, length)
  }

  /** `_vas_find_free` */
  function FindFree(l: seq<Vad>, hint: nat, length: nat): nat {
    var base := Scan(l, AlignUp(hint), length);
    var end := Add(base, length);
    if end > USER_END || end < base then 0 else base
  }

  ghost predicate Free(l: seq<Vad>, base: nat, length: nat) {
    Apart(l, base, base + length)
  }

  ghost predicate Fits(l: seq<Vad>, base: nat, length: nat) {
    base + length <= USER_END && Free(l, base, length)
  }

  lemma {:induction false} ScanFirst(l: seq<Vad>, base: nat, length: nat)
    requires WellFormed(l) && Aligned(base) && length < U64 && base < U64
    ensures var b := Scan(l, base, length);
            && base <= b < U64 && Aligned(b)
            && (Add(b, length) == b + length ==> Free(l, b, length))
            && (forall c | base <= c < b :: !Free(l, c, length))
  {
    hide Aligned, AlignUp;
    if l == [] {
    } else if Add(base, length) <= l[0].start {
      assert forall i | 0 <= i < |l| :: l[0].start <= l[i].start;
    } else {
      assert VadOK(l[0]);
      EndIsAligned(l[0]);
      var next := if base < l[0].end then l[0].end else base;
      SuffixOK([l[0]], l[1..]);
      assert [l[0]] + l[1..] == l;
      ScanFirst(l[1..], next, length);
      hide Scan, WellFormed;
      var b := Scan(l[1..], next, length);
      forall c | base <= c < b
        ensures !Free(l, c, length)
      {
        FreeTail(l, c, length);
        assert c >= next ==> !Free(l[1..], c, length);
      }
      FreeTail(l, b, length);
    }
  }

  lemma EndIsAligned(v: Vad)
    requires VadOK(v)
    ensures AlignUp(v.end) == v.end && Aligned(v.end)
  {
    AlignUpExact(v.end);
  }

  lemma FreeTail(l: seq<Vad>, c: nat, length: nat)
    requires l != []
    ensures Free(l, c, length) <==> Free(l[1..], c, length) && (c + length <= l[0].start || l[0].end <= c)
  {
    assert forall i | 0 < i < |l| :: l[i] == l[1..][i - 1];
  }

  /** First fit: the result is the lowest page-aligned base at or above the hint that fits, and 0 exactly when
      nothing fits. */
  ghost predicate FirstFit(l: seq<Vad>, hint: nat, length: nat) {
    var b := FindFree(l, hint, length);
    && (b != 0 ==> hint <= b && Aligned(b) && Fits(l, b, length))
    && (forall c | hint <= c && Aligned(c) && Fits(l, c, length) :: 0 < b <= c)
  }

  /** The search starts at the hint rounded up, which is 0 in the last page, and 0 is also its answer for "none". */
  lemma FindFreeFrom(l: seq<Vad>, hint: nat, length: nat)
    requires WellFormed(l) && hint < U64 && length < U64
    ensures var b, base := FindFree(l, hint, length), AlignUp(hint);
            && (b != 0 ==> base <= b && Aligned(b) && Fits(l, b, length))
            && (forall c | base <= c && Aligned(c) && Fits(l, c, length) :: b <= c && (b == 0 ==> base == 0 && Fits(l, 0, length)))
  {
    AlignUpAligned(hint);
    hide AlignUp, Aligned, Scan, Free, WellFormed;
    ScanFirst(l, AlignUp(hint), length);
  }

  /** First fit holds for every hint except 0 when address 0 itself fits, and except hints in the last page when
      something fits above 0 and not at 0. */
  lemma FirstFitIff(l: seq<Vad>, hint: nat, length: nat)
    requires WellFormed(l) && hint < U64 && length < U64
    ensures hint == 0 ==> (FirstFit(l, hint, length) <==> !Fits(l, 0, length))
    ensures 0 < hint <= U64 - PAGE_SIZE ==> FirstFit(l, hint, length)
    ensures hint > U64 - PAGE_SIZE ==>
              (FirstFit(l, hint, length) <==> Fits(l, 0, length) || forall c | Aligned(c) :: !Fits(l, c, length))
  {
    FindFreeFrom(l, hint, length);
    RoundHint(hint);
    hide FindFree, Fits, Aligned, AlignUp;
    if hint > U64 - PAGE_SIZE {
      forall c: nat | hint <= c
        ensures !Fits(l, c, length)
      {
        FitsLow(l, c, length);
      }
      FitsLow(l, FindFree(l, hint, length), length);
    } else {
      forall c | hint <= c && Aligned(c) && Fits(l, c, length)
        ensures AlignUp(hint) <= c
      {
        AlignUpLeast(hint, c);
      }
    }
  }

  lemma FitsLow(l: seq<Vad>, c: nat, length: nat)
    ensures Fits(l, c, length) ==> c <= USER_END
  {
  }

  lemma RoundHint(hint: nat)
    requires hint < U64
    ensures Aligned(0) && if hint > U64 - PAGE_SIZE then AlignUp(hint) == 0 else AlignUp(hint) >= hint && (hint == 0 ==> AlignUp(hint) == 0)
  {
  }

  /** Whatever the hint, a nonzero result is free. */
  lemma FindFreeFits(l: seq<Vad>, hint: nat, length: nat)
    requires WellFormed(l) && length < U64
    ensures var b := FindFree(l, hint, length); b != 0 ==> Aligned(b) && Fits(l, b, length)
  {
    AlignUpAligned(hint);
    hide AlignUp, Aligned, Scan, Free, WellFormed;
    ScanFirst(l, AlignUp(hint), length);
  }

  lemma AlignUpAligned(x: nat)
    ensures Aligned(AlignUp(x)) && AlignUp(x) < U64
  {
  }

  /** A hint in the last page rounds up to 0, and the search answers below the hint. */
  lemma WrappedHintGoesLow(prot: Bits)
    ensures var l := [Vad(0, 0x1000, VadFlags(prot, true, true, false), NoFile, 0)];
            WellFormed(l) && FindFree(l, U64 - 1, 0x1000) == 0x1000 && !FirstFit(l, U64 - 1, 0x1000)
  {
    var v := Vad(0, 0x1000, VadFlags(prot, true, true, false), NoFile, 0);
    assert AlignUp(U64 - 1) == 0 && AlignUp(0x1000) == 0x1000;
    assert [v][1..] == [];
    assert Scan([v], 0, 0x1000) == Scan([], 0x1000, 0x1000);
  }

  /** A place for `n` bytes: on a page boundary, below the end of user space, away from every area. */
  ghost predicate Open(l: seq<Vad>, b: nat, n: nat) {
    b % 4096 == 0 && b + n <= 0x7FFF_FFFF_FFFF && forall a | a in l :: b + n <= a.start || a.end <= b
  }

  lemma OpenIff(l: seq<Vad>, b: nat, n: nat)
    ensures Open(l, b, n) <==> Aligned(b) && Fits(l, b, n)
  {
    assert forall a :: a in l <==> exists i :: 0 <= i < |l| && l[i] == a;
  }

  /** `_vas_find_free` finds the lowest place from the hint on. From a hint in the last page it looks from 0 on, and a place at 0
      it reports as none. */
  lemma LowestPlace(l: seq<Vad>, hint: nat, n: nat)
    requires WellFormed(l) && hint < U64 && n < U64
    ensures var b, lo := FindFree(l, hint, n), if hint > U64 - 4096 then 0 else hint;
            && (b != 0 ==> lo <= b && Open(l, b, n) && forall c: nat | lo <= c && Open(l, c, n) :: b <= c)
            && (b == 0 ==> (lo == 0 && Open(l, 0, n)) || forall c: nat | lo <= c :: !Open(l, c, n))
  {
    FindFreeFrom(l, hint, n);
    RoundHint(hint);
    hide FindFree, Fits, Aligned, AlignUp, Open, WellFormed;
    OpenIff(l, FindFree(l, hint, n), n);
    OpenIff(l, 0, n);
    var lo := if hint > U64 - 4096 then 0 else hint;
    forall c: nat | lo <= c && Open(l, c, n)
      ensures AlignUp(hint) <= c && Aligned(c) && Fits(l, c, n)
    {
      OpenIff(l, c, n);
      if lo == hint {
        AlignUpLeast(hint, c);
      }
    }
  }

  /** In an empty space a hint of 0 finds a place, and answers with the number that means none. */
  lemma ZeroHintLooksFull()
    ensures FindFree([], 0, 0x1000) == 0 && Fits([], 0, 0x1000) && !FirstFit([], 0, 0x1000)
  {
    assert AlignUp(0) == 0;
    FirstFitIff([], 0, 0x1000);
  }

  lemma Regroup(done: seq<Vad>, left: seq<Vad>, right: seq<Vad>, tail: seq<Vad>)
    ensures done + [] + ((left + right) + tail) == (done + left) + right + tail
    ensures right == [] ==> done + left + tail == (done + left) + [] + tail && done + [] + (left + tail) == (done + left) + [] + tail
  {
  }

  /** `vas_t`. The linked list is the sequence of its nodes in order. */
  class Vas {
    const pml4: nat
    var areas: seq<Vad>
    var userStart: Address

    constructor (pml4: nat)
      ensures this.pml4 == pml4 && areas == [] && userStart == 0x1000
    {
      this.pml4, areas, userStart := pml4, [], 0x1000;
    }

    /** `_vad_insert` */
    method InsertArea(v: Vad)
      modifies this`areas
      ensures areas == Insert(old(areas), v)
    {
      var cur := 0;
      while cur < |areas| && areas[cur].start < v.start
        invariant 0 <= cur <= |areas| && InsertPos(areas, v.start) == cur + InsertPos(areas[cur..], v.start)
      {
        assert areas[cur..][1..] == areas[cur + 1..];
        cur := cur + 1;
      }
      areas := areas[..cur] + [v] + areas[cur..];
    }

    /** `_vad_remove_range`: areas are visited in order; a piece kept on the right is visited once more and stays. */
    method RemoveAreas(start: nat, end: nat)
      modifies this`areas
      ensures areas == RemoveRange(old(areas), start, end)
    {
      var cur := 0;
      ghost var done: seq<Vad>, pend: seq<Vad>, rest := [], [], areas;
      while cur < |areas|
        invariant areas == done + pend + rest && cur == |done|
        invariant |pend| <= 1 && (pend != [] ==> pend[0].start >= end)
        invariant RemoveRange(old(areas), start, end) == done + pend + RemoveRange(rest, start, end)
        decreases |rest|, |pend|
      {
        var v := areas[cur];
        ghost var tail := if pend == [] then RemoveRange(rest[1..], start, end) else RemoveRange(rest, start, end);
        if v.end <= start || v.start >= end {
          cur := cur + 1;
          if pend != [] {
            Regroup(done, pend, [], tail);
            Regroup(done, pend, [], rest);
            done, pend := done + pend, [];
          } else {
            assert rest == [v] + rest[1..];
            Regroup(done, [v], [], tail);
            Regroup(done, [v], [], rest[1..]);
            done, rest := done + [v], rest[1..];
          }
        } else {
          assert pend == [] && rest == [v] + rest[1..] && areas[..cur] == done && areas[cur + 1..] == rest[1..];
          var left := if v.start < start then [Segment(v, v.start, start)] else [];
          var right := if v.end > end then [Segment(v, end, v.end)] else [];
          areas := areas[..cur] + left + right + areas[cur + 1..];
          cur := cur + |left|;
          assert Cut(v, start, end) == left + right;
          Regroup(done, left, right, tail);
          done, pend, rest := done + left, right, rest[1..];
        }
      }
    }

    /** `_vas_find_free` */
    method FindFreeBase(hint: nat, length: nat) returns (base: nat)
      ensures base == FindFree(areas, hint, length)
    {
      base := AlignUp(hint);
      var end := Add(base, length);
      for i := 0 to |areas|
        invariant end == Add(base, length) && Scan(areas, AlignUp(hint), length) == Scan(areas[i..], base, length)
      {
        assert areas[i..][0] == areas[i] && areas[i..][1..] == areas[i + 1..];
        if end <= areas[i].start {
          break;
        }
        if base < areas[i].end {
          base := AlignUp(areas[i].end);
          end := Add(base, length);
        }
      }
      if end > USER_END || end < base {
        return 0;
      }
    }

    /** `_vas_overlaps` stops at the first area past the range; on a sorted list that misses nothing. */
    method Overlaps(start: nat, end: nat) returns (r: bool)
      requires WellFormed(areas) && start <= end
      ensures r <==> !Apart(areas, start, end)
    {
      for i := 0 to |areas|
        invariant forall j | 0 <= j < i :: areas[j].end <= start
      {
        if areas[i].start >= end {
          assert forall j | i <= j < |areas| :: areas[i].start <= areas[j].start;
          return false;
        }
        if areas[i].end > start {
          return true;
        }
      }
      return false;
    }

    /** `vas_range_mapped` */
    method RangeMapped(start: nat, length: nat) returns (r: bool)
      requires WellFormed(areas) && start < U64 && length < U64
      ensures r <==> Answered(areas, start, length)
      ensures RangeExact(start, length) ==> (r <==> Mapped(areas, start, length))
    {
      hide AlignUp, RangeExact, Mapped;
      if RangeExact(start, length) {
        ExactAnswer(areas, start, length);
      }
      if length == 0 {
        return false;
      }
      var lo := AlignDown(start);
      var hi := Add(lo, AlignUp(length));
      if hi < lo {
        return false;
      }
      var pos := lo;
      var i := 0;
      while i < |areas| && pos < hi
        invariant 0 <= i <= |areas| && lo <= pos
        invariant forall addr | lo <= addr < pos :: Covered(areas, addr)
        invariant forall j | 0 <= j < i :: areas[j].end <= pos
      {
        if areas[i].end <= pos {
          i := i + 1;
          continue;
        }
        if areas[i].start > pos {
          assert !Covered(areas, pos);
          return false;
        }
        forall addr | pos <= addr < areas[i].end
          ensures Covered(areas, addr)
        {
          assert Covers(areas[i], addr);
        }
        pos := areas[i].end;
        i := i + 1;
      }
      if pos < hi {
        assert !Covered(areas, pos);
      }
      return pos >= hi;
    }
  }

  // The range asked for and the range rounded

  /** What `vas_range_mapped` answers: the range of the rounded start and length does not wrap and is covered. */
  ghost predicate Answered(l: seq<Vad>, start: nat, length: nat) {
    var lo, hi := AlignDown(start), Add(AlignDown(start), AlignUp(length));
    length != 0 && lo <= hi && forall addr | lo <= addr < hi :: Covered(l, addr)
  }

  /** What it is asked: every address of a range that is not empty is covered. */
  ghost predicate Mapped(l: seq<Vad>, start: nat, length: nat) {
    length != 0 && forall addr | start <= addr < start + length :: Covered(l, addr)
  }

  /** The length does not round up to 0, and the rounded range holds the whole range or leaves user space. */
  predicate RangeExact(start: nat, length: nat) {
    var n := AlignUp(length);
    length == 0 || (n != 0 && (start % PAGE_SIZE + length <= n || AlignDown(start) + n > USER_END))
  }

  lemma SamePage(l: seq<Vad>, a: nat, b: nat)
    requires WellFormed(l) && a / PAGE_SIZE == b / PAGE_SIZE
    ensures Covered(l, a) <==> Covered(l, b)
  {
    forall i | 0 <= i < |l|
      ensures Covers(l[i], a) <==> Covers(l[i], b)
    {
      assert VadOK(l[i]);
    }
  }

  lemma NotCoveredHigh(l: seq<Vad>, addr: nat)
    requires WellFormed(l) && AlignDown(addr) + PAGE_SIZE > USER_END
    ensures !Covered(l, addr)
  {
    forall i | 0 <= i < |l|
      ensures !Covers(l[i], addr)
    {
      assert VadOK(l[i]);
    }
  }

  lemma RoundLength(length: nat)
    requires 0 < length < U64
    ensures Aligned(AlignUp(length)) && AlignUp(length) < U64
    ensures if length > U64 - PAGE_SIZE then AlignUp(length) == 0 else length <= AlignUp(length) < length + PAGE_SIZE
  {
  }

  lemma RoundStart(start: nat)
    ensures Aligned(AlignDown(start)) && AlignDown(start) + start % PAGE_SIZE == start
  {
  }

  lemma ExactAnswer(l: seq<Vad>, start: nat, length: nat)
    requires WellFormed(l) && start < U64 && length < U64 && RangeExact(start, length)
    ensures Answered(l, start, length) <==> Mapped(l, start, length)
  {
    if length != 0 {
      RoundLength(length);
      RoundStart(start);
      if AlignDown(start) + AlignUp(length) > USER_END {
        NeverAnswered(l, start, length);
      } else {
        ExactInside(l, start, length);
      }
    }
  }

  lemma ExactInside(l: seq<Vad>, start: nat, length: nat)
    requires WellFormed(l) && start < U64 && 0 < length < U64 && AlignUp(length) != 0
    requires start % PAGE_SIZE + length <= AlignUp(length) && AlignDown(start) + AlignUp(length) <= USER_END
    ensures Answered(l, start, length) <==> Mapped(l, start, length)
  {
    RoundLength(length);
    RoundStart(start);
    hide Covered, WellFormed, AlignUp, AlignDown;
    var lo, n := AlignDown(start), AlignUp(length);
    assert Add(lo, n) == lo + n;
    if Mapped(l, start, length) {
      forall addr | lo <= addr < lo + n
        ensures Covered(l, addr)
      {
        var there := PageInRange(start, length, lo, n, addr);
        SamePage(l, addr, there);
      }
    }
  }

  /** Every page of the rounded range has an address in the range. */
  lemma PageInRange(start: nat, length: nat, lo: nat, n: nat, addr: nat) returns (there: nat)
    requires Aligned(lo) && Aligned(n) && lo <= start < lo + PAGE_SIZE && 0 < length <= n < length + PAGE_SIZE
    requires lo <= addr < lo + n
    ensures start <= there < start + length && there / PAGE_SIZE == addr / PAGE_SIZE
  {
    there := if addr < lo + PAGE_SIZE then start else AlignDown(addr);
  }

  lemma NeverAnswered(l: seq<Vad>, start: nat, length: nat)
    requires WellFormed(l) && start < U64 && 0 < length < U64 && AlignUp(length) != 0
    requires AlignDown(start) + AlignUp(length) > USER_END
    ensures !Answered(l, start, length) && !Mapped(l, start, length)
  {
    RoundLength(length);
    RoundStart(start);
    hide Covered, WellFormed, AlignUp;
    var lo, n := AlignDown(start), AlignUp(length);
    NotCoveredHigh(l, start + length - 1);
    if lo + n < U64 {
      NotCoveredHigh(l, lo + n - 1);
    }
  }

  /** The answer is right for every list of areas exactly when the rounded range is. */
  lemma RangeMappedIff(start: nat, length: nat)
    requires start < U64 && length < U64
    ensures (forall l | WellFormed(l) :: Answered(l, start, length) <==> Mapped(l, start, length)) <==> RangeExact(start, length)
  {
    if RangeExact(start, length) {
      forall l | WellFormed(l)
        ensures Answered(l, start, length) <==> Mapped(l, start, length)
      {
        ExactAnswer(l, start, length);
      }
    } else {
      var l := WrongAnswer(start, length);
    }
  }

  const SOME_FLAGS := VadFlags(NO_BITS, true, false, false)

  lemma WrongAnswer(start: nat, length: nat) returns (l: seq<Vad>)
    requires start < U64 && length < U64 && !RangeExact(start, length)
    ensures WellFormed(l) && Answered(l, start, length) && !Mapped(l, start, length)
  {
    RoundLength(length);
    RoundStart(start);
    hide AlignUp, AlignDown;
    var lo, n := AlignDown(start), AlignUp(length);
    if n == 0 {
      l := [];
      assert !Covered(l, start);
    } else {
      l := [Vad(lo, lo + n, SOME_FLAGS, NoFile, 0)];
      forall addr | lo <= addr < lo + n
        ensures Covered(l, addr)
      {
        assert Covers(l[0], addr);
      }
      assert !Covered(l, lo + n);
    }
  }

  /** Two bytes across a page boundary count as mapped when only the first of the two pages is. */
  lemma StraddlingRangeLooksMapped(f: VadFlags)
    ensures var l := [Vad(0x1000, 0x2000, f, NoFile, 0)];
            WellFormed(l) && Answered(l, 0x1FFF, 2) && !Covered(l, 0x2000) && !Mapped(l, 0x1FFF, 2)
  {
    var l := [Vad(0x1000, 0x2000, f, NoFile, 0)];
    forall addr | 0x1000 <= addr < 0x2000
      ensures Covered(l, addr)
    {
      assert Covers(l[0], addr);
    }
    assert !Covered(l, 0x2000);
  }

  /** A length within a page of 2^64 rounds up to 0, and any range of it counts as mapped, even with no area at all. */
  lemma HugeRangeLooksMapped(start: nat, length: nat)
    requires start < U64 && U64 - PAGE_SIZE < length < U64
    ensures Answered([], start, length) && !Mapped([], start, length)
  {
    RoundLength(length);
    assert !Covered([], start);
  }

  // The same for `vas_unmap`

  /** The list after `vas_unmap`. */
  function UnmapList(l: seq<Vad>, start: nat, length: nat): seq<Vad> {
    if length == 0 then l else RemoveRange(l, AlignDown(start), Add(AlignDown(start), AlignUp(length)))
  }

  predicate Meets(vpn: nat, start: nat, length: nat) {
    length > 0 && vpn * PAGE_SIZE < start + length && start < (vpn + 1) * PAGE_SIZE
  }

  /** Exactly the pages that meet the range are gone. */
  ghost predicate UnmapsAsked(l: seq<Vad>, start: nat, length: nat) {
    forall vpn: nat {:trigger Meets(vpn, start, length)} ::
      At(UnmapList(l, start, length), vpn * PAGE_SIZE) == if Meets(vpn, start, length) then Nothing else At(l, vpn * PAGE_SIZE)
  }

  /** The end does not wrap and no page is left over, or what is left over lies above user space. */
  predicate UnmapExact(start: nat, length: nat) {
    var lo, n := AlignDown(start), AlignUp(length);
    || length == 0
    || lo + PAGE_SIZE > USER_END
    || (lo + n < U64 && (start % PAGE_SIZE + length <= n || lo + n + PAGE_SIZE > USER_END))
  }

  lemma ExactUnmap(l: seq<Vad>, start: nat, length: nat)
    requires WellFormed(l) && start < U64 && length < U64 && UnmapExact(start, length)
    ensures UnmapsAsked(l, start, length)
  {
    forall vpn: nat
      ensures At(UnmapList(l, start, length), vpn * PAGE_SIZE) == if Meets(vpn, start, length) then Nothing else At(l, vpn * PAGE_SIZE)
    {
      ExactUnmapPage(l, start, length, vpn);
    }
  }

  lemma ExactUnmapPage(l: seq<Vad>, start: nat, length: nat, vpn: nat)
    requires WellFormed(l) && start < U64 && length < U64 && UnmapExact(start, length)
    ensures At(UnmapList(l, start, length), vpn * PAGE_SIZE) == if Meets(vpn, start, length) then Nothing else At(l, vpn * PAGE_SIZE)
  {
    if length > 0 {
      UnmapAt(l, start, length, vpn * PAGE_SIZE);
      HighIsNothing(l, vpn);
      if (vpn + 1) * PAGE_SIZE <= USER_END {
        ExactMeets(start, length, vpn);
      }
      hide At, WellFormed, AlignUp, AlignDown, UnmapExact, UnmapList, Meets, Add;
    }
  }

  lemma UnmapAt(l: seq<Vad>, start: nat, length: nat, addr: nat)
    requires WellFormed(l) && start < U64 && 0 < length < U64 && UnmapExact(start, length)
    ensures At(UnmapList(l, start, length), addr) ==
              if AlignDown(start) <= addr < Add(AlignDown(start), AlignUp(length)) then Nothing else At(l, addr)
  {
    RoundLength(length);
    RoundStart(start);
    AddAligned(AlignDown(start), length);
    var lo, hi := AlignDown(start), Add(AlignDown(start), AlignUp(length));
    if lo <= hi {
      RemoveRangeAt(l, lo, hi, addr);
    } else {
      WrapIsHigh(start, length);
      HighNotStraddled(l, lo, hi);
      RemoveRangeKeepsOrderIff(l, lo, hi);
    }
    hide At, WellFormed, AlignUp, AlignDown, UnmapExact, Add;
  }

  lemma WrapIsHigh(start: nat, length: nat)
    requires start < U64 && 0 < length < U64 && UnmapExact(start, length)
    requires Add(AlignDown(start), AlignUp(length)) < AlignDown(start)
    ensures AlignDown(start) + PAGE_SIZE > USER_END
  {
    hide AlignUp, AlignDown;
  }

  /** On pages of user space, the rounded range is the range. */
  lemma ExactMeets(start: nat, length: nat, vpn: nat)
    requires start < U64 && 0 < length < U64 && UnmapExact(start, length) && (vpn + 1) * PAGE_SIZE <= USER_END
    ensures Meets(vpn, start, length) <==> AlignDown(start) <= vpn * PAGE_SIZE < Add(AlignDown(start), AlignUp(length))
  {
    RoundLength(length);
    RoundStart(start);
    AddAligned(AlignDown(start), length);
    MeetsAbove(vpn, start, length);
    hide AlignUp, AlignDown, Meets;
  }

  lemma MeetsAbove(vpn: nat, start: nat, length: nat)
    requires 0 < length
    ensures Meets(vpn, start, length) <==> AlignDown(start) <= vpn * PAGE_SIZE < start + length
  {
  }

  lemma HighIsNothing(l: seq<Vad>, vpn: nat)
    requires WellFormed(l)
    ensures (vpn + 1) * PAGE_SIZE > USER_END ==> At(l, vpn * PAGE_SIZE) == Nothing
  {
    if (vpn + 1) * PAGE_SIZE > USER_END {
      assert AlignDown(vpn * PAGE_SIZE) == vpn * PAGE_SIZE;
      NotCoveredHigh(l, vpn * PAGE_SIZE);
    }
  }

  lemma HighNotStraddled(l: seq<Vad>, lo: nat, hi: nat)
    requires WellFormed(l) && Aligned(lo) && lo + PAGE_SIZE > USER_END
    ensures !Straddled(l, lo, hi)
  {
    forall i | 0 <= i < |l|
      ensures l[i].end <= lo
    {
      assert VadOK(l[i]);
    }
  }

  /** `vas_unmap` takes away the pages of the range, whatever the areas are, exactly when the rounded range does. */
  lemma UnmapIff(start: nat, length: nat)
    requires start < U64 && length < U64
    ensures (forall l | WellFormed(l) :: UnmapsAsked(l, start, length)) <==> UnmapExact(start, length)
  {
    if UnmapExact(start, length) {
      forall l | WellFormed(l)
        ensures UnmapsAsked(l, start, length)
      {
        ExactUnmap(l, start, length);
      }
    } else {
      var l := WrongUnmap(start, length);
    }
  }

  lemma WrongUnmap(start: nat, length: nat) returns (l: seq<Vad>)
    requires start < U64 && length < U64 && !UnmapExact(start, length)
    ensures WellFormed(l) && !UnmapsAsked(l, start, length)
  {
    RoundLength(length);
    RoundStart(start);
    AddAligned(AlignDown(start), length);
    var lo, n := AlignDown(start), AlignUp(length);
    var at := if lo + n < U64 then lo + n else lo;
    MeetsAbove(at / PAGE_SIZE, start, length);
    hide AlignUp, AlignDown;
    assert at / PAGE_SIZE * PAGE_SIZE == at && Aligned(at);
    l := KeptPage(at, lo, Add(lo, n));
    assert Meets(at / PAGE_SIZE, start, length);
  }

  /** A single page above the removed range, or below a wrapped one, stays. */
  lemma KeptPage(at: nat, lo: nat, hi: nat) returns (l: seq<Vad>)
    requires Aligned(at) && at + PAGE_SIZE <= USER_END && hi <= at
    ensures WellFormed(l) && At(RemoveRange(l, lo, hi), at) != Nothing
  {
    var v := Vad(at, at + PAGE_SIZE, SOME_FLAGS, NoFile, 0);
    l := [v];
    assert RemoveRange(l[1..], lo, hi) == [] && RemoveRange(l, lo, hi) == [v] + [] == l;
    assert Covers(l[0], at);
    AtIs(l, 0, at);
  }

  /** Unmapping two bytes across a page boundary leaves the second page mapped. */
  lemma StraddlingUnmapLeavesAPage(f: VadFlags)
    ensures var l := [Vad(0x1000, 0x3000, f, NoFile, 0)];
            WellFormed(l) && UnmapList(l, 0x1FFF, 2) == [Vad(0x2000, 0x3000, f, NoFile, 0)] && Meets(2, 0x1FFF, 2)
  {
    var l := [Vad(0x1000, 0x3000, f, NoFile, 0)];
    assert AlignDown(0x1FFF) == 0x1000 && AlignUp(2) == 0x1000 && Add(0x1000, 0x1000) == 0x2000;
    assert RemoveRange(l[1..], 0x1000, 0x2000) == [];
    assert RemoveRange(l, 0x1000, 0x2000) == Cut(l[0], 0x1000, 0x2000) + [];
  }
}
