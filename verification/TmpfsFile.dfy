/** Regular files of tmpfs: an array of page slots that grows by doubling. */
module TmpfsFiles {
  import opened Bytes
  import opened Sizes

  datatype Slot = Empty | Page(bytes: seq<byte>)

  datatype File = File(pages: seq<Slot>, count: nat, size: nat)

  /** Slots past the count are empty. */
  ghost predicate WellFormed(f: File) {
    && f.count <= |f.pages|
    && (forall i | 0 <= i < |f.pages| && f.pages[i].Page? :: |f.pages[i].bytes| == PAGE_SIZE)
    && (forall i | f.count <= i < |f.pages| :: f.pages[i].Empty?)
  }

  /** Byte `p` of what is stored, whatever the size says. */
  function Stored(f: File, p: nat): byte {
    var i := p / PAGE_SIZE;
    if i < f.count && i < |f.pages| && f.pages[i].Page? && p % PAGE_SIZE < |f.pages[i].bytes| then f.pages[i].bytes[p % PAGE_SIZE] else 0
  }

  /** Nothing but zeros is stored past the end. */
  ghost predicate Tidy(f: File) {
    forall p: nat {:trigger Stored(f, p)} | p >= f.size :: Stored(f, p) == 0
  }

  function Window(f: File, at: nat, n: nat): (w: seq<byte>)
    ensures |w| == n && forall k | 0 <= k < n :: w[k] == Stored(f, at + k)
  {
    seq<byte>(n, k requires 0 <= k < n => Stored(f, at + k))
  }

  /** The file as a byte sequence. */
  function Contents(f: File): (c: seq<byte>)
    ensures |c| == f.size
  {
    Window(f, 0, f.size)
  }

  ghost predicate Spliced(f: File, f': File, off: nat, data: seq<byte>) {
    forall p: nat {:trigger Stored(f', p)} {:trigger Stored(f, p)} ::
      Stored(f', p) == if off <= p < off + |data| then data[p - off] else Stored(f, p)
  }

  /** The same bytes are stored. */
  ghost predicate SameStored(f: File, f': File) {
    forall p: nat {:trigger Stored(f', p)} {:trigger Stored(f, p)} :: Stored(f', p) == Stored(f, p)
  }

  function Resize(c: seq<byte>, n: nat): (r: seq<byte>)
    ensures |r| == n
  {
    if n <= |c| then c[..n] else c + seq<byte>(n - |c|, _ => 0)
  }

  lemma WriteRefines(f: File, f': File, off: nat, data: seq<byte>)
    requires Tidy(f) && Spliced(f, f', off, data) && f'.size == Max(f.size, off + |data|)
    ensures Tidy(f') && Contents(f') == WriteBytes(Contents(f), off, data)
  {
  }

  /** A write that stops early keeps the tail clean exactly when what it stored past the end is zero. */
  lemma SplicedTidyIff(f: File, f': File, off: nat, data: seq<byte>)
    requires Tidy(f) && Spliced(f, f', off, data) && f'.size == f.size
    ensures Tidy(f') <==> forall k | 0 <= k < |data| :: off + k < f.size || data[k] == 0
  {
    hide Stored;
    if Tidy(f') {
      forall k | 0 <= k < |data|
        ensures off + k < f.size || data[k] == 0
      {
        assert Stored(f', off + k) == data[k];
      }
    }
  }

  // How far a write gets

  /** The capacity after doubling until `n` slots fit, from 4. */
  function Grown(cap: nat, n: nat): (r: nat)
    ensures r >= cap && r >= n
  {
    if n <= cap then cap else Doubled(if cap != 0 then cap else 4, n)
  }

  /** The first of the pages from `i` to `last` that a write cannot have, or the one after `last`: a page needs a slot,
      or a larger array at the moment it is reached, which `grow` grants or not page by page. */
  function Reach(cap: nat, i: nat, last: nat, grow: nat -> bool): (stop: nat)
    ensures i <= stop && (i <= last + 1 ==> stop <= last + 1)
    decreases last + 1 - i
  {
    if i > last then i else if i < cap || grow(i) then Reach(Grown(cap, i + 1), i + 1, last, grow) else i
  }

  /** If memory is there, every page can be had. */
  lemma {:induction false} ReachAll(cap: nat, i: nat, last: nat, grow: nat -> bool)
    requires i <= last + 1 && forall j :: grow(j)
    ensures Reach(cap, i, last, grow) == last + 1
    decreases last + 1 - i
  {
    if i <= last {
      ReachAll(Grown(cap, i + 1), i + 1, last, grow);
    }
  }

  /** If there is none, exactly the slots already there. */
  lemma {:induction false} ReachSlots(cap: nat, i: nat, last: nat, grow: nat -> bool)
    requires i <= last + 1 && forall j :: !grow(j)
    ensures Reach(cap, i, last, grow) == Max(i, Min(cap, last + 1))
    decreases last + 1 - i
  {
    if i <= last && i < cap {
      ReachSlots(Grown(cap, i + 1), i + 1, last, grow);
    }
  }

  function LastPage(off: nat, n: nat): nat
    requires n > 0
  {
    (off + n - 1) / PAGE_SIZE
  }

  /** How many of the bytes are stored. */
  function Fitting(cap: nat, off: nat, n: nat, grow: nat -> bool): nat {
    if n == 0 then 0
    else
      var stop := Reach(cap, off / PAGE_SIZE, LastPage(off, n), grow);
      if stop > LastPage(off, n) then n else if stop * PAGE_SIZE > off then stop * PAGE_SIZE - off else 0
  }

  lemma FittingAt(cap: nat, off: nat, n: nat, grow: nat -> bool, done: nat, i: nat, cap': nat)
    requires done < n && i == (off + done) / PAGE_SIZE && (done == 0 || (off + done) % PAGE_SIZE == 0)
    requires Reach(cap, off / PAGE_SIZE, LastPage(off, n), grow) == Reach(cap', i, LastPage(off, n), grow)
    ensures i <= LastPage(off, n) && (i == LastPage(off, n) <==> done + (PAGE_SIZE - (off + done) % PAGE_SIZE) >= n)
    ensures !(i < cap' || grow(i)) ==> Fitting(cap, off, n, grow) == done < n
  {
  }

  /** With memory at hand all bytes are stored; without, those that fall into slots there are. */
  lemma FittingSlots(cap: nat, off: nat, n: nat, grow: nat -> bool)
    ensures (forall j :: grow(j)) ==> Fitting(cap, off, n, grow) == n
    ensures (forall j :: !grow(j)) ==>
              Fitting(cap, off, n, grow) == if off >= cap * PAGE_SIZE then 0 else Min(n, cap * PAGE_SIZE - off)
  {
    if n > 0 {
      if forall j :: grow(j) {
        ReachAll(cap, off / PAGE_SIZE, LastPage(off, n), grow);
      }
      if forall j :: !grow(j) {
        ReachSlots(cap, off / PAGE_SIZE, LastPage(off, n), grow);
      }
    }
  }

  /** What a caller knows of a write beforehand: it ends in a clean file exactly when all of it fits, or the part
      that fits leaves only zeros past the end. */
  predicate WritesClean(f: File, off: nat, data: seq<byte>, grow: nat -> bool) {
    var n := Fitting(|f.pages|, off, |data|, grow);
    n == |data| || forall k | 0 <= k < |data| :: k < n && off + k >= f.size ==> data[k] == 0
  }

  /** Without memory to grow: the write ends in the slots there are, or what falls into them past the end is zero. */
  lemma CleanWithoutGrowth(f: File, off: nat, data: seq<byte>, grow: nat -> bool)
    requires forall j :: !grow(j)
    ensures WritesClean(f, off, data, grow) <==>
              || data == [] || off + |data| <= |f.pages| * PAGE_SIZE
              || forall k | 0 <= k < |data| :: f.size <= off + k < |f.pages| * PAGE_SIZE ==> data[k] == 0
  {
    hide Fitting;
    FittingSlots(|f.pages|, off, |data|, grow);
  }

  lemma SpliceNext(f: File, f1: File, f2: File, off: nat, d1: seq<byte>, d2: seq<byte>)
    requires Spliced(f, f1, off, d1) && Spliced(f1, f2, off + |d1|, d2)
    ensures Spliced(f, f2, off, d1 + d2)
  {
    hide Stored;
    forall p: nat
      ensures Stored(f2, p) == if off <= p < off + |d1 + d2| then (d1 + d2)[p - off] else Stored(f, p)
    {
      assert Stored(f1, p) == if off <= p < off + |d1| then d1[p - off] else Stored(f, p);
    }
  }

  /** Storing into one page. */
  lemma PatchPage(f: File, i: nat, boff: nat, data: seq<byte>)
    requires WellFormed(f) && i < f.count && f.pages[i].Page? && boff + |data| <= PAGE_SIZE
    ensures var f' := f.(pages := f.pages[i := Page(Splice(f.pages[i].bytes, boff, data))]);
            WellFormed(f') && Spliced(f, f', i * PAGE_SIZE + boff, data)
  {
    var f' := f.(pages := f.pages[i := Page(Splice(f.pages[i].bytes, boff, data))]);
    var at := i * PAGE_SIZE + boff;
    SpliceAt(f.pages[i].bytes, boff, data);
    forall p: nat
      ensures Stored(f', p) == if at <= p < at + |data| then data[p - at] else Stored(f, p)
    {
    }
  }

  class Inode {
    var pages: seq<Slot>
    var count: nat
    var size: nat

    ghost function View(): File
      reads this
    {
      File(pages, count, size)
    }

    constructor ()
      ensures WellFormed(View()) && Tidy(View()) && Contents(View()) == [] && |pages| == 0
    {
      pages, count, size := [], 0, 0;
    }

    /** `_ensure_pages`: doubles the array; `grow` says whether a larger one can be had. */
    method EnsurePages(n: nat, grow: bool) returns (ok: bool)
      requires WellFormed(View())
      modifies `pages
      ensures WellFormed(View()) && SameStored(old(View()), View())
      ensures ok <==> n <= |old(pages)| || grow
      ensures ok ==> |pages| == Grown(|old(pages)|, n) && n <= |pages|
      ensures !ok ==> pages == old(pages)
    {
      if n <= |pages| { return true; }
      var cap := if |pages| != 0 then |pages| else 4;
      while cap < n
        invariant cap > 0 && cap >= |pages| && Grown(|pages|, n) == Doubled(cap, n)
        decreases n - cap
      {
        cap := cap * 2;
      }
      if !grow { return false; }
      pages := pages + seq(cap - |pages|, _ => Empty);
      ok := true;
    }

    /** `_ensure_page`: a page that was not there reads as zero before and after. */
    method EnsurePage(i: nat, grow: bool) returns (ok: bool)
      requires WellFormed(View())
      modifies `pages, `count
      ensures WellFormed(View()) && SameStored(old(View()), View())
      ensures ok <==> i < |old(pages)| || grow
      ensures ok ==> i < count && pages[i].Page? && |pages| == Grown(|old(pages)|, i + 1)
      ensures !ok ==> pages == old(pages) && count == old(count)
    {
      ok := EnsurePages(i + 1, grow);
      if !ok { return; }
      ghost var f1 := View();
      if pages[i].Empty? {
        pages := pages[i := Page(seq(PAGE_SIZE, _ => 0))];
      }
      if i + 1 > count {
        count := i + 1;
      }
      assert SameStored(f1, View());
    }

    /** One page of `tmpfs_write`. */
    method WritePage(i: nat, boff: nat, piece: seq<byte>, grow: bool) returns (ok: bool)
      requires WellFormed(View()) && boff + |piece| <= PAGE_SIZE
      modifies `pages, `count
      ensures WellFormed(View()) && (ok <==> i < |old(pages)| || grow)
      ensures ok ==> |pages| == Grown(|old(pages)|, i + 1) && Spliced(old(View()), View(), i * PAGE_SIZE + boff, piece)
      ensures !ok ==> View() == old(View())
    {
      hide Stored, WellFormed, Spliced;
      ghost var f1 := View();
      ok := EnsurePage(i, grow);
      if !ok { return; }
      ghost var f2 := View();
      SpliceNothing(f1, f2, i * PAGE_SIZE + boff);
      PageLength(f2, i);
      PatchPage(f2, i, boff, piece);
      pages := pages[i := Page(Splice(pages[i].bytes, boff, piece))];
      SpliceNext(f1, f2, View(), i * PAGE_SIZE + boff, [], piece);
      assert [] + piece == piece;
    }

    /** `tmpfs_write`: a write that cannot get its pages keeps what it stored and leaves the size alone. `grow` says
        for which pages a larger array can be had. */
    method Write(off: nat, data: seq<byte>, grow: nat -> bool) returns (done: nat)
      requires WellFormed(View())
      modifies this
      ensures WellFormed(View()) && done == Fitting(|old(pages)|, off, |data|, grow) <= |data| && |pages| >= |old(pages)|
      ensures Spliced(old(View()), View(), off, data[..done])
      ensures size == if done == |data| then Max(old(size), off + done) else old(size)
      ensures done == |data| && old(Tidy(View())) ==> Contents(View()) == WriteBytes(old(Contents(View())), off, data)
      ensures old(Tidy(View())) ==> (Tidy(View()) <==> WritesClean(old(View()), off, data, grow))
    {
      hide Stored, WellFormed, Spliced, Reach, Fitting, Grown, LastPage;
      SpliceNothing(View(), View(), off);
      assert data[..0] == [];
      done := 0;
      ghost var page: nat := off / PAGE_SIZE;
      while done < |data|
        invariant done <= |data| && WellFormed(View()) && size == old(size) && |pages| >= |old(pages)|
        invariant Spliced(old(View()), View(), off, data[..done])
        invariant done < |data| ==> page == (off + done) / PAGE_SIZE && (done == 0 || (off + done) % PAGE_SIZE == 0)
        invariant done == |data| > 0 ==> page == LastPage(off, |data|) + 1
        invariant |data| > 0 ==>
          Reach(|old(pages)|, off / PAGE_SIZE, LastPage(off, |data|), grow) == Reach(|pages|, page, LastPage(off, |data|), grow)
      {
        var pos := off + done;
        var i, boff := pos / PAGE_SIZE, pos % PAGE_SIZE;
        var chunk := Min(PAGE_SIZE - boff, |data| - done);
        ghost var f1 := View();
        FittingAt(|old(pages)|, off, |data|, grow, done, i, |pages|);
        ReachNext(|pages|, i, LastPage(off, |data|), grow);
        var ok := WritePage(i, boff, data[done..done + chunk], grow(i));
        if !ok {
          StoppedTidy(old(View()), View(), off, data, done, grow);
          return;
        }
        SpliceNext(old(View()), f1, View(), off, data[..done], data[done..done + chunk]);
        assert data[..done] + data[done..done + chunk] == data[..done + chunk];
        NextPage(off, |data|, done, i, chunk);
        done, page := done + chunk, i + 1;
      }
      assert data[..done] == data;
      FittingEnd(|old(pages)|, off, |data|, grow, page, |pages|);
      if off + done > size {
        ghost var f3 := View();
        size := off + done;
        ResizeOnly(old(View()), f3, View(), off, data);
      }
      if Tidy(old(View())) {
        WriteRefines(old(View()), View(), off, data);
      }
    }

    /** `_free_pages_from` */
    method FreePagesFrom(first: nat)
      requires WellFormed(View())
      modifies `pages, `count
      ensures WellFormed(View()) && Cut(old(View()), View(), first * PAGE_SIZE) && |pages| == |old(pages)|
    {
      CutAtCount(View(), if first < count then count else first);
      ghost var f := View();
      if first >= count { return; }
      for i := first to count
        invariant |pages| == |f.pages| && count == f.count
        invariant forall j | 0 <= j < |pages| :: pages[j] == if first <= j < i then Empty else f.pages[j]
      {
        pages := pages[i := Empty];
      }
      count := first;
    }

    /** `tmpfs_truncate`: afterwards nothing is stored past the end, whatever was before. */
    method Truncate(n: nat, grow: bool) returns (ok: bool)
      requires WellFormed(View()) && n < U64
      modifies this
      ensures WellFormed(View()) && (ok <==> n <= old(size) || Pages(n) <= |old(pages)| || grow)
      ensures !ok ==> size == old(size) && Cut(old(View()), View(), Pages(n) * PAGE_SIZE)
      ensures ok ==> size == n && Tidy(View()) && Cut(old(View()), View(), if Huge(n) then 0 else n)
      ensures ok ==> |pages| == if n > old(size) then Grown(|old(pages)|, Pages(n)) else |old(pages)|
      ensures ok && !Huge(n) && (old(Tidy(View())) || n <= old(size)) ==> Contents(View()) == Resize(old(Contents(View())), n)
      ensures Huge(n) ==> AllZero(Contents(View()), n)
      ensures Huge(n) ==> (Contents(View()) == Resize(old(Contents(View())), n) <==> AllZero(old(Contents(View())), n))
    {
      hide Stored, WellFormed, Cut, SameStored;
      var keep := Pages(n);
      if keep < count {
        FreePagesFrom(keep);
      } else {
        CutAtCount(View(), keep);
      }
      if n > size && keep > 0 {
        ghost var f1 := View();
        ok := EnsurePage(keep - 1, grow);
        CutSame(old(View()), f1, View(), keep * PAGE_SIZE);
        if !ok { return; }
      }
      ghost var f2 := View();
      CutSelf(old(View()), f2, keep * PAGE_SIZE);
      size := n;
      SizeOnly(old(View()), f2, View(), keep * PAGE_SIZE);
      ghost var f3 := View();
      PagesWrap(n);
      if !Huge(n) {
        TailInRange(f3, n);
      }
      if n % PAGE_SIZE != 0 && keep > 0 && keep - 1 < count && pages[keep - 1].Page? {
        var tail := n % PAGE_SIZE;
        CutTail(f3, keep - 1, tail);
        pages := pages[keep - 1 := Page(Splice(pages[keep - 1].bytes, tail, seq(PAGE_SIZE - tail, _ => 0)))];
      } else if !Huge(n) {
        CutAbsent(f3, n);
      }
      CutAgain(old(View()), f3, View(), keep * PAGE_SIZE, if Huge(n) then 0 else n);
      if Huge(n) {
        TruncateLoses(old(View()), View());
      } else {
        TruncateRefines(old(View()), View());
      }
      ok := true;
    }

    /** `tmpfs_read` */
    method Read(off: nat, len: nat) returns (bytes: seq<byte>)
      requires WellFormed(View())
      ensures bytes == if off >= size then [] else Contents(View())[off..off + Min(len, size - off)]
    {
      hide Stored, WellFormed, Window;
      if off >= size || len == 0 { return []; }
      var todo := Min(len, size - off);
      bytes := [];
      while |bytes| < todo
        invariant |bytes| <= todo && bytes == Window(View(), off, |bytes|)
      {
        var pos := off + |bytes|;
        var i, boff := pos / PAGE_SIZE, pos % PAGE_SIZE;
        var chunk := Min(PAGE_SIZE - boff, todo - |bytes|);
        WindowGrows(View(), off, |bytes|, i, boff, chunk);
        if i < count && i < |pages| && pages[i].Page? {
          bytes := bytes + pages[i].bytes[boff..boff + chunk];
        } else {
          bytes := bytes + seq(chunk, _ => 0);
        }
      }
    }
  }

  /** Shrinking a file and growing it again gives zeros back, whatever was stored. */
  method ShrinkThenGrow(f: Inode, a: nat, b: nat, grow: bool) returns (ok: bool)
    requires WellFormed(f.View()) && a <= f.size && a <= b < U64
    modifies f
    ensures grow ==> ok
    ensures ok && !Huge(b) ==> Contents(f.View()) == old(Contents(f.View()))[..a] + seq<byte>(b - a, _ => 0)
    ensures Huge(b) ==> ok && AllZero(Contents(f.View()), b)
  {
    hide Stored, Cut, WellFormed, Contents, Tidy, AllZero;
    ok := f.Truncate(a, grow);
    ok := f.Truncate(b, grow);
  }

  /** Growing a file to within a page of 2^64 wipes it. */
  method HugeTruncateWipes(n: nat) returns (bytes: seq<byte>)
    requires n < U64 && Huge(n)
    ensures bytes == [0]
  {
    hide Stored, Spliced, Reach;
    var f := new Inode();
    var any: nat -> bool := _ => true;
    FittingSlots(0, 0, 1, any);
    var done := f.Write(0, [1], any);
    assert [1][..done] == [1] && Contents(f.View()) == [1];
    var ok := f.Truncate(n, true);
    bytes := f.Read(0, 1);
    assert Contents(f.View())[0] == Stored(f.View(), 0 + 0) == 0;
  }

  /** A short write shows: of two bytes across the end of the array only the first is stored, the file keeps its one
      byte, and growing it makes the stored byte appear where a grown file reads zero. */
  method ShortWriteShows() returns (done: nat, bytes: seq<byte>, ghost was: seq<byte>)
    ensures done == 1 && |was| == 1 && bytes == [1] != Resize(was, 4 * PAGE_SIZE)[4 * PAGE_SIZE - 1..]
  {
    hide Stored, Reach, Tidy;
    var f := new Inode();
    var ok := f.Truncate(1, true);
    assert Pages(1) == 1 && Grown(0, 1) == 4;
    var none: nat -> bool := _ => false;
    FittingSlots(4, 4 * PAGE_SIZE - 1, 2, none);
    done := f.Write(4 * PAGE_SIZE - 1, [1, 2], none);
    was := Contents(f.View());
    assert done == 1 && [1, 2][..done][0] == 1;
    assert Stored(f.View(), 4 * PAGE_SIZE - 1) == 1;
    ok := f.Truncate(4 * PAGE_SIZE, false);
    assert Stored(f.View(), 4 * PAGE_SIZE - 1) == 1;
    bytes := f.Read(4 * PAGE_SIZE - 1, 1);
    assert |Contents(f.View())| == 4 * PAGE_SIZE && Contents(f.View())[4 * PAGE_SIZE - 1] == Stored(f.View(), 0 + (4 * PAGE_SIZE - 1));
  }

  lemma ReachNext(cap: nat, i: nat, last: nat, grow: nat -> bool)
    requires i <= last
    ensures i < cap || grow(i) ==> Reach(cap, i, last, grow) == Reach(Grown(cap, i + 1), i + 1, last, grow)
  {
  }

  lemma NextPage(off: nat, n: nat, done: nat, i: nat, chunk: nat)
    requires done < n && i == (off + done) / PAGE_SIZE && chunk == Min(PAGE_SIZE - (off + done) % PAGE_SIZE, n - done)
    ensures done + chunk < n ==> i + 1 == (off + done + chunk) / PAGE_SIZE && (off + done + chunk) % PAGE_SIZE == 0
    ensures done + chunk == n ==> i == LastPage(off, n)
  {
  }

  lemma FittingEnd(cap: nat, off: nat, n: nat, grow: nat -> bool, page: nat, cap': nat)
    requires n > 0 ==> page == LastPage(off, n) + 1 && Reach(cap, off / PAGE_SIZE, LastPage(off, n), grow) == Reach(cap', page, LastPage(off, n), grow)
    ensures Fitting(cap, off, n, grow) == n
  {
  }

  lemma StoppedTidy(f: File, f': File, off: nat, data: seq<byte>, done: nat, grow: nat -> bool)
    requires done == Fitting(|f.pages|, off, |data|, grow) < |data| && Spliced(f, f', off, data[..done]) && f'.size == f.size
    ensures Tidy(f) ==> (Tidy(f') <==> WritesClean(f, off, data, grow))
  {
    hide Stored, Fitting, Spliced;
    if Tidy(f) {
      SplicedTidyIff(f, f', off, data[..done]);
      assert forall k | 0 <= k < done :: data[..done][k] == data[k];
    }
  }

  lemma SpliceNothing(f: File, f': File, off: nat)
    requires SameStored(f, f')
    ensures Spliced(f, f', off, [])
  {
  }

  lemma PageLength(f: File, i: nat)
    requires WellFormed(f) && i < f.count && i < |f.pages| && f.pages[i].Page?
    ensures |f.pages[i].bytes| == PAGE_SIZE
  {
  }

  /** The size does not matter to what is stored. */
  lemma ResizeOnly(f: File, f1: File, f2: File, off: nat, data: seq<byte>)
    requires Spliced(f, f1, off, data) && f2 == f1.(size := f2.size) && WellFormed(f1)
    ensures Spliced(f, f2, off, data) && WellFormed(f2)
  {
    forall p: nat
      ensures Stored(f2, p) == Stored(f1, p)
    {
    }
  }

  lemma WindowGrows(f: File, at: nat, m: nat, i: nat, boff: nat, n: nat)
    requires WellFormed(f) && i * PAGE_SIZE + boff == at + m && boff + n <= PAGE_SIZE
    ensures i < f.count && i < |f.pages| && f.pages[i].Page? ==> |f.pages[i].bytes| == PAGE_SIZE
    ensures i < f.count && i < |f.pages| && f.pages[i].Page? ==> Window(f, at, m) + f.pages[i].bytes[boff..boff + n] == Window(f, at, m + n)
    ensures !(i < f.count && i < |f.pages| && f.pages[i].Page?) ==> Window(f, at, m) + seq<byte>(n, _ => 0) == Window(f, at, m + n)
  {
  }

  /** Only the first `n` bytes are still stored. */
  ghost predicate Cut(f: File, f': File, n: nat) {
    forall p: nat {:trigger Stored(f', p)} {:trigger Stored(f, p)} :: Stored(f', p) == if p < n then Stored(f, p) else 0
  }

  lemma CutAgain(f: File, f1: File, f2: File, n: nat, m: nat)
    requires Cut(f, f1, n) && m <= n && Cut(f1, f2, m)
    ensures Cut(f, f2, m)
  {
    hide Stored;
    forall p: nat
      ensures Stored(f2, p) == if p < m then Stored(f, p) else 0
    {
      assert Stored(f1, p) == if p < n then Stored(f, p) else 0;
    }
  }

  lemma CutSame(f: File, f1: File, f2: File, n: nat)
    requires Cut(f, f1, n) && SameStored(f1, f2)
    ensures Cut(f, f2, n)
  {
    hide Stored;
    forall p: nat
      ensures Stored(f2, p) == if p < n then Stored(f, p) else 0
    {
      assert Stored(f1, p) == if p < n then Stored(f, p) else 0;
    }
  }

  /** Past the count nothing is stored. */
  lemma CutAtCount(f: File, first: nat)
    requires WellFormed(f) && first >= f.count
    ensures Cut(f, f, first * PAGE_SIZE)
  {
    forall p: nat
      ensures p >= first * PAGE_SIZE ==> Stored(f, p) == 0
    {
    }
  }

  /** Zeroing the tail of the last page. */
  lemma CutTail(f: File, i: nat, tail: nat)
    requires WellFormed(f) && i < f.count && f.pages[i].Page? && tail <= PAGE_SIZE && Cut(f, f, (i + 1) * PAGE_SIZE)
    ensures var f' := f.(pages := f.pages[i := Page(Splice(f.pages[i].bytes, tail, seq<byte>(PAGE_SIZE - tail, _ => 0)))]);
            WellFormed(f') && Cut(f, f', i * PAGE_SIZE + tail)
  {
    PatchPage(f, i, tail, seq<byte>(PAGE_SIZE - tail, _ => 0));
    var f' := f.(pages := f.pages[i := Page(Splice(f.pages[i].bytes, tail, seq<byte>(PAGE_SIZE - tail, _ => 0)))]);
    hide Stored, WellFormed;
    forall p: nat
      ensures Stored(f', p) == if p < i * PAGE_SIZE + tail then Stored(f, p) else 0
    {
      assert Stored(f, p) == if p < (i + 1) * PAGE_SIZE then Stored(f, p) else 0;
    }
  }

  /** A page that is not there stores nothing. */
  lemma CutAbsent(f: File, n: nat)
    requires WellFormed(f) && Cut(f, f, Pages(n) * PAGE_SIZE) && n <= U64 - PAGE_SIZE
    requires n % PAGE_SIZE == 0 || (Pages(n) > 0 && !(Pages(n) - 1 < f.count && f.pages[Pages(n) - 1].Page?))
    ensures Cut(f, f, n)
  {
    forall p: nat
      ensures p >= n ==> Stored(f, p) == 0
    {
      if n <= p < Pages(n) * PAGE_SIZE {
        assert p / PAGE_SIZE == Pages(n) - 1;
      } else if p >= n {
        assert Stored(f, p) == if p < Pages(n) * PAGE_SIZE then Stored(f, p) else 0;
      }
    }
  }

  /** Pages for `n` bytes, in 64 bits. */
  function Pages(n: nat): nat { (n + PAGE_SIZE - 1) % U64 / PAGE_SIZE }

  /** The count wraps to 0 exactly within a page of 2^64. */
  predicate Huge(n: nat) { n > U64 - PAGE_SIZE }

  lemma PagesWrap(n: nat)
    requires n < U64
    ensures if Huge(n) then Pages(n) == 0 else n <= Pages(n) * PAGE_SIZE < n + PAGE_SIZE
  {
  }

  lemma TruncateRefines(f: File, f': File)
    requires Cut(f, f', f'.size)
    ensures Tidy(f') && (Tidy(f) || f'.size <= f.size ==> Contents(f') == Resize(Contents(f), f'.size))
  {
  }

  /** Up to `n`, nothing but zeros. */
  predicate AllZero(c: seq<byte>, n: nat) {
    forall k | 0 <= k < |c| :: k < n ==> c[k] == 0
  }

  /** With every page gone the file reads as zeros, which is right exactly if it did before. */
  lemma TruncateLoses(f: File, f': File)
    requires Cut(f, f', 0)
    ensures Tidy(f') && AllZero(Contents(f'), f'.size)
    ensures Contents(f') == Resize(Contents(f), f'.size) <==> AllZero(Contents(f), f'.size)
  {
    hide Stored;
    var c, r := Contents(f'), Resize(Contents(f), f'.size);
    assert forall k | 0 <= k < |c| :: c[k] == 0;
    if c == r {
      forall k | 0 <= k < |Contents(f)| && k < f'.size
        ensures Contents(f)[k] == 0
      {
        assert r[k] == Contents(f)[k];
      }
    }
  }

  lemma CutSelf(f: File, f': File, n: nat)
    requires Cut(f, f', n)
    ensures Cut(f', f', n)
  {
  }

  lemma SizeOnly(f: File, f1: File, f2: File, n: nat)
    requires Cut(f, f1, n) && f2 == f1.(size := f2.size) && WellFormed(f1)
    ensures Cut(f, f2, n) && Cut(f2, f2, n) && WellFormed(f2)
  {
    forall p: nat
      ensures Stored(f2, p) == Stored(f1, p)
    {
    }
  }

  lemma TailInRange(f: File, n: nat)
    requires WellFormed(f) && n <= U64 - PAGE_SIZE
    ensures n <= Pages(n) * PAGE_SIZE && f.count <= |f.pages|
    ensures n % PAGE_SIZE != 0 ==> Pages(n) > 0 && (Pages(n) - 1) * PAGE_SIZE + n % PAGE_SIZE == n
    ensures Pages(n) > 0 && Pages(n) - 1 < f.count && f.pages[Pages(n) - 1].Page? ==> |f.pages[Pages(n) - 1].bytes| == PAGE_SIZE
  {
  }
}
