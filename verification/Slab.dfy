/** The slab heap: one page per slab, free objects linked through their own first words, and per size class a list of
    partly used and a list of full slabs. */
module SlabHeap {
  import opened Bytes
  import opened Lists
  import opened Sizes

  const SLAB_MIN: nat := 8
  const NUM_CACHES: nat := 9
  /** `sizeof(slab_t)` */
  const HEADER: nat := 32

  // Size classes

  function Size(c: nat): (s: nat)
    ensures s >= SLAB_MIN
  {
    if c == 0 then SLAB_MIN else 2 * Size(c - 1)
  }

  /** `cache_idx`: the smallest class that is large enough. */
  method CacheIdx(size: nat) returns (c: nat)
    ensures c <= NUM_CACHES && (c < NUM_CACHES ==> size <= Size(c))
    ensures forall d: nat | d < c && d < NUM_CACHES :: Size(d) < size
  {
    var want := if size < SLAB_MIN then SLAB_MIN else size;
    var s := SLAB_MIN;
    c := 0;
    while s < want && c < NUM_CACHES - 1
      invariant c < NUM_CACHES && s == Size(c)
      invariant forall d: nat | d < c :: Size(d) < want
    {
      s := s * 2;
      c := c + 1;
    }
    if s < want { c := NUM_CACHES; }
  }

  lemma {:induction false} SizeGrows(c: nat, d: nat)
    requires c < d
    ensures Size(c) < Size(d)
  {
    if c < d - 1 {
      SizeGrows(c, d - 1);
    }
  }

  /** The classes are 8 to 2048 bytes. */
  lemma SizeBound(c: nat)
    requires c < NUM_CACHES
    ensures Size(c) <= 2048 && Size(c) % 8 == 0
  {
    assert Size(1) == 16 && Size(2) == 32 && Size(3) == 64;
    assert Size(4) == 128 && Size(5) == 256 && Size(6) == 512;
    assert Size(7) == 1024 && Size(8) == 2048;
  }

  // Objects

  function Total(stride: nat): nat
    requires stride > 0
  {
    (PAGE_SIZE - HEADER) / stride
  }

  /** Object `i` of the slab in page `p`. */
  function Addr(p: nat, stride: nat, i: nat): nat {
    p * PAGE_SIZE + HEADER + i * stride
  }

  /** An object lies in its page past the header. */
  lemma ObjectInPage(p: nat, stride: nat, i: nat)
    requires stride > 0 && i < Total(stride)
    ensures p * PAGE_SIZE + HEADER <= Addr(p, stride, i) && Addr(p, stride, i) + stride <= (p + 1) * PAGE_SIZE
    ensures Addr(p, stride, i) - Addr(p, stride, i) % PAGE_SIZE == p * PAGE_SIZE && Addr(p, stride, i) / PAGE_SIZE == p
  {
    var t := Total(stride);
    assert t * stride <= PAGE_SIZE - HEADER;
    MulLe(i + 1, t, stride);
    assert (i + 1) * stride == i * stride + stride;
    DivMod(p, HEADER + i * stride, PAGE_SIZE);
  }

  /** Different objects do not overlap. */
  lemma ObjectsDisjoint(p: nat, stride: nat, i: nat, q: nat, stride': nat, j: nat)
    requires stride > 0 && stride' > 0 && i < Total(stride) && j < Total(stride')
    requires p != q || (stride == stride' && i != j)
    ensures Addr(p, stride, i) + stride <= Addr(q, stride', j) || Addr(q, stride', j) + stride' <= Addr(p, stride, i)
  {
    ObjectInPage(p, stride, i);
    ObjectInPage(q, stride', j);
    if p < q {
      MulLe(p + 1, q, PAGE_SIZE);
    } else if q < p {
      MulLe(q + 1, p, PAGE_SIZE);
    } else if i < j {
      MulLe(i + 1, j, stride);
      assert (i + 1) * stride == i * stride + stride;
    } else {
      MulLe(j + 1, i, stride);
      assert (j + 1) * stride == j * stride + stride;
    }
  }

  // Free lists

  type Words = map<nat, nat>

  /** From `head` the links run through the objects of `l` and end at NULL. */
  ghost predicate Chain(w: Words, p: nat, stride: nat, l: seq<nat>, head: nat) {
    if l == [] then head == 0
    else
      var a := Addr(p, stride, l[0]);
      head == a && a in w && Chain(w, p, stride, l[1..], w[a])
  }

  /** Words outside the list do not matter. */
  lemma {:induction false} ChainFrame(w: Words, w': Words, p: nat, stride: nat, l: seq<nat>, head: nat)
    requires Chain(w, p, stride, l, head)
    requires forall i | i in l && Addr(p, stride, i) in w :: Addr(p, stride, i) in w' && w'[Addr(p, stride, i)] == w[Addr(p, stride, i)]
    ensures Chain(w', p, stride, l, head)
  {
    if l != [] {
      ChainFrame(w, w', p, stride, l[1..], w[head]);
    }
  }

  /** The objects from `k` on. */
  function From(k: nat, n: nat): (l: seq<nat>)
    requires k <= n
    ensures |l| == n - k && forall i | 0 <= i < |l| :: l[i] == k + i
  {
    seq(n - k, i requires i >= 0 => k + i)
  }

  ghost predicate LinkedNext(w: Words, p: nat, stride: nat, i: nat, n: nat) {
    Addr(p, stride, i) in w && w[Addr(p, stride, i)] == if i + 1 < n then Addr(p, stride, i + 1) else 0
  }

  /** The list a new slab starts with. */
  lemma {:induction false} ChainFrom(w: Words, p: nat, stride: nat, k: nat, n: nat)
    requires k <= n && p > 0
    requires forall i: nat {:trigger LinkedNext(w, p, stride, i, n)} | k <= i < n :: LinkedNext(w, p, stride, i, n)
    ensures Chain(w, p, stride, From(k, n), if k < n then Addr(p, stride, k) else 0)
    decreases n - k
  {
    hide Addr;
    if k < n {
      ChainFrom(w, p, stride, k + 1, n);
      var l := From(k, n);
      assert l[0] == k && l[1..] == From(k + 1, n);
      assert LinkedNext(w, p, stride, k, n);
    }
  }

  // The heap

  datatype Slab = Slab(free: nat, total: nat, used: nat, stride: nat)

  datatype Cache = Cache(partial: seq<nat>, full: seq<nat>)

  /** Slabs are named by their pages. `fl` are the free lists and `live` the objects handed out, with the sizes asked
      for; both are there for the proof only. */
  datatype Heap = Heap(slabs: map<nat, Slab>, caches: seq<Cache>, words: Words, fl: map<nat, seq<nat>>, live: map<(nat, nat), nat>)

  function Class(h: Heap, p: nat): nat
    requires p in h.slabs
  {
    ClassOf(h.slabs[p].stride, 0)
  }

  /** The class with this object size. */
  function ClassOf(stride: nat, c: nat): nat
    decreases NUM_CACHES - c
  {
    if c >= NUM_CACHES || Size(c) == stride then c else ClassOf(stride, c + 1)
  }

  lemma {:induction false} ClassOfSize(c: nat, d: nat)
    requires d <= c < NUM_CACHES
    ensures ClassOf(Size(c), d) == c
    decreases c - d
  {
    if d < c {
      SizeGrows(d, c);
      ClassOfSize(c, d + 1);
    }
  }

  ghost predicate FreeOK(h: Heap, p: nat)
    requires p in h.slabs
  {
    var s := h.slabs[p];
    && p in h.fl && s.stride > 0 && s.total == Total(s.stride) && |h.fl[p]| + s.used == s.total
    && Distinct(h.fl[p]) && (forall i | i in h.fl[p] :: i < s.total)
    && Chain(h.words, p, s.stride, h.fl[p], s.free)
    && (forall i: nat | i < s.total :: (p, i) in h.live <==> i !in h.fl[p])
    && (forall i: nat | (p, i) in h.live :: i < s.total && h.live[(p, i)] <= s.stride)
  }

  /** A slab is in the list its fullness dictates, and in no other. */
  ghost predicate Placed(h: Heap, p: nat)
    requires p in h.slabs
  {
    var c := Class(h, p);
    && p > 0 && c < NUM_CACHES == |h.caches| && h.slabs[p].stride == Size(c)
    && (p in h.caches[c].full <==> h.slabs[p].used == h.slabs[p].total)
    && (p in h.caches[c].partial <==> h.slabs[p].used < h.slabs[p].total)
  }

  ghost predicate ListsOK(h: Heap, c: nat)
    requires c < |h.caches|
  {
    && Distinct(h.caches[c].partial) && Distinct(h.caches[c].full)
    && (forall p | p in h.caches[c].partial || p in h.caches[c].full :: p in h.slabs && Class(h, p) == c)
  }

  ghost predicate SlabOK(h: Heap, p: nat)
    requires p in h.slabs
  {
    FreeOK(h, p) && Placed(h, p)
  }

  /** Between operations no slab is unused; `unused` may hold one that is. */
  ghost predicate Inv(h: Heap, unused: set<nat>) {
    && |h.caches| == NUM_CACHES
    && (forall p {:trigger SlabOK(h, p)} | p in h.slabs :: SlabOK(h, p) && (h.slabs[p].used == 0 ==> p in unused))
    && (forall c: nat {:trigger ListsOK(h, c)} | c < NUM_CACHES :: ListsOK(h, c))
    && (forall o | o in h.live :: o.0 in h.slabs)
  }

  // Frames

  /** Only words in page `p` may differ. */
  ghost predicate SameOutside(w: Words, w': Words, p: nat) {
    forall a: nat | a / PAGE_SIZE != p :: (a in w <==> a in w') && (a in w ==> w'[a] == w[a])
  }

  lemma FreeFrame(h: Heap, h': Heap, p: nat, q: nat)
    requires q in h.slabs && q in h'.slabs && q != p && FreeOK(h, q) && h'.slabs[q] == h.slabs[q]
    requires q in h'.fl && h'.fl[q] == h.fl[q] && SameOutside(h.words, h'.words, p)
    requires forall i: nat :: ((q, i) in h'.live <==> (q, i) in h.live) && ((q, i) in h.live ==> h'.live[(q, i)] == h.live[(q, i)])
    ensures FreeOK(h', q)
  {
    var s := h.slabs[q];
    hide Addr;
    forall i | i in h.fl[q] && Addr(q, s.stride, i) in h.words
      ensures Addr(q, s.stride, i) in h'.words && h'.words[Addr(q, s.stride, i)] == h.words[Addr(q, s.stride, i)]
    {
      ObjectInPage(q, s.stride, i);
    }
    ChainFrame(h.words, h'.words, q, s.stride, h.fl[q], s.free);
  }

  // Creating a slab

  ghost function Added(h: Heap, c: nat, p: nat, w: Words): Heap
    requires c < |h.caches|
  {
    Heap(h.slabs[p := Slab(Addr(p, Size(c), 0), Total(Size(c)), 0, Size(c))],
         h.caches[c := h.caches[c].(partial := [p] + h.caches[c].partial)], w, h.fl[p := From(0, Total(Size(c)))], h.live)
  }

  /** The words of a page whose objects `slab_create` has linked. */
  ghost predicate Fresh(h: Heap, c: nat, p: nat, w: Words) {
    && p > 0 && p !in h.slabs && SameOutside(h.words, w, p)
    && forall i: nat {:trigger LinkedNext(w, p, Size(c), i, Total(Size(c)))} | i < Total(Size(c)) :: LinkedNext(w, p, Size(c), i, Total(Size(c)))
  }

  lemma AddedOK(h: Heap, c: nat, p: nat, w: Words)
    requires Inv(h, {}) && c < NUM_CACHES && Fresh(h, c, p, w)
    ensures Inv(Added(h, c, p, w), {p}) && Total(Size(c)) > 0
  {
    TotalPositive(c);
    ClassOfSize(c, 0);
    ChainFrom(w, p, Size(c), 0, Total(Size(c)));
    hide SlabOK, Size, Total, Addr, ClassOf, Chain, SameOutside;
    var h' := Added(h, c, p, w);
    forall q | q in h'.slabs
      ensures SlabOK(h', q) && (h'.slabs[q].used == 0 ==> q in {p})
    {
      if q == p {
        AddedNew(h, c, p, w);
      } else {
        assert SlabOK(h, q);
        AddedOther(h, c, p, w, q);
      }
    }
    hide FreeOK, Placed;
    forall d: nat | d < NUM_CACHES
      ensures ListsOK(h', d)
    {
      AddedLists(h, c, p, w, d);
    }
  }

  lemma AddedLists(h: Heap, c: nat, p: nat, w: Words, d: nat)
    requires Inv(h, {}) && c < NUM_CACHES && d < NUM_CACHES && p !in h.slabs && ClassOf(Size(c), 0) == c
    ensures ListsOK(Added(h, c, p, w), d)
  {
    hide Size, Total, Addr, ClassOf, SlabOK;
    assert ListsOK(h, d);
  }

  lemma TotalPositive(c: nat)
    requires c < NUM_CACHES
    ensures Total(Size(c)) > 0
  {
    SizeBound(c);
    assert 1 * Size(c) <= PAGE_SIZE - HEADER;
    DivBound(PAGE_SIZE - HEADER, Size(c));
  }

  lemma DivBound(x: nat, d: nat)
    requires 0 < d <= x
    ensures x / d > 0
  {
    assert x == x / d * d + x % d;
  }

  lemma AddedNew(h: Heap, c: nat, p: nat, w: Words)
    requires Inv(h, {}) && c < NUM_CACHES && p > 0 && p !in h.slabs
    requires Total(Size(c)) > 0 && ClassOf(Size(c), 0) == c
    requires Chain(w, p, Size(c), From(0, Total(Size(c))), Addr(p, Size(c), 0))
    ensures SlabOK(Added(h, c, p, w), p)
  {
    hide Size, Total, Addr, ClassOf, Chain;
    var h' := Added(h, c, p, w);
    assert ListsOK(h, c);
    forall i: nat | i < Total(Size(c))
      ensures i in h'.fl[p]
    {
      assert h'.fl[p][i] == i;
    }
    forall i: nat
      ensures (p, i) !in h.live
    {
      assert (p, i) in h.live ==> (p, i).0 in h.slabs;
    }
  }

  lemma AddedOther(h: Heap, c: nat, p: nat, w: Words, q: nat)
    requires Inv(h, {}) && c < NUM_CACHES && p !in h.slabs && SameOutside(h.words, w, p) && q in h.slabs && SlabOK(h, q)
    ensures SlabOK(Added(h, c, p, w), q)
  {
    hide Size, Total, Addr, ClassOf, Chain, SameOutside;
    FreeFrame(h, Added(h, c, p, w), p, q);
  }

  // Taking an object from the first partly used slab

  ghost predicate CanTake(h: Heap, c: nat, size: nat) {
    && Inv(h, if c < |h.caches| && h.caches[c].partial != [] then {h.caches[c].partial[0]} else {})
    && c < NUM_CACHES && h.caches[c].partial != [] && size <= Size(c)
  }

  lemma HeadSlab(h: Heap, c: nat, size: nat)
    requires CanTake(h, c, size)
    ensures var p := h.caches[c].partial[0];
            && p in h.slabs && p in h.fl && h.fl[p] != [] && SlabOK(h, p) && Class(h, p) == c && h.slabs[p].stride == Size(c)
            && h.slabs[p].free == Addr(p, Size(c), h.fl[p][0]) && h.slabs[p].free in h.words && p > 0
            && Chain(h.words, p, Size(c), h.fl[p][1..], h.words[h.slabs[p].free])
  {
    hide Size, Total, Addr, ClassOf;
    var p := h.caches[c].partial[0];
    assert ListsOK(h, c) && p in h.caches[c].partial;
    assert SlabOK(h, p);
  }

  ghost function Taken(h: Heap, c: nat, size: nat): Heap
    requires CanTake(h, c, size)
  {
    HeadSlab(h, c, size);
    var cache := h.caches[c];
    var p := cache.partial[0];
    var s := h.slabs[p];
    Heap(h.slabs[p := s.(free := h.words[s.free], used := s.used + 1)],
         if s.used + 1 == s.total then h.caches[c := Cache(cache.partial[1..], [p] + cache.full)] else h.caches,
         h.words, h.fl[p := h.fl[p][1..]], h.live[(p, h.fl[p][0]) := size])
  }

  lemma TakenHead(h: Heap, c: nat, size: nat)
    requires CanTake(h, c, size)
    ensures h.caches[c].partial[0] in Taken(h, c, size).slabs && SlabOK(Taken(h, c, size), h.caches[c].partial[0])
  {
    hide Size, Total, Addr, ClassOf, Chain;
    HeadSlab(h, c, size);
    var p := h.caches[c].partial[0];
    var l := h.fl[p];
    assert ListsOK(h, c);
    assert p !in h.caches[c].partial[1..];
    assert l[0] in l && l[0] !in l[1..] && l == [l[0]] + l[1..];
    var h' := Taken(h, c, size);
    assert h'.caches[c].full == h.caches[c].full || h'.caches[c].full == [p] + h.caches[c].full;
    assert forall i :: i in l <==> i == l[0] || i in l[1..];
  }

  lemma TakenOther(h: Heap, c: nat, size: nat, q: nat)
    requires CanTake(h, c, size) && q in h.slabs && q != h.caches[c].partial[0]
    ensures SlabOK(Taken(h, c, size), q)
  {
    hide Size, Total, Addr, ClassOf, Chain;
    HeadSlab(h, c, size);
    assert SlabOK(h, q);
    var p, cache := h.caches[c].partial[0], h.caches[c];
    assert cache.partial == [p] + cache.partial[1..];
    FreeFrame(h, Taken(h, c, size), p, q);
  }

  lemma TakenLists(h: Heap, c: nat, size: nat, d: nat)
    requires CanTake(h, c, size) && d < NUM_CACHES
    ensures ListsOK(Taken(h, c, size), d)
  {
    hide Size, Total, Addr, ClassOf, FreeOK, Chain;
    HeadSlab(h, c, size);
    assert ListsOK(h, d);
  }

  lemma TakenOK(h: Heap, c: nat, size: nat)
    requires CanTake(h, c, size)
    ensures Inv(Taken(h, c, size), {})
  {
    HeadSlab(h, c, size);
    TakenHead(h, c, size);
    hide SlabOK, ListsOK, Size, ClassOf, Addr;
    var p := h.caches[c].partial[0];
    forall q | q in Taken(h, c, size).slabs
      ensures SlabOK(Taken(h, c, size), q) && Taken(h, c, size).slabs[q].used > 0
    {
      if q != p {
        assert SlabOK(h, q);
        TakenOther(h, c, size, q);
      }
    }
    forall d: nat | d < NUM_CACHES
      ensures ListsOK(Taken(h, c, size), d)
    {
      TakenLists(h, c, size, d);
    }
  }

  // Giving an object back

  lemma LiveSlab(h: Heap, p: nat, i: nat)
    requires Inv(h, {}) && (p, i) in h.live
    ensures p in h.slabs && p in h.fl && SlabOK(h, p) && i < h.slabs[p].total && i !in h.fl[p] && h.slabs[p].used > 0
    ensures Class(h, p) < NUM_CACHES && h.slabs[p].stride == Size(Class(h, p)) && p > 0
  {
    hide Size, Total, Addr, ClassOf, Chain;
    assert (p, i).0 in h.slabs;
    assert SlabOK(h, p);
  }

  ghost function Given(h: Heap, p: nat, i: nat): (h': Heap)
    requires Inv(h, {}) && (p, i) in h.live
    ensures |h'.caches| == NUM_CACHES
  {
    LiveSlab(h, p, i);
    var c, s := Class(h, p), h.slabs[p];
    var a := Addr(p, s.stride, i);
    Heap(h.slabs[p := s.(free := a, used := s.used - 1)],
         if s.used == s.total then h.caches[c := Cache([p] + h.caches[c].partial, Without(h.caches[c].full, p))] else h.caches,
         h.words[a := s.free], h.fl[p := [i] + h.fl[p]], h.live - {(p, i)})
  }

  lemma GivenHead(h: Heap, p: nat, i: nat)
    requires Inv(h, {}) && (p, i) in h.live
    ensures p in Given(h, p, i).slabs && SlabOK(Given(h, p, i), p)
  {
    LiveSlab(h, p, i);
    GivenChain(h, p, i);
    hide Size, Total, Addr, ClassOf, Chain;
    var h', l := Given(h, p, i), h.fl[p];
    assert ListsOK(h, Class(h, p));
    assert forall k :: k in h'.fl[p] <==> k == i || k in l;
    assert ([i] + l)[1..] == l;
  }

  lemma GivenChain(h: Heap, p: nat, i: nat)
    requires Inv(h, {}) && (p, i) in h.live
    ensures p in h.slabs && p in h.fl
    ensures Chain(Given(h, p, i).words, p, h.slabs[p].stride, [i] + h.fl[p], Addr(p, h.slabs[p].stride, i))
  {
    LiveSlab(h, p, i);
    var s, l := h.slabs[p], h.fl[p];
    var a := Addr(p, s.stride, i);
    var w' := h.words[a := s.free];
    forall k | k in l && Addr(p, s.stride, k) in h.words
      ensures Addr(p, s.stride, k) in w' && w'[Addr(p, s.stride, k)] == h.words[Addr(p, s.stride, k)]
    {
      ObjectsDisjoint(p, s.stride, i, p, s.stride, k);
    }
    ChainFrame(h.words, w', p, s.stride, l, s.free);
    assert ([i] + l)[1..] == l;
  }

  lemma GivenOther(h: Heap, p: nat, i: nat, q: nat)
    requires Inv(h, {}) && (p, i) in h.live && q in h.slabs && q != p
    ensures SlabOK(Given(h, p, i), q)
  {
    LiveSlab(h, p, i);
    ObjectInPage(p, h.slabs[p].stride, i);
    hide Size, Total, Addr, ClassOf, Chain;
    assert SlabOK(h, q);
    FreeFrame(h, Given(h, p, i), p, q);
  }

  lemma GivenLists(h: Heap, p: nat, i: nat, d: nat)
    requires Inv(h, {}) && (p, i) in h.live && d < NUM_CACHES
    ensures ListsOK(Given(h, p, i), d)
  {
    LiveSlab(h, p, i);
    hide Size, Total, Addr, ClassOf, FreeOK, Chain;
    assert ListsOK(h, d);
    WithoutDistinct(h.caches[d].full, p);
  }

  lemma GivenOK(h: Heap, p: nat, i: nat)
    requires Inv(h, {}) && (p, i) in h.live
    ensures Inv(Given(h, p, i), {p})
  {
    LiveSlab(h, p, i);
    GivenHead(h, p, i);
    hide SlabOK, ListsOK, Size, ClassOf, Addr;
    forall q | q in Given(h, p, i).slabs
      ensures SlabOK(Given(h, p, i), q) && (Given(h, p, i).slabs[q].used == 0 ==> q in {p})
    {
      if q != p {
        assert SlabOK(h, q);
        GivenOther(h, p, i, q);
      }
    }
    forall d: nat | d < NUM_CACHES
      ensures ListsOK(Given(h, p, i), d)
    {
      GivenLists(h, p, i, d);
    }
  }

  /** A slab without objects goes back to the page allocator. */
  ghost function Emptied(h: Heap, p: nat): (h': Heap)
    requires Inv(h, {p}) && p in h.slabs
    ensures |h'.caches| == NUM_CACHES
  {
    if h.slabs[p].used > 0 then h
    else
      assert SlabOK(h, p);
      var c := Class(h, p);
      h.(slabs := h.slabs - {p}, caches := h.caches[c := h.caches[c].(partial := Without(h.caches[c].partial, p))], fl := h.fl - {p})
  }

  lemma EmptiedSlab(h: Heap, p: nat, q: nat)
    requires Inv(h, {p}) && p in h.slabs && q in Emptied(h, p).slabs
    ensures SlabOK(Emptied(h, p), q) && Emptied(h, p).slabs[q].used > 0
  {
    hide Size, Total, Addr, ClassOf, Chain;
    assert SlabOK(h, p) && SlabOK(h, q);
    if h.slabs[p].used == 0 {
      FreeFrame(h, Emptied(h, p), p, q);
    }
  }

  lemma EmptiedOK(h: Heap, p: nat)
    requires Inv(h, {p}) && p in h.slabs
    ensures Inv(Emptied(h, p), {})
    ensures p in Emptied(h, p).slabs <==> exists i: nat :: (p, i) in h.live
  {
    hide Size, Total, Addr, ClassOf, Chain;
    assert SlabOK(h, p);
    forall q | q in Emptied(h, p).slabs
      ensures SlabOK(Emptied(h, p), q) && Emptied(h, p).slabs[q].used > 0
    {
      EmptiedSlab(h, p, q);
    }
    forall d: nat | d < NUM_CACHES
      ensures ListsOK(Emptied(h, p), d)
    {
      EmptiedLists(h, p, d);
    }
    UsedIffLive(h, p);
  }

  lemma EmptiedLists(h: Heap, p: nat, d: nat)
    requires Inv(h, {p}) && p in h.slabs && d < NUM_CACHES
    ensures ListsOK(Emptied(h, p), d)
  {
    assert SlabOK(h, p) && ListsOK(h, d);
    TotalPositive(Class(h, p));
    hide Size, Total, Addr, ClassOf, Chain;
    WithoutDistinct(h.caches[d].partial, p);
  }

  /** `used` is zero exactly when no object is out. */
  lemma UsedIffLive(h: Heap, p: nat)
    requires p in h.slabs && FreeOK(h, p)
    ensures h.slabs[p].used > 0 <==> exists i: nat :: (p, i) in h.live
  {
    hide Total, Addr, Chain;
    AllBelow(h.fl[p], h.slabs[p].total);
    if h.slabs[p].used > 0 {
      var i: nat :| i < h.slabs[p].total && i !in h.fl[p];
      assert (p, i) in h.live;
    }
  }

  // What users rely on

  function ObjAddr(h: Heap, o: (nat, nat)): nat
    requires o.0 in h.slabs
  {
    Addr(o.0, h.slabs[o.0].stride, o.1)
  }

  /** A live object is at least as large as was asked for and lies in its page past the header. */
  lemma LiveInPage(h: Heap, o: (nat, nat))
    requires Inv(h, {}) && o in h.live
    ensures o.0 in h.slabs && h.live[o] <= h.slabs[o.0].stride
    ensures o.0 * PAGE_SIZE + HEADER <= ObjAddr(h, o) && ObjAddr(h, o) + h.slabs[o.0].stride <= (o.0 + 1) * PAGE_SIZE
  {
    LiveSlab(h, o.0, o.1);
    ObjectInPage(o.0, h.slabs[o.0].stride, o.1);
  }

  /** Live objects do not overlap. */
  lemma LiveDisjoint(h: Heap, o: (nat, nat), o': (nat, nat))
    requires Inv(h, {}) && o in h.live && o' in h.live && o != o'
    ensures o.0 in h.slabs && o'.0 in h.slabs
    ensures ObjAddr(h, o) + h.slabs[o.0].stride <= ObjAddr(h, o') || ObjAddr(h, o') + h.slabs[o'.0].stride <= ObjAddr(h, o)
  {
    LiveSlab(h, o.0, o.1);
    LiveSlab(h, o'.0, o'.1);
    ObjectsDisjoint(o.0, h.slabs[o.0].stride, o.1, o'.0, h.slabs[o'.0].stride, o'.1);
  }

  /** Any stores into object `o`, of any width: words that do not meet the object are as before. */
  ghost predicate Scribbled(h: Heap, o: (nat, nat), w: Words)
    requires o.0 in h.slabs
  {
    forall b: nat {:trigger Apart(h, o, b)} | Apart(h, o, b) :: (b in w <==> b in h.words) && (b in w && b in h.words ==> w[b] == h.words[b])
  }

  /** The eight bytes at `b` lie outside the object. */
  predicate Apart(h: Heap, o: (nat, nat), b: nat)
    requires o.0 in h.slabs
  {
    b + 8 <= ObjAddr(h, o) || ObjAddr(h, o) + h.slabs[o.0].stride <= b
  }

  /** Whatever a user writes into a live object, the heap stays sound. */
  lemma UserWriteOK(h: Heap, o: (nat, nat), w: Words)
    requires Inv(h, {}) && o in h.live && o.0 in h.slabs && Scribbled(h, o, w)
    ensures Inv(h.(words := w), {})
  {
    var h' := h.(words := w);
    hide Size, ClassOf, Placed;
    forall q | q in h'.slabs
      ensures SlabOK(h', q) && h'.slabs[q].used > 0
    {
      UserWriteSlab(h, o, w, q);
    }
    forall d: nat | d < NUM_CACHES
      ensures ListsOK(h', d)
    {
      assert ListsOK(h, d);
    }
  }

  lemma UserWriteSlab(h: Heap, o: (nat, nat), w: Words, q: nat)
    requires Inv(h, {}) && o in h.live && o.0 in h.slabs && Scribbled(h, o, w) && q in h.slabs
    ensures SlabOK(h.(words := w), q) && h.slabs[q].used > 0
  {
    WideEnough(h, q);
    hide Size, ClassOf, Total;
    LiveSlab(h, o.0, o.1);
    assert SlabOK(h, q);
    var s := h.slabs[q];
    forall k | k in h.fl[q] && Addr(q, s.stride, k) in h.words
      ensures Addr(q, s.stride, k) in w && w[Addr(q, s.stride, k)] == h.words[Addr(q, s.stride, k)]
    {
      ObjectsDisjoint(o.0, h.slabs[o.0].stride, o.1, q, s.stride, k);
      assert Apart(h, o, Addr(q, s.stride, k));
    }
    ChainFrame(h.words, w, q, s.stride, h.fl[q], s.free);
  }

  /** A link fits into every object. */
  lemma WideEnough(h: Heap, q: nat)
    requires Inv(h, {}) && q in h.slabs
    ensures h.slabs[q].stride >= 8
  {
    assert SlabOK(h, q);
  }

  // The operations

  datatype Pointer = Null | Object(addr: nat) | Large

  class Kheap {
    var slabs: map<nat, Slab>
    var caches: seq<Cache>
    var words: Words
    ghost var fl: map<nat, seq<nat>>
    ghost var live: map<(nat, nat), nat>

    ghost function View(): Heap
      reads this
    {
      Heap(slabs, caches, words, fl, live)
    }

    ghost predicate Valid()
      reads this
    {
      Inv(View(), {})
    }

    /** `kheap_init` */
    constructor ()
      ensures Valid() && slabs == map[] && live == map[]
    {
      slabs, words, fl, live := map[], map[], map[], map[];
      caches := seq(NUM_CACHES, _ => Cache([], []));
    }

    /** `slab_create`: links all objects of page `p`. */
    method SlabCreate(p: nat, size: nat)
      requires size > 0
      modifies `slabs, `words
      ensures slabs == old(slabs)[p := Slab(Addr(p, size, 0), Total(size), 0, size)] && SameOutside(old(words), words, p)
      ensures forall i: nat {:trigger LinkedNext(words, p, size, i, Total(size))} | i < Total(size) :: LinkedNext(words, p, size, i, Total(size))
    {
      hide Addr, Total;
      var total := Total(size);
      slabs := slabs[p := Slab(Addr(p, size, 0), total, 0, size)];
      for i := 0 to total
        invariant SameOutside(old(words), words, p) && slabs == old(slabs)[p := Slab(Addr(p, size, 0), total, 0, size)]
        invariant forall j: nat {:trigger LinkedNext(words, p, size, j, total)} | j < i :: LinkedNext(words, p, size, j, total)
      {
        ObjectInPage(p, size, i);
        ghost var w := words;
        words := words[Addr(p, size, i) := if i + 1 < total then Addr(p, size, i + 1) else 0];
        forall j: nat | j < i
          ensures LinkedNext(words, p, size, j, total)
        {
          assert LinkedNext(w, p, size, j, total);
          ObjectsDisjoint(p, size, i, p, size, j);
        }
      }
    }

    /** `cache_alloc`; `page` is the page the page allocator would hand out next, and `o` the object returned. */
    method CacheAlloc(c: nat, page: nat, ghost size: nat) returns (a: nat, ghost o: (nat, nat))
      requires Valid() && c < NUM_CACHES && size <= Size(c) && page > 0 && page !in slabs
      modifies this
      ensures Valid() && o !in old(live) && live == old(live)[o := size]
      ensures o.0 in slabs && a == ObjAddr(View(), o) > 0 && slabs[o.0].stride == Size(c)
    {
      hide Inv, Size, Total, ClassOf;
      InvCaches(View(), {});
      if caches[c].partial == [] {
        AddSlab(c, page);
      } else {
        InvWeaken(View(), {caches[c].partial[0]});
      }
      a, o := TakeFirst(c, size);
    }

    method AddSlab(c: nat, page: nat)
      requires Valid() && c < NUM_CACHES == |caches| && page > 0 && page !in slabs
      modifies this
      ensures Inv(View(), {page}) && |caches| == NUM_CACHES && caches[c].partial == [page] + old(caches[c].partial) && live == old(live)
    {
      hide Inv, Total, ClassOf;
      ghost var h := View();
      SlabCreate(page, Size(c));
      AddedOK(h, c, page, words);
      fl := fl[page := From(0, Total(Size(c)))];
      caches := caches[c := caches[c].(partial := [page] + caches[c].partial)];
    }

    method TakeFirst(c: nat, ghost size: nat) returns (a: nat, ghost o: (nat, nat))
      requires CanTake(View(), c, size)
      modifies this
      ensures Valid() && o !in old(live) && live == old(live)[o := size]
      ensures o.0 in slabs && a == ObjAddr(View(), o) > 0 && slabs[o.0].stride == Size(c)
    {
      ghost var h := View();
      HeadSlab(h, c, size);
      TakenOK(h, c, size);
      NewObject(h, caches[c].partial[0]);
      hide Inv, Size, Total, ClassOf, SlabOK, Chain, Addr;
      var p := caches[c].partial[0];
      var s := slabs[p];
      a := s.free;
      slabs := slabs[p := s.(free := words[a], used := s.used + 1)];
      if slabs[p].used == slabs[p].total {
        caches := caches[c := Cache(caches[c].partial[1..], [p] + caches[c].full)];
      }
      o := (p, fl[p][0]);
      live, fl := live[o := size], fl[p := fl[p][1..]];
    }

    /** `slab_unlink` */
    static method SlabUnlink(l: seq<nat>, p: nat) returns (r: seq<nat>)
      requires Distinct(l)
      ensures r == Without(l, p)
    {
      hide Without, Distinct;
      var i := 0;
      while i < |l| && l[i] != p
        invariant i <= |l| && p !in l[..i]
      {
        i := i + 1;
      }
      if i < |l| {
        WithoutAt(l, i);
        return l[..i] + l[i + 1..];
      }
      assert l[..i] == l;
      WithoutNone(l, p);
      r := l;
    }

    /** `cache_free` of live object `o` at address `a`; says whether the page went back. */
    method CacheFree(c: nat, a: nat, ghost o: (nat, nat)) returns (released: bool)
      requires Valid() && o in live && o.0 in slabs && a == ObjAddr(View(), o) && c == Class(View(), o.0)
      modifies this
      ensures Valid() && live == old(live) - {o}
      ensures released <==> forall i: nat :: (o.0, i) !in live
      ensures released <==> o.0 !in slabs
    {
      ghost var h := View();
      LiveSlab(h, o.0, o.1);
      ObjectInPage(o.0, slabs[o.0].stride, o.1);
      GivenOK(h, o.0, o.1);
      EmptiedOK(Given(h, o.0, o.1), o.0);
      FreeLists(h, c, {});
      hide Inv, Size, Total, ClassOf, SlabOK, Chain, Addr;
      var p := a / PAGE_SIZE;
      var wasFull := slabs[p].used == slabs[p].total;
      words := words[a := slabs[p].free];
      slabs := slabs[p := slabs[p].(free := a, used := slabs[p].used - 1)];
      if wasFull {
        var full := SlabUnlink(caches[c].full, p);
        caches := caches[c := Cache([p] + caches[c].partial, full)];
      }
      fl, live := fl[p := [o.1] + fl[p]], live - {o};
      assert View() == Given(h, o.0, o.1);
      released := slabs[p].used == 0;
      if released {
        Drop(c, p);
      }
    }

    /** `kmalloc`; requests above the largest class go elsewhere. */
    method Kmalloc(size: nat, page: nat) returns (r: Pointer, ghost o: (nat, nat))
      requires Valid() && page > 0 && page !in slabs
      modifies this
      ensures Valid() && (r == Null <==> size == 0) && (r == Large <==> size > 2048)
      ensures 0 < size <= 2048 ==> r.Object? && o !in old(live) && live == old(live)[o := size]
      ensures 0 < size <= 2048 ==> o.0 in slabs && r.addr == ObjAddr(View(), o) > 0 && size <= slabs[o.0].stride
      ensures 0 < size <= 2048 ==> slabs[o.0].stride == SLAB_MIN || slabs[o.0].stride < 2 * size
      ensures !(0 < size <= 2048) ==> View() == old(View())
    {
      hide Inv, Total;
      o := (0, 0);
      if size == 0 { return Null, o; }
      var c := CacheIdx(size);
      if c < NUM_CACHES {
        SizeBound(c);
        var a;
        a, o := CacheAlloc(c, page, size);
        r := Object(a);
      } else {
        assert Size(8) == 2048 by { SizeBound(8); assert Size(7) == 1024; }
        r := Large;
      }
    }

    /** `kfree` of a slab object finds the class from the size in the page header. */
    method Kfree(a: nat, ghost o: (nat, nat)) returns (released: bool)
      requires Valid() && o in live && o.0 in slabs && a == ObjAddr(View(), o)
      modifies this
      ensures Valid() && live == old(live) - {o}
      ensures (released <==> o.0 !in slabs) && (released <==> forall i: nat :: (o.0, i) !in live)
    {
      LiveSlab(View(), o.0, o.1);
      ObjectInPage(o.0, slabs[o.0].stride, o.1);
      hide Inv, Total, SlabOK, Chain, Addr, ClassOf;
      var s := slabs[a / PAGE_SIZE];
      var c := CacheIdx(s.stride);
      ghost var k := Class(View(), o.0);
      if c < k {
        SizeGrows(c, k);
      }
      released := CacheFree(c, a, o);
    }

    method Drop(c: nat, p: nat)
      requires Inv(View(), {p}) && p in slabs && slabs[p].used == 0 && c == Class(View(), p) && c < |caches|
      modifies this
      ensures View() == old(Emptied(View(), p))
    {
      FreeLists(View(), c, {p});
      hide Inv, Size, Total, ClassOf, SlabOK, Chain, Addr;
      var partial := SlabUnlink(caches[c].partial, p);
      caches := caches[c := caches[c].(partial := partial)];
      slabs := map q | q in slabs && q != p :: slabs[q];
      fl := fl - {p};
    }
  }

  lemma FreeLists(h: Heap, c: nat, unused: set<nat>)
    requires Inv(h, unused) && c < NUM_CACHES
    ensures Distinct(h.caches[c].partial) && Distinct(h.caches[c].full)
  {
    assert ListsOK(h, c);
  }

  lemma InvCaches(h: Heap, unused: set<nat>)
    requires Inv(h, unused)
    ensures |h.caches| == NUM_CACHES
  {
  }

  lemma InvWeaken(h: Heap, unused: set<nat>)
    requires Inv(h, {})
    ensures Inv(h, unused)
  {
    hide SlabOK;
    forall p | p in h.slabs
      ensures SlabOK(h, p) && h.slabs[p].used > 0
    {
      assert SlabOK(h, p);
    }
  }

  lemma NewObject(h: Heap, p: nat)
    requires p in h.slabs && SlabOK(h, p) && h.fl[p] != []
    ensures (p, h.fl[p][0]) !in h.live && Addr(p, h.slabs[p].stride, h.fl[p][0]) > 0
  {
    assert h.fl[p][0] in h.fl[p];
  }

  // Runs

  datatype Op =
    | Alloc(c: nat, size: nat)
    | AllocPage(c: nat, size: nat, page: nat, words: Words)
    | Free(o: (nat, nat))
    | Store(o: (nat, nat), words: Words)

  /** Allocation from a partly used slab or from a new page, release, or a store by the owner of a live object. */
  ghost predicate Step(h: Heap, h': Heap, op: Op)
    requires Inv(h, {})
  {
    match op
    case Alloc(c, size) => CanTake(h, c, size) && h' == Taken(h, c, size)
    case AllocPage(c, size, page, w) =>
      && c < NUM_CACHES && size <= Size(c) && h.caches[c].partial == [] && Fresh(h, c, page, w)
      && (AddedFirst(h, c, page, w, size); h' == Taken(Added(h, c, page, w), c, size))
    case Free(o) => o in h.live && (GivenOK(h, o.0, o.1); GivenKeeps(h, o); h' == Emptied(Given(h, o.0, o.1), o.0))
    case Store(o, w) => o in h.live && o.0 in h.slabs && Scribbled(h, o, w) && h' == h.(words := w)
  }

  lemma AddedFirst(h: Heap, c: nat, p: nat, w: Words, size: nat)
    requires Inv(h, {}) && c < NUM_CACHES && size <= Size(c) && Fresh(h, c, p, w) && h.caches[c].partial == []
    ensures CanTake(Added(h, c, p, w), c, size)
  {
    hide Total, Addr, ClassOf, SlabOK, ListsOK;
    AddedOK(h, c, p, w);
  }

  lemma GivenKeeps(h: Heap, o: (nat, nat))
    requires Inv(h, {}) && o in h.live
    ensures o.0 in Given(h, o.0, o.1).slabs
  {
  }

  lemma StepInv(h: Heap, h': Heap, op: Op)
    requires Inv(h, {}) && Step(h, h', op)
    ensures Inv(h', {})
  {
    hide Inv, Added, Taken, Given, Emptied, Fresh, Size;
    match op
    case Alloc(c, size) => TakenOK(h, c, size);
    case AllocPage(c, size, page, w) =>
      InvCaches(h, {});
      AddedFirst(h, c, page, w, size);
      TakenOK(Added(h, c, page, w), c, size);
    case Free(o) =>
      GivenOK(h, o.0, o.1);
      GivenKeeps(h, o);
      EmptiedOK(Given(h, o.0, o.1), o.0);
    case Store(o, w) => UserWriteOK(h, o, w);
  }

  ghost predicate Run(hs: seq<Heap>, ops: seq<Op>) {
    && |hs| == |ops| + 1 && Inv(hs[0], {})
    && forall i {:trigger ops[i]} | 0 <= i < |ops| :: Inv(hs[i], {}) ==> Step(hs[i], hs[i + 1], ops[i])
  }

  /** The invariant holds throughout every run, so live objects stay disjoint and in their pages. */
  lemma {:induction false} RunInv(hs: seq<Heap>, ops: seq<Op>, n: nat)
    requires Run(hs, ops) && n <= |ops|
    ensures Inv(hs[n], {})
  {
    hide Inv, Step;
    if n > 0 {
      RunInv(hs, ops, n - 1);
      assert ops[n - 1] == ops[n - 1];
      StepInv(hs[n - 1], hs[n], ops[n - 1]);
    }
  }
}
