/** Who refers to each frame, and that the counts kept by the physical memory manager agree. */
module FrameCounts {
  import opened Machine
  import opened PhysicalMemory
  import opened PageTree

  /** The page-table entries that name frame `p`, over all address spaces. */
  ghost function Mappings(flat: Flat, p: nat): set<Key> {
    set k | k in flat && flat[k].pfn == p
  }

  ghost function Share(flat: Flat, p: nat): nat {
    |Mappings(flat, p)|
  }

  /** All owners of a frame: its mappings, its use as a page table, and handles held by the rest of the kernel. */
  ghost function Refs(who: Who, flat: Flat, held: multiset<nat>, p: nat): nat {
    Share(flat, p) + (if p in who then 1 else 0) + held[p]
  }

  /** A frame with owners is used, with exact counts; one without is on the free list or reserved. */
  predicate CountsOK(pg: Page, listed: bool, refs: nat, share: nat, p: nat) {
    if refs > 0 then
      && p > 0 && !listed
      && pg.flags == USED.(shared := share > 1, cow := pg.flags.cow)
      && pg.refcount == refs && pg.u2 == share
    else
      listed || (pg.flags.reserved && !pg.flags.used && !pg.flags.free && !pg.flags.poison)
  }

  ghost predicate FrameOK(s: Phys, who: Who, flat: Flat, held: multiset<nat>, p: nat)
    requires p < |s.pages|
  {
    CountsOK(s.pages[p], p in s.fl, Refs(who, flat, held, p), Share(flat, p), p)
  }

  ghost predicate Counts(s: Phys, who: Who, flat: Flat, held: multiset<nat>) {
    && FreeListOK(s)
    && (forall p {:trigger FrameOK(s, who, flat, held, p)} | 0 <= p < |s.pages| :: FrameOK(s, who, flat, held, p))
    && (forall p | p in who :: p < |s.pages|)
    && (forall k | k in flat :: flat[k].pfn < |s.pages|)
    && (forall p | p in held :: p < |s.pages|)
  }

  lemma ShareAdd(flat: Flat, k: Key, w: Word)
    requires k !in flat
    ensures Share(flat[k := w], w.pfn) == Share(flat, w.pfn) + 1
    ensures forall q | q != w.pfn :: Share(flat[k := w], q) == Share(flat, q)
  {
    assert Mappings(flat[k := w], w.pfn) == Mappings(flat, w.pfn) + {k};
    forall q | q != w.pfn
      ensures Share(flat[k := w], q) == Share(flat, q)
    {
      assert Mappings(flat[k := w], q) == Mappings(flat, q);
    }
  }

  lemma ShareRemove(flat: Flat, k: Key)
    requires k in flat
    ensures Share(flat, flat[k].pfn) == Share(flat - {k}, flat[k].pfn) + 1
    ensures forall q | q != flat[k].pfn :: Share(flat - {k}, q) == Share(flat, q)
  {
    assert flat == (flat - {k})[k := flat[k]];
    ShareAdd(flat - {k}, k, flat[k]);
  }

  /** Fewer entries name a frame when entries only went away. */
  lemma ShareShrinks(flat: Flat, flat': Flat, p: nat)
    requires forall k | k in flat' :: k in flat && flat'[k] == flat[k]
    ensures Share(flat', p) <= Share(flat, p)
  {
    var a, b := Mappings(flat', p), Mappings(flat, p);
    assert b == a + (b - a);
  }

  lemma SharePositive(flat: Flat, k: Key)
    requires k in flat
    ensures Share(flat, flat[k].pfn) > 0
  {
    assert k in Mappings(flat, flat[k].pfn);
  }

  /** A frame with a single mapping is named by a single page. */
  lemma ShareUnique(flat: Flat, k: Key, k': Key)
    requires k in flat && k' in flat && flat[k].pfn == flat[k'].pfn && Share(flat, flat[k].pfn) == 1
    ensures k == k'
  {
    var s := Mappings(flat, flat[k].pfn);
    assert k in s && k' in s && |s - {k}| == 0;
    assert k' != k ==> k' in s - {k};
  }

  /** A mapped frame has more than one mapping exactly when a second page names it. */
  lemma SharedIff(flat: Flat, k: Key)
    requires k in flat
    ensures Share(flat, flat[k].pfn) > 1 <==> exists k' :: k' in flat && k' != k && flat[k'].pfn == flat[k].pfn
  {
    var s := Mappings(flat, flat[k].pfn);
    assert k in s && |s - {k}| == |s| - 1;
    if |s| > 1 {
      var k' :| k' in s - {k};
      assert k' in flat && k' != k && flat[k'].pfn == flat[k].pfn;
    }
    if k' :| k' in flat && k' != k && flat[k'].pfn == flat[k].pfn {
      assert k' in s - {k};
    }
  }

  lemma UnownedIsFree(s: Phys, who: Who, flat: Flat, held: multiset<nat>)
    requires Counts(s, who, flat, held) && s.fl != []
    ensures 0 < s.fl[0] < |s.pages| && s.fl[0] !in who && s.fl[0] !in held
    ensures forall k | k in flat :: flat[k].pfn != s.fl[0]
  {
    var p := s.fl[0];
    assert FrameOK(s, who, flat, held, p);
    forall k | k in flat
      ensures flat[k].pfn != p
    {
      if flat[k].pfn == p {
        SharePositive(flat, k);
      }
    }
  }

  /** Two owner assignments with the same counts everywhere but at `p`. */
  ghost predicate SameElsewhere(who: Who, flat: Flat, held: multiset<nat>, who': Who, flat': Flat, held': multiset<nat>, p: nat) {
    forall q: nat {:trigger Refs(who', flat', held', q)} | q != p ::
      Refs(who', flat', held', q) == Refs(who, flat, held, q) && Share(flat', q) == Share(flat, q)
  }

  /** Changing one frame's record in step with its owners keeps the counts. */
  lemma Recount(s: Phys, who: Who, flat: Flat, held: multiset<nat>, who': Who, flat': Flat, held': multiset<nat>, p: nat, pg: Page)
    requires Counts(s, who, flat, held) && p < |s.pages| && p !in s.fl
    requires SameElsewhere(who, flat, held, who', flat', held', p)
    requires !pg.flags.free && CountsOK(pg, false, Refs(who', flat', held', p), Share(flat', p), p)
    requires (forall q | q in who' :: q < |s.pages|) && (forall k | k in flat' :: flat'[k].pfn < |s.pages|)
    requires forall q | q in held' :: q < |s.pages|
    ensures Counts(WithPage(s, p, pg), who', flat', held')
  {
    var t := WithPage(s, p, pg);
    forall i | 0 <= i < |t.fl|
      ensures Linked(t.pages, t.fl, i)
    {
      assert Linked(s.pages, s.fl, i);
    }
    forall q | 0 <= q < |t.pages|
      ensures FrameOK(t, who', flat', held', q)
    {
      if q != p {
        assert FrameOK(s, who, flat, held, q);
      }
    }
  }

  /** Giving the frame popped from the list its first owner. */
  lemma CountAlloc(s: Phys, who: Who, flat: Flat, held: multiset<nat>, who': Who, held': multiset<nat>)
    requires Counts(s, who, flat, held) && s.fl != []
    requires SameElsewhere(who, flat, held, who', flat, held', s.fl[0])
    requires Refs(who', flat, held', s.fl[0]) == 1 && Share(flat, s.fl[0]) == 0
    requires (forall q | q in who' :: q < |s.pages|) && (forall q | q in held' :: q < |s.pages|)
    ensures Counts(Popped(s), who', flat, held')
  {
    PoppedOK(s);
    var t := Popped(s);
    forall q | 0 <= q < |t.pages|
      ensures FrameOK(t, who', flat, held', q)
    {
      assert FrameOK(s, who, flat, held, q);
      if q != s.fl[0] && q in s.fl {
        var i :| 0 <= i < |s.fl| && s.fl[i] == q;
        assert t.fl[i - 1] == q;
      }
    }
  }

  /** Dropping an owner other than a mapping, which may free the frame. */
  lemma CountUnref(s: Phys, who: Who, flat: Flat, held: multiset<nat>, who': Who, held': multiset<nat>, p: nat)
    requires Counts(s, who, flat, held) && p < |s.pages|
    requires SameElsewhere(who, flat, held, who', flat, held', p)
    requires Refs(who, flat, held, p) == Refs(who', flat, held', p) + 1
    requires (forall q | q in who' :: q < |s.pages|) && (forall q | q in held' :: q < |s.pages|)
    ensures LooksUsed(s.pages[p]) && p > 0 && !s.pages[p].flags.free && !s.pages[p].flags.reserved
    ensures s.pages[p].refcount == 1 ==> s.pages[p].u2 == 0
    ensures Counts(Unreffed(s, p), who', flat, held')
    ensures Refs(who', flat, held', p) > 0 ==> Unreffed(s, p).ram == s.ram
  {
    assert FrameOK(s, who, flat, held, p);
    if s.pages[p].refcount == 1 {
      PushedOK(s, p);
      var t := Pushed(s, p);
      forall q | 0 <= q < |t.pages|
        ensures FrameOK(t, who', flat, held', q)
      {
        assert FrameOK(s, who, flat, held, q);
      }
    } else {
      Recount(s, who, flat, held, who', flat, held', p, s.pages[p].(refcount := s.pages[p].refcount - 1));
    }
  }

  /** `page_share` and `page_ref` when a new entry names `w.pfn`. */
  lemma CountMap(s: Phys, who: Who, flat: Flat, held: multiset<nat>, k: Key, w: Word)
    requires Counts(s, who, flat, held) && k !in flat && w.pfn < |s.pages| && Refs(who, flat, held, w.pfn) > 0
    ensures LooksUsed(s.pages[w.pfn]) && LooksUsed(Shared(s.pages[w.pfn]))
    ensures Counts(WithPage(s, w.pfn, Shared(s.pages[w.pfn]).(refcount := s.pages[w.pfn].refcount + 1)), who, flat[k := w], held)
  {
    ShareAdd(flat, k, w);
    assert FrameOK(s, who, flat, held, w.pfn);
    Recount(s, who, flat, held, who, flat[k := w], held, w.pfn, Shared(s.pages[w.pfn]).(refcount := s.pages[w.pfn].refcount + 1));
  }

  /** `page_unshare` when an entry goes; the mapping's reference is for the moment a plain handle. */
  lemma CountUnmap(s: Phys, who: Who, flat: Flat, held: multiset<nat>, k: Key)
    requires Counts(s, who, flat, held) && k in flat
    ensures flat[k].pfn < |s.pages| && LooksUsed(s.pages[flat[k].pfn])
    ensures Counts(WithPage(s, flat[k].pfn, Unshared(s.pages[flat[k].pfn])), who, flat - {k}, held + multiset{flat[k].pfn})
  {
    var p := flat[k].pfn;
    ShareRemove(flat, k);
    assert FrameOK(s, who, flat, held, p);
    Recount(s, who, flat, held, who, flat - {k}, held + multiset{p}, p, Unshared(s.pages[p]));
  }
}
