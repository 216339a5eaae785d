/** Four-level page tables stored in physical memory, and the flat map they stand for.

    The tables of all address spaces form a forest in `ram`. `dir` names the frame of each table and `who` is its
    inverse; `flat` is the set of present leaf entries. `Tree` ties the three to the words in memory. */
module PageTree {
  import opened Machine
  import opened PhysicalMemory
  import opened Sizes

  /** A table: level 4 is the PML4 of address space `root`, level 1 holds leaf entries. `key` is the page
      number with the low 9 bits of each level below cut off. */
  datatype Node = Node(root: nat, level: nat, key: nat) {
    function Up(): Node { Node(root, level + 1, key / WORDS) }
    function Idx(): nat { key % WORDS }
    function Down(i: nat): Node
      requires level > 0
    {
      Node(root, level - 1, key * WORDS + i)
    }
    /** The page that entry `i` of a level-1 table maps. */
    function Leaf(i: nat): Key { Key(root, key * WORDS + i) }
  }

  /** A virtual page of an address space, which is named by the frame of its PML4. */
  datatype Key = Key(root: nat, vpn: nat) {
    function Table(): Node { Node(root, 1, vpn / WORDS) }
    function Idx(): nat { vpn % WORDS }
  }

  type Dir = map<Node, nat>
  type Who = map<nat, Node>
  type Flat = map<Key, Word>

  /** Pages of the lower half, and PML4 entries that map it. */
  const USER_PAGES: nat := 256 * 512 * 512 * 512
  const USER_ENTRIES: nat := 256

  lemma UpDown(n: Node, i: nat)
    requires n.level > 0 && i < WORDS
    ensures n.Down(i).Up() == n && n.Down(i).Idx() == i
  {
  }

  lemma DownUp(n: Node)
    ensures n.Up().Down(n.Idx()) == n
  {
  }

  lemma LeafTable(n: Node, i: nat)
    requires n.level == 1 && i < WORDS
    ensures n.Leaf(i).Table() == n && n.Leaf(i).Idx() == i
  {
  }

  predicate Shape(n: Node) {
    && 1 <= n.level <= 4
    && (n.level == 4 ==> n.key == 0)
    && (n.level == 3 ==> n.key < USER_ENTRIES)
  }

  predicate IsLink(w: Word, f: nat) {
    w.bits.present && w.bits.writable && !w.bits.huge && w.pfn == f
  }

  /** A table is where `dir` says, and its parent has the one link to it. */
  ghost predicate NodeOK(ram: seq<Frame>, dir: Dir, who: Who, n: Node)
    requires n in dir && RamOK(ram)
  {
    && Shape(n)
    && dir[n] < |ram| && dir[n] in who && who[dir[n]] == n
    && (n.level == 4 ==> dir[n] == n.root && ram[dir[n]][USER_ENTRIES..] == KERNEL[USER_ENTRIES..])
    && (n.level < 4 ==>
          && n.Up() in dir && dir[n.Up()] < |ram|
          && IsLink(ram[dir[n.Up()]][n.Idx()], dir[n]))
  }

  /** Whether entry `i` of `n` belongs to the lower half. */
  predicate InHalf(n: Node, i: nat) {
    i < WORDS && (n.level == 4 ==> i < USER_ENTRIES)
  }

  /** A present entry leads to a table, or is recorded in the flat map. */
  ghost predicate SlotOK(ram: seq<Frame>, dir: Dir, flat: Flat, n: Node, i: nat)
    requires n in dir && n.level > 0 && RamOK(ram) && dir[n] < |ram| && i < WORDS
  {
    var w := ram[dir[n]][i];
    w.bits.present ==>
      if n.level == 1 then n.Leaf(i) in flat && flat[n.Leaf(i)] == w
      else n.Down(i) in dir
  }

  /** A page of the flat map is an entry in memory; what it names is not a table. */
  ghost predicate LeafOK(ram: seq<Frame>, dir: Dir, who: Who, flat: Flat, k: Key)
    requires k in flat && RamOK(ram)
  {
    && k.vpn < USER_PAGES
    && k.Table() in dir && dir[k.Table()] < |ram|
    && ram[dir[k.Table()]][k.Idx()] == flat[k]
    && flat[k].bits.present && flat[k].pfn < |ram| && flat[k].pfn !in who
  }

  ghost predicate Nonempty(t: Frame)
    requires |t| == WORDS
  {
    exists i :: 0 <= i < WORDS && t[i].bits.present
  }

  /** A table below the PML4 has a present entry, unless it is excused. */
  ghost predicate Filled(ram: seq<Frame>, dir: Dir, slack: set<Node>, n: Node)
    requires n in dir && RamOK(ram) && dir[n] < |ram|
  {
    n.level < 4 && n !in slack ==> Nonempty(ram[dir[n]])
  }

  /** Memory changed at entry `i` of the table in frame `f`, and in no other table. */
  ghost predicate Touched(ram: seq<Frame>, ram': seq<Frame>, who: Who, f: nat, i: nat, w: Word)
    requires f < |ram| && RamOK(ram) && i < WORDS
  {
    && RamOK(ram') && |ram'| == |ram|
    && ram'[f] == ram[f][i := w]
    && forall g | g in who && g < |ram| && g != f :: ram'[g] == ram[g]
  }

  /** Entries whose target is already gone while a table is being rewritten or torn down. */
  type Dead = set<(Node, nat)>

  ghost predicate DeadOK(dir: Dir, flat: Flat, n: Node, i: nat) {
    && n in dir && n.level > 0 && InHalf(n, i)
    && if n.level == 1 then n.Leaf(i) !in flat else n.Down(i) !in dir
  }

  /** `slack` are the tables that may be empty for the moment, `dead` the entries that may dangle. */
  ghost predicate Tree(ram: seq<Frame>, dir: Dir, who: Who, flat: Flat, slack: set<Node>, dead: Dead) {
    && RamOK(ram)
    && (forall n {:trigger NodeOK(ram, dir, who, n)} | n in dir :: NodeOK(ram, dir, who, n))
    && (forall f | f in who :: who[f] in dir && dir[who[f]] == f)
    && (forall n, i {:trigger SlotOK(ram, dir, flat, n, i)} |
          n in dir && NodeOK(ram, dir, who, n) && 0 <= i && InHalf(n, i) && (n, i) !in dead :: SlotOK(ram, dir, flat, n, i))
    && (forall k {:trigger LeafOK(ram, dir, who, flat, k)} | k in flat :: LeafOK(ram, dir, who, flat, k))
    && (forall n {:trigger Filled(ram, dir, slack, n)} | n in dir && NodeOK(ram, dir, who, n) :: Filled(ram, dir, slack, n))
    && (forall n, i | (n, i) in dead :: DeadOK(dir, flat, n, i))
  }

  /** Linking a fresh, zeroed table into an absent entry. */
  lemma LinkTable(ram: seq<Frame>, ram': seq<Frame>, dir: Dir, who: Who, flat: Flat, slack: set<Node>, n: Node, i: nat, f: nat, w: Word)
    requires Tree(ram, dir, who, flat, slack, {})
    requires n in dir && NodeOK(ram, dir, who, n) && n.level > 1 && InHalf(n, i) && !ram[dir[n]][i].bits.present
    requires Touched(ram, ram', who, dir[n], i, w)
    requires f < |ram| && f !in who && ram'[f] == ZeroFrame() && IsLink(w, f) && forall k | k in flat :: flat[k].pfn != f
    ensures n.Down(i) !in dir
    ensures Tree(ram', dir[n.Down(i) := f], who[f := n.Down(i)], flat, slack - {n} + {n.Down(i)}, {})
  {
    var c := n.Down(i);
    UpDown(n, i);
    assert c in dir ==> NodeOK(ram, dir, who, c);
    var dir', who' := dir[c := f], who[f := c];
    forall a | a in dir'
      ensures NodeOK(ram', dir', who', a)
    {
      if a != c {
        assert NodeOK(ram, dir, who, a);
        if a.level < 4 {
          assert NodeOK(ram, dir, who, a.Up());
          DownUp(a);
        }
      }
    }
    forall a, j | a in dir' && NodeOK(ram', dir', who', a) && 0 <= j && InHalf(a, j)
      ensures SlotOK(ram', dir', flat, a, j)
    {
      if a != c && (a, j) != (n, i) {
        assert NodeOK(ram, dir, who, a) && SlotOK(ram, dir, flat, a, j);
      }
    }
    forall k | k in flat
      ensures LeafOK(ram', dir', who', flat, k)
    {
      assert LeafOK(ram, dir, who, flat, k) && NodeOK(ram, dir, who, k.Table());
    }
    forall a | a in dir' && NodeOK(ram', dir', who', a)
      ensures Filled(ram', dir', slack - {n} + {c}, a)
    {
      if a == n {
        assert ram'[dir[n]][i].bits.present;
      } else if a != c {
        assert NodeOK(ram, dir, who, a) && Filled(ram, dir, slack, a);
      }
    }
  }

  /** Writing a leaf entry over an absent or dangling one. */
  lemma WriteLeaf(ram: seq<Frame>, ram': seq<Frame>, dir: Dir, who: Who, flat: Flat, slack: set<Node>, dead: Dead, k: Key, w: Word)
    requires Tree(ram, dir, who, flat, slack, dead) && k !in flat && k.vpn < USER_PAGES
    requires k.Table() in dir && NodeOK(ram, dir, who, k.Table())
    requires Touched(ram, ram', who, dir[k.Table()], k.Idx(), w)
    requires w.bits.present && w.pfn < |ram| && w.pfn !in who
    ensures Tree(ram', dir, who, flat[k := w], slack - {k.Table()}, dead - {(k.Table(), k.Idx())})
  {
    var n, i := k.Table(), k.Idx();
    var flat' := flat[k := w];
    var dead' := dead - {(n, i)};
    WriteKeepsNodes(ram, ram', dir, who, flat, slack, dead, n, i, w);
    forall a, j | a in dir && NodeOK(ram', dir, who, a) && 0 <= j && InHalf(a, j) && (a, j) !in dead'
      ensures SlotOK(ram', dir, flat', a, j)
    {
      WriteLeafSlot(ram, ram', dir, who, flat, slack, dead, k, w, a, j);
    }
    forall h | h in flat'
      ensures LeafOK(ram', dir, who, flat', h)
    {
      if h != k {
        assert LeafOK(ram, dir, who, flat, h) && NodeOK(ram, dir, who, h.Table());
      }
    }
    forall a | a in dir && NodeOK(ram', dir, who, a)
      ensures Filled(ram', dir, slack - {n}, a)
    {
      if a == n {
        assert ram'[dir[n]][i].bits.present;
      } else {
        assert NodeOK(ram, dir, who, a) && Filled(ram, dir, slack, a);
      }
    }
    forall a, j | (a, j) in dead'
      ensures DeadOK(dir, flat', a, j)
    {
      assert (a, j) in dead && DeadOK(dir, flat, a, j);
      if a.level == 1 {
        LeafTable(a, j);
      }
    }
  }

  lemma WriteLeafSlot(ram: seq<Frame>, ram': seq<Frame>, dir: Dir, who: Who, flat: Flat, slack: set<Node>, dead: Dead, k: Key, w: Word,
                      a: Node, j: nat)
    requires Tree(ram, dir, who, flat, slack, dead) && k !in flat && k.vpn < USER_PAGES
    requires k.Table() in dir && NodeOK(ram, dir, who, k.Table())
    requires Touched(ram, ram', who, dir[k.Table()], k.Idx(), w)
    requires w.bits.present && w.pfn < |ram| && w.pfn !in who
    requires a in dir && NodeOK(ram', dir, who, a) && InHalf(a, j) && (a, j) !in dead - {(k.Table(), k.Idx())}
    ensures SlotOK(ram', dir, flat[k := w], a, j)
  {
    assert NodeOK(ram, dir, who, a);
    if (a, j) != (k.Table(), k.Idx()) {
      assert SlotOK(ram, dir, flat, a, j);
      if a.level == 1 {
        LeafTable(a, j);
      }
    }
  }

  /** Writing an entry that links to no table moves no table. */
  lemma WriteKeepsNodes(ram: seq<Frame>, ram': seq<Frame>, dir: Dir, who: Who, flat: Flat, slack: set<Node>, dead: Dead,
                        n: Node, i: nat, w: Word)
    requires Tree(ram, dir, who, flat, slack, dead)
    requires n in dir && NodeOK(ram, dir, who, n) && InHalf(n, i) && (n.level == 1 || n.Down(i) !in dir)
    requires Touched(ram, ram', who, dir[n], i, w)
    ensures forall a | a in dir :: NodeOK(ram', dir, who, a)
  {
    forall a | a in dir
      ensures NodeOK(ram', dir, who, a)
    {
      assert NodeOK(ram, dir, who, a);
      if a.level < 4 {
        assert NodeOK(ram, dir, who, a.Up());
        DownUp(a);
      }
    }
  }

  /** The tree only depends on the frames that are tables. */
  lemma KeptTables(ram: seq<Frame>, ram': seq<Frame>, dir: Dir, who: Who, flat: Flat, slack: set<Node>, dead: Dead)
    requires Tree(ram, dir, who, flat, slack, dead)
    requires RamOK(ram') && |ram'| == |ram| && forall f | f in who && f < |ram| :: ram'[f] == ram[f]
    ensures Tree(ram', dir, who, flat, slack, dead)
  {
    forall a | a in dir
      ensures NodeOK(ram', dir, who, a)
    {
      assert NodeOK(ram, dir, who, a);
      if a.level < 4 {
        assert NodeOK(ram, dir, who, a.Up());
      }
    }
    forall a, j | a in dir && NodeOK(ram', dir, who, a) && 0 <= j && InHalf(a, j) && (a, j) !in dead
      ensures SlotOK(ram', dir, flat, a, j)
    {
      assert NodeOK(ram, dir, who, a) && SlotOK(ram, dir, flat, a, j);
    }
    forall h | h in flat
      ensures LeafOK(ram', dir, who, flat, h)
    {
      assert LeafOK(ram, dir, who, flat, h) && NodeOK(ram, dir, who, h.Table());
    }
    forall a | a in dir && NodeOK(ram', dir, who, a)
      ensures Filled(ram', dir, slack, a)
    {
      assert NodeOK(ram, dir, who, a) && Filled(ram, dir, slack, a);
    }
  }

  /** Forgetting a leaf whose entry is still in memory. */
  lemma ForgetLeaf(ram: seq<Frame>, dir: Dir, who: Who, flat: Flat, slack: set<Node>, dead: Dead, k: Key)
    requires Tree(ram, dir, who, flat, slack, dead) && k in flat
    ensures Tree(ram, dir, who, flat - {k}, slack, dead + {(k.Table(), k.Idx())})
  {
    var n, i := k.Table(), k.Idx();
    var flat', dead' := flat - {k}, dead + {(n, i)};
    assert LeafOK(ram, dir, who, flat, k);
    forall a, j | a in dir && NodeOK(ram, dir, who, a) && 0 <= j && InHalf(a, j) && (a, j) !in dead'
      ensures SlotOK(ram, dir, flat', a, j)
    {
      assert SlotOK(ram, dir, flat, a, j);
      if a.level == 1 {
        LeafTable(a, j);
      }
    }
    forall h | h in flat'
      ensures LeafOK(ram, dir, who, flat', h)
    {
      assert LeafOK(ram, dir, who, flat, h);
    }
    forall a, j | (a, j) in dead'
      ensures DeadOK(dir, flat', a, j)
    {
      if (a, j) != (n, i) {
        assert DeadOK(dir, flat, a, j);
      }
    }
  }

  /** Zeroing a dangling entry; its table may have become empty. */
  lemma ZeroDead(ram: seq<Frame>, ram': seq<Frame>, dir: Dir, who: Who, flat: Flat, slack: set<Node>, dead: Dead, n: Node, i: nat)
    requires Tree(ram, dir, who, flat, slack, dead) && (n, i) in dead
    requires n in dir && NodeOK(ram, dir, who, n) && i < WORDS
    requires Touched(ram, ram', who, dir[n], i, ZERO)
    ensures Tree(ram', dir, who, flat, slack + {n}, dead - {(n, i)})
  {
    var dead' := dead - {(n, i)};
    assert DeadOK(dir, flat, n, i);
    WriteKeepsNodes(ram, ram', dir, who, flat, slack, dead, n, i, ZERO);
    forall a, j | a in dir && NodeOK(ram', dir, who, a) && 0 <= j && InHalf(a, j) && (a, j) !in dead'
      ensures SlotOK(ram', dir, flat, a, j)
    {
      assert NodeOK(ram, dir, who, a);
      if (a, j) != (n, i) {
        assert SlotOK(ram, dir, flat, a, j);
      }
    }
    forall h | h in flat
      ensures LeafOK(ram', dir, who, flat, h)
    {
      assert LeafOK(ram, dir, who, flat, h) && NodeOK(ram, dir, who, h.Table());
    }
    forall a | a in dir && NodeOK(ram', dir, who, a)
      ensures Filled(ram', dir, slack + {n}, a)
    {
      assert NodeOK(ram, dir, who, a) && Filled(ram, dir, slack, a);
    }
    forall a, j | (a, j) in dead'
      ensures DeadOK(dir, flat, a, j)
    {
      assert (a, j) in dead;
    }
  }

  /** The entry of the parent that links to `c`, as a set; the PML4 has none. */
  function ParentSlot(c: Node): Dead {
    if c.level < 4 then {(c.Up(), c.Idx())} else {}
  }

  /** No entry of `c` is alive. */
  ghost predicate Barren(ram: seq<Frame>, dir: Dir, dead: Dead, c: Node)
    requires c in dir && RamOK(ram) && dir[c] < |ram|
  {
    forall i {:trigger ram[dir[c]][i]} | 0 <= i && InHalf(c, i) && ram[dir[c]][i].bits.present :: (c, i) in dead
  }

  /** A table none of whose entries is alive has no tables and no leaves below it. */
  lemma BarrenHasNothing(ram: seq<Frame>, dir: Dir, who: Who, flat: Flat, slack: set<Node>, dead: Dead, c: Node)
    requires Tree(ram, dir, who, flat, slack, dead)
    requires c in dir && NodeOK(ram, dir, who, c) && Barren(ram, dir, dead, c)
    ensures forall a | a in dir && a.level < 4 :: a.Up() != c
    ensures forall k | k in flat :: k.Table() != c
  {
    forall a | a in dir && a.level < 4
      ensures a.Up() != c
    {
      assert NodeOK(ram, dir, who, a);
      DownUp(a);
      assert DeadOK(dir, flat, c, a.Idx()) ==> a.Up() != c;
      assert a.Up() == c ==> InHalf(c, a.Idx());
    }
    forall k | k in flat
      ensures k.Table() != c
    {
      assert LeafOK(ram, dir, who, flat, k);
      assert DeadOK(dir, flat, c, k.Idx()) ==> k.Table() != c;
    }
  }

  /** The dangling entries once `c` is gone: none of its own, but the one in its parent. */
  ghost function DeadAfter(dead: Dead, c: Node): Dead {
    (set s | s in dead && s.0 != c) + ParentSlot(c)
  }

  lemma ForgetTable(ram: seq<Frame>, dir: Dir, who: Who, flat: Flat, slack: set<Node>, dead: Dead, c: Node)
    requires Tree(ram, dir, who, flat, slack, dead)
    requires c in dir && NodeOK(ram, dir, who, c) && Barren(ram, dir, dead, c)
    ensures Tree(ram, dir - {c}, who - {dir[c]}, flat, slack, DeadAfter(dead, c))
  {
    var dir', who', dead' := dir - {c}, who - {dir[c]}, DeadAfter(dead, c);
    BarrenHasNothing(ram, dir, who, flat, slack, dead, c);
    DownUp(c);
    forall a | a in dir'
      ensures NodeOK(ram, dir', who', a)
    {
      assert NodeOK(ram, dir, who, a);
    }
    forall a, j | a in dir' && NodeOK(ram, dir', who', a) && 0 <= j && InHalf(a, j) && (a, j) !in dead'
      ensures SlotOK(ram, dir', flat, a, j)
    {
      assert NodeOK(ram, dir, who, a) && (a, j) !in dead && SlotOK(ram, dir, flat, a, j);
      UpDown(a, j);
    }
    forall h | h in flat
      ensures LeafOK(ram, dir', who', flat, h)
    {
      assert LeafOK(ram, dir, who, flat, h) && NodeOK(ram, dir, who, h.Table());
    }
    forall a | a in dir' && NodeOK(ram, dir', who', a)
      ensures Filled(ram, dir', slack, a)
    {
      assert NodeOK(ram, dir, who, a) && Filled(ram, dir, slack, a);
    }
    DeadAfterOK(ram, dir, who, flat, dead, c);
  }

  lemma DeadAfterOK(ram: seq<Frame>, dir: Dir, who: Who, flat: Flat, dead: Dead, c: Node)
    requires RamOK(ram) && c in dir && NodeOK(ram, dir, who, c)
    requires forall n, i | (n, i) in dead :: DeadOK(dir, flat, n, i)
    ensures forall n, i | (n, i) in DeadAfter(dead, c) :: DeadOK(dir - {c}, flat, n, i)
  {
    DownUp(c);
    forall a, j | (a, j) in DeadAfter(dead, c)
      ensures DeadOK(dir - {c}, flat, a, j)
    {
      if (a, j) in dead {
        assert DeadOK(dir, flat, a, j);
      }
    }
  }

  /** Freeing a table none of whose entries is alive; its own frame may be scrubbed. */
  lemma DropTable(ram: seq<Frame>, ram': seq<Frame>, dir: Dir, who: Who, flat: Flat, slack: set<Node>, dead: Dead, c: Node)
    requires Tree(ram, dir, who, flat, slack, dead)
    requires c in dir && NodeOK(ram, dir, who, c) && Barren(ram, dir, dead, c)
    requires RamOK(ram') && |ram'| == |ram| && forall f | f in who && f < |ram| && f != dir[c] :: ram'[f] == ram[f]
    ensures Tree(ram', dir - {c}, who - {dir[c]}, flat, slack, DeadAfter(dead, c))
  {
    ForgetTable(ram, dir, who, flat, slack, dead, c);
    KeptTables(ram, ram', dir - {c}, who - {dir[c]}, flat, slack, DeadAfter(dead, c));
  }

  /** A new PML4 whose lower half is empty. */
  lemma PlantRoot(ram: seq<Frame>, dir: Dir, who: Who, flat: Flat, r: nat, t: Frame)
    requires Tree(ram, dir, who, flat, {}, {})
    requires r < |ram| && r !in who && forall k | k in flat :: flat[k].pfn != r
    requires |t| == WORDS && (forall i | 0 <= i < USER_ENTRIES :: !t[i].bits.present) && t[USER_ENTRIES..] == KERNEL[USER_ENTRIES..]
    ensures Node(r, 4, 0) !in dir
    ensures Tree(ram[r := t], dir[Node(r, 4, 0) := r], who[r := Node(r, 4, 0)], flat, {}, {})
  {
    var n := Node(r, 4, 0);
    assert n in dir ==> NodeOK(ram, dir, who, n);
    var ram', dir', who' := ram[r := t], dir[n := r], who[r := n];
    forall a | a in dir'
      ensures NodeOK(ram', dir', who', a)
    {
      if a != n {
        assert NodeOK(ram, dir, who, a);
        if a.level < 4 {
          assert NodeOK(ram, dir, who, a.Up());
        }
      }
    }
    forall a, j | a in dir' && NodeOK(ram', dir', who', a) && 0 <= j && InHalf(a, j)
      ensures SlotOK(ram', dir', flat, a, j)
    {
      if a != n {
        assert NodeOK(ram, dir, who, a) && SlotOK(ram, dir, flat, a, j);
      }
    }
    forall h | h in flat
      ensures LeafOK(ram', dir', who', flat, h)
    {
      assert LeafOK(ram, dir, who, flat, h) && NodeOK(ram, dir, who, h.Table());
    }
    forall a | a in dir' && NodeOK(ram', dir', who', a)
      ensures Filled(ram', dir', {}, a)
    {
      if a != n {
        assert NodeOK(ram, dir, who, a) && Filled(ram, dir, {}, a);
      }
    }
  }

  /** A table needs no excuse when it has a present entry, is gone, or is a PML4. */
  lemma ChangeSlack(ram: seq<Frame>, dir: Dir, who: Who, flat: Flat, slack: set<Node>, slack': set<Node>, dead: Dead)
    requires Tree(ram, dir, who, flat, slack, dead)
    requires forall a | a in slack && a !in slack' && a in dir && NodeOK(ram, dir, who, a) && a.level < 4 :: Nonempty(ram[dir[a]])
    ensures Tree(ram, dir, who, flat, slack', dead)
  {
    forall a | a in dir && NodeOK(ram, dir, who, a)
      ensures Filled(ram, dir, slack', a)
    {
      assert Filled(ram, dir, slack, a);
    }
  }

  // The hardware's view of an address: what a walk over the words in memory finds, without knowing `dir`.

  /** `_pml1_idx` to `_pml4_idx` */
  function PmlIdx(va: nat, level: nat): (i: nat)
    requires 1 <= level <= 4
    ensures i < WORDS
  {
    match level
    case 1 => va / 0x1000 % WORDS
    case 2 => va / 0x20_0000 % WORDS
    case 3 => va / 0x4000_0000 % WORDS
    case _ => va / 0x80_0000_0000 % WORDS
  }

  /** The four indices are the digits, to the base of 512, of the page number of a 48-bit address. */
  lemma IndicesAreDigits(va: nat)
    requires va < 0x1_0000_0000_0000
    ensures va / PAGE_SIZE == ((PmlIdx(va, 4) * WORDS + PmlIdx(va, 3)) * WORDS + PmlIdx(va, 2)) * WORDS + PmlIdx(va, 1)
  {
    var p1, p2, p3, p4 := va / 0x1000, va / 0x20_0000, va / 0x4000_0000, va / 0x80_0000_0000;
    assert p2 == p1 / WORDS && p3 == p2 / WORDS && p4 == p3 / WORDS && p4 < WORDS;
    assert PmlIdx(va, 4) == p4 && p3 == p4 * WORDS + PmlIdx(va, 3);
    assert p2 == p3 * WORDS + PmlIdx(va, 2) && p1 == p2 * WORDS + PmlIdx(va, 1);
  }

  datatype Found = Absent | Entry(word: Word)

  /** `_leaf_entry` without creation, from a table at `level` down to a present leaf entry. */
  function Walk(ram: seq<Frame>, tbl: nat, level: nat, va: nat): Found
    requires RamOK(ram) && 1 <= level <= 4
    decreases level
  {
    if tbl >= |ram| then Absent
    else
      var w := ram[tbl][PmlIdx(va, level)];
      if !w.bits.present then Absent
      else if level == 1 then Entry(w)
      else Walk(ram, w.pfn, level - 1, va)
  }

  /** The table at `level` on the path of page `vpn`. */
  function PathNode(root: nat, vpn: nat, level: nat): Node
    requires 1 <= level <= 4
  {
    match level
    case 1 => Key(root, vpn).Table()
    case 2 => Key(root, vpn).Table().Up()
    case 3 => Key(root, vpn).Table().Up().Up()
    case _ => Node(root, 4, 0)
  }

  lemma PathStep(root: nat, va: nat, level: nat)
    requires 1 <= level <= 4 && va / PAGE_SIZE < USER_PAGES
    ensures InHalf(PathNode(root, va / PAGE_SIZE, level), PmlIdx(va, level))
    ensures level == 1 ==> PathNode(root, va / PAGE_SIZE, level).Leaf(PmlIdx(va, level)) == Key(root, va / PAGE_SIZE)
    ensures level == 1 ==> PmlIdx(va, level) == Key(root, va / PAGE_SIZE).Idx()
    ensures level > 1 ==> PathNode(root, va / PAGE_SIZE, level).Down(PmlIdx(va, level)) == PathNode(root, va / PAGE_SIZE, level - 1)
  {
    var vpn := va / PAGE_SIZE;
    assert va / 0x20_0000 == vpn / WORDS;
    assert va / 0x4000_0000 == vpn / WORDS / WORDS;
    assert va / 0x80_0000_0000 == vpn / WORDS / WORDS / WORDS < USER_ENTRIES;
  }

  /** The four-level walk refines the flat map: it finds exactly the entry recorded for the page. */
  lemma {:induction false} WalkFindsFlat(ram: seq<Frame>, dir: Dir, who: Who, flat: Flat, slack: set<Node>, root: nat, va: nat, level: nat)
    requires Tree(ram, dir, who, flat, slack, {}) && 1 <= level <= 4 && va / PAGE_SIZE < USER_PAGES
    requires PathNode(root, va / PAGE_SIZE, level) in dir
    ensures Walk(ram, dir[PathNode(root, va / PAGE_SIZE, level)], level, va) ==
            if Key(root, va / PAGE_SIZE) in flat then Entry(flat[Key(root, va / PAGE_SIZE)]) else Absent
  {
    var k, n, i := Key(root, va / PAGE_SIZE), PathNode(root, va / PAGE_SIZE, level), PmlIdx(va, level);
    PathStep(root, va, level);
    assert NodeOK(ram, dir, who, n) && SlotOK(ram, dir, flat, n, i);
    assert k in flat ==> LeafOK(ram, dir, who, flat, k);
    if level > 1 {
      var c := PathNode(root, va / PAGE_SIZE, level - 1);
      UpDown(n, i);
      if c in dir {
        assert NodeOK(ram, dir, who, c);
        WalkFindsFlat(ram, dir, who, flat, slack, root, va, level - 1);
      } else if k in flat {
        MappedHasPath(ram, dir, who, flat, slack, {}, k, level - 1);
      }
    }
  }

  /** A mapped page has every table on its path. */
  lemma MappedHasPath(ram: seq<Frame>, dir: Dir, who: Who, flat: Flat, slack: set<Node>, dead: Dead, k: Key, level: nat)
    requires Tree(ram, dir, who, flat, slack, dead) && 1 <= level <= 4 && k in flat
    ensures PathNode(k.root, k.vpn, level) in dir
  {
    assert LeafOK(ram, dir, who, flat, k) && NodeOK(ram, dir, who, k.Table());
    assert NodeOK(ram, dir, who, k.Table().Up());
    assert NodeOK(ram, dir, who, k.Table().Up().Up());
  }
}
