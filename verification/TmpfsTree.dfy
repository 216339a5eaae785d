/** The directory trees of tmpfs: child lists, parent pointers and link counts under create, remove and rename. */
module TmpfsTree {
  import opened Bytes
  import opened Lists

  type Name = seq<byte>

  const VFS_NAME_MAX: nat := 255

  datatype Node = Node(dir: bool, parent: nat, children: seq<nat>, name: Name, nlink: nat)

  /** The nodes that are part of some tree. A root is its own parent. */
  type Tree = map<nat, Node>

  datatype Opt = None | Some(id: nat)

  /** How many of `kids` are directories. */
  function Dirs(t: Tree, kids: seq<nat>): (n: nat)
    ensures n <= |kids|
  {
    if kids == [] then 0 else (if kids[0] in t && t[kids[0]].dir then 1 else 0) + Dirs(t, kids[1..])
  }

  /** The first of `kids` with the name. */
  function FindIn(t: Tree, kids: seq<nat>, n: Name): Opt {
    if kids == [] then None else if kids[0] in t && t[kids[0]].name == n then Some(kids[0]) else FindIn(t, kids[1..], n)
  }

  /** What a directory binds a name to. */
  function Entry(t: Tree, d: nat, n: Name): Opt {
    if d in t then FindIn(t, t[d].children, n) else None
  }

  // The invariant

  /** `rank` falls on the way up, so every walk to the root ends. */
  ghost predicate UpOK(t: Tree, rank: map<nat, nat>, x: nat)
    requires x in t
  {
    && x in rank && t[x].parent in t && t[t[x].parent].dir
    && (t[x].parent != x ==> x in t[t[x].parent].children && t[x].parent in rank && rank[t[x].parent] < rank[x])
  }

  ghost predicate KidsOK(t: Tree, x: nat)
    requires x in t
  {
    && Distinct(t[x].children) && (!t[x].dir ==> t[x].children == [])
    && forall c | c in t[x].children :: c in t && t[c].parent == x && c != x
  }

  ghost predicate NamesOK(t: Tree, kids: seq<nat>) {
    forall c, d | c in kids && d in kids && c != d :: c in t && d in t && t[c].name != t[d].name
  }

  ghost predicate LinkOK(t: Tree, x: nat)
    requires x in t
  {
    t[x].nlink == if t[x].dir then 2 + Dirs(t, t[x].children) else 1
  }

  ghost predicate NodeOK(t: Tree, rank: map<nat, nat>, x: nat)
    requires x in t
  {
    UpOK(t, rank, x) && KidsOK(t, x) && NamesOK(t, t[x].children) && LinkOK(t, x)
  }

  ghost predicate Good(t: Tree, rank: map<nat, nat>) {
    forall x {:trigger NodeOK(t, rank, x)} | x in t :: NodeOK(t, rank, x)
  }

  lemma {:induction false} FindInOK(t: Tree, kids: seq<nat>, n: Name)
    ensures FindIn(t, kids, n).Some? ==> FindIn(t, kids, n).id in kids && FindIn(t, kids, n).id in t && t[FindIn(t, kids, n).id].name == n
    ensures FindIn(t, kids, n).None? ==> forall c | c in kids && c in t :: t[c].name != n
  {
    if kids != [] {
      FindInOK(t, kids[1..], n);
    }
  }

  /** Names are unique, so an entry is a child with that name. */
  lemma EntryIff(t: Tree, rank: map<nat, nat>, d: nat, n: Name, c: nat)
    requires Good(t, rank) && d in t
    ensures Entry(t, d, n) == Some(c) <==> c in t[d].children && c in t && t[c].name == n
  {
    assert NodeOK(t, rank, d);
    FindInOK(t, t[d].children, n);
  }

  lemma {:induction false} DirsSame(t: Tree, t': Tree, kids: seq<nat>)
    requires forall c | c in kids :: c in t && c in t' && t'[c].dir == t[c].dir
    ensures Dirs(t', kids) == Dirs(t, kids)
  {
    if kids != [] {
      DirsSame(t, t', kids[1..]);
    }
  }

  lemma {:induction false} DirsWithout(t: Tree, kids: seq<nat>, c: nat)
    requires Distinct(kids)
    ensures Dirs(t, Without(kids, c)) == Dirs(t, kids) - (if c in kids && c in t && t[c].dir then 1 else 0)
  {
    if kids != [] {
      DirsWithout(t, kids[1..], c);
      assert kids[0] !in kids[1..];
    }
  }

  // Adding and removing

  /** `_insert_child`, of a node that is in no list. */
  function Inserted(t: Tree, d: nat, c: nat): Tree
    requires d in t && c in t && d != c
  {
    t[c := t[c].(parent := d)][d := t[d].(children := [c] + t[d].children, nlink := t[d].nlink + (if t[c].dir then 1 else 0))]
  }

  /** `_unlink_child` as the parent sees it. */
  function Dropped(t: Tree, d: nat, c: nat): Tree
    requires d in t && c in t
  {
    t[d := t[d].(children := Without(t[d].children, c), nlink := if t[c].dir && t[d].nlink > 0 then t[d].nlink - 1 else t[d].nlink)]
  }

  function Created(t: Tree, d: nat, c: nat, n: Name, dir: bool): Tree
    requires d in t && c !in t
  {
    Inserted(t[c := Node(dir, d, [], n, if dir then 2 else 1)], d, c)
  }

  function Removed(t: Tree, d: nat, c: nat): Tree
    requires d in t && c in t
  {
    Dropped(t, d, c) - {c}
  }

  lemma CreatedGood(t: Tree, rank: map<nat, nat>, d: nat, c: nat, n: Name, dir: bool)
    requires Good(t, rank) && d in t && t[d].dir && c !in t && Entry(t, d, n).None? && d in rank
    ensures Good(Created(t, d, c, n, dir), rank[c := rank[d] + 1])
  {
    var t' := Created(t, d, c, n, dir);
    forall x | x in t'
      ensures NodeOK(t', rank[c := rank[d] + 1], x)
    {
      CreatedUp(t, rank, d, c, n, dir, x);
      CreatedKids(t, rank, d, c, n, dir, x);
    }
  }

  lemma CreatedUp(t: Tree, rank: map<nat, nat>, d: nat, c: nat, n: Name, dir: bool, x: nat)
    requires Good(t, rank) && d in t && t[d].dir && c !in t && x in Created(t, d, c, n, dir) && d in rank
    ensures UpOK(Created(t, d, c, n, dir), rank[c := rank[d] + 1], x) && KidsOK(Created(t, d, c, n, dir), x)
  {
    hide NamesOK, LinkOK;
    assert NodeOK(t, rank, d);
    assert x in t ==> NodeOK(t, rank, x);
    assert c !in t[d].children;
  }

  lemma CreatedKids(t: Tree, rank: map<nat, nat>, d: nat, c: nat, n: Name, dir: bool, x: nat)
    requires Good(t, rank) && d in t && t[d].dir && c !in t && Entry(t, d, n).None? && x in Created(t, d, c, n, dir)
    ensures NamesOK(Created(t, d, c, n, dir), Created(t, d, c, n, dir)[x].children) && LinkOK(Created(t, d, c, n, dir), x)
  {
    hide UpOK;
    var t' := Created(t, d, c, n, dir);
    assert NodeOK(t, rank, d);
    FindInOK(t, t[d].children, n);
    if x in t {
      assert NodeOK(t, rank, x);
      DirsSame(t, t', t[x].children);
    }
  }

  /** Exactly the new entry is added. */
  lemma CreatedEntries(t: Tree, rank: map<nat, nat>, d: nat, c: nat, n: Name, dir: bool, e: nat, m: Name)
    requires Good(t, rank) && d in t && c !in t && e in t
    ensures Entry(Created(t, d, c, n, dir), e, m) == if e == d && m == n then Some(c) else Entry(t, e, m)
  {
    assert NodeOK(t, rank, e);
    FindSame(t, Created(t, d, c, n, dir), t[e].children, m);
  }

  lemma {:induction false} FindSame(t: Tree, t': Tree, kids: seq<nat>, n: Name)
    requires forall c | c in kids :: c in t && c in t' && t'[c].name == t[c].name
    ensures FindIn(t', kids, n) == FindIn(t, kids, n)
  {
    if kids != [] {
      FindSame(t, t', kids[1..], n);
    }
  }

  /** Taking out a leaf. */
  lemma RemovedGood(t: Tree, rank: map<nat, nat>, d: nat, c: nat)
    requires Good(t, rank) && d in t && c in t[d].children && c in t && t[c].children == []
    ensures Good(Removed(t, d, c), rank)
  {
    var t' := Removed(t, d, c);
    forall x | x in t'
      ensures NodeOK(t', rank, x)
    {
      RemovedUp(t, rank, d, c, x);
      RemovedKids(t, rank, d, c, x);
    }
  }

  lemma RemovedUp(t: Tree, rank: map<nat, nat>, d: nat, c: nat, x: nat)
    requires Good(t, rank) && d in t && c in t && c in t[d].children && t[c].children == [] && x in Removed(t, d, c)
    ensures UpOK(Removed(t, d, c), rank, x) && KidsOK(Removed(t, d, c), x)
  {
    hide NamesOK, LinkOK;
    assert NodeOK(t, rank, d) && NodeOK(t, rank, c) && NodeOK(t, rank, x);
    WithoutDistinct(t[d].children, c);
  }

  lemma RemovedKids(t: Tree, rank: map<nat, nat>, d: nat, c: nat, x: nat)
    requires Good(t, rank) && d in t && c in t && c in t[d].children && t[c].children == [] && x in Removed(t, d, c)
    ensures NamesOK(Removed(t, d, c), Removed(t, d, c)[x].children) && LinkOK(Removed(t, d, c), x)
  {
    RemovedNames(t, rank, d, c, x);
    hide UpOK, NamesOK;
    var t' := Removed(t, d, c);
    assert NodeOK(t, rank, d) && NodeOK(t, rank, x);
    DirsWithout(t, t[d].children, c);
    DirsSame(t, t', t'[x].children);
  }

  lemma RemovedNames(t: Tree, rank: map<nat, nat>, d: nat, c: nat, x: nat)
    requires Good(t, rank) && d in t && c in t && c in t[d].children && t[c].children == [] && x in Removed(t, d, c)
    ensures NamesOK(Removed(t, d, c), Removed(t, d, c)[x].children)
  {
    hide UpOK, LinkOK, NamesOK;
    var t' := Removed(t, d, c);
    assert NodeOK(t, rank, d) && NodeOK(t, rank, x);
    assert x != d ==> c !in t[x].children;
    NamesSubset(t, t', t[x].children, t'[x].children);
  }

  /** Exactly the one entry is gone. */
  lemma RemovedEntries(t: Tree, rank: map<nat, nat>, d: nat, c: nat, e: nat, m: Name)
    requires Good(t, rank) && d in t && c in t && c in t[d].children && e in t && e != c
    ensures Entry(Removed(t, d, c), e, m) == if e == d && m == t[c].name then None else Entry(t, e, m)
  {
    var t' := Removed(t, d, c);
    assert NodeOK(t, rank, e) && NodeOK(t, rank, d);
    if e == d {
      FindInOK(t, t[d].children, m);
      FindInOK(t', Without(t[d].children, c), m);
    } else {
      assert c !in t[e].children;
      FindSame(t, t', t[e].children, m);
    }
  }

  // Moving a subtree

  /** `x` is `c` or below it. */
  ghost predicate Under(t: Tree, rank: map<nat, nat>, x: nat, c: nat)
    requires Good(t, rank) && x in t
    decreases if x in rank then rank[x] else 0
  {
    x == c || (assert NodeOK(t, rank, x); t[x].parent != x && Under(t, rank, t[x].parent, c))
  }

  /** The end of `tmpfs_rename`. */
  function Moved(t: Tree, od: nat, c: nat, nd: nat, n: Name): Tree
    requires od in t && c in t && nd in t && c != nd && c != od
  {
    var t1 := Dropped(t, od, c);
    Inserted(t1[c := t1[c].(name := n)], nd, c)
  }

  ghost function MovedRank(t: Tree, rank: map<nat, nat>, c: nat, nd: nat): map<nat, nat>
    requires Good(t, rank) && nd in rank
  {
    map x | x in rank :: if x in t && Under(t, rank, x, c) then rank[x] + rank[nd] + 1 else rank[x]
  }

  ghost predicate CanMove(t: Tree, rank: map<nat, nat>, od: nat, c: nat, nd: nat, n: Name) {
    && Good(t, rank) && od in t && c in t && nd in t && c in t[od].children && c != nd && c != od && t[nd].dir && nd in rank
    && !Under(t, rank, nd, c) && forall k | k in t[nd].children && k in t && k != c :: t[k].name != n
  }

  lemma MovedShape(t: Tree, od: nat, c: nat, nd: nat, n: Name, x: nat)
    requires od in t && c in t && nd in t && c != nd && c != od && x in t
    ensures var t' := Moved(t, od, c, nd, n);
            && x in t' && t'[x].dir == t[x].dir && t'[x].parent == (if x == c then nd else t[x].parent)
            && t'[x].name == (if x == c then n else t[x].name)
            && t'[x].children == (if x == nd then [c] else []) + (if x == od then Without(t[x].children, c) else t[x].children)
  {
  }

  lemma MovedUp(t: Tree, rank: map<nat, nat>, od: nat, c: nat, nd: nat, n: Name, x: nat)
    requires CanMove(t, rank, od, c, nd, n) && x in t
    ensures UpOK(Moved(t, od, c, nd, n), MovedRank(t, rank, c, nd), x)
  {
    hide NamesOK, LinkOK, KidsOK, Moved;
    assert NodeOK(t, rank, x) && NodeOK(t, rank, nd);
    var p := if x == c then nd else t[x].parent;
    assert NodeOK(t, rank, p);
    MovedShape(t, od, c, nd, n, x);
    MovedShape(t, od, c, nd, n, p);
  }

  lemma MovedKids(t: Tree, rank: map<nat, nat>, od: nat, c: nat, nd: nat, n: Name, x: nat)
    requires CanMove(t, rank, od, c, nd, n) && x in t
    ensures KidsOK(Moved(t, od, c, nd, n), x)
  {
    hide NamesOK, LinkOK, UpOK;
    assert NodeOK(t, rank, od) && NodeOK(t, rank, nd) && NodeOK(t, rank, c) && NodeOK(t, rank, x);
    WithoutDistinct(t[od].children, c);
    assert x != od ==> c !in t[x].children;
  }

  lemma NamesSubset(t: Tree, t': Tree, kids: seq<nat>, kids': seq<nat>)
    requires NamesOK(t, kids) && forall k | k in kids' :: k in kids && k in t && k in t' && t'[k].name == t[k].name
    ensures NamesOK(t', kids')
  {
  }

  lemma NamesCons(t: Tree, c: nat, kids: seq<nat>)
    requires NamesOK(t, kids) && c in t && forall k | k in kids :: k in t && t[k].name != t[c].name
    ensures NamesOK(t, [c] + kids)
  {
  }

  lemma MovedNames(t: Tree, rank: map<nat, nat>, od: nat, c: nat, nd: nat, n: Name, x: nat)
    requires CanMove(t, rank, od, c, nd, n) && x in t
    ensures NamesOK(Moved(t, od, c, nd, n), Moved(t, od, c, nd, n)[x].children)
  {
    hide LinkOK, UpOK, NamesOK, Moved, Under;
    var t' := Moved(t, od, c, nd, n);
    assert NodeOK(t, rank, od) && NodeOK(t, rank, x);
    assert x != od ==> c !in t[x].children;
    var kids := if x == od then Without(t[x].children, c) else t[x].children;
    forall k | k in kids
      ensures k in t && k in t' && t'[k].name == t[k].name && k != c
    {
      MovedShape(t, od, c, nd, n, k);
    }
    NamesSubset(t, t', t[x].children, kids);
    MovedShape(t, od, c, nd, n, x);
    MovedShape(t, od, c, nd, n, c);
    if x == nd {
      NamesCons(t', c, kids);
    } else {
      assert [] + kids == kids;
    }
  }

  lemma MovedLink(t: Tree, rank: map<nat, nat>, od: nat, c: nat, nd: nat, n: Name, x: nat)
    requires CanMove(t, rank, od, c, nd, n) && x in t
    ensures LinkOK(Moved(t, od, c, nd, n), x)
  {
    hide NamesOK, UpOK;
    assert NodeOK(t, rank, od) && NodeOK(t, rank, nd) && NodeOK(t, rank, x);
    var t' := Moved(t, od, c, nd, n);
    assert x != od ==> c !in t[x].children;
    DirsWithout(t, t[od].children, c);
    DirsSame(t, t', t[x].children);
    DirsSame(t, t', Without(t[od].children, c));
  }

  lemma MovedGood(t: Tree, rank: map<nat, nat>, od: nat, c: nat, nd: nat, n: Name)
    requires CanMove(t, rank, od, c, nd, n)
    ensures Good(Moved(t, od, c, nd, n), MovedRank(t, rank, c, nd))
  {
    hide UpOK, KidsOK, NamesOK, LinkOK, Under;
    forall x | x in Moved(t, od, c, nd, n)
      ensures NodeOK(Moved(t, od, c, nd, n), MovedRank(t, rank, c, nd), x)
    {
      MovedUp(t, rank, od, c, nd, n, x);
      MovedKids(t, rank, od, c, nd, n, x);
      MovedNames(t, rank, od, c, nd, n, x);
      MovedLink(t, rank, od, c, nd, n, x);
    }
  }

  /** Exactly the two entries concerned change. */
  lemma MovedEntries(t: Tree, rank: map<nat, nat>, od: nat, c: nat, nd: nat, n: Name, e: nat, m: Name)
    requires CanMove(t, rank, od, c, nd, n) && e in t
    ensures Entry(Moved(t, od, c, nd, n), e, m) ==
            if e == nd && m == n then Some(c) else if e == od && m == t[c].name then None else Entry(t, e, m)
  {
    hide LinkOK, UpOK;
    var t' := Moved(t, od, c, nd, n);
    assert NodeOK(t, rank, od) && NodeOK(t, rank, nd) && NodeOK(t, rank, e);
    assert e != od ==> c !in t[e].children;
    var kids := Without(t[e].children, c);
    FindSame(t, t', kids, m);
    FindInOK(t, t[e].children, m);
    FindInOK(t, kids, m);
    FindInOK(t', t'[e].children, m);
    if e != od {
      FindSame(t, t', t[e].children, m);
    }
  }

  // Paths

  /** The node a path of plain names leads to. */
  function Resolve(t: Tree, d: nat, path: seq<Name>): Opt
    decreases |path|
  {
    if path == [] then Some(d)
    else match Entry(t, d, path[0])
      case None => None
      case Some(c) => Resolve(t, c, path[1..])
  }

  lemma {:induction false} UnderRank(t: Tree, rank: map<nat, nat>, x: nat, c: nat)
    requires Good(t, rank) && x in t && c in t && Under(t, rank, x, c)
    ensures x in rank && c in rank && rank[c] <= rank[x]
    decreases if x in rank then rank[x] else 0
  {
    assert NodeOK(t, rank, x);
    if x != c {
      UnderRank(t, rank, t[x].parent, c);
    }
  }

  // The operations

  datatype Errno = OK | ENOTDIR | EINVAL | ENAMETOOLONG | EXDEV | ENOENT | EISDIR | ENOTEMPTY | EEXIST

  ghost function RootOf(t: Tree, rank: map<nat, nat>, x: nat): nat
    requires Good(t, rank) && x in t
    decreases if x in rank then rank[x] else 0
  {
    assert NodeOK(t, rank, x);
    if t[x].parent == x then x else RootOf(t, rank, t[x].parent)
  }

  predicate BadName(n: Name) { |n| == 0 || |n| > VFS_NAME_MAX }

  function NameError(n: Name): Errno { if |n| == 0 then EINVAL else ENAMETOOLONG }

  lemma {:induction false} UnderRemoved(t: Tree, rank: map<nat, nat>, d: nat, g: nat, x: nat, c: nat)
    requires Good(t, rank) && d in t && g in t[d].children && g in t && t[g].children == []
    requires Good(Removed(t, d, g), rank) && x in Removed(t, d, g) && Under(Removed(t, d, g), rank, x, c)
    ensures Under(t, rank, x, c)
    decreases if x in rank then rank[x] else 0
  {
    assert NodeOK(t, rank, x) && NodeOK(Removed(t, d, g), rank, x);
    if x != c {
      UnderRemoved(t, rank, d, g, t[x].parent, c);
    }
  }

  /** Once the target is gone the way is free. */
  lemma MoveAfterRemove(t: Tree, rank: map<nat, nat>, od: nat, c: nat, nd: nat, n: Name, g: nat)
    requires Good(t, rank) && od in t && nd in t && c in t && c in t[od].children && t[nd].dir && !Under(t, rank, nd, c)
    requires Entry(t, nd, n) == Some(g) && g != c && g in t && t[g].children == []
    ensures g in t[nd].children && Good(Removed(t, nd, g), rank) && CanMove(Removed(t, nd, g), rank, od, c, nd, n)
  {
    EntryIff(t, rank, nd, n, g);
    RemovedGood(t, rank, nd, g);
    assert NodeOK(t, rank, od) && NodeOK(t, rank, nd) && NodeOK(t, rank, c);
    if Under(Removed(t, nd, g), rank, nd, c) {
      UnderRemoved(t, rank, nd, g, nd, c);
    }
    FindInOK(t, t[nd].children, n);
  }

  lemma MoveFree(t: Tree, rank: map<nat, nat>, od: nat, c: nat, nd: nat, n: Name)
    requires Good(t, rank) && od in t && nd in t && c in t && c in t[od].children && t[nd].dir && !Under(t, rank, nd, c)
    requires Entry(t, nd, n) == None
    ensures CanMove(t, rank, od, c, nd, n)
  {
    assert NodeOK(t, rank, od) && NodeOK(t, rank, nd);
    FindInOK(t, t[nd].children, n);
  }

  class Tmpfs {
    var t: Tree
    ghost var rank: map<nat, nat>

    ghost predicate Valid()
      reads this
    {
      Good(t, rank)
    }

    /** `tmpfs_create_root`, for each mounted tree. */
    constructor (roots: set<nat>)
      ensures Valid() && t.Keys == roots && forall r | r in roots :: t[r] == Node(true, r, [], [], 2)
    {
      t := map r | r in roots :: Node(true, r, [], [], 2);
      rank := map r | r in roots :: 0;
    }

    /** `_find_child` */
    method FindChild(d: nat, n: Name) returns (c: Opt)
      requires Valid() && d in t
      ensures c == Entry(t, d, n)
    {
      assert NodeOK(t, rank, d);
      var kids := t[d].children;
      for i := 0 to |kids|
        invariant FindIn(t, kids[i..], n) == FindIn(t, kids, n)
      {
        assert kids[i] in kids;
        if t[kids[i]].name == n { return Some(kids[i]); }
      }
      c := None;
    }

    /** `_unlink_child`: the scan for the pointer to change, and the link count. */
    method UnlinkChild(d: nat, c: nat)
      requires d in t && c in t && Distinct(t[d].children) && c in t[d].children
      modifies `t
      ensures t == Dropped(old(t), d, c)
    {
      hide Without, Distinct;
      var kids := t[d].children;
      var i := 0;
      while i < |kids| && kids[i] != c
        invariant i <= |kids| && c !in kids[..i]
      {
        i := i + 1;
      }
      NotInPrefix(kids, i, c);
      WithoutAt(kids, i);
      var links := if t[c].dir && t[d].nlink > 0 then t[d].nlink - 1 else t[d].nlink;
      t := t[d := t[d].(children := kids[..i] + kids[i + 1..], nlink := links)];
    }

    /** `_create_child`; `c` is the new node. */
    method CreateChild(d: nat, n: Name, dir: bool, c: nat) returns (r: Errno)
      requires Valid() && d in t && c !in t
      modifies this
      ensures Valid()
      ensures r == if !old(t[d].dir) then ENOTDIR else if BadName(n) then NameError(n)
                   else if old(Entry(t, d, n)).Some? then EEXIST else OK
      ensures r == OK ==> t == Created(old(t), d, c, n, dir)
      ensures r == OK ==>
                && t.Keys == old(t.Keys) + {c} && t[c] == Node(dir, d, [], n, if dir then 2 else 1)
                && t[d] == old(t[d]).(children := [c] + old(t[d].children), nlink := old(t[d].nlink) + (if dir then 1 else 0))
                && forall x | x in old(t) && x != d :: t[x] == old(t)[x]
      ensures r != OK ==> t == old(t)
    {
      if !t[d].dir { return ENOTDIR; }
      if BadName(n) { return NameError(n); }
      var found := FindChild(d, n);
      if found.Some? { return EEXIST; }
      assert NodeOK(t, rank, d);
      CreatedGood(t, rank, d, c, n, dir);
      t := t[c := Node(dir, d, [], n, if dir then 2 else 1)];
      t := Inserted(t, d, c);
      rank := rank[c := rank[d] + 1];
      r := OK;
    }

    /** `tmpfs_unlink` and `tmpfs_rmdir` */
    method Remove(d: nat, n: Name, wantDir: bool) returns (r: Errno)
      requires Valid() && d in t
      modifies this
      ensures Valid()
      ensures var e := old(Entry(t, d, n));
              r == if e.None? then ENOENT
                   else if old(e.id in t && t[e.id].dir) != wantDir then (if wantDir then ENOTDIR else EISDIR)
                   else if wantDir && old(e.id in t && t[e.id].children != []) then ENOTEMPTY else OK
      ensures r == OK ==> old(Entry(t, d, n)).id in old(t) && t == Removed(old(t), d, old(Entry(t, d, n)).id)
      ensures r != OK ==> t == old(t)
    {
      var e := FindChild(d, n);
      if e.None? { return ENOENT; }
      var c := e.id;
      EntryIff(t, rank, d, n, c);
      assert NodeOK(t, rank, d) && NodeOK(t, rank, c);
      if t[c].dir != wantDir { return if wantDir then ENOTDIR else EISDIR; }
      if wantDir && t[c].children != [] { return ENOTEMPTY; }
      RemovedGood(t, rank, d, c);
      UnlinkChild(d, c);
      t := map x | x in t && x != c :: t[x];
      assert t == Removed(old(t), d, c);
      r := OK;
    }

    /** The walk to the root. */
    method WalkUp(x: nat) returns (r: nat)
      requires Valid() && x in t
      ensures r == RootOf(t, rank, x)
    {
      r := x;
      assert NodeOK(t, rank, r);
      while t[r].parent != r
        invariant r in t && RootOf(t, rank, r) == RootOf(t, rank, x)
        decreases if r in rank then rank[r] else 0
      {
        assert NodeOK(t, rank, r);
        r := t[r].parent;
      }
    }

    /** The walk that looks for `c` above `x`. */
    method IsBelow(x: nat, c: nat) returns (below: bool)
      requires Valid() && x in t
      ensures below == Under(t, rank, x, c)
    {
      var cur := x;
      while true
        invariant cur in t && Under(t, rank, cur, c) == Under(t, rank, x, c)
        decreases if cur in rank then rank[cur] else 0
      {
        assert NodeOK(t, rank, cur);
        if cur == c { return true; }
        if cur == t[cur].parent { return false; }
        cur := t[cur].parent;
      }
    }
  
    /** `tmpfs_rename`: exactly the subtree moves and the target, if any, is gone. */
    method Rename(od: nat, on: Name, nd: nat, nn: Name) returns (r: Errno)
      requires Valid() && od in t && nd in t
      modifies this
      ensures Valid() && r == RenameError(old(t), old(rank), od, on, nd, nn)
      ensures r == OK <==>
                && Allowed(old(t), od, nd, nn) && old(Entry(t, od, on)).Some?
                && (|| old(Entry(t, nd, nn)) == old(Entry(t, od, on))
                    || (&& !Above(old(t), old(Entry(t, od, on)).id, nd)
                        && (old(Entry(t, nd, nn)).Some? ==>
                              if IsDir(old(t), old(Entry(t, od, on)).id) then IsEmptyDir(old(t), old(Entry(t, nd, nn)).id)
                              else !IsDir(old(t), old(Entry(t, nd, nn)).id))))
      ensures r == ENAMETOOLONG <==> old(t[od].dir && t[nd].dir) && |nn| > 255
      ensures r == EXDEV <==> old(t[od].dir && t[nd].dir) && 1 <= |nn| <= 255 && !SameTree(old(t), od, nd)
      ensures r == ENOENT <==> Allowed(old(t), od, nd, nn) && old(Entry(t, od, on)).None?
      ensures r == EINVAL <==>
                || (old(t[od].dir && t[nd].dir) && nn == [])
                || (Differ(old(t), od, on, nd, nn) && Above(old(t), old(Entry(t, od, on)).id, nd))
      ensures r == ENOTDIR <==>
                || !old(t[od].dir) || !old(t[nd].dir)
                || (&& Replaces(old(t), od, on, nd, nn)
                    && IsDir(old(t), old(Entry(t, od, on)).id) && !IsDir(old(t), old(Entry(t, nd, nn)).id))
      ensures r == EISDIR <==>
                && Replaces(old(t), od, on, nd, nn)
                && !IsDir(old(t), old(Entry(t, od, on)).id) && IsDir(old(t), old(Entry(t, nd, nn)).id)
      ensures r == ENOTEMPTY <==>
                && Replaces(old(t), od, on, nd, nn) && IsDir(old(t), old(Entry(t, od, on)).id)
                && IsDir(old(t), old(Entry(t, nd, nn)).id) && !IsEmptyDir(old(t), old(Entry(t, nd, nn)).id)
      ensures r == OK ==> t == Renamed(old(t), od, on, nd, nn)
      ensures r == OK ==>
                forall e, m | e in old(t) && old(Entry(t, nd, nn)) != Some(e) ::
                  Entry(t, e, m) == if e == nd && m == nn then old(Entry(t, od, on))
                                    else if e == od && m == on then None else Entry(old(t), e, m)
      ensures r != OK ==> t == old(t)
    {
      hide UpOK, KidsOK, NamesOK, LinkOK, Under, RootOf, Dropped, Inserted, Above, SameTree;
      RenameErrors(t, rank, od, on, nd, nn);
      RenamedEverywhere(t, rank, od, on, nd, nn);
      if !t[od].dir || !t[nd].dir { return ENOTDIR; }
      if BadName(nn) { return NameError(nn); }
      var oldRoot := WalkUp(od);
      var newRoot := WalkUp(nd);
      if oldRoot != newRoot { return EXDEV; }
      var e := FindChild(od, on);
      if e.None? { return ENOENT; }
      var c := e.id;
      EntryIff(t, rank, od, on, c);
      if od == nd && t[c].name == nn { return OK; }
      if t[c].dir {
        var below := IsBelow(nd, c);
        if below { return EINVAL; }
      } else {
        FileIsNoAncestor(t, rank, nd, c);
      }
      var g := FindChild(nd, nn);
      if g.Some? {
        EntryIff(t, rank, nd, nn, g.id);
        if g.id == c { return OK; }
        if t[c].dir != t[g.id].dir { return if t[c].dir then ENOTDIR else EISDIR; }
        if t[g.id].dir && t[g.id].children != [] { return ENOTEMPTY; }
        if !t[g.id].dir {
          FileIsLeaf(t, rank, g.id);
        }
        MoveAfterRemove(t, rank, od, c, nd, nn, g.id);
        KidsOf(t, rank, nd);
        UnlinkChild(nd, g.id);
        t := map x | x in t && x != g.id :: t[x];
        assert t == Removed(old(t), nd, g.id);
      } else {
        MoveFree(t, rank, od, c, nd, nn);
      }
      Move(od, c, nd, nn);
      r := OK;
    }

    method Move(od: nat, c: nat, nd: nat, n: Name)
      requires CanMove(t, rank, od, c, nd, n)
      modifies this
      ensures Valid() && old(CanMove(t, rank, od, c, nd, n)) && t == Moved(old(t), od, c, nd, n)
    {
      hide UpOK, NamesOK, LinkOK, Under;
      MovedGood(t, rank, od, c, nd, n);
      KidsOf(t, rank, od);
      ghost var rank' := MovedRank(t, rank, c, nd);
      UnlinkChild(od, c);
      t := t[c := t[c].(name := n)];
      t := Inserted(t, nd, c);
      rank := rank';
    }
  }

  lemma NotInPrefix(kids: seq<nat>, i: nat, c: nat)
    requires i <= |kids| && c in kids && c !in kids[..i]
    ensures i < |kids|
  {
    assert kids == kids[..i] + kids[i..];
  }

  lemma KidsOf(t: Tree, rank: map<nat, nat>, d: nat)
    requires Good(t, rank) && d in t
    ensures Distinct(t[d].children)
  {
    assert NodeOK(t, rank, d);
  }

  lemma FileIsLeaf(t: Tree, rank: map<nat, nat>, x: nat)
    requires Good(t, rank) && x in t && !t[x].dir
    ensures t[x].children == []
  {
    assert NodeOK(t, rank, x);
  }

  lemma {:induction false} FileIsNoAncestor(t: Tree, rank: map<nat, nat>, x: nat, c: nat)
    requires Good(t, rank) && x in t && c in t && !t[c].dir && t[x].dir
    ensures !Under(t, rank, x, c)
    decreases if x in rank then rank[x] else 0
  {
    assert NodeOK(t, rank, x);
    if t[x].parent != x {
      FileIsNoAncestor(t, rank, t[x].parent, c);
    }
  }

  /** The error `tmpfs_rename` reports, in the order it looks. */
  ghost function RenameError(t: Tree, rank: map<nat, nat>, od: nat, on: Name, nd: nat, nn: Name): Errno
    requires Good(t, rank) && od in t && nd in t
  {
    if !t[od].dir || !t[nd].dir then ENOTDIR
    else if BadName(nn) then NameError(nn)
    else if RootOf(t, rank, od) != RootOf(t, rank, nd) then EXDEV
    else match Entry(t, od, on)
      case None => ENOENT
      case Some(c) =>
        if od == nd && on == nn then OK
        else if c in t && t[c].dir && Under(t, rank, nd, c) then EINVAL
        else match Entry(t, nd, nn)
          case None => OK
          case Some(g) =>
            if g == c then OK
            else if (c in t && t[c].dir) != (g in t && t[g].dir) then if c in t && t[c].dir then ENOTDIR else EISDIR
            else if g in t && t[g].dir && t[g].children != [] then ENOTEMPTY else OK
  }

  // When a rename goes through

  /** A walk up the parent pointers. */
  ghost predicate Climb(t: Tree, p: seq<nat>) {
    |p| > 0 && (forall i | 0 <= i < |p| :: p[i] in t) && forall i | 0 < i < |p| :: p[i] == t[p[i - 1]].parent
  }

  ghost predicate ClimbFromTo(t: Tree, p: seq<nat>, x: nat, c: nat) {
    Climb(t, p) && p[0] == x && p[|p| - 1] == c
  }

  /** `c` is `x` or some walk up from `x` reaches it. */
  ghost predicate Above(t: Tree, c: nat, x: nat) {
    exists p :: ClimbFromTo(t, p, x, c)
  }

  ghost predicate SameTree(t: Tree, x: nat, y: nat) {
    exists z :: Above(t, z, x) && Above(t, z, y)
  }

  predicate IsDir(t: Tree, x: nat) { x in t && t[x].dir }

  predicate IsEmptyDir(t: Tree, x: nat) { x in t && t[x].dir && t[x].children == [] }

  /** Two directories of one tree, and a new name of at most 255 bytes. */
  ghost predicate Allowed(t: Tree, od: nat, nd: nat, nn: Name) {
    IsDir(t, od) && IsDir(t, nd) && 1 <= |nn| <= 255 && SameTree(t, od, nd)
  }

  /** The old name is bound, and not to what the new name is bound to. */
  ghost predicate Differ(t: Tree, od: nat, on: Name, nd: nat, nn: Name) {
    Allowed(t, od, nd, nn) && Entry(t, od, on).Some? && Entry(t, nd, nn) != Entry(t, od, on)
  }

  /** The new name is bound to something else, and the node does not move below itself. */
  ghost predicate Replaces(t: Tree, od: nat, on: Name, nd: nat, nn: Name) {
    Differ(t, od, on, nd, nn) && Entry(t, nd, nn).Some? && !Above(t, Entry(t, od, on).id, nd)
  }

  lemma {:induction false} UnderClimbs(t: Tree, rank: map<nat, nat>, x: nat, c: nat) returns (p: seq<nat>)
    requires Good(t, rank) && x in t && Under(t, rank, x, c)
    ensures ClimbFromTo(t, p, x, c)
    decreases if x in rank then rank[x] else 0
  {
    assert NodeOK(t, rank, x);
    if x == c {
      p := [x];
    } else {
      var q := UnderClimbs(t, rank, t[x].parent, c);
      p := [x] + q;
      assert forall i | 0 < i < |p| :: p[i] == q[i - 1];
    }
  }

  lemma {:induction false} ClimbsUnder(t: Tree, rank: map<nat, nat>, x: nat, c: nat, p: seq<nat>)
    requires Good(t, rank) && x in t && ClimbFromTo(t, p, x, c)
    ensures Under(t, rank, x, c)
    decreases |p|
  {
    assert NodeOK(t, rank, x);
    if |p| > 1 {
      ClimbsUnder(t, rank, t[x].parent, c, p[1..]);
    }
  }

  /** The walk that looks for `c` finds it exactly if it is above. */
  lemma UnderIff(t: Tree, rank: map<nat, nat>, x: nat, c: nat)
    requires Good(t, rank) && x in t
    ensures Under(t, rank, x, c) <==> Above(t, c, x)
  {
    if Under(t, rank, x, c) {
      var p := UnderClimbs(t, rank, x, c);
    }
    if p :| ClimbFromTo(t, p, x, c) {
      ClimbsUnder(t, rank, x, c, p);
    }
  }

  lemma {:induction false} RootAbove(t: Tree, rank: map<nat, nat>, x: nat)
    requires Good(t, rank) && x in t
    ensures Under(t, rank, x, RootOf(t, rank, x))
    decreases if x in rank then rank[x] else 0
  {
    assert NodeOK(t, rank, x);
    if t[x].parent != x {
      RootAbove(t, rank, t[x].parent);
    }
  }

  lemma {:induction false} RootOfAbove(t: Tree, rank: map<nat, nat>, x: nat, c: nat)
    requires Good(t, rank) && x in t && Under(t, rank, x, c)
    ensures c in t && RootOf(t, rank, c) == RootOf(t, rank, x)
    decreases if x in rank then rank[x] else 0
  {
    assert NodeOK(t, rank, x);
    if x != c {
      RootOfAbove(t, rank, t[x].parent, c);
    }
  }

  /** Two walks to the root end at one node exactly if the nodes are of one tree. */
  lemma RootIff(t: Tree, rank: map<nat, nat>, x: nat, y: nat)
    requires Good(t, rank) && x in t && y in t
    ensures RootOf(t, rank, x) == RootOf(t, rank, y) <==> SameTree(t, x, y)
  {
    hide RootOf, Under, Above;
    RootAbove(t, rank, x);
    RootAbove(t, rank, y);
    UnderIff(t, rank, x, RootOf(t, rank, x));
    UnderIff(t, rank, y, RootOf(t, rank, y));
    if z :| Above(t, z, x) && Above(t, z, y) {
      UnderIff(t, rank, x, z);
      UnderIff(t, rank, y, z);
      RootOfAbove(t, rank, x, z);
      RootOfAbove(t, rank, y, z);
    }
  }

  /** Which error a rename reports, and when it reports none. */
  lemma RenameErrors(t: Tree, rank: map<nat, nat>, od: nat, on: Name, nd: nat, nn: Name)
    requires Good(t, rank) && od in t && nd in t
    ensures var r, c, g := RenameError(t, rank, od, on, nd, nn), Entry(t, od, on), Entry(t, nd, nn);
            && (r == OK <==>
                  && Allowed(t, od, nd, nn) && c.Some?
                  && (g == c || (!Above(t, c.id, nd) && (g.Some? ==> if IsDir(t, c.id) then IsEmptyDir(t, g.id) else !IsDir(t, g.id)))))
            && (r == ENAMETOOLONG <==> t[od].dir && t[nd].dir && |nn| > 255)
            && (r == EXDEV <==> t[od].dir && t[nd].dir && 1 <= |nn| <= 255 && !SameTree(t, od, nd))
            && (r == ENOENT <==> Allowed(t, od, nd, nn) && c.None?)
            && (r == EINVAL <==> (t[od].dir && t[nd].dir && nn == []) || (Differ(t, od, on, nd, nn) && Above(t, c.id, nd)))
            && (r == ENOTDIR <==> !t[od].dir || !t[nd].dir || (Replaces(t, od, on, nd, nn) && IsDir(t, c.id) && !IsDir(t, g.id)))
            && (r == EISDIR <==> Replaces(t, od, on, nd, nn) && !IsDir(t, c.id) && IsDir(t, g.id))
            && (r == ENOTEMPTY <==> Replaces(t, od, on, nd, nn) && IsDir(t, c.id) && IsDir(t, g.id) && !IsEmptyDir(t, g.id))
  {
    hide UpOK, KidsOK, NamesOK, LinkOK, Under, RootOf, Above, SameTree, FindIn;
    RootIff(t, rank, od, nd);
    var c, g := Entry(t, od, on), Entry(t, nd, nn);
    if c.Some? {
      EntryIff(t, rank, od, on, c.id);
      EntryIff(t, rank, nd, nn, c.id);
      UnderIff(t, rank, nd, c.id);
      if g == c {
        SameParent(t, rank, od, nd, c.id);
      }
      if !t[c.id].dir && t[nd].dir {
        FileIsNoAncestor(t, rank, nd, c.id);
      }
    }
  }

  /** The tree after a rename that goes through. */
  ghost function Renamed(t: Tree, od: nat, on: Name, nd: nat, nn: Name): Tree
    requires od in t && nd in t
  {
    match Entry(t, od, on)
    case None => t
    case Some(c) =>
      if c !in t || (od == nd && on == nn) || Entry(t, nd, nn) == Some(c) then t
      else
        var t1 := if Entry(t, nd, nn).Some? && Entry(t, nd, nn).id in t then Removed(t, nd, Entry(t, nd, nn).id) else t;
        if od in t1 && c in t1 && nd in t1 && c != nd && c != od then Moved(t1, od, c, nd, nn) else t
  }

  /** A rename that goes through rebinds two names and changes no other entry of any directory. */
  lemma RenamedEntries(t: Tree, rank: map<nat, nat>, od: nat, on: Name, nd: nat, nn: Name, c: nat, e: nat, m: Name)
    requires Good(t, rank) && od in t && nd in t && RenameError(t, rank, od, on, nd, nn) == OK && Entry(t, od, on) == Some(c)
    requires e in t && (Entry(t, nd, nn).Some? ==> e != Entry(t, nd, nn).id)
    ensures Entry(Renamed(t, od, on, nd, nn), e, m) ==
            if e == nd && m == nn then Some(c) else if e == od && m == on then None else Entry(t, e, m)
  {
    hide UpOK, NamesOK, LinkOK, Under, RootOf, Dropped, Inserted, FindIn, Removed;
    EntryIff(t, rank, od, on, c);
    var g := Entry(t, nd, nn);
    if (od == nd && on == nn) || g == Some(c) {
      EntryIff(t, rank, nd, nn, c);
      SameParent(t, rank, od, nd, c);
    } else {
      if !t[c].dir {
        FileIsNoAncestor(t, rank, nd, c);
      }
      if g.Some? {
        EntryIff(t, rank, nd, nn, g.id);
        if !t[g.id].dir {
          FileIsLeaf(t, rank, g.id);
        }
        MoveAfterRemove(t, rank, od, c, nd, nn, g.id);
        RemovedKeeps(t, nd, g.id, c);
        RemovedKeeps(t, nd, g.id, e);
        MovedEntries(Removed(t, nd, g.id), rank, od, c, nd, nn, e, m);
        RemovedEntries(t, rank, nd, g.id, e, m);
      } else {
        MoveFree(t, rank, od, c, nd, nn);
        MovedEntries(t, rank, od, c, nd, nn, e, m);
      }
    }
  }

  lemma RenamedEverywhere(t: Tree, rank: map<nat, nat>, od: nat, on: Name, nd: nat, nn: Name)
    requires Good(t, rank) && od in t && nd in t
    ensures RenameError(t, rank, od, on, nd, nn) == OK ==>
              forall e, m | e in t && Entry(t, nd, nn) != Some(e) ::
                Entry(Renamed(t, od, on, nd, nn), e, m) ==
                if e == nd && m == nn then Entry(t, od, on) else if e == od && m == on then None else Entry(t, e, m)
  {
    if RenameError(t, rank, od, on, nd, nn) == OK {
      var c := Entry(t, od, on).id;
      hide RenameError, Good, Entry, Renamed;
      forall e, m | e in t && Entry(t, nd, nn) != Some(e)
        ensures Entry(Renamed(t, od, on, nd, nn), e, m) ==
                if e == nd && m == nn then Entry(t, od, on) else if e == od && m == on then None else Entry(t, e, m)
      {
        RenamedEntries(t, rank, od, on, nd, nn, c, e, m);
      }
    }
  }

  lemma SameParent(t: Tree, rank: map<nat, nat>, d: nat, e: nat, c: nat)
    requires Good(t, rank) && d in t && e in t && c in t[d].children && c in t[e].children
    ensures d == e
  {
    assert NodeOK(t, rank, d) && NodeOK(t, rank, e);
  }

  lemma RemovedKeeps(t: Tree, d: nat, g: nat, x: nat)
    requires d in t && g in t && x in t && x != g
    ensures x in Removed(t, d, g) && Removed(t, d, g)[x].name == t[x].name
  {
  }

  // Runs

  datatype Op =
    | Create(d: nat, n: Name, dir: bool, c: nat)
    | Remove(d: nat, n: Name, wantDir: bool)
    | Rename(od: nat, on: Name, nd: nat, nn: Name)

  /** One call on attached directories, refused or carried out, as the methods of `Tmpfs` leave it. */
  ghost predicate Step(t: Tree, rank: map<nat, nat>, t': Tree, op: Op)
    requires Good(t, rank)
  {
    match op
    case Create(d, n, dir, c) =>
      d in t && c !in t && t' == if !t[d].dir || BadName(n) || Entry(t, d, n).Some? then t else Created(t, d, c, n, dir)
    case Remove(d, n, wantDir) =>
      && d in t
      && var e := Entry(t, d, n);
         t' == if e.None? || e.id !in t || t[e.id].dir != wantDir || (wantDir && t[e.id].children != []) then t else Removed(t, d, e.id)
    case Rename(od, on, nd, nn) =>
      od in t && nd in t && t' == if RenameError(t, rank, od, on, nd, nn) == OK then Renamed(t, od, on, nd, nn) else t
  }

  /** Every step leaves trees: each node hangs below a root. */
  lemma StepGood(t: Tree, rank: map<nat, nat>, t': Tree, op: Op) returns (rank': map<nat, nat>)
    requires Good(t, rank) && Step(t, rank, t', op)
    ensures Good(t', rank')
  {
    hide UpOK, KidsOK, NamesOK, LinkOK, Under, RootOf, Inserted, Dropped;
    rank' := rank;
    match op
    case Create(d, n, dir, c) =>
      if t' != t {
        RankOf(t, rank, d);
        CreatedGood(t, rank, d, c, n, dir);
        rank' := rank[c := rank[d] + 1];
      }
    case Remove(d, n, wantDir) =>
      if t' != t {
        var c := Entry(t, d, n).id;
        EntryIff(t, rank, d, n, c);
        if !wantDir {
          FileIsLeaf(t, rank, c);
        }
        RemovedGood(t, rank, d, c);
      }
    case Rename(od, on, nd, nn) =>
      if t' != t {
        rank' := RenamedGood(t, rank, od, on, nd, nn);
      }
  }

  lemma RankOf(t: Tree, rank: map<nat, nat>, x: nat)
    requires Good(t, rank) && x in t
    ensures x in rank
  {
    assert NodeOK(t, rank, x);
  }

  lemma RenameWay(t: Tree, rank: map<nat, nat>, od: nat, on: Name, nd: nat, nn: Name, c: nat)
    requires Good(t, rank) && od in t && nd in t && RenameError(t, rank, od, on, nd, nn) == OK && Entry(t, od, on) == Some(c)
    requires !(od == nd && on == nn) && Entry(t, nd, nn) != Some(c)
    ensures c in t && t[c].parent == od && !Under(t, rank, nd, c) && od in rank && c in rank && rank[od] < rank[c]
    ensures Entry(t, nd, nn).Some? ==> Entry(t, nd, nn).id in t && t[Entry(t, nd, nn).id].parent == nd != Entry(t, nd, nn).id
  {
    hide NamesOK, RootOf, Dropped, Inserted, FindIn, Removed;
    EntryIff(t, rank, od, on, c);
    assert NodeOK(t, rank, od) && NodeOK(t, rank, c) && NodeOK(t, rank, nd);
    if !t[c].dir {
      FileIsNoAncestor(t, rank, nd, c);
    }
    var g := Entry(t, nd, nn);
    if g.Some? {
      EntryIff(t, rank, nd, nn, g.id);
      assert NodeOK(t, rank, g.id);
    }
  }

  /** A node below the moved one is none of the directories that change, and not the target replaced. */
  lemma BelowIsElsewhere(t: Tree, rank: map<nat, nat>, od: nat, on: Name, nd: nat, nn: Name, c: nat, x: nat)
    requires Good(t, rank) && od in t && nd in t && RenameError(t, rank, od, on, nd, nn) == OK && Entry(t, od, on) == Some(c)
    requires !(od == nd && on == nn) && Entry(t, nd, nn) != Some(c) && x in t && Under(t, rank, x, c)
    ensures x != nd && x != od && (Entry(t, nd, nn).Some? ==> x != Entry(t, nd, nn).id)
  {
    hide NamesOK, RootOf, Dropped, Inserted, FindIn, Removed, RenameError, Entry;
    RenameWay(t, rank, od, on, nd, nn, c);
    UnderRank(t, rank, x, c);
  }

  /** Below the renamed node every path leads where it led. */
  lemma {:induction false} BelowRenamed(t: Tree, rank: map<nat, nat>, od: nat, on: Name, nd: nat, nn: Name, c: nat, x: nat, path: seq<Name>)
    requires Good(t, rank) && od in t && nd in t && RenameError(t, rank, od, on, nd, nn) == OK && Entry(t, od, on) == Some(c)
    requires x in t && Under(t, rank, x, c)
    ensures Resolve(Renamed(t, od, on, nd, nn), x, path) == Resolve(t, x, path)
    decreases |path|
  {
    hide NamesOK, RootOf, Dropped, Inserted, FindIn, Removed, RenameError;
    if path != [] && !(od == nd && on == nn) && Entry(t, nd, nn) != Some(c) {
      BelowIsElsewhere(t, rank, od, on, nd, nn, c, x);
      RenamedEntries(t, rank, od, on, nd, nn, c, x, path[0]);
      var e := Entry(t, x, path[0]);
      if e.Some? {
        ChildIsUnder(t, rank, x, path[0], c);
        BelowRenamed(t, rank, od, on, nd, nn, c, e.id, path[1..]);
      }
    }
  }

  lemma ChildIsUnder(t: Tree, rank: map<nat, nat>, x: nat, m: Name, c: nat)
    requires Good(t, rank) && x in t && Under(t, rank, x, c) && Entry(t, x, m).Some?
    ensures Entry(t, x, m).id in t && Under(t, rank, Entry(t, x, m).id, c)
  {
    hide NamesOK, FindIn;
    EntryIff(t, rank, x, m, Entry(t, x, m).id);
    assert NodeOK(t, rank, x) && NodeOK(t, rank, Entry(t, x, m).id);
  }

  /** A rename that goes through moves the whole subtree, whether or not it replaces a target. */
  lemma RenameMovesSubtree(t: Tree, rank: map<nat, nat>, od: nat, on: Name, nd: nat, nn: Name, path: seq<Name>)
    requires Good(t, rank) && od in t && nd in t && RenameError(t, rank, od, on, nd, nn) == OK
    ensures Resolve(Renamed(t, od, on, nd, nn), nd, [nn] + path) == Resolve(t, od, [on] + path)
  {
    assert Entry(t, od, on).Some?;
    var c := Entry(t, od, on).id;
    hide NamesOK, RootOf, Dropped, Inserted, FindIn, Removed, RenameError;
    EntryIff(t, rank, od, on, c);
    assert ([nn] + path)[1..] == path && ([on] + path)[1..] == path;
    BelowRenamed(t, rank, od, on, nd, nn, c, c, path);
    if !(od == nd && on == nn) && Entry(t, nd, nn) != Some(c) {
      RenameWay(t, rank, od, on, nd, nn, c);
      RenamedEntries(t, rank, od, on, nd, nn, c, nd, nn);
    }
  }

  lemma RenamedGood(t: Tree, rank: map<nat, nat>, od: nat, on: Name, nd: nat, nn: Name) returns (rank': map<nat, nat>)
    requires Good(t, rank) && od in t && nd in t && RenameError(t, rank, od, on, nd, nn) == OK
    ensures Good(Renamed(t, od, on, nd, nn), rank')
  {
    hide UpOK, KidsOK, NamesOK, LinkOK, Under, RootOf, Inserted, Dropped;
    rank' := rank;
    var c := Entry(t, od, on).id;
    EntryIff(t, rank, od, on, c);
    var g := Entry(t, nd, nn);
    if (od == nd && on == nn) || g == Some(c) {
      return;
    }
    if !t[c].dir {
      FileIsNoAncestor(t, rank, nd, c);
    }
    RankOf(t, rank, nd);
    if g.Some? {
      EntryIff(t, rank, nd, nn, g.id);
      if !t[g.id].dir {
        FileIsLeaf(t, rank, g.id);
      }
      MoveAfterRemove(t, rank, od, c, nd, nn, g.id);
      MovedGood(Removed(t, nd, g.id), rank, od, c, nd, nn);
      rank' := MovedRank(Removed(t, nd, g.id), rank, c, nd);
    } else {
      MoveFree(t, rank, od, c, nd, nn);
      MovedGood(t, rank, od, c, nd, nn);
      rank' := MovedRank(t, rank, c, nd);
    }
  }

  ghost predicate Run(ts: seq<Tree>, ops: seq<Op>) {
    && |ts| == |ops| + 1 && (exists rank :: Good(ts[0], rank))
    && forall i {:trigger ops[i]} | 0 <= i < |ops| :: forall rank | Good(ts[i], rank) :: Step(ts[i], rank, ts[i + 1], ops[i])
  }

  /** Every run of create, remove and rename keeps the trees. */
  lemma {:induction false} RunGood(ts: seq<Tree>, ops: seq<Op>, n: nat)
    requires Run(ts, ops) && n <= |ops|
    ensures exists rank :: Good(ts[n], rank)
  {
    hide Good, Step;
    if n > 0 {
      RunGood(ts, ops, n - 1);
      var rank :| Good(ts[n - 1], rank);
      assert ops[n - 1] == ops[n - 1];
      var rank' := StepGood(ts[n - 1], rank, ts[n], ops[n - 1]);
    }
  }
}
