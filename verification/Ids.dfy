/** Process and thread ids: a counter and a sorted list of ids given back. */
module Ids {
  ghost predicate Sorted(l: seq<nat>) {
    forall i, j | 0 <= i < j < |l| :: l[i] < l[j]
  }

  lemma HeadIsLeast(l: seq<nat>)
    requires Sorted(l) && l != []
    ensures Sorted(l[1..]) && l[0] !in l[1..]
    ensures forall x :: x in l <==> x == l[0] || x in l[1..]
    ensures forall x | x in l :: l[0] <= x
  {
    assert l == [l[0]] + l[1..];
  }

  lemma InsertedAt(l: seq<nat>, i: nat, id: nat)
    requires Sorted(l) && i <= |l| && (forall j | 0 <= j < i :: l[j] < id) && (forall j | i <= j < |l| :: l[j] > id)
    ensures var l' := l[..i] + [id] + l[i..]; Sorted(l') && forall x: nat :: x in l' <==> x in l || x == id
    ensures id !in l
  {
    assert l == l[..i] + l[i..];
  }

  lemma OnlyOne(l: seq<nat>, x: nat)
    requires Sorted(l) && forall y: nat :: y in l <==> y == x
    ensures l == [x]
  {
    assert x in l;
    var first, last := l[0], l[|l| - 1];
    assert first in l && last in l;
  }

  class IdPool {
    var next: nat
    var free: seq<nat>
    /** The ids in use. */
    ghost var live: set<nat>

    ghost predicate Valid()
      reads this
    {
      && next >= 1 && Sorted(free) && (forall id | id in free :: 1 <= id < next)
      && (forall id :: id in live <==> 1 <= id < next && id !in free)
    }

    constructor ()
      ensures Valid() && live == {} && next == 1 && free == []
    {
      next, free, live := 1, [], {};
    }

    /** `id_alloc`: the least id that is not in use. */
    method Alloc() returns (id: nat)
      modifies this
      ensures old(Valid()) ==> Valid() && id !in old(live) && live == old(live) + {id}
      ensures old(Valid()) ==> id >= 1 && forall j | 1 <= j < id :: j in old(live)
      ensures if old(free) != [] then id == old(free)[0] && free == old(free)[1..] && next == old(next)
              else id == old(next) && free == [] && next == old(next) + 1
    {
      if free != [] {
        id := free[0];
        free := free[1..];
        if old(Valid()) {
          HeadIsLeast(old(free));
        }
      } else {
        id := next;
        next := next + 1;
      }
      live := live + {id};
    }

    /** `id_free`: giving an id back twice is a panic. The pool stays sound exactly when the id was handed out at some
        time: any other id is taken into the list as well. */
    method Free(id: int) returns (panic: bool)
      requires Sorted(free)
      modifies this
      ensures panic <==> id > 0 && id in old(free)
      ensures old(Valid()) ==> (Valid() <==> id < next || panic)
      ensures old(Valid()) && id < next ==> (panic <==> id > 0 && id !in old(live)) && live == old(live) - {id}
      ensures if id <= 0 || panic then free == old(free) else Sorted(free) && forall x: nat :: x in free <==> x in old(free) || x == id
      ensures next == old(next)
    {
      if id <= 0 { return false; }
      var i := 0;
      while i < |free| && free[i] < id
        invariant i <= |free| && forall j | 0 <= j < i :: free[j] < id
      {
        i := i + 1;
      }
      if i < |free| && free[i] == id { return true; }
      panic := false;
      assert forall j | i <= j < |free| :: free[j] > id;
      InsertedAt(free, i, id);
      hide Sorted;
      free := free[..i] + [id] + free[i..];
      live := live - {id};
    }
  }

  /** An id that was never handed out, given back to a new pool, is handed out twice. */
  method ForeignIdComesTwice() returns (a: nat, b: nat)
    ensures a == b == 1
  {
    var pool := new IdPool();
    var panic := pool.Free(1);
    OnlyOne(pool.free, 1);
    a := pool.Alloc();
    b := pool.Alloc();
  }
}
