/** Lists without repetition. */
module Lists {
  ghost predicate Distinct(s: seq<nat>) {
    forall i, j | 0 <= i < j < |s| :: s[i] != s[j]
  }

  ghost function Elements(l: seq<nat>): set<nat> {
    set p | p in l
  }

  lemma {:induction false} SetOfDistinct(l: seq<nat>)
    requires Distinct(l)
    ensures |Elements(l)| == |l|
  {
    if l == [] {
      assert Elements(l) == {};
    } else {
      SetOfDistinct(l[1..]);
      assert l[0] !in l[1..];
      assert Elements(l) == {l[0]} + Elements(l[1..]);
    }
  }

  /** The list without `x`. */
  function Without(l: seq<nat>, x: nat): (r: seq<nat>)
    ensures |r| <= |l| && forall y :: y in r <==> y in l && y != x
  {
    if l == [] then [] else if l[0] == x then Without(l[1..], x) else [l[0]] + Without(l[1..], x)
  }

  lemma {:induction false} WithoutDistinct(l: seq<nat>, x: nat)
    requires Distinct(l)
    ensures Distinct(Without(l, x)) && |Without(l, x)| == |l| - (if x in l then 1 else 0)
  {
    if l != [] {
      WithoutDistinct(l[1..], x);
      assert l[0] !in l[1..];
    }
  }

  lemma {:induction false} WithoutNone(l: seq<nat>, x: nat)
    requires x !in l
    ensures Without(l, x) == l
  {
    if l != [] {
      WithoutNone(l[1..], x);
    }
  }

  lemma {:induction false} WithoutAt(l: seq<nat>, i: nat)
    requires Distinct(l) && i < |l|
    ensures Without(l, l[i]) == l[..i] + l[i + 1..]
  {
    if i == 0 {
      assert l[0] !in l[1..];
      WithoutNone(l[1..], l[0]);
    } else {
      WithoutAt(l[1..], i - 1);
      assert l[..i] + l[i + 1..] == [l[0]] + (l[1..][..i - 1] + l[1..][i..]);
    }
  }

  function Below(n: nat): (s: set<nat>)
    ensures |s| == n && forall i: nat :: i in s <==> i < n
  {
    if n == 0 then {} else Below(n - 1) + {n - 1}
  }

  lemma {:induction false} SubsetCard(a: set<nat>, b: set<nat>)
    requires a <= b
    ensures |a| <= |b| && (|a| == |b| ==> a == b)
  {
    if a != {} {
      var x :| x in a;
      SubsetCard(a - {x}, b - {x});
      assert a == (a - {x}) + {x} && b == (b - {x}) + {x};
    }
  }

  /** A list without repetition of numbers below `n` holds all of them exactly when it is `n` long. */
  lemma AllBelow(l: seq<nat>, n: nat)
    requires Distinct(l) && forall i | i in l :: i < n
    ensures |l| <= n && (|l| == n <==> forall i: nat | i < n :: i in l)
  {
    SetOfDistinct(l);
    SubsetCard(Elements(l), Below(n));
    if |l| == n {
      forall i: nat | i < n
        ensures i in l
      {
        assert i in Elements(l);
      }
    } else if forall i: nat | i < n :: i in l {
      SubsetCard(Below(n), Elements(l));
    }
  }
}
