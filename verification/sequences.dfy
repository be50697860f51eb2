/** Sequences without repetition, and the removal of one element. */
module Sequences {
  predicate Distinct(l: seq<nat>) {
    forall i, j | 0 <= i < j < |l| :: l[i] != l[j]
  }

  function Without(l: seq<nat>, i: nat): seq<nat>
    requires i < |l|
  {
    l[..i] + l[i + 1..]
  }

  lemma WithoutMembers(l: seq<nat>, i: nat)
    requires Distinct(l) && i < |l|
    ensures Distinct(Without(l, i)) && l[i] !in Without(l, i)
    ensures forall x :: x in Without(l, i) <==> x in l && x != l[i]
  {
    forall x | x in l && x != l[i]
      ensures x in Without(l, i)
    {
      var j :| 0 <= j < |l| && l[j] == x;
      assert Without(l, i)[if j < i then j else j - 1] == x;
    }
  }

  /** The sequence without its first x; as it is when it has none. */
  function Removed(l: seq<nat>, x: nat): seq<nat> {
    if l == [] then []
    else if l[0] == x then l[1..]
    else [l[0]] + Removed(l[1..], x)
  }

  lemma {:induction false} RemovedAt(l: seq<nat>, i: nat)
    requires Distinct(l) && i < |l|
    ensures Removed(l, l[i]) == Without(l, i)
  {
    if i > 0 {
      RemovedAt(l[1..], i - 1);
    }
  }

  lemma {:induction false} RemovedMembers(l: seq<nat>, x: nat)
    requires Distinct(l)
    ensures Distinct(Removed(l, x))
    ensures forall y :: y in Removed(l, x) <==> y in l && y != x
    ensures x !in l ==> Removed(l, x) == l
  {
    if x in l {
      var i :| 0 <= i < |l| && l[i] == x;
      RemovedAt(l, i);
      WithoutMembers(l, i);
    } else {
      RemovedNone(l, x);
    }
  }

  lemma {:induction false} RemovedNone(l: seq<nat>, x: nat)
    requires x !in l
    ensures Removed(l, x) == l
  {
    if l != [] {
      RemovedNone(l[1..], x);
    }
  }

  lemma {:induction false} MoreMembers(l: seq<nat>, m: seq<nat>)
    requires Distinct(l) && Distinct(m) && forall x | x in l :: x in m
    ensures |l| <= |m|
  {
    if l != [] {
      assert l[0] in m;
      var i :| 0 <= i < |m| && m[i] == l[0];
      WithoutMembers(m, i);
      MoreMembers(l[1..], Without(m, i));
    }
  }
}
