/** The intrusive circular doubly linked lists of os-l1/kernel/include/list.h. A node is an index
    into the two link arrays; a list is reached through its head node, which is no element. */
module IntrusiveList {
  import opened Sequences

  /** The i-th node met going round from the head: the head, the elements, the head again. */
  function At(head: nat, l: seq<nat>, i: nat): nat
    requires i <= |l| + 1
  {
    if i == 0 || i == |l| + 1 then head else l[i - 1]
  }

  /** Following `next` from the head meets exactly the elements of l, in order, and `prev` retraces
      them. */
  ghost predicate Ring(next: seq<nat>, prev: seq<nat>, head: nat, l: seq<nat>) {
    && |next| == |prev| && head < |next| && head !in l
    && Distinct(l)
    && (forall i: nat | i <= |l| + 1 :: At(head, l, i) < |next|)
    && (forall i: nat | i <= |l| :: next[At(head, l, i)] == At(head, l, i + 1))
    && (forall i: nat | i <= |l| :: prev[At(head, l, i + 1)] == At(head, l, i))
  }

  /** What the two links of every node of a ring are. */
  lemma RingLinks(next: seq<nat>, prev: seq<nat>, head: nat, l: seq<nat>, i: nat)
    requires Ring(next, prev, head, l)
    ensures head < |next| == |prev| && head !in l
    ensures next[head] == (if l == [] then head else l[0]) && prev[head] == if l == [] then head else l[|l| - 1]
    ensures i < |l| ==>
              && l[i] < |next|
              && next[l[i]] == (if i + 1 < |l| then l[i + 1] else head)
              && prev[l[i]] == (if i > 0 then l[i - 1] else head)
              && forall j | 0 <= j < i :: l[j] != l[i]
  {
    assert next[At(head, l, 0)] == At(head, l, 1) && prev[At(head, l, |l| + 1)] == At(head, l, |l|);
    if i < |l| {
      assert At(head, l, i + 1) == l[i] && next[At(head, l, i + 1)] == At(head, l, i + 2);
      assert prev[At(head, l, i + 1)] == At(head, l, i);
    }
  }

  function NextAfterAdd(next: seq<nat>, node: nat, at: nat): seq<nat>
    requires node < |next| && at < |next|
  {
    next[node := next[at]][at := node]
  }

  function PrevAfterAdd(next: seq<nat>, prev: seq<nat>, node: nat, at: nat): seq<nat>
    requires node < |prev| && at < |next| && next[at] < |prev|
  {
    prev[node := at][next[at] := node]
  }

  function NextAfterDel(next: seq<nat>, prev: seq<nat>, node: nat): seq<nat>
    requires node < |next| && node < |prev| && prev[node] < |next|
  {
    next[prev[node] := next[node]]
  }

  function PrevAfterDel(next: seq<nat>, prev: seq<nat>, node: nat): seq<nat>
    requires node < |next| && node < |prev| && next[node] < |prev|
  {
    prev[next[node] := prev[node]]
  }

  lemma RingBounds(next: seq<nat>, prev: seq<nat>, head: nat, l: seq<nat>, i: nat)
    requires Ring(next, prev, head, l) && i <= |l|
    ensures At(head, l, i) < |next| && next[At(head, l, i)] < |prev|
    ensures At(head, l, i + 1) < |prev| && prev[At(head, l, i + 1)] < |next|
  {
    assert next[At(head, l, i)] == At(head, l, i + 1);
    assert prev[At(head, l, i + 1)] == At(head, l, i);
  }

  /** Linking a new node behind the i-th one inserts it there. */
  lemma RingInsert(next: seq<nat>, prev: seq<nat>, head: nat, l: seq<nat>, i: nat, node: nat)
    requires Ring(next, prev, head, l) && i <= |l|
    requires node < |next| && node != head && node !in l
    ensures At(head, l, i) < |next| && next[At(head, l, i)] < |prev|
    ensures Ring(NextAfterAdd(next, node, At(head, l, i)), PrevAfterAdd(next, prev, node, At(head, l, i)), head,
                 l[..i] + [node] + l[i..])
  {
    RingBounds(next, prev, head, l, i);
    var at := At(head, l, i);
    var l' := l[..i] + [node] + l[i..];
    var next', prev' := NextAfterAdd(next, node, at), PrevAfterAdd(next, prev, node, at);
    forall j: nat | j <= |l'| + 1
      ensures At(head, l', j) < |next'|
    {
      InsertAt(head, l, i, node, j);
    }
    forall j: nat | j <= |l'|
      ensures next'[At(head, l', j)] == At(head, l', j + 1)
      ensures prev'[At(head, l', j + 1)] == At(head, l', j)
    {
      InsertAt(head, l, i, node, j);
      InsertAt(head, l, i, node, j + 1);
      if j < i {
        Elsewhere(next, prev, head, l, i, j);
      } else if j > i + 1 {
        Elsewhere(next, prev, head, l, i, j - 1);
      }
    }
  }

  lemma InsertAt(head: nat, l: seq<nat>, i: nat, node: nat, j: nat)
    requires i <= |l| && j <= |l| + 2
    ensures At(head, l[..i] + [node] + l[i..], j)
            == if j <= i then At(head, l, j) else if j == i + 1 then node else At(head, l, j - 1)
  {}

  /** Two different places of a ring hold different nodes. */
  lemma Elsewhere(next: seq<nat>, prev: seq<nat>, head: nat, l: seq<nat>, i: nat, j: nat)
    requires Ring(next, prev, head, l) && i <= |l| && j <= |l| && i != j
    ensures At(head, l, i) != At(head, l, j) && At(head, l, i + 1) != At(head, l, j + 1)
  {
    if i > 0 {
      assert l[i - 1] in l;
    }
    if j > 0 {
      assert l[j - 1] in l;
    }
    if i < |l| {
      assert l[i] in l;
    }
    if j < |l| {
      assert l[j] in l;
    }
  }

  /** Unlinking the i-th element removes it. */
  lemma RingRemove(next: seq<nat>, prev: seq<nat>, head: nat, l: seq<nat>, i: nat)
    requires Ring(next, prev, head, l) && i < |l|
    ensures l[i] < |next| && next[l[i]] < |next| && prev[l[i]] < |next| && prev[l[i]] != l[i]
    ensures Ring(NextAfterDel(next, prev, l[i]), PrevAfterDel(next, prev, l[i]), head, Without(l, i))
  {
    RingBounds(next, prev, head, l, i);
    RingBounds(next, prev, head, l, i + 1);
    var l' := Without(l, i);
    assert At(head, l, i + 1) == l[i];
    Elsewhere(next, prev, head, l, i, i + 1);
    var next', prev' := NextAfterDel(next, prev, l[i]), PrevAfterDel(next, prev, l[i]);
    WithoutMembers(l, i);
    forall j: nat | j <= |l'| + 1
      ensures At(head, l', j) < |next'|
    {
      RemoveAt(head, l, i, j);
    }
    forall j: nat | j <= |l'|
      ensures next'[At(head, l', j)] == At(head, l', j + 1)
      ensures prev'[At(head, l', j + 1)] == At(head, l', j)
    {
      RemoveAt(head, l, i, j);
      RemoveAt(head, l, i, j + 1);
      if j < i {
        Elsewhere(next, prev, head, l, i, j);
        Elsewhere(next, prev, head, l, i + 1, j);
      } else if j > i {
        Elsewhere(next, prev, head, l, i, j + 1);
        Elsewhere(next, prev, head, l, i + 1, j + 1);
      }
    }
  }

  lemma RemoveAt(head: nat, l: seq<nat>, i: nat, j: nat)
    requires i < |l| && j <= |l|
    ensures At(head, Without(l, i), j) == if j <= i then At(head, l, j) else At(head, l, j + 1)
  {}

  /** Changing links only at nodes outside a ring leaves the ring alone. */
  lemma RingFrame(next: seq<nat>, prev: seq<nat>, next': seq<nat>, prev': seq<nat>, head: nat, l: seq<nat>)
    requires Ring(next, prev, head, l) && |next'| == |prev'| == |next|
    requires forall x | x in l + [head] && x < |next| :: next'[x] == next[x] && prev'[x] == prev[x]
    ensures Ring(next', prev', head, l)
  {
    forall i: nat | i <= |l| + 1
      ensures At(head, l, i) in l + [head]
    {
      assert At(head, l, i) == head || At(head, l, i) in l;
    }
  }

  /** The emptiness test of the source reads both links of the head; either would do. */
  lemma RingEmpty(next: seq<nat>, prev: seq<nat>, head: nat, l: seq<nat>)
    requires Ring(next, prev, head, l)
    ensures (prev[head] == head && next[head] == head) <==> l == []
    ensures next[head] == head <==> l == []
    ensures l != [] ==> next[head] == l[0] && prev[head] == l[|l| - 1]
  {
    assert next[At(head, l, 0)] == At(head, l, 1);
    assert prev[At(head, l, |l| + 1)] == At(head, l, |l|);
    if l != [] {
      assert l[0] in l;
    }
  }

  /** The links of all nodes in memory. */
  class Links {
    const next: array<nat>
    const prev: array<nat>

    ghost predicate Valid()
      reads this
    {
      next != prev && next.Length == prev.Length
    }

    /** `init_list_head` applied to every node. */
    constructor (size: nat)
      ensures Valid() && fresh(next) && fresh(prev) && next.Length == size
      ensures forall x | 0 <= x < size :: Ring(next[..], prev[..], x, [])
    {
      next := new nat[size](i => i);
      prev := new nat[size](i => i);
    }

    /** `list_add(node, at)`. */
    method ListAdd(node: nat, at: nat)
      requires Valid() && node < next.Length && at < next.Length && next[at] < next.Length
      modifies next, prev
      ensures next[..] == NextAfterAdd(old(next[..]), node, at)
      ensures prev[..] == PrevAfterAdd(old(next[..]), old(prev[..]), node, at)
    {
      ghost var n0: seq<nat> := next[..];
      ghost var p0: seq<nat> := prev[..];
      var after := next[at];
      next[node] := after;
      prev[node] := at;
      prev[after] := node;
      next[at] := node;
      assert next[..] == n0[node := after][at := node];
      assert prev[..] == p0[node := at][after := node];
    }

    /** `list_append(node, head)`: adding behind the last element. */
    method ListAppend(node: nat, head: nat, ghost l: seq<nat>)
      requires Valid() && Ring(next[..], prev[..], head, l)
      requires node < next.Length && node != head && node !in l
      modifies next, prev
      ensures Ring(next[..], prev[..], head, l + [node])
    {
      RingEmpty(next[..], prev[..], head, l);
      RingInsert(next[..], prev[..], head, l, |l|, node);
      assert l[..|l|] + [node] + l[|l|..] == l + [node];
      var tail := prev[head];
      ListAdd(node, tail);
    }

    /** `list_del(node)`. */
    method ListDel(node: nat)
      requires Valid() && node < next.Length && prev[node] < next.Length && next[node] < next.Length
      requires prev[node] != node
      modifies next, prev
      ensures next[..] == NextAfterDel(old(next[..]), old(prev[..]), node)
      ensures prev[..] == PrevAfterDel(old(next[..]), old(prev[..]), node)
    {
      ghost var n0: seq<nat> := next[..];
      ghost var p0: seq<nat> := prev[..];
      next[prev[node]] := next[node];
      prev[next[node]] := prev[node];
      assert next[..] == n0[p0[node] := n0[node]];
      assert prev[..] == p0[n0[node] := p0[node]];
    }

    method ListEmpty(head: nat, ghost l: seq<nat>) returns (empty: bool)
      requires Valid() && Ring(next[..], prev[..], head, l)
      ensures empty <==> l == []
    {
      RingEmpty(next[..], prev[..], head, l);
      empty := prev[head] == head && next[head] == head;
    }
  }
}
