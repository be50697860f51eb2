/** Doubly linked lists ended by NULL at both ends, as os-l3/kernel/src/uproc.c keeps them for the
    children of a task and for the exit records of its dead children. */
module LinkedList {
  import opened Sequences
  import opened Wrappers

  type Links = map<nat, Option<nat>>

  function Link(links: Links, x: nat): Option<nat> {
    if x in links then links[x] else None
  }

  function At(l: seq<nat>, i: int): Option<nat> {
    if 0 <= i < |l| then Some(l[i]) else None
  }

  predicate LinkedAt(next: Links, prev: Links, l: seq<nat>, i: nat)
    requires i < |l|
  {
    l[i] in next && l[i] in prev && next[l[i]] == At(l, i + 1) && prev[l[i]] == At(l, i - 1)
  }

  ghost predicate Listed(next: Links, prev: Links, head: Option<nat>, l: seq<nat>) {
    head == At(l, 0) && Distinct(l) && forall i | 0 <= i < |l| :: LinkedAt(next, prev, l, i)
  }

  /** `item->nxt = header; if(header) header->pre = item` on a node whose other link is NULL. */
  function PushedNext(next: Links, head: Option<nat>, x: nat): Links {
    next[x := head]
  }

  function PushedPrev(prev: Links, head: Option<nat>, x: nat): Links {
    var cleared: Links := prev[x := None];
    if head.Some? then cleared[head.value := Some(x)] else cleared
  }

  lemma PushKeeps(next: Links, prev: Links, head: Option<nat>, l: seq<nat>, x: nat)
    requires Listed(next, prev, head, l) && x !in l
    ensures Listed(PushedNext(next, head, x), PushedPrev(prev, head, x), Some(x), [x] + l)
  {
    var next', prev', l' := PushedNext(next, head, x), PushedPrev(prev, head, x), [x] + l;
    forall i | 0 <= i < |l'|
      ensures LinkedAt(next', prev', l', i)
    {
      if i > 0 {
        assert LinkedAt(next, prev, l, i - 1);
      }
    }
  }

  /** `if(x->pre) x->pre->nxt = x->nxt; if(x->nxt) x->nxt->pre = x->pre`. */
  function UnlinkedNext(next: Links, prev: Links, x: nat): Links {
    if Link(prev, x).Some? then next[Link(prev, x).value := Link(next, x)] else next
  }

  function UnlinkedPrev(next: Links, prev: Links, x: nat): Links {
    if Link(next, x).Some? then prev[Link(next, x).value := Link(prev, x)] else prev
  }

  lemma UnlinkKeeps(next: Links, prev: Links, head: Option<nat>, l: seq<nat>, i: nat)
    requires Listed(next, prev, head, l) && i < |l|
    ensures l[i] in next && l[i] in prev
    ensures Listed(UnlinkedNext(next, prev, l[i]), UnlinkedPrev(next, prev, l[i]),
                   if head == Some(l[i]) then next[l[i]] else head, Without(l, i))
  {
    assert LinkedAt(next, prev, l, i);
    var next', prev', l' := UnlinkedNext(next, prev, l[i]), UnlinkedPrev(next, prev, l[i]), Without(l, i);
    forall k | 0 <= k < |l'|
      ensures LinkedAt(next', prev', l', k)
    {
      assert LinkedAt(next, prev, l, if k < i then k else k + 1);
    }
  }

  /** Links of other nodes may change. */
  lemma ListedFrame(next: Links, prev: Links, next': Links, prev': Links, head: Option<nat>, l: seq<nat>)
    requires Listed(next, prev, head, l)
    requires forall x | x in l && x in next && x in prev ::
             x in next' && x in prev' && next'[x] == next[x] && prev'[x] == prev[x]
    ensures Listed(next', prev', head, l)
  {
    forall i | 0 <= i < |l|
      ensures LinkedAt(next', prev', l, i)
    {
      assert LinkedAt(next, prev, l, i) && l[i] in l;
    }
  }

  /** The nodes whose links a push or an unlinking writes are on the list. */
  lemma Neighbours(next: Links, prev: Links, head: Option<nat>, l: seq<nat>, i: nat)
    requires Listed(next, prev, head, l) && i < |l|
    ensures l[i] in next && l[i] in prev
    ensures next[l[i]].Some? ==> next[l[i]].value in l
    ensures prev[l[i]].Some? ==> prev[l[i]].value in l
  {
    assert LinkedAt(next, prev, l, i);
  }

  // ----- Following the links -------------------------------------------------------------------

  /** Every link names a smaller number: siblings are linked to older ones. */
  ghost predicate Falling(next: Links) {
    forall x: nat | Link(next, x).Some? :: Link(next, x).value < x
  }

  /** The nodes that a loop over the list meets, well-formed or not. */
  function Walk(next: Links, head: Option<nat>): seq<nat>
    decreases if head.Some? then head.value + 1 else 0
  {
    if head == None then []
    else
      var y := Link(next, head.value);
      if y.Some? && y.value >= head.value then [head.value] else [head.value] + Walk(next, y)
  }

  predicate Descending(l: seq<nat>) {
    forall i, j | 0 <= i < j < |l| :: l[j] < l[i]
  }

  predicate Follows(next: Links, l: seq<nat>, i: nat)
    requires i < |l|
  {
    Link(next, l[i]) == At(l, i + 1)
  }

  lemma {:induction false} WalkFalls(next: Links, head: Option<nat>)
    requires Falling(next)
    ensures var w := Walk(next, head);
            && Descending(w) && Distinct(w) && head == At(w, 0) && (forall x | x in w :: x <= w[0])
            && (forall i | 0 <= i < |w| :: Follows(next, w, i))
    decreases if head.Some? then head.value + 1 else 0
  {
    if head.Some? {
      WalkFalls(next, Link(next, head.value));
      var w, rest := Walk(next, head), Walk(next, Link(next, head.value));
      forall i | 0 <= i < |w|
        ensures Follows(next, w, i)
      {
        assert i > 0 ==> Follows(next, rest, i - 1);
      }
    }
  }

  /** A well-formed list is what a walk over it meets. */
  lemma {:induction false} WalkMeets(next: Links, prev: Links, head: Option<nat>, l: seq<nat>, n: nat)
    requires Listed(next, prev, head, l) && Falling(next) && n <= |l|
    ensures Walk(next, At(l, n)) == l[n..]
    decreases |l| - n
  {
    if n < |l| {
      assert LinkedAt(next, prev, l, n) && Link(next, l[n]) == At(l, n + 1);
      WalkMeets(next, prev, head, l, n + 1);
    }
  }

  lemma {:induction false} WalkFrame(next: Links, next': Links, head: Option<nat>)
    requires Falling(next) && forall x | x in Walk(next, head) :: Link(next', x) == Link(next, x)
    ensures Walk(next', head) == Walk(next, head)
    decreases if head.Some? then head.value + 1 else 0
  {
    if head.Some? {
      WalkFrame(next, next', Link(next, head.value));
    }
  }
}
