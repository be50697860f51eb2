/** The coroutines of os-l3/libco/co.c (VERION_2): a circular list of nodes with a cursor, cooperative
    switching, and joining. A node is named by its coroutine, a coroutine by its order of birth. */
module Coroutine {
  import opened Sequences
  import opened Wrappers

  datatype Status = New | Running | Waiting | Dead

  type Links = map<nat, nat>

  /** The node after the i-th one, going round. */
  function Next(l: seq<nat>, i: nat): nat
    requires i < |l|
  {
    if i + 1 < |l| then l[i + 1] else l[0]
  }

  predicate LinkedAt(fd: Links, bk: Links, l: seq<nat>, i: nat)
    requires i < |l|
  {
    l[i] in bk && Next(l, i) in fd && bk[l[i]] == Next(l, i) && fd[Next(l, i)] == l[i]
  }

  /** Following `bk` from the first node of l goes round l, and `fd` goes back. */
  ghost predicate Ring(fd: Links, bk: Links, l: seq<nat>) {
    Distinct(l) && forall i | 0 <= i < |l| :: LinkedAt(fd, bk, l, i)
  }

  /** The two links between neighbours, with the first node as the neighbour of the last one. */
  lemma RingMeans(fd: Links, bk: Links, l: seq<nat>, i: nat, j: nat)
    requires Ring(fd, bk, l) && i < |l| && j == if i == |l| - 1 then 0 else i + 1
    ensures l[i] in bk && l[j] in fd && bk[l[i]] == l[j] && fd[l[j]] == l[i]
    ensures forall m | 0 <= m < |l| && m != i :: l[m] != l[i]
  {
    assert LinkedAt(fd, bk, l, i);
  }

  function InsertedFd(fd: Links, at: nat, v: nat): Links
    requires at in fd
  {
    fd[v := fd[at]][at := v]
  }

  function InsertedBk(fd: Links, bk: Links, at: nat, v: nat): Links
    requires at in fd
  {
    bk[v := at][fd[at] := v]
  }

  lemma RingInsert(fd: Links, bk: Links, l: seq<nat>, v: nat)
    requires Ring(fd, bk, l) && l != [] && v !in l
    ensures l[0] in fd && fd[l[0]] in l
    ensures Ring(InsertedFd(fd, l[0], v), InsertedBk(fd, bk, l[0], v), l + [v])
  {
    var n := |l|;
    assert LinkedAt(fd, bk, l, n - 1);
    var fd', bk', l' := InsertedFd(fd, l[0], v), InsertedBk(fd, bk, l[0], v), l + [v];
    forall i | 0 <= i < |l'|
      ensures LinkedAt(fd', bk', l', i)
    {
      if i < n - 1 {
        assert LinkedAt(fd, bk, l, i);
        assert l[i + 1] != l[0] && l[i] != l[n - 1];
      }
    }
  }

  function RemovedFd(fd: Links, bk: Links, v: nat): Links
    requires v in fd && v in bk
  {
    fd[bk[v] := fd[v]]
  }

  function RemovedBk(fd: Links, bk: Links, v: nat): Links
    requires v in fd && v in bk
  {
    bk[fd[v] := bk[v]]
  }

  lemma RingRemove(fd: Links, bk: Links, l: seq<nat>)
    requires Ring(fd, bk, l) && |l| > 1
    ensures l[0] in fd && l[0] in bk && bk[l[0]] == l[1] && l[1] in fd
    ensures Ring(RemovedFd(fd, bk, l[0]), RemovedBk(fd, bk, l[0]), l[1..])
  {
    var n := |l|;
    assert LinkedAt(fd, bk, l, 0) && LinkedAt(fd, bk, l, n - 1) && LinkedAt(fd, bk, l, 1);
    var fd', bk', l' := RemovedFd(fd, bk, l[0]), RemovedBk(fd, bk, l[0]), l[1..];
    assert n == 2 || LinkedAt(fd, bk, l, 1);
    forall i | 0 <= i < |l'|
      ensures LinkedAt(fd', bk', l', i)
    {
      assert LinkedAt(fd, bk, l, i + 1);
    }
  }

  function Rotated(l: seq<nat>, k: nat): seq<nat>
    requires k <= |l|
  {
    l[k..] + l[..k]
  }

  lemma RingRotate(fd: Links, bk: Links, l: seq<nat>)
    requires Ring(fd, bk, l) && l != []
    ensures l[0] in bk && bk[l[0]] == Rotated(l, 1)[0] && Ring(fd, bk, Rotated(l, 1))
    ensures forall x :: x in Rotated(l, 1) <==> x in l
  {
    assert LinkedAt(fd, bk, l, 0);
    var l' := Rotated(l, 1);
    forall i | 0 <= i < |l'|
      ensures LinkedAt(fd, bk, l', i)
    {
      assert LinkedAt(fd, bk, l, if i + 1 < |l| then i + 1 else 0);
    }
    assert l == [l[0]] + l[1..];
  }

  // ----- The waiting coroutines ----------------------------------------------------------------

  /** What is known of every coroutine whose node is on the ring: the one it is joining was started by
      it and is on the ring too; it waits exactly while that one is not dead. */
  ghost predicate JoinOk(members: set<nat>, status: map<nat, Status>, waiter: map<nat, Option<nat>>,
                         joining: map<nat, Option<nat>>,
                         parent: map<nat, nat>, x: nat) {
    && x in status && x in waiter && x in joining
    && (joining[x] == None ==> status[x] != Waiting)
    && (joining[x].Some? ==>
          var t := joining[x].value;
          && t in members && t in status && t in parent && parent[t] == x && x < t
          && t in waiter && waiter[t] == Some(x)
          && status[x] == if status[t] == Dead then Running else Waiting)
    && (waiter[x].Some? ==>
          waiter[x].value in members && waiter[x].value in joining && joining[waiter[x].value] == Some(x))
  }

  ghost predicate Joins(members: set<nat>, status: map<nat, Status>, waiter: map<nat, Option<nat>>,
                        joining: map<nat, Option<nat>>,
                        parent: map<nat, nat>) {
    forall x | x in members :: JoinOk(members, status, waiter, joining, parent, x)
  }

  predicate Ready(status: map<nat, Status>, x: nat) {
    x in status && (status[x] == New || status[x] == Running)
  }

  /** The k-th node after the beginning of the ring is the first one whose coroutine can run. */
  ghost predicate ReadyAfter(status: map<nat, Status>, ring: seq<nat>, x: nat, k: nat) {
    && 1 <= k <= |ring| && Rotated(ring, k)[0] == x && Ready(status, x)
    && (forall j | 1 <= j < k :: !Ready(status, ring[j]))
  }

  /** The search for the next coroutine x leaves the cursor at its node. */
  ghost predicate Resumed(status: map<nat, Status>, ring: seq<nat>, ring': seq<nat>, x: nat) {
    exists k: nat :: ReadyAfter(status, ring, x, k) && ring' == Rotated(ring, k)
  }

  ghost predicate DroppedAt(ring: seq<nat>, ring': seq<nat>, t: nat, m: nat) {
    m < |ring| && ring[m] == t && ring' == Rotated(ring, m)[1..]
  }

  /** The node of t is gone, and the cursor stands at the one after it. */
  ghost predicate Dropped(ring: seq<nat>, ring': seq<nat>, t: nat) {
    exists m: nat :: DroppedAt(ring, ring', t, m)
  }

  /** What a switch to coroutine x makes of the ring, where x goes on after its `co_wait` if it stood in one. */
  ghost predicate Switched(status: map<nat, Status>, ring: seq<nat>, ring': seq<nat>, x: nat, joined: Option<nat>) {
    exists found ::
      Resumed(status, ring, found, x) && if joined.Some? then Dropped(found, ring', joined.value) else ring' == found
  }

  /** The coroutine chosen is the first one after the cursor, going round the ring and the cursor's own as the last,
      that is new or running. The cursor stands at its node, or behind the removed one at place m from there. */
  lemma SwitchedMeans(status: map<nat, Status>, ring: seq<nat>, ring': seq<nat>, x: nat, joined: Option<nat>)
      returns (k: nat, m: nat)
    requires Switched(status, ring, ring', x, joined)
    ensures 1 <= k <= |ring| && (if k == |ring| then ring[0] else ring[k]) == x
    ensures x in status && (status[x] == New || status[x] == Running)
    ensures forall j | 1 <= j < k && ring[j] in status :: status[ring[j]] == Waiting || status[ring[j]] == Dead
    ensures joined == None ==> ring' == ring[k..] + ring[..k]
    ensures joined.Some? ==>
              var found := ring[k..] + ring[..k];
              m < |ring| && found[m] == joined.value && ring' == (found[m..] + found[..m])[1..]
  {
    var found :|
      Resumed(status, ring, found, x) && if joined.Some? then Dropped(found, ring', joined.value) else ring' == found;
    k :| ReadyAfter(status, ring, x, k) && found == Rotated(ring, k);
    assert forall j | 1 <= j < k :: !Ready(status, ring[j]);
    m := 0;
    if joined.Some? {
      m :| DroppedAt(found, ring', joined.value, m);
    }
  }

  /** Somebody can run, as long as somebody is not dead: among those the youngest waits for nobody. */
  lemma {:induction false} SomebodyReady(members: set<nat>, status: map<nat, Status>, waiter: map<nat, Option<nat>>,
                                         joining: map<nat, Option<nat>>,
                                         parent: map<nat, nat>, x: nat, born: nat) returns (y: nat)
    requires Joins(members, status, waiter, joining, parent) && forall z | z in members :: z < born
    requires x in members && x in status && status[x] != Dead
    ensures y in members && Ready(status, y)
    decreases born - x
  {
    assert JoinOk(members, status, waiter, joining, parent, x);
    if status[x] == Waiting {
      y := SomebodyReady(members, status, waiter, joining, parent, joining[x].value, born);
    } else {
      y := x;
    }
  }

  /** The coroutine a switch has chosen: a new one stands at its beginning, a running one in `co_wait` has
      a dead target. */
  lemma JoinsChosen(members: set<nat>, status: map<nat, Status>, waiter: map<nat, Option<nat>>,
                    joining: map<nat, Option<nat>>,
                    parent: map<nat, nat>, x: nat)
    requires Joins(members, status, waiter, joining, parent) && x in members && Ready(status, x)
    ensures x in joining
    ensures status[x] == New ==> joining[x] == None && Joins(members, status[x := Running], waiter, joining, parent)
    ensures status[x] == Running && joining[x].Some? ==>
              var t := joining[x].value;
              t in members && t in status && status[t] == Dead && t in parent && parent[t] == x
  {
    assert JoinOk(members, status, waiter, joining, parent, x);
    if status[x] == New {
      forall y | y in members
        ensures JoinOk(members, status[x := Running], waiter, joining, parent, y)
      {
        assert JoinOk(members, status, waiter, joining, parent, y);
      }
    }
  }

  /** The waiter of a coroutine that can run is waiting on the ring. */
  lemma WaiterRuns(members: set<nat>, status: map<nat, Status>, waiter: map<nat, Option<nat>>,
                   joining: map<nat, Option<nat>>,
                   parent: map<nat, nat>, t: nat)
    requires Joins(members, status, waiter, joining, parent) && t in members && t in status && status[t] != Dead
    ensures t in waiter
    ensures waiter[t].Some? ==> waiter[t].value in members && waiter[t].value != t && waiter[t].value in status
                                && status[waiter[t].value] == Waiting
  {
    assert JoinOk(members, status, waiter, joining, parent, t);
    if waiter[t].Some? {
      assert JoinOk(members, status, waiter, joining, parent, waiter[t].value);
    }
  }

  ghost function Members(ring: seq<nat>): set<nat> {
    set x | x in ring
  }

  lemma JoinsStarted(members: set<nat>, status: map<nat, Status>, waiter: map<nat, Option<nat>>,
                     joining: map<nat, Option<nat>>,
                     parent: map<nat, nat>, c: nat, starter: nat)
    requires Joins(members, status, waiter, joining, parent) && c !in members
    ensures Joins(members + {c}, status[c := New], waiter[c := None], joining[c := None], parent[c := starter])
  {
    var members', status', waiter', joining', parent' := members + {c}, status[c := New], waiter[c := None],
        joining[c := None], parent[c := starter];
    forall x | x in members'
      ensures JoinOk(members', status', waiter', joining', parent', x)
    {
      assert x != c ==> JoinOk(members, status, waiter, joining, parent, x);
    }
  }

  /** `co_wait` on a coroutine that the current one started. */
  lemma JoinsBegun(members: set<nat>, status: map<nat, Status>, waiter: map<nat, Option<nat>>,
                   joining: map<nat, Option<nat>>,
                   parent: map<nat, nat>, x: nat, t: nat)
    requires Joins(members, status, waiter, joining, parent) && x in members && t in members
    requires t in parent && parent[t] == x && x < t && t in status && x in joining && joining[x] == None
    requires x in status && status[x] == Running
    ensures Joins(members, status[x := if status[t] == Dead then Running else Waiting], waiter[t := Some(x)],
              joining[x := Some(t)], parent)
  {
    var status', waiter', joining' := status[x := if status[t] == Dead then Running else Waiting],
        waiter[t := Some(x)], joining[x := Some(t)];
    forall y | y in members
      ensures JoinOk(members, status', waiter', joining', parent, y)
    {
      assert JoinOk(members, status, waiter, joining, parent, y);
    }
  }

  /** The statuses once the function of coroutine t has returned: its waiter can run again. */
  function Ended(status: map<nat, Status>, waiter: map<nat, Option<nat>>, t: nat): map<nat, Status>
    requires t in waiter
  {
    if waiter[t].Some? then status[t := Dead][waiter[t].value := Running] else status[t := Dead]
  }

  /** A coroutine whose function returned. */
  lemma JoinsFinished(members: set<nat>, status: map<nat, Status>, waiter: map<nat, Option<nat>>,
                      joining: map<nat, Option<nat>>,
                      parent: map<nat, nat>, t: nat)
    requires Joins(members, status, waiter, joining, parent) && t in members && t in joining && joining[t] == None
    ensures t in waiter
    ensures Joins(members, Ended(status, waiter, t), waiter, joining, parent)
  {
    assert JoinOk(members, status, waiter, joining, parent, t);
    var status' := Ended(status, waiter, t);
    if waiter[t].Some? {
      assert JoinOk(members, status, waiter, joining, parent, waiter[t].value);
    }
    forall y | y in members
      ensures JoinOk(members, status', waiter, joining, parent, y)
    {
      assert JoinOk(members, status, waiter, joining, parent, y);
    }
  }

  /** The end of a join: the target's node is gone. */
  lemma JoinsEnded(members: set<nat>, status: map<nat, Status>, waiter: map<nat, Option<nat>>,
                   joining: map<nat, Option<nat>>,
                   parent: map<nat, nat>, x: nat, t: nat)
    requires Joins(members, status, waiter, joining, parent) && x in members && x in joining && joining[x] == Some(t)
    requires t in status && status[t] == Dead
    ensures t in members && x != t && x in status && status[x] == Running
    ensures Joins(members - {t}, status, waiter, joining[x := None], parent)
  {
    assert JoinOk(members, status, waiter, joining, parent, x) && JoinOk(members, status, waiter, joining, parent, t);
    forall y | y in members - {t}
      ensures JoinOk(members - {t}, status, waiter, joining[x := None], parent, y)
    {
      assert JoinOk(members, status, waiter, joining, parent, y);
    }
  }

  lemma MembersFacts(ring: seq<nat>, c: nat)
    ensures Members(ring + [c]) == Members(ring) + {c}
    ensures ring != [] && Distinct(ring) ==> Members(ring[1..]) == Members(ring) - {ring[0]}
    ensures forall k | 0 <= k <= |ring| :: Members(Rotated(ring, k)) == Members(ring)
  {
    if ring != [] {
      assert ring == [ring[0]] + ring[1..];
    }
    forall k | 0 <= k <= |ring|
      ensures Members(Rotated(ring, k)) == Members(ring)
    {
      assert ring == ring[..k] + ring[k..];
    }
  }

  /** The ring holds every coroutine that has not finished; the first one never finishes. */
  ghost predicate Tracked(born: nat, status: map<nat, Status>, ring: seq<nat>, finished: set<nat>) {
    && (forall x | x in ring :: x < born && x in status && (status[x] == Dead <==> x in finished))
    && (forall x: nat | x < born && x !in finished :: x in ring)
    && (forall x | x in finished :: x < born)
    && 0 < born && 0 !in finished
  }

  ghost predicate StartedLater(parent: map<nat, nat>) {
    forall x | x in parent :: parent[x] < x
  }

  class Coroutines {
    var born: nat
    var fd: Links
    var bk: Links
    var coNode: nat
    var current: nat
    var status: map<nat, Status>
    var waiter: map<nat, Option<nat>>
    /** The target of the `co_wait` that a coroutine is inside of: where its saved context stands. */
    var joining: map<nat, Option<nat>>
    ghost var parent: map<nat, nat>
    /** The nodes from the cursor on, along `bk`. */
    ghost var ring: seq<nat>
    /** The coroutines whose function has returned. */
    ghost var finished: set<nat>

    ghost predicate RingOk()
      reads this`fd, this`bk, this`coNode, this`ring
    {
      ring != [] && coNode == ring[0] && Ring(fd, bk, ring)
    }

    ghost predicate Suspended()
      reads this
    {
      && RingOk() && Tracked(born, status, ring, finished) && Joins(Members(ring), status, waiter, joining, parent)
      && StartedLater(parent)
    }

    ghost predicate Valid()
      reads this
    {
      && Suspended()
      && current in ring && current in status && status[current] == Status.Running
      && current in joining && joining[current] == None
    }

    lemma IsSuspended()
      requires RingOk() && Tracked(born, status, ring, finished)
               && Joins(Members(ring), status, waiter, joining, parent)
      requires StartedLater(parent)
      ensures Suspended()
    {}

    lemma ToFinish()
      requires Valid() && current != 0
      ensures RingOk() && StartedLater(parent) && current in waiter && current !in finished
      ensures waiter[current] != Some(current)
      ensures var ended := Ended(status, waiter, current);
              && Tracked(born, ended, ring, finished + {current})
              && Joins(Members(ring), ended, waiter, joining, parent)
    {
      hide Joins, Ring;
      SameMembers(ring, Members(ring));
      JoinsFinished(Members(ring), status, waiter, joining, parent, current);
      WaiterRuns(Members(ring), status, waiter, joining, parent, current);
    }

    lemma IsValid()
      requires RingOk() && Tracked(born, status, ring, finished)
               && Joins(Members(ring), status, waiter, joining, parent)
      requires StartedLater(parent)
      requires current in ring && current in status && status[current] == Status.Running
      requires current in joining && joining[current] == None
      ensures Valid()
    {}

    /** `co_constructor`: the first coroutine, which runs already. */
    constructor ()
      ensures Valid() && current == 0 && ring == [0]
    {
      born, coNode, current := 1, 0, 0;
      fd, bk := map[0 := 0], map[0 := 0];
      status, waiter, joining := map[0 := Status.Running], map[0 := None], map[0 := None];
      parent := map[];
      ring, finished := [0], {};
    }

    /** `co_node_insert` on a ring that is not empty. */
    method NodeInsert(v: nat)
      requires RingOk() && v !in ring
      modifies this`fd, this`bk, this`ring
      ensures RingOk() && ring == old(ring) + [v]
    {
      RingInsert(fd, bk, ring, v);
      var next := fd[coNode];
      fd := fd[v := next];
      bk := bk[v := coNode];
      bk := bk[next := v];
      fd := fd[coNode := v];
      ring := ring + [v];
    }

    /** `co_node_remove` on a ring of more than one node. */
    method NodeRemove()
      requires RingOk() && |ring| > 1
      modifies this`fd, this`bk, this`coNode, this`ring
      ensures RingOk() && ring == old(ring)[1..]
    {
      RingRemove(fd, bk, ring);
      var victim := coNode;
      coNode := bk[coNode];
      fd := fd[coNode := fd[victim]];
      bk := bk[fd[coNode] := coNode];
      ring := ring[1..];
    }

    /** `co_node = co_node->bk`. */
    method Advance()
      requires RingOk()
      modifies this`coNode, this`ring
      ensures RingOk() && ring == Rotated(old(ring), 1)
    {
      RingRotate(fd, bk, ring);
      coNode := bk[coNode];
      ring := Rotated(ring, 1);
    }

    /** `co_start`. */
    method Start() returns (co: nat)
      requires Valid()
      modifies this`born, this`fd, this`bk, this`status, this`waiter, this`joining, this`parent, this`ring
      ensures Valid() && co == old(born) && co !in old(ring) && co !in finished && ring == old(ring) + [co]
      ensures status == old(status)[co := New] && parent == old(parent)[co := current]
      ensures waiter == old(waiter)[co := None] && joining == old(joining)[co := None]
    {
      hide Valid, Suspended, Ring, Joins, Tracked;
      co := born;
      ToStart();
      born := born + 1;
      status := status[co := New];
      waiter := waiter[co := None];
      joining := joining[co := None];
      parent := parent[co := current];
      NodeInsert(co);
      IsValid();
    }

    lemma ToStart()
      requires Valid()
      ensures RingOk() && born !in ring && born !in finished && current in ring && current != born
      ensures current in status && status[current] == Status.Running && current in joining && joining[current] == None
      ensures Tracked(born + 1, status[born := New], ring + [born], finished)
      ensures Joins(Members(ring + [born]), status[born := New], waiter[born := None], joining[born := None],
                    parent[born := current])
      ensures StartedLater(parent[born := current])
    {
      hide Ring, Joins;
      MembersFacts(ring, born);
      JoinsStarted(Members(ring), status, waiter, joining, parent, born, current);
    }

    /** The search of `co_yield`: the first node after the cursor, going round once at most, whose
        coroutine can run. */
    method FindReady() returns (ghost k: nat)
      requires RingOk() && exists y :: y in ring && Ready(status, y)
      requires forall x | x in ring :: x in status
      modifies this`coNode, this`ring
      ensures RingOk() && 1 <= k <= |old(ring)| && ring == Rotated(old(ring), k) && Ready(status, coNode)
      ensures forall j | 1 <= j < k :: !Ready(status, old(ring)[j])
    {
      Advance();
      k := 1;
      while !(status[coNode] == New || status[coNode] == Status.Running)
        invariant 1 <= k <= |old(ring)| && RingOk() && ring == Rotated(old(ring), k)
        invariant forall j | 1 <= j < k :: !Ready(status, old(ring)[j])
        decreases |old(ring)| - k
      {
        Advance();
        k := k + 1;
      }
    }

    /** The search of `co_wait` for the node of its target, and the removal. */
    method RemoveNode(t: nat)
      requires RingOk() && t in ring && |ring| > 1
      modifies this`fd, this`bk, this`coNode, this`ring
      ensures RingOk() && Members(ring) == Members(old(ring)) - {t} && Dropped(old(ring), ring, t)
    {
      ghost var k, n := 0, |ring|;
      ghost var m :| 0 <= m < n && ring[m] == t;
      assert Rotated(ring, 0) == ring;
      while coNode != t
        invariant 0 <= k <= m && RingOk() && ring == Rotated(old(ring), k)
        decreases m - k
      {
        Advance();
        k := k + 1;
      }
      MembersFacts(old(ring), 0);
      MembersFacts(ring, 0);
      NodeRemove();
      assert DroppedAt(old(ring), ring, t, m);
    }

    /** A coroutine that can run exists, since the first one is not dead. */
    lemma CanSwitch()
      requires Suspended()
      ensures exists y :: y in ring && Ready(status, y)
    {
      var y := SomebodyReady(Members(ring), status, waiter, joining, parent, 0, born);
      assert y in ring;
    }

    /** The rest of `co_wait` once the target is dead: its node is removed, and no other. */
    method EndJoin(target: nat)
      requires Suspended() && current in ring && current in joining && joining[current] == Some(target)
      requires target in status && status[target] == Dead
      modifies this`fd, this`bk, this`coNode, this`ring, this`joining
      ensures Valid() && Members(ring) == Members(old(ring)) - {target} && target in Members(old(ring))
      ensures Dropped(old(ring), ring, target) && joining == old(joining)[current := None]
    {
      hide Joins, Ring, Dropped;
      JoinsEnded(Members(ring), status, waiter, joining, parent, current, target);
      joining := joining[current := None];
      RemoveNode(target);
      SameMembers(ring, Members(old(ring)) - {target});
    }

    /** The search and the choice of the next coroutine. */
    method Switch()
      requires Suspended()
      modifies this`coNode, this`current, this`ring
      ensures Suspended() && current in ring && Ready(status, current) && Members(ring) == Members(old(ring))
      ensures Resumed(status, old(ring), ring, current)
    {
      hide Joins, Ring;
      CanSwitch();
      var k := FindReady();
      assert ReadyAfter(status, old(ring), coNode, k);
      MembersFacts(old(ring), 0);
      SameMembers(ring, Members(old(ring)));
      SameMembers(old(ring), Members(old(ring)));
      current := coNode;
    }

    /** `co_yield`: switches to the first coroutine after the cursor that can run; a new one is started,
        and one that stands in `co_wait` returns from it, the node of its own target being removed. */
    method Yield() returns (ghost joined: Option<nat>)
      requires Suspended()
      modifies this`fd, this`bk, this`coNode, this`current, this`ring, this`status, this`joining
      ensures Valid() && Switched(old(status), old(ring), ring, current, joined)
      ensures status == old(status)[current := Status.Running]
      ensures current in old(joining) && joined == old(joining)[current] && joining == old(joining)[current := None]
      ensures joined == None ==> Members(ring) == Members(old(ring))
      ensures joined.Some? ==>
                && joined.value in status && status[joined.value] == Dead
                && joined.value in parent && parent[joined.value] == current
                && joined.value in Members(old(ring)) && Members(ring) == Members(old(ring)) - {joined.value}
    {
      hide Joins, Ring, Resumed, Dropped;
      joined := None;
      Switch();
      assert status[current] == Status.Running ==> status == status[current := Status.Running];
      JoinsChosen(Members(ring), status, waiter, joining, parent, current);
      assert joining[current] == None ==> joining == joining[current := None];
      if status[current] == New {
        status := status[current := Status.Running];
      } else if joining[current].Some? {
        joined := joining[current];
        EndJoin(joining[current].value);
      }
    }

    /** `co_wait` on a coroutine that the current one started and has not waited for: it returns, now or
        when it is switched to again, after the target is dead. */
    method CoWait(target: nat) returns (ghost joined: Option<nat>)
      requires Valid() && target in ring && target in parent && parent[target] == current
      modifies this`fd, this`bk, this`coNode, this`current, this`ring, this`status, this`waiter, this`joining
      ensures Valid() && waiter == old(waiter)[target := Some(old(current))]
      ensures current in old(joining) && joined == old(joining)[old(current) := Some(target)][current]
      ensures joining == old(joining)[old(current) := Some(target)][current := None]
      ensures joined == None ==> Members(ring) == Members(old(ring))
      ensures joined.Some? ==>
                && joined.value in status && status[joined.value] == Dead
                && joined.value in parent && parent[joined.value] == current
                && joined.value in Members(old(ring)) && Members(ring) == Members(old(ring)) - {joined.value}
      ensures target in old(status)
      ensures old(status)[target] == Dead ==>
                && joined == Some(target) && current == old(current) && status == old(status)
                && Dropped(old(ring), ring, target)
      ensures old(status)[target] != Dead ==>
                var waiting := old(status)[old(current) := Waiting];
                && Switched(waiting, old(ring), ring, current, joined)
                && status == waiting[current := Status.Running]
    {
      hide Joins, Ring, Switched, Dropped;
      SameMembers(ring, Members(ring));
      JoinsBegun(Members(ring), status, waiter, joining, parent, current, target);
      waiter := waiter[target := Some(current)];
      joining := joining[current := Some(target)];
      if status[target] != Dead {
        status := status[current := Waiting];
        joined := Yield();
      } else {
        assert status[current := Status.Running] == status;
        joined := Some(target);
        EndJoin(target);
      }
    }

    /** The end of a coroutine's function, in the frame of `co_yield` that started it. The first coroutine
        ends the program instead. */
    method Finish() returns (ghost joined: Option<nat>)
      requires Valid() && current != 0
      modifies this`fd, this`bk, this`coNode, this`current, this`ring, this`status, this`joining, this`finished
      ensures Valid() && finished == old(finished) + {old(current)} && old(current) !in old(finished)
      ensures old(current) in waiter
      ensures var ended := Ended(old(status), waiter, old(current));
              Switched(ended, old(ring), ring, current, joined) && status == ended[current := Status.Running]
      ensures waiter[old(current)].Some? ==> Ready(status, waiter[old(current)].value)
      ensures old(current) in status && status[old(current)] == Dead
      ensures forall x | x in old(status) && x != old(current) && x != current && waiter[old(current)] != Some(x) ::
                x in status && status[x] == old(status)[x]
      ensures current in old(joining) && joined == old(joining)[current] && joining == old(joining)[current := None]
      ensures joined == None ==> Members(ring) == Members(old(ring))
      ensures joined.Some? ==>
                && joined.value in status && status[joined.value] == Dead
                && joined.value in parent && parent[joined.value] == current
                && joined.value in Members(old(ring)) && Members(ring) == Members(old(ring)) - {joined.value}
    {
      hide Valid, Suspended, Joins, Ring, Tracked, Switched;
      ToFinish();
      finished := finished + {current};
      var w := waiter[current];
      status := status[current := Dead];
      if w.Some? {
        status := status[w.value := Status.Running];
      }
      ghost var ended := status;
      assert ended == Ended(old(status), waiter, old(current));
      IsSuspended();
      joined := Yield();
      var _, _ := SwitchedMeans(ended, old(ring), ring, current, joined);
    }
  }

  lemma SameMembers(l: seq<nat>, s: set<nat>)
    requires Members(l) == s
    ensures forall x :: x in l <==> x in s
  {
    forall x
      ensures x in l <==> x in s
    {
      assert x in Members(l) <==> x in l;
    }
  }
}
