/** Parents and children that are not dead, over all interleavings of os-l3/kernel/src/uproc.c. */
module Families {
  import opened Kinship
  import opened LinkedList
  import opened Sequences
  import opened Wrappers

  /** A live task's parent is live or NULL; while the task is being created by `fork`, so is the forking task. */
  ghost predicate ParentLives(k: Kin, c: nat) {
    && (Link(k.parent, c).Some? ==> Link(k.parent, c).value in k.live)
    && (forall p | PendingOf(k, p, c) :: p in k.live)
  }

  /** The list of p is linked both ways and holds the live children of p and no others; a child about to be put there
      is live. */
  ghost predicate ChildrenLive(k: Kin, p: nat) {
    && ListOk(k, p)
    && (forall c | c in Kids(k, p) :: c in k.live)
    && (forall c | PendingOf(k, p, c) :: c in k.live)
  }

  ghost predicate Family(k: Kin) {
    forall t | t in k.live :: ParentLives(k, t) && ChildrenLive(k, t)
  }

  /** In plain terms: no live task has a dead parent, or waits for a dead one in `fork` to be put on its list; the
      list of a live task is linked both ways and holds exactly its live children. */
  lemma FamilyMeans(k: Kin, t: nat, c: nat)
    requires Family(k) && t in k.live
    ensures t in k.parent && k.parent[t].Some? ==> k.parent[t].value in k.live
    ensures t in k.pending && t in k.forker ==> k.forker[t] in k.live
    ensures Listed(k.nxtsib, k.presib, Link(k.chldlist, t), Kids(k, t))
    ensures c in Kids(k, t) ==> c in k.live
    ensures c in k.live && c in k.parent && k.parent[c] == Some(t) && c in k.forker && k.forker[c] == t ==>
              c in k.pending || c in Kids(k, t)
    ensures c in k.pending && c in k.forker && k.forker[c] == t ==> c in k.live
  {
    hide Kids, Listed;
    assert ParentLives(k, t) && ChildrenLive(k, t);
    assert t in k.pending && t in k.forker ==> PendingOf(k, k.forker[t], t);
    assert c in k.pending && c in k.forker && k.forker[c] == t ==> PendingOf(k, t, c);
  }

  /** A killed task between live neighbours that are no longer linked to each other. */
  predicate Stale(k: Kin, t: nat) {
    var p, a, b := Link(k.parent, t), Link(k.presib, t), Link(k.nxtsib, t);
    && p.Some? && p.value in k.live
    && ((a.Some? && a.value in k.live && Link(k.nxtsib, a.value) != b)
        || (b.Some? && b.value in k.live && Link(k.presib, b.value) != a))
  }

  /** A step that no lock keeps out of its wrong time: a `kill` of a task in the window of a `fork`, a `fork` begun by
      a task that is dead already, or the exit of a killed task whose neighbours have changed since. */
  ghost predicate Untimely(k: Kin, s: Step) {
    match s
    case ForkCreate(t) => t !in k.live
    case Kill(t) => InWindow(k, t)
    case Exit(t) => t !in k.live && Stale(k, t)
    case _ => false
  }

  // ----- A live task leaves --------------------------------------------------------------------

  lemma LeftParent(k: Kin, s: Step, t: nat, x: nat)
    requires Sound(k) && Enabled(k, s) && (s == Exit(t) || s == Kill(t)) && Family(k) && !InWindow(k, t)
    requires x in k.live && x != t
    ensures ParentLives(Applied(k, s), x)
  {
    hide Applied, Kids, LinksOk, Enabled, ListOk;
    LeavingFields(k, s, t);
    var k' := Applied(k, s);
    assert ParentLives(k, x);
    assert forall p | PendingOf(k', p, x) :: PendingOf(k, p, x);
    if Link(k.parent, x) == Some(t) && t in k.live {
      assert ChildrenLive(k, t);
      assert x in Kids(k, t) by {
        assert x in k.pending ==> PendingOf(k, t, x);
        OwnChild(k, t, x);
      }
    }
  }

  lemma OwnChild(k: Kin, p: nat, c: nat)
    requires Sound(k) && Link(k.parent, c) == Some(p) && c in k.live && c !in k.pending && ListOk(k, p)
    ensures c in Kids(k, p)
  {
    assert ChildOf(k, p, c);
  }

  /** No other task has t on its list. */
  lemma LeftChildren(k: Kin, s: Step, t: nat, x: nat)
    requires Sound(k) && Enabled(k, s) && (s == Exit(t) || s == Kill(t)) && Family(k) && !InWindow(k, t)
    requires x in k.live && x != t && t in k.live
    ensures ChildrenLive(Applied(k, s), x)
  {
    hide Applied, Kids, LinksOk, Enabled, ListOk, Youngest;
    LeavingFields(k, s, t);
    var k' := Applied(k, s);
    assert ChildrenLive(k, x);
    ListAfter(k, s, x);
    RemovedMembers(Kids(k, x), t) by {
      KidsDistinct(k, x);
    }
    assert forall c | PendingOf(k', x, c) :: PendingOf(k, x, c);
    KidsAreKin(k, x);
  }

  lemma LeftFamily(k: Kin, s: Step, t: nat)
    requires Sound(k) && Enabled(k, s) && (s == Exit(t) || s == Kill(t)) && Family(k) && t in k.live
    ensures Family(Applied(k, s)) <==> !InWindow(k, t)
  {
    hide Applied, Kids, LinksOk, Enabled, ListOk, Youngest;
    LeavingFields(k, s, t);
    var k' := Applied(k, s);
    if t in k.pending {
      var p := k.forker[t];
      assert PendingOf(k, p, t) && PendingOf(k', p, t);
      assert ParentLives(k, t) && !ChildrenLive(k', p);
    } else if InWindow(k, t) {
      var c :| PendingOf(k, t, c);
      assert PendingOf(k', t, c) && ChildrenLive(k, t) && !ParentLives(k', c);
    } else {
      forall x | x in k'.live
        ensures ParentLives(k', x) && ChildrenLive(k', x)
      {
        LeftParent(k, s, t, x);
        LeftChildren(k, s, t, x);
      }
    }
  }

  // ----- A killed task exits -------------------------------------------------------------------

  /** In a family the links of a live child of a live task are known: they lead to the next live ones by age. */
  lemma LinksKnown(k: Kin, p: nat, c: nat)
    requires Sound(k) && ChildrenLive(k, p) && p in k.live && ChildOf(k, p, c) && c in k.live
    ensures Link(k.nxtsib, c).Some? ==> Link(k.nxtsib, c).value in k.live
    ensures Link(k.presib, c).Some? ==> Link(k.presib, c).value in k.live
    ensures forall z: nat | ChildOf(k, p, z) && z in k.live && z < c ::
              Link(k.nxtsib, c).Some? && z <= Link(k.nxtsib, c).value
    ensures forall z: nat | ChildOf(k, p, z) && z in k.live && c < z ::
              Link(k.presib, c).Some? && Link(k.presib, c).value <= z
  {
    hide LinksOk, Kids, Youngest, Numbers;
    KidsDistinct(k, p);
    var l := Kids(k, p);
    assert c in l;
    var i :| 0 <= i < |l| && l[i] == c;
    assert LinkedAt(k.nxtsib, k.presib, l, i);
    forall z: nat | ChildOf(k, p, z) && z in k.live && z != c
      ensures exists j :: 0 <= j < |l| && l[j] == z && j != i
    {
      assert z in l;
    }
  }

  /** Two families with the same live tasks have the same links between live children. */
  lemma LinksAgree(k: Kin, k': Kin, p: nat, c: nat)
    requires Sound(k) && ChildrenLive(k, p) && Sound(k') && ChildrenLive(k', p)
    requires k'.live == k.live && k'.forker == k.forker && k'.pending == k.pending
    requires p in k.live && ChildOf(k, p, c) && c in k.live
    ensures Link(k'.nxtsib, c) == Link(k.nxtsib, c) && Link(k'.presib, c) == Link(k.presib, c)
  {
    LinksKnown(k, p, c);
    LinksKnown(k', p, c);
    hide Kids, ListOk, Youngest, Numbers;
    LinkKin(k, p, c);
    LinkKin(k', p, c);
  }

  lemma NeighboursWritten(k: Kin, t: nat)
    requires LinksOk(k) && Link(k.parent, t).Some?
    ensures var u, a, b := Unlinked(k, t), Link(k.presib, t), Link(k.nxtsib, t);
            (a.Some? ==> Link(u.nxtsib, a.value) == b) && (b.Some? ==> Link(u.presib, b.value) == a)
  {}

  lemma StaleBreaks(k: Kin, t: nat)
    requires Sound(k) && Enabled(k, Exit(t)) && Family(k) && t !in k.live && Stale(k, t)
    ensures !Family(Applied(k, Exit(t)))
  {
    hide Applied, Enabled, Unlinked, Kids, Numbers, Youngest, ChildrenLive;
    var k', p := Applied(k, Exit(t)), Link(k.parent, t).value;
    var a, b := Link(k.presib, t), Link(k.nxtsib, t);
    NeighboursWritten(k, t);
    LeavingFields(k, Exit(t), t);
    SoundKept(k, Exit(t));
    LinkKin(k, p, t);
    if Family(k') {
      assert ChildrenLive(k, p) && ChildrenLive(k', p);
      if a.Some? && a.value in k.live {
        LinksAgree(k, k', p, a.value);
      }
      if b.Some? && b.value in k.live {
        LinksAgree(k, k', p, b.value);
      }
    }
  }

  /** Neighbours that still are next to each other are linked to each other once more. */
  lemma NothingWritten(k: Kin, t: nat, p: nat)
    requires Sound(k) && Enabled(k, Exit(t)) && t !in k.live && ChildrenLive(k, p) && p in k.live
    requires Link(k.parent, t) == Some(p) && !Stale(k, t)
    ensures var u := Unlinked(k, t);
            && Link(u.chldlist, p) == Link(k.chldlist, p)
            && forall c | c in Kids(k, p) ::
                 Link(u.nxtsib, c) == Link(k.nxtsib, c) && Link(u.presib, c) == Link(k.presib, c)
  {
    UnlinkedLinks(k, t);
    KidsAreKin(k, p);
    WalkFalls(k.nxtsib, Link(k.chldlist, p));
    hide Kids, LinksOk, Numbers, Youngest;
    assert t !in Kids(k, p);
  }

  lemma HarmlessList(k: Kin, t: nat, p: nat)
    requires Sound(k) && Enabled(k, Exit(t)) && t !in k.live && ChildrenLive(k, p) && p in k.live
    requires Link(k.parent, t) == Some(p) && !Stale(k, t)
    ensures Kids(Applied(k, Exit(t)), p) == Kids(k, p) && ListOk(Applied(k, Exit(t)), p)
  {
    hide Kids, LinksOk, Numbers, Youngest, Applied, Unlinked, ListOk, Enabled;
    NothingWritten(k, t, p);
    LeavingFields(k, Exit(t), t);
    SoundKept(k, Exit(t));
    SameKids(k, Applied(k, Exit(t)), p);
    SameList(k, Applied(k, Exit(t)), p);
  }

  lemma DeadExitFamily(k: Kin, t: nat)
    requires Sound(k) && Enabled(k, Exit(t)) && Family(k) && t !in k.live
    ensures Family(Applied(k, Exit(t))) <==> !Stale(k, t)
  {
    hide Applied, Enabled, Kids, Youngest, LinksOk, ListOk, Stale;
    if Stale(k, t) {
      StaleBreaks(k, t);
    } else {
      var k' := Applied(k, Exit(t));
      LeavingFields(k, Exit(t), t);
      forall x | x in k'.live
        ensures ParentLives(k', x) && ChildrenLive(k', x)
      {
        assert ParentLives(k, x) && ChildrenLive(k, x);
        assert forall p | PendingOf(k', p, x) :: PendingOf(k, p, x);
        assert forall c | PendingOf(k', x, c) :: PendingOf(k, x, c);
        if Link(k.parent, t) == Some(x) {
          HarmlessList(k, t, x);
        } else {
          ListAfter(k, Exit(t), x);
        }
      }
    }
  }

  // ----- The other steps -----------------------------------------------------------------------

  lemma ForkedFields(k: Kin, t: nat)
    requires Sound(k)
    ensures var k', c := Applied(k, ForkCreate(t)), k.total;
            && k'.live == k.live + {c} && PendingOf(k', t, c) && Link(k'.parent, c) == None
            && (forall x: nat | x < c :: Link(k'.parent, x) == Link(k.parent, x))
            && (forall p: nat, y: nat | PendingOf(k', p, y) && y != c :: PendingOf(k, p, y) && p < c && y < c)
            && (forall p: nat | PendingOf(k', p, c) :: p == t)
  {}

  lemma ForkedFamily(k: Kin, t: nat)
    requires Sound(k) && Family(k) && Enabled(k, ForkCreate(t))
    ensures Family(Applied(k, ForkCreate(t))) <==> t in k.live
  {
    var s := ForkCreate(t);
    var k', c := Applied(k, s), k.total;
    ForkedFields(k, t);
    NewList(k, s);
    hide Kids, LinksOk, ListOk, Youngest, ParentsOk, Applied;
    forall x | x in k.live
      ensures ParentLives(k', x) && ChildrenLive(k', x)
    {
      assert ParentLives(k, x) && ChildrenLive(k, x);
      ListAfter(k, s, x);
    }
    assert ParentLives(k', c) <==> t in k.live;
  }

  lemma OthersFields(k: Kin, s: Step)
    requires Sound(k) && Enabled(k, s) && !s.ForkCreate? && !s.Exit? && !s.Kill?
    ensures var k', c := Applied(k, s), k.total;
            && k'.live == (if s.Create? then k.live + {c} else k.live)
            && (s.Create? ==> Link(k'.parent, c) == None)
            && (forall x: nat | x < c :: Link(k'.parent, x) == Link(k.parent, x)
                  || (s.ForkParent? && x == s.child && Link(k'.parent, x) == Some(s.task) && PendingOf(k, s.task, x)))
            && (forall p: nat, y: nat | PendingOf(k', p, y) :: PendingOf(k, p, y) && p < c && y < c)
            && (s.ForkInsert? ==> PendingOf(k, s.task, s.child))
  {}

  lemma OthersParent(k: Kin, s: Step, x: nat)
    requires Sound(k) && Family(k) && Enabled(k, s) && !s.ForkCreate? && !s.Exit? && !s.Kill?
    requires x in Applied(k, s).live
    ensures ParentLives(Applied(k, s), x)
  {
    OthersFields(k, s);
    hide ListOk, Kids, LinksOk, Youngest, ParentsOk, Applied, Enabled;
    assert x in k.live ==> ParentLives(k, x);
  }

  lemma OthersChildren(k: Kin, s: Step, x: nat)
    requires Sound(k) && Family(k) && Enabled(k, s) && !s.ForkCreate? && !s.Exit? && !s.Kill? && x in k.live
    ensures ChildrenLive(Applied(k, s), x)
  {
    OthersFields(k, s);
    hide ListOk, Kids, LinksOk, Youngest, ParentsOk, Applied, Enabled, ParentLives;
    assert ChildrenLive(k, x);
    ListAfter(k, s, x);
  }

  lemma CreatedFamily(k: Kin)
    requires Sound(k)
    ensures ChildrenLive(Applied(k, Create), k.total) && Applied(k, Create).live == k.live + {k.total}
  {
    NewList(k, Create);
    hide ListOk, Kids, LinksOk, Youngest, ParentsOk;
  }

  /** The steps that neither begin a `fork` nor take a task away. */
  lemma OthersFamily(k: Kin, s: Step)
    requires Sound(k) && Family(k) && Enabled(k, s) && !s.ForkCreate? && !s.Exit? && !s.Kill?
    ensures Family(Applied(k, s))
  {
    OthersFields(k, s);
    if s.Create? {
      CreatedFamily(k);
    }
    hide Sound, Applied, Enabled, ParentLives, ChildrenLive;
    forall x | x in Applied(k, s).live
      ensures ParentLives(Applied(k, s), x) && ChildrenLive(Applied(k, s), x)
    {
      OthersParent(k, s, x);
      if x in k.live {
        OthersChildren(k, s, x);
      }
    }
  }

  /** One step breaks the family exactly when it is untimely. */
  lemma FamilyAfter(k: Kin, s: Step)
    requires Sound(k) && Family(k) && Enabled(k, s)
    ensures Family(Applied(k, s)) <==> !Untimely(k, s)
  {
    hide Family, Applied, Sound, Stale, InWindow;
    match s
    case ForkCreate(t) => ForkedFamily(k, t);
    case Exit(t) =>
      if t in k.live {
        LeftFamily(k, s, t);
        assert !InWindow(k, t);
      } else {
        DeadExitFamily(k, t);
      }
    case Kill(t) => LeftFamily(k, s, t);
    case _ => OthersFamily(k, s);
  }

  // ----- Over all runs -------------------------------------------------------------------------

  lemma BootFamily()
    ensures Sound(Boot()) && Family(Boot())
  {}

  /** The parents of live tasks are live or NULL, the children of live tasks are live and their lists well-formed, all
      along a run: if and only if no step of the run is untimely. */
  lemma {:induction false} FamilyInAllRuns(steps: seq<Step>, n: nat)
    requires Run(steps) && n <= |steps|
    ensures (forall i | 0 <= i <= n :: Family(After(steps[..i])))
            <==> (forall i | 0 <= i < n :: !Untimely(After(steps[..i]), steps[i]))
  {
    hide After, Applied, Enabled, Family, Sound, Untimely;
    if n == 0 {
      BootFamily();
      AfterNone();
      assert steps[..0] == [];
    } else {
      FamilyInAllRuns(steps, n - 1);
      RunsAreSound(steps, n - 1);
      AfterNext(steps, n - 1);
      if Family(After(steps[..n - 1])) {
        FamilyAfter(After(steps[..n - 1]), steps[n - 1]);
      }
    }
  }
}
