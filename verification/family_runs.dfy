/** Runs of os-l3/kernel/src/uproc.c that break the family or the books, and what stays of the damage. */
module FamilyRuns {
  import opened Families
  import opened Kinship
  import opened LinkedList
  import opened Sequences
  import opened Tallies
  import opened Wrappers

  /** A live task with a dead parent that is not NULL. */
  predicate Adrift(k: Kin, p: nat, c: nat) {
    c in k.live && p !in k.live && Link(k.parent, c) == Some(p)
  }

  lemma AdriftMeans(k: Kin, p: nat, c: nat)
    requires Adrift(k, p, c)
    ensures c in k.live && p !in k.live && c in k.parent && k.parent[c] == Some(p)
  {}

  /** A dead child on the list of its parent. */
  predicate Stuck(k: Kin, p: nat, c: nat) {
    c !in k.live && c in Kids(k, p)
  }

  // ----- What an untimely step leaves behind ---------------------------------------------------

  /** The rest of a `fork`. */
  function Finished(k: Kin, p: nat, c: nat): Kin {
    var written := if Link(k.parent, c) == None then Applied(k, ForkParent(p, c)) else k;
    Applied(written, ForkInsert(p, c))
  }

  lemma FinishedKids(k: Kin, p: nat, c: nat)
    requires Sound(k) && PendingOf(k, p, c)
    ensures var k' := Finished(k, p, c);
            k'.live == k.live && Link(k'.parent, c) == Some(p) && c in Kids(k', p)
  {
    hide Kids, LinksOk, Youngest;
    ForkGoesOn(k, p, c);
    if Link(k.parent, c) == None {
      SoundKept(k, ForkParent(p, c));
      InsertedKids(Applied(k, ForkParent(p, c)), p, c);
    } else {
      InsertedKids(k, p, c);
    }
  }

  /** A `kill` anywhere in the window, before or after the write of the parent: of the forking task, or of its
      child. */
  lemma KilledInWindow(k: Kin, p: nat, c: nat)
    requires Sound(k) && PendingOf(k, p, c) && c in k.live
    ensures p in k.live ==> Adrift(Finished(Applied(k, Kill(p)), p, c), p, c)
    ensures Stuck(Finished(Applied(k, Kill(c)), p, c), p, c)
  {
    hide Kids, LinksOk, Youngest, Applied, Finished;
    SoundKept(k, Kill(c));
    LeavingFields(k, Kill(c), c);
    FinishedKids(Applied(k, Kill(c)), p, c);
    if p in k.live {
      SoundKept(k, Kill(p));
      LeavingFields(k, Kill(p), p);
      FinishedKids(Applied(k, Kill(p)), p, c);
    }
  }

  lemma AdriftStays(k: Kin, s: Step, p: nat, c: nat)
    requires Sound(k) && Enabled(k, s) && Adrift(k, p, c)
    ensures Adrift(Applied(k, s), p, c) <==> s != Exit(c) && s != Kill(c) && !(s == Exit(p) && c in Kids(k, p))
  {
    hide Kids, LinksOk, Youngest, Left;
    if s.Exit? || s.Kill? {
      LeavingFields(k, s, s.task);
      KidsAreKin(k, s.task);
    }
  }

  lemma StuckStays(k: Kin, s: Step, p: nat, c: nat)
    requires Sound(k) && Enabled(k, s) && Stuck(k, p, c) && ListOk(k, p) && p < k.total
    requires DeadExit(k, s) ==> Link(k.parent, s.task) != Some(p)
    ensures Stuck(Applied(k, s), p, c) && ListOk(Applied(k, s), p)
  {
    hide Kids, LinksOk, Youngest, Left, ListOk;
    ListAfter(k, s, p);
    KidsAreKin(k, p);
    if s.Exit? || s.Kill? {
      LeavingFields(k, s, s.task);
      KidsDistinct(k, p);
      RemovedMembers(Kids(k, p), s.task);
    }
  }

  /** Neither goes away again. A task adrift gets its parent cleared by one step only, the exit of that very parent when
      it was killed inside of `fork` and runs on; a dead child stays on a well-formed list, so that `wait` never answers
      -1, unless a killed sibling exits as well. */
  lemma DamageStays(k: Kin, s: Step, p: nat, c: nat)
    requires Sound(k) && Enabled(k, s)
    ensures Adrift(k, p, c) ==>
              (Adrift(Applied(k, s), p, c) <==> s != Exit(c) && s != Kill(c) && !(s == Exit(p) && c in Kids(k, p)))
    ensures Stuck(k, p, c) && ListOk(k, p) && p < k.total && (DeadExit(k, s) ==> Link(k.parent, s.task) != Some(p)) ==>
              Stuck(Applied(k, s), p, c) && ListOk(Applied(k, s), p)
  {
    hide Sound, Enabled, Applied, Kids, ListOk, Adrift, Stuck;
    if Adrift(k, p, c) {
      AdriftStays(k, s, p, c);
    }
    if Stuck(k, p, c) && ListOk(k, p) && p < k.total && (DeadExit(k, s) ==> Link(k.parent, s.task) != Some(p)) {
      StuckStays(k, s, p, c);
    }
  }

  // ----- The exit of a killed task between stale neighbours ------------------------------------

  /** The rest of a list behind node c hangs on the link of c. */
  lemma {:induction false} WalkThrough(next: Links, next': Links, head: Option<nat>, c: nat)
    requires Falling(next) && Falling(next') && c in Walk(next, head)
    requires forall x: nat | x > c :: Link(next', x) == Link(next, x)
    ensures c in Walk(next', head) && (Link(next', c).Some? ==> Link(next', c).value in Walk(next', head))
    decreases if head.Some? then head.value + 1 else 0
  {
    WalkFalls(next, head);
    if head.value != c {
      WalkThrough(next, next', Link(next, head.value), c);
    } else if Link(next', c).Some? {
      assert Walk(next', Link(next', c))[0] == Link(next', c).value;
    }
  }

  /** A child leaves a well-formed list: its own links stay, and those of its siblings off the list. */
  lemma OneLeaves(k: Kin, s: Step, p: nat, x: nat)
    requires Sound(k) && ListOk(k, p) && p < k.total && x in Kids(k, p) && x in k.live
    requires Enabled(k, s) && (s == Exit(x) || s == Kill(x)) && Link(k.parent, x) == Some(p)
    ensures var k' := Applied(k, s);
            && Sound(k') && ListOk(k', p) && Kids(k', p) == Removed(Kids(k, p), x)
            && k'.live == k.live - {x} && k'.total == k.total && k'.forker == k.forker && k'.pending == k.pending
            && (forall y | ChildOf(k, p, y) :: Link(k'.parent, y) == Link(k.parent, y))
            && (forall y | ChildOf(k, p, y) && (y == x || y !in Kids(k, p)) ::
                  Link(k'.nxtsib, y) == Link(k.nxtsib, y) && Link(k'.presib, y) == Link(k.presib, y))
  {
    hide Kids, LinksOk, Youngest, Applied, Unlinked;
    SoundKept(k, s);
    ListAfter(k, s, p);
    LeavingFields(k, s, x);
    KidsAreKin(k, x);
    UnlinkedLinks(k, x);
    var i :| 0 <= i < |Kids(k, p)| && Kids(k, p)[i] == x;
    Neighbours(k.nxtsib, k.presib, Link(k.chldlist, p), Kids(k, p), i);
    LinkKin(k, p, x) by {
      KidsAreKin(k, p);
    }
  }

  /** Three siblings next to each other, the middle one at place i. */
  predicate InRow(k: Kin, p: nat, i: nat, c: nat, t: nat, a: nat) {
    && 0 < i < |Kids(k, p)| - 1 && Kids(k, p)[i - 1] == c && Kids(k, p)[i] == t && Kids(k, p)[i + 1] == a
    && t in k.live && a in k.live && Link(k.parent, t) == Some(p) && Link(k.parent, a) == Some(p)
  }

  lemma RowLinks(k: Kin, p: nat, i: nat, c: nat, t: nat, a: nat)
    requires LinksOk(k) && ListOk(k, p) && InRow(k, p, i, c, t, a)
    ensures Link(k.nxtsib, t) == Some(a) && Link(k.presib, t) == Some(c) && c != t && c != a && t != a
    ensures c in Kids(k, p) && t in Kids(k, p) && a in Kids(k, p) && ChildOf(k, p, t) && Distinct(Kids(k, p))
  {
    KidsDistinct(k, p);
    KidsAreKin(k, p);
    hide LinksOk, Kids;
    assert LinkedAt(k.nxtsib, k.presib, Kids(k, p), i);
  }

  /** The middle one is killed. */
  lemma KilledMiddle(k: Kin, p: nat, i: nat, c: nat, t: nat, a: nat)
    requires Sound(k) && ListOk(k, p) && p < k.total && InRow(k, p, i, c, t, a)
    ensures var k1 := Applied(k, Kill(t));
            && Sound(k1) && ListOk(k1, p) && p < k1.total && c in Kids(k1, p) && a in Kids(k1, p) && t !in Kids(k1, p)
            && k1.live == k.live - {t} && ChildOf(k1, p, t) && Distinct(Kids(k1, p))
            && Link(k1.nxtsib, t) == Some(a) && Link(k1.presib, t) == Some(c)
            && Link(k1.parent, t) == Some(p) && Link(k1.parent, a) == Some(p)
  {
    RowLinks(k, p, i, c, t, a);
    KidsAreKin(k, p);
    hide Kids, LinksOk, Youngest, Applied, Enabled, ParentsOk, Numbers;
    KillEnabled(k, t);
    OneLeaves(k, Kill(t), p, t);
    RemovedMembers(Kids(k, p), t);
    KidsDistinct(Applied(k, Kill(t)), p);
  }

  /** And the last one exits. */
  lemma KilledBetween(k: Kin, p: nat, i: nat, c: nat, t: nat, a: nat)
    requires Sound(k) && ListOk(k, p) && p < k.total && InRow(k, p, i, c, t, a)
    requires Enabled(Applied(k, Kill(t)), Exit(a))
    ensures var k2 := Applied(Applied(k, Kill(t)), Exit(a));
            && Sound(k2) && ListOk(k2, p) && c in Kids(k2, p) && a !in Kids(k2, p) && t !in Kids(k2, p)
            && k2.live == k.live - {t, a}
            && Link(k2.nxtsib, t) == Some(a) && Link(k2.presib, t) == Some(c) && Link(k2.parent, t) == Some(p)
  {
    RowLinks(k, p, i, c, t, a);
    KilledMiddle(k, p, i, c, t, a);
    hide Kids, Sound, ListOk, Applied, Enabled;
    var k1 := Applied(k, Kill(t));
    OneLeaves(k1, Exit(a), p, a);
    RemovedMembers(Kids(k1, p), a);
  }

  lemma KillEnabled(k: Kin, t: nat)
    requires t in k.live
    ensures Enabled(k, Kill(t))
  {}

  /** Then t exits and hangs the dead a behind c again. */
  lemma HungAgain(k: Kin, p: nat, c: nat, t: nat, a: nat)
    requires Sound(k) && Enabled(k, Exit(t)) && Link(k.parent, t) == Some(p)
    requires c in Kids(k, p) && Link(k.presib, t) == Some(c) && Link(k.nxtsib, t) == Some(a)
    requires t !in Kids(k, p)
    ensures a in Kids(Applied(k, Exit(t)), p)
  {
    hide Kids, LinksOk, Youngest, Applied, Unlinked, Enabled, Numbers;
    var u := Unlinked(k, t);
    SameHead(k, t, p);
    UnlinkedLinks(k, t);
    NeighboursWritten(k, t);
    LeavingFields(k, Exit(t), t);
    OnlyLinks(u, Applied(k, Exit(t)), p);
    KidsAreKin(k, p);
    KidsAreKin(u, p);
    WalkOfKids(k, p);
    WalkOfKids(u, p);
    WalkThrough(k.nxtsib, u.nxtsib, Link(k.chldlist, p), c);
  }

  lemma StillFree(k: Kin, s: Step, x: nat, t: nat)
    requires Sound(k) && (s == Exit(x) || (s == Kill(x))) && (s == Exit(x) ==> t != x) && Free(k, t)
    ensures Free(Applied(k, s), t)
  {
    hide Kids, LinksOk, Youngest, Applied, Unlinked;
    LeavingFields(k, s, x);
    assert forall c | PendingOf(Applied(k, s), t, c) :: PendingOf(k, t, c);
  }

  lemma NextOnList(k: Kin, p: nat, c: nat)
    requires ListOk(k, p) && c in Kids(k, p)
    ensures Link(k.nxtsib, c).Some? ==> Link(k.nxtsib, c).value in Kids(k, p)
  {
    var i :| 0 <= i < |Kids(k, p)| && Kids(k, p)[i] == c;
    Neighbours(k.nxtsib, k.presib, Link(k.chldlist, p), Kids(k, p), i);
  }

  lemma BothExit(k: Kin, t: nat, a: nat)
    requires Sound(k) && Free(k, t) && Free(k, a) && t != a && t in k.live
    ensures var k1 := Applied(k, Kill(t)); Enabled(k1, Exit(a)) && Enabled(Applied(k1, Exit(a)), Exit(t))
  {
    hide Applied, Sound, Free;
    var k1 := Applied(k, Kill(t));
    KillEnabled(k, t);
    SoundKept(k, Kill(t));
    StillFree(k, Kill(t), t, a);
    StillFree(k, Kill(t), t, t);
    StillFree(k1, Exit(a), a, t);
  }

  /** `kill` takes t out from between c and a, a exits, and then t itself, which another processor was running, goes on
      with its exit: the dead a is on the list of p again. */
  lemma KilledInExit(k: Kin, p: nat, i: nat, c: nat, t: nat, a: nat)
    requires Sound(k) && ListOk(k, p) && p < k.total && InRow(k, p, i, c, t, a) && Free(k, t) && Free(k, a)
    ensures var k1 := Applied(k, Kill(t));
            var k2 := Applied(k1, Exit(a));
            && Enabled(k1, Exit(a)) && Enabled(k2, Exit(t)) && k1.live == k.live - {t} && k2.live == k.live - {t, a}
            && ListOk(k2, p) && a !in Kids(k2, p) && Stuck(Applied(k2, Exit(t)), p, a)
            && DeadExit(k2, Exit(t)) && (p in k2.live && c in k2.live ==> Untimely(k2, Exit(t)))
  {
    RowLinks(k, p, i, c, t, a);
    BothExit(k, t, a);
    StillDead(k, Kill(t), a);
    hide Kids, Applied, Enabled, Sound, ListOk, Free, InRow;
    var k2 := Applied(Applied(k, Kill(t)), Exit(a));
    KilledBetween(k, p, i, c, t, a);
    NextOnList(k2, p, c);
    HungAgain(k2, p, c, t, a);
    StillDead(k2, Exit(t), a);
  }

  lemma StillDead(k: Kin, s: Step, a: nat)
    requires s.Exit? || s.Kill?
    ensures Applied(k, s).live == k.live - {s.task} && (a !in k.live ==> a !in Applied(k, s).live)
  {}

  // ----- Two runs from boot --------------------------------------------------------------------

  /** A run without an untimely step and without the exit of a killed task that has a parent. */
  ghost predicate Timely(steps: seq<Step>) {
    Run(steps) && forall i | 0 <= i < |steps| ::
      !Untimely(After(steps[..i]), steps[i]) && !DeadExit(After(steps[..i]), steps[i])
  }

  lemma RunGrows(steps: seq<Step>, s: Step)
    requires Run(steps) && Enabled(After(steps), s)
    ensures var steps' := steps + [s];
            && Run(steps') && After(steps') == Applied(After(steps), s)
            && (Timely(steps) && !Untimely(After(steps), s) && !DeadExit(After(steps), s) ==> Timely(steps'))
  {
    hide Enabled, Applied, Untimely, DeadExit;
    var steps' := steps + [s];
    assert steps'[..|steps|] == steps;
    forall i | 0 <= i < |steps'|
      ensures Enabled(After(steps'[..i]), steps'[i])
      ensures Timely(steps) && !Untimely(After(steps), s) && !DeadExit(After(steps), s) ==>
                !Untimely(After(steps'[..i]), steps'[i]) && !DeadExit(After(steps'[..i]), steps'[i])
    {
      assert i < |steps| ==> steps'[..i] == steps[..i];
    }
  }

  lemma RunIsSound(steps: seq<Step>)
    requires Run(steps)
    ensures Sound(After(steps))
  {
    RunsAreSound(steps, |steps|);
    assert steps[..|steps|] == steps;
  }

  /** The state after `fork` by t, undisturbed. */
  ghost predicate Forked(k: Kin, t: nat, k': Kin) {
    && k'.total == k.total + 1 && k'.live == k.live + {k.total} && Link(k'.parent, k.total) == Some(t)
    && (forall x: nat | x < k.total :: Link(k'.parent, x) == Link(k.parent, x))
    && Kids(k', t) == [k.total] + Kids(k, t) && ListOk(k', t)
    && Free(k', k.total) && (forall x | Free(k, x) :: Free(k', x))
  }

  /** Before the insertion. */
  lemma ForkBegun(k: Kin, t: nat)
    requires Sound(k) && Free(k, t) && t in k.live && ListOk(k, t)
    ensures var s1, s2, s3 := ForkCreate(t), ForkParent(t, k.total), ForkInsert(t, k.total);
            var k1 := Applied(k, s1);
            var k2 := Applied(k1, s2);
            && Enabled(k, s1) && Enabled(k1, s2) && Enabled(k2, s3) && !Untimely(k, s1)
            && Sound(k2) && Kids(k2, t) == Kids(k, t) && ListOk(k2, t)
  {
    hide Kids, LinksOk, ListOk, Youngest, ParentsOk;
    var k1 := Applied(k, ForkCreate(t));
    SoundKept(k, ForkCreate(t));
    ListAfter(k, ForkCreate(t), t);
    assert PendingOf(k1, t, k.total);
    SoundKept(k1, ForkParent(t, k.total));
    ListAfter(k1, ForkParent(t, k.total), t);
    assert PendingOf(Applied(k1, ForkParent(t, k.total)), t, k.total);
  }

  lemma ForkFields(k: Kin, t: nat)
    requires Sound(k) && Free(k, t) && t in k.live
    ensures var k2 := Applied(Applied(k, ForkCreate(t)), ForkParent(t, k.total));
            && k2.total == k.total + 1 && k2.live == k.live + {k.total} && Link(k2.parent, k.total) == Some(t)
            && (forall x: nat | x < k.total :: Link(k2.parent, x) == Link(k.parent, x))
            && k2.runs == k.runs && k2.pending == k.pending + {k.total} && k2.forker == k.forker[k.total := t]
  {}

  /** Nobody else is held up. */
  lemma ForkFrees(k: Kin, t: nat, k3: Kin)
    requires Sound(k) && Free(k, t) && k3.runs == k.runs + {k.total} && k3.pending == k.pending
    requires k3.forker == k.forker[k.total := t]
    ensures Free(k3, k.total) && forall x | Free(k, x) :: Free(k3, x)
  {
    forall x | Free(k, x)
      ensures Free(k3, x)
    {
      assert forall c | PendingOf(k3, x, c) :: PendingOf(k, x, c);
    }
    assert forall c | PendingOf(k3, k.total, c) :: PendingOf(k, k.total, c);
  }

  lemma Forks(k: Kin, t: nat)
    requires Sound(k) && Free(k, t) && t in k.live && ListOk(k, t)
    ensures var k2 := Applied(Applied(k, ForkCreate(t)), ForkParent(t, k.total));
            Forked(k, t, Applied(k2, ForkInsert(t, k.total)))
  {
    var k2 := Applied(Applied(k, ForkCreate(t)), ForkParent(t, k.total));
    ForkBegun(k, t);
    ForkFields(k, t);
    hide Kids, ListOk, Youngest, ParentsOk, LinksOk;
    ListAfter(k2, ForkInsert(t, k.total), t);
    ForkFrees(k, t, Applied(k2, ForkInsert(t, k.total)));
  }

  function ForkSteps(t: nat, c: nat): seq<Step> {
    [ForkCreate(t), ForkParent(t, c), ForkInsert(t, c)]
  }

  lemma RunForks(steps: seq<Step>, t: nat)
    requires Run(steps) && Free(After(steps), t) && t in After(steps).live && ListOk(After(steps), t)
    ensures var c := After(steps).total;
            && Run(steps + ForkSteps(t, c)) && Forked(After(steps), t, After(steps + ForkSteps(t, c)))
            && (Timely(steps) ==> Timely(steps + ForkSteps(t, c)))
  {
    hide After, Run, Applied, Enabled, Forked, Free, ListOk;
    RunIsSound(steps);
    var k, c := After(steps), After(steps).total;
    ForkBegun(k, t);
    Forks(k, t);
    RunGrows(steps, ForkCreate(t));
    RunGrows(steps + [ForkCreate(t)], ForkParent(t, c));
    RunGrows(steps + [ForkCreate(t)] + [ForkParent(t, c)], ForkInsert(t, c));
    assert steps + [ForkCreate(t)] + [ForkParent(t, c)] + [ForkInsert(t, c)] == steps + ForkSteps(t, c);
  }

  lemma FirstTask()
    ensures Run([Create]) && Timely([Create])
    ensures var k := After([Create]); Free(k, 0) && k.live == {0} && k.total == 1 && ListOk(k, 0) && Kids(k, 0) == []
  {
    hide ListOk, Kids;
    AfterNone();
    NewList(Boot(), Create);
    assert [Create][..0] == [] && [] + [Create] == [Create];
    assert Run([]) && Timely([]);
    RunGrows([], Create);
  }

  /** A `kill` of the forking task between the write of the parent and the insertion. */
  lemma KilledWriting(k: Kin, p: nat, c: nat)
    requires Sound(k) && PendingOf(k, p, c) && Link(k.parent, c) == Some(p) && c in k.live && p in k.live
    ensures Enabled(k, Kill(p)) && Enabled(Applied(k, Kill(p)), ForkInsert(p, c))
    ensures var k' := Applied(Applied(k, Kill(p)), ForkInsert(p, c));
            Adrift(k', p, c) && c in Kids(k', p)
  {
    hide Kids, LinksOk, Youngest, Left;
    SoundKept(k, Kill(p));
    LeavingFields(k, Kill(p), p);
    KidsAreKin(k, p);
    InsertedKids(Applied(k, Kill(p)), p, c);
  }

  /** All of a `fork` with a `kill` of its task in between. */
  lemma KilledForking(k: Kin, t: nat)
    requires Sound(k) && Free(k, t) && t in k.live && ListOk(k, t)
    ensures var c := k.total;
            var k1 := Applied(k, ForkCreate(t));
            var k2 := Applied(k1, ForkParent(t, c));
            var k3 := Applied(k2, Kill(t));
            var k4 := Applied(k3, ForkInsert(t, c));
            && Enabled(k, ForkCreate(t)) && Enabled(k1, ForkParent(t, c)) && Enabled(k2, Kill(t))
            && Enabled(k3, ForkInsert(t, c)) && Adrift(k4, t, c) && c in Kids(k4, t)
  {
    hide Kids, ListOk, Sound, Applied, Enabled, Free, Adrift;
    ForkBegun(k, t);
    ForkFields(k, t);
    KilledWriting(Applied(Applied(k, ForkCreate(t)), ForkParent(t, k.total)), t, k.total);
  }

  function KillInWindow(): seq<Step> {
    [ForkCreate(0), ForkParent(0, 2), Kill(0), ForkInsert(0, 2)]
  }

  lemma FirstChild()
    ensures var k := After([Create] + ForkSteps(0, 1));
            Run([Create] + ForkSteps(0, 1)) && Sound(k) && Free(k, 0) && 0 in k.live && ListOk(k, 0) && k.total == 2
  {
    hide After, Run, Kids, ListOk, Sound, Timely, Free;
    FirstTask();
    RunForks([Create], 0);
    RunIsSound([Create] + ForkSteps(0, 1));
  }

  /** The first task is killed by its first child while it forks a second one. */
  lemma KilledInFork()
    ensures var steps := [Create] + ForkSteps(0, 1) + KillInWindow();
            && Run(steps) && Adrift(After(steps), 0, 2) && 2 in Kids(After(steps), 0)
            && var k := After(steps); 2 in k.live && 0 !in k.live && 2 in k.parent && k.parent[2] == Some(0)
  {
    hide After, Run, Kids, ListOk, Sound, Applied, Timely, Enabled, Free, Adrift, ForkSteps, Untimely, DeadExit;
    FirstChild();
    var first := [Create] + ForkSteps(0, 1);
    KilledForking(After(first), 0);
    RunGrows(first, ForkCreate(0));
    RunGrows(first + [ForkCreate(0)], ForkParent(0, 2));
    RunGrows(first + [ForkCreate(0)] + [ForkParent(0, 2)], Kill(0));
    RunGrows(first + [ForkCreate(0)] + [ForkParent(0, 2)] + [Kill(0)], ForkInsert(0, 2));
    assert first + [ForkCreate(0)] + [ForkParent(0, 2)] + [Kill(0)] + [ForkInsert(0, 2)] == first + KillInWindow();
    AdriftMeans(After(first + KillInWindow()), 0, 2);
  }

  function ThreeForks(): seq<Step> {
    [Create] + ForkSteps(0, 1) + ForkSteps(0, 2) + ForkSteps(0, 3)
  }

  /** The first task has the children 3, 2 and 1. */
  lemma ThreeChildren()
    ensures Run(ThreeForks()) && Timely(ThreeForks())
    ensures var k := After(ThreeForks());
            && k.live == {0, 1, 2, 3} && 0 < k.total && ListOk(k, 0) && Kids(k, 0) == [3, 2, 1]
            && Free(k, 1) && Free(k, 2)
            && Link(k.parent, 1) == Some(0) && Link(k.parent, 2) == Some(0)
  {
    hide After, Timely, Run, Kids, ListOk, Free;
    FirstTask();
    RunForks([Create], 0);
    RunForks([Create] + ForkSteps(0, 1), 0);
    RunForks([Create] + ForkSteps(0, 1) + ForkSteps(0, 2), 0);
  }

  /** In this family task 2 is killed, 1 exits, and 2 exits. */
  lemma SecondExits(k: Kin)
    requires Sound(k) && 0 < k.total && ListOk(k, 0) && Kids(k, 0) == [3, 2, 1] && k.live == {0, 1, 2, 3}
    requires Free(k, 1) && Free(k, 2) && Link(k.parent, 1) == Some(0) && Link(k.parent, 2) == Some(0)
    ensures Enabled(k, Kill(2)) && !Untimely(k, Kill(2))
    ensures var k1 := Applied(k, Kill(2));
            var k2 := Applied(k1, Exit(1));
            var k3 := Applied(k2, Exit(2));
            && Enabled(k1, Exit(1)) && !Untimely(k1, Exit(1)) && !DeadExit(k1, Exit(1))
            && Enabled(k2, Exit(2)) && Untimely(k2, Exit(2)) && DeadExit(k2, Exit(2))
            && 0 in k3.live && Stuck(k3, 0, 1)
  {
    hide Kids, ListOk, Applied, Sound;
    KilledInExit(k, 0, 1, 3, 2, 1);
    StillDead(Applied(Applied(k, Kill(2)), Exit(1)), Exit(2), 1);
  }

  /** No `fork` is disturbed. Task 2 is killed on its way into `exit`, its older sibling exits before it gets the lock,
      and its own exit brings the dead sibling back and leaves a record of a task that was killed. */
  lemma KilledExitRun()
    ensures var steps, last := ThreeForks() + [Kill(2)] + [Exit(1)], ThreeForks() + [Kill(2)] + [Exit(1)] + [Exit(2)];
            && Timely(steps) && Run(last) && Untimely(After(steps), Exit(2)) && DeadExit(After(steps), Exit(2))
            && 0 in After(last).live && Stuck(After(last), 0, 1) && !Conserved(After(last))
            && 1 !in After(last).live && 1 in Kids(After(last), 0)
            && forall i | 0 <= i < |steps| ::
                 !Untimely(After(steps[..i]), steps[i]) && !DeadExit(After(steps[..i]), steps[i])
  {
    ThreeChildren();
    RunIsSound(ThreeForks());
    SecondExits(After(ThreeForks()));
    hide ThreeForks, After, Run, Timely, Enabled, Applied, Untimely, Stuck, Conserved, Sound;
    RunGrows(ThreeForks(), Kill(2));
    RunGrows(ThreeForks() + [Kill(2)], Exit(1));
    var steps := ThreeForks() + [Kill(2)] + [Exit(1)];
    RunGrows(steps, Exit(2));
    RunIsSound(steps);
    TimelyBooks(steps);
    ConservedAfter(After(steps), Exit(2));
  }

  lemma TimelyBooks(steps: seq<Step>)
    requires Run(steps) && Timely(steps)
    ensures Tidy(After(steps)) && Conserved(After(steps))
  {
    TidyRun(steps, |steps|);
    ConservedInAllRuns(steps, |steps|);
    assert steps[..|steps|] == steps;
  }
}
