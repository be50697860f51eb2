/** The books over the children of every task, over all interleavings of os-l3/kernel/src/uproc.c: each child put on
    a list is still there, or was killed, or left an exit record that waits or was handed out. */
module Tallies {
  import opened Kinship
  import opened LinkedList
  import opened Sequences
  import opened Wrappers

  ghost predicate Conserved(k: Kin) {
    forall p: nat | p < k.total :: Balanced(k, p)
  }

  predicate Balanced(k: Kin, p: nat) {
    var tally := TallyOf(k, p);
    tally.forked == |Kids(k, p)| + tally.waiting + tally.reaped + tally.killed
  }

  // ----- Stale links ---------------------------------------------------------------------------

  /** The link of a child x of p, on its list or off it, does not lead past z. */
  predicate DownTo(k: Kin, p: nat, x: nat, z: nat) {
    ChildOf(k, p, x) && z < x ==> Link(k.nxtsib, x).Some? && z <= Link(k.nxtsib, x).value
  }

  predicate UpTo(k: Kin, p: nat, x: nat, z: nat) {
    ChildOf(k, p, x) && x < z && Link(k.presib, x).Some? ==> Link(k.presib, x).value <= z
  }

  ghost predicate LeadsDown(k: Kin, p: nat, l: seq<nat>) {
    forall x: nat, z: nat | z in l :: DownTo(k, p, x, z)
  }

  ghost predicate LeadsUp(k: Kin, p: nat, l: seq<nat>) {
    forall x: nat, z: nat | z in l :: UpTo(k, p, x, z)
  }

  ghost predicate Leads(k: Kin, p: nat) {
    LeadsDown(k, p, Kids(k, p)) && LeadsUp(k, p, Kids(k, p))
  }

  /** A killed task that still runs is not on its parent's list. */
  ghost predicate KilledIsOff(k: Kin, t: nat) {
    t in k.runs && t !in k.live && Link(k.parent, t).Some? ==> t !in Kids(k, Link(k.parent, t).value)
  }

  ghost predicate Tidy(k: Kin) {
    && (forall p: nat | p < k.total :: ListOk(k, p))
    && (forall p: nat | p < k.total :: Leads(k, p))
    && (forall t: nat :: KilledIsOff(k, t))
  }

  lemma {:induction false} Reached(k: Kin, p: nat, l: seq<nat>, x: nat, z: nat)
    requires LinksOk(k) && LeadsDown(k, p, l) && ChildOf(k, p, x) && z in l && z <= x
    ensures z in Walk(k.nxtsib, Some(x))
    decreases x
  {
    if z < x {
      var y := Link(k.nxtsib, x);
      assert DownTo(k, p, x, z);
      assert Siblings(k, y.value, x);
      Reached(k, p, l, y.value, z);
    }
  }

  lemma HeadIsFirst(k: Kin, p: nat)
    requires LinksOk(k)
    ensures forall z | z in Kids(k, p) :: Link(k.chldlist, p).Some? && z <= Link(k.chldlist, p).value
  {
    KidsAreKin(k, p);
    WalkFalls(k.nxtsib, Link(k.chldlist, p));
  }

  /** Past a task that is not on the list. */
  lemma UnlinkedLeads(k: Kin, t: nat, p: nat, x: nat, z: nat)
    requires LinksOk(k) && ChildOf(k, p, t) && t != z
    requires DownTo(k, p, t, z) && UpTo(k, p, t, z)
    ensures DownTo(k, p, x, z) ==> DownTo(Unlinked(k, t), p, x, z)
    ensures UpTo(k, p, x, z) ==> UpTo(Unlinked(k, t), p, x, z)
  {
    hide Unlinked, LinksOk;
    UnlinkedLinks(k, t);
    LinkKin(k, p, t);
  }

  /** The exit of a killed task loses no child from the list. */
  lemma NoneLost(k: Kin, t: nat, p: nat)
    requires Sound(k) && Tidy(k) && Enabled(k, Exit(t)) && DeadExit(k, Exit(t)) && Link(k.parent, t) == Some(p)
    requires p < k.total
    ensures |Kids(k, p)| <= |Kids(Applied(k, Exit(t)), p)|
  {
    hide Applied, Unlinked, Kids, Numbers, Youngest, ListOk;
    var k', u := Applied(k, Exit(t)), Unlinked(k, t);
    assert KilledIsOff(k, t) && Leads(k, p) && ChildOf(k, p, t);
    LeavingFields(k, Exit(t), t);
    OnlyLinks(u, k', p);
    UnlinkedLinks(k, t);
    forall x: nat, z: nat | z in Kids(k, p)
      ensures DownTo(u, p, x, z)
    {
      assert DownTo(k, p, t, z) && UpTo(k, p, t, z) && DownTo(k, p, x, z);
      UnlinkedLeads(k, t, p, x, z);
    }
    HeadIsFirst(k, p);
    SameHead(k, t, p);
    KidsDistinct(k, p);
    KidsDistinct(u, p);
    KidsAreKin(k, p);
    forall z | z in Kids(k, p)
      ensures z in Kids(u, p)
    {
      assert ChildOf(k, p, Link(k.chldlist, p).value);
      Reached(u, p, Kids(k, p), Link(k.chldlist, p).value, z);
      WalkOfKids(u, p);
    }
    MoreMembers(Kids(k, p), Kids(u, p));
  }

  lemma WalkOfKids(k: Kin, p: nat)
    ensures Kids(k, p) == Walk(k.nxtsib, Link(k.chldlist, p))
  {}

  lemma SameHead(k: Kin, t: nat, p: nat)
    requires Link(k.parent, t) == Some(p) && t !in Kids(k, p)
    ensures Link(Unlinked(k, t).chldlist, p) == Link(k.chldlist, p)
  {}

  // ----- The steps that keep the lists tidy ----------------------------------------------------

  /** Links of the children of p, and its list, as before. */
  lemma SameLeads(k: Kin, k': Kin, p: nat)
    requires Leads(k, p) && Kids(k', p) == Kids(k, p)
    requires forall x: nat | ChildOf(k', p, x) ::
               ChildOf(k, p, x) && Link(k'.nxtsib, x) == Link(k.nxtsib, x) && Link(k'.presib, x) == Link(k.presib, x)
    ensures Leads(k', p)
  {
    hide Kids;
    forall x: nat, z: nat | z in Kids(k, p)
      ensures DownTo(k', p, x, z) && UpTo(k', p, x, z)
    {
      assert DownTo(k, p, x, z) && UpTo(k, p, x, z);
    }
  }

  lemma QuietLeads(k: Kin, s: Step, p: nat)
    requires Sound(k) && Enabled(k, s) && p < k.total && Leads(k, p) && !s.Exit? && !s.Kill? && !s.ForkInsert?
    ensures Leads(Applied(k, s), p)
  {
    hide Leads, Applied, Enabled, LinksOk, Kids, Youngest, ListOk, ParentsOk;
    OtherListStays(k, s, p);
    QuietFields(k, s);
    SameLeads(k, Applied(k, s), p);
  }

  lemma OtherLeadsInserted(k: Kin, t: nat, c: nat, p: nat)
    requires Sound(k) && Enabled(k, ForkInsert(t, c)) && t != p && Leads(k, p)
    ensures Leads(Inserted(k, t, c), p)
  {
    hide Leads, Kids, Youngest, ListOk, ParentsOk;
    OtherListInserted(k, t, c, p);
    assert Link(k.chldlist, t).Some? ==> ChildOf(k, t, Link(k.chldlist, t).value);
    SameLeads(k, Inserted(k, t, c), p);
  }

  lemma OwnLeadsInserted(k: Kin, t: nat, c: nat)
    requires Sound(k) && Enabled(k, ForkInsert(t, c)) && Leads(k, t)
    ensures Leads(Inserted(k, t, c), t)
  {
    hide Kids, ListOk, ParentsOk, LinksOk, Numbers;
    var k', l := Inserted(k, t, c), Kids(k, t);
    InsertedKids(k, t, c);
    InsertedSound(k, t, c);
    HeadIsFirst(k, t);
    KidsAreKin(k, t);
    forall x: nat, z: nat | z in [c] + l
      ensures DownTo(k', t, x, z) && UpTo(k', t, x, z)
    {
      if z != c {
        assert z in l && ChildOf(k, t, z) && DownTo(k, t, x, z) && UpTo(k, t, x, z);
      }
      if ChildOf(k', t, x) {
        LinkKin(k', t, x);
        assert Link(k'.presib, x).Some? && Link(k'.presib, x) != Some(c) ==> Link(k'.presib, x).value < c;
      }
    }
  }

  lemma OtherLeadsLeft(k: Kin, s: Step, t: nat, p: nat)
    requires Sound(k) && Enabled(k, s) && (s == Exit(t) || s == Kill(t)) && Leads(k, p)
    requires Link(k.parent, t) != Some(p) || t in k.pending
    ensures Leads(Applied(k, s), p)
  {
    hide Leads, Applied, Unlinked, Enabled, LinksOk, Kids, Youngest, Numbers, ListOk, ParentsOk;
    OtherListLeft(k, s, t, p);
    LeavingFields(k, s, t);
    UnlinkedLinks(k, t);
    forall x: nat | ChildOf(k, p, x)
      ensures Link(Unlinked(k, t).nxtsib, x) == Link(k.nxtsib, x)
      ensures Link(Unlinked(k, t).presib, x) == Link(k.presib, x)
    {
      WrittenLinks(k, t, x);
    }
    SameLeads(k, Applied(k, s), p);
  }

  lemma OwnLeadsLeft(k: Kin, s: Step, t: nat, p: nat)
    requires Sound(k) && Enabled(k, s) && (s == Exit(t) || s == Kill(t)) && Leads(k, p) && ListOk(k, p)
    requires Link(k.parent, t) == Some(p) && t !in k.pending && t in k.live
    ensures Leads(Applied(k, s), p)
  {
    hide Applied, Unlinked, Enabled, LinksOk, Kids, Youngest, Numbers, DownTo, UpTo;
    OwnListLeft(k, s, t, p);
    LeavingFields(k, s, t);
    UnlinkedLinks(k, t);
    RemovedMembers(Kids(k, p), t) by {
      KidsDistinct(k, p);
    }
    assert ChildOf(k, p, t);
    forall x: nat, z: nat | z in Removed(Kids(k, p), t)
      ensures DownTo(Applied(k, s), p, x, z) && UpTo(Applied(k, s), p, x, z)
    {
      assert DownTo(k, p, t, z) && UpTo(k, p, t, z) && DownTo(k, p, x, z) && UpTo(k, p, x, z);
      UnlinkedLeads(k, t, p, x, z);
      LinksOnly(Unlinked(k, t), Applied(k, s), p, x, z);
    }
  }

  lemma LinksOnly(k: Kin, k': Kin, p: nat, x: nat, z: nat)
    requires k'.nxtsib == k.nxtsib && k'.presib == k.presib && k'.forker == k.forker && k'.pending == k.pending
    ensures DownTo(k, p, x, z) ==> DownTo(k', p, x, z)
    ensures UpTo(k, p, x, z) ==> UpTo(k', p, x, z)
  {}

  lemma LeadsAfter(k: Kin, s: Step, p: nat)
    requires Sound(k) && Tidy(k) && Enabled(k, s) && !DeadExit(k, s) && p < k.total
    ensures Leads(Applied(k, s), p)
  {
    hide Enabled, LinksOk, Kids, Youngest, LeadsDown, LeadsUp, ListOk, Left;
    assert ListOk(k, p) && Leads(k, p);
    match s
    case ForkInsert(t, c) =>
      if t == p {
        OwnLeadsInserted(k, t, c);
      } else {
        OtherLeadsInserted(k, t, c, p);
      }
    case Exit(t) => LeavingLeads(k, s, t, p);
    case Kill(t) => LeavingLeads(k, s, t, p);
    case _ => QuietLeads(k, s, p);
  }

  lemma LeavingLeads(k: Kin, s: Step, t: nat, p: nat)
    requires Sound(k) && Tidy(k) && Enabled(k, s) && (s == Exit(t) || s == Kill(t)) && !DeadExit(k, s) && p < k.total
    ensures Leads(Applied(k, s), p)
  {
    hide Applied, LinksOk, Kids, Youngest, Numbers, LeadsDown, LeadsUp, ListOk, Left;
    assert ListOk(k, p) && Leads(k, p);
    if Link(k.parent, t) == Some(p) && t !in k.pending {
      OwnLeadsLeft(k, s, t, p);
    } else {
      OtherLeadsLeft(k, s, t, p);
    }
  }

  lemma KilledStaysOff(k: Kin, s: Step, t: nat)
    requires Sound(k) && Tidy(k) && Enabled(k, s) && !DeadExit(k, s)
    ensures KilledIsOff(Applied(k, s), t)
  {
    hide Kids, LinksOk, Youngest, LeadsDown, LeadsUp, ListOk, Left, Applied;
    var k' := Applied(k, s);
    if t in k'.runs && t !in k'.live && Link(k'.parent, t).Some? {
      var p := Link(k'.parent, t).value;
      KilledBefore(k, s, t);
      assert KilledIsOff(k, t) && ListOk(k, p);
      ListAfter(k, s, p);
      RemovedMembers(Kids(k, p), t) by {
        KidsDistinct(k, p);
      }
      if s.Kill? || s.Exit? {
        RemovedMembers(Kids(k, p), s.task) by {
          KidsDistinct(k, p);
        }
      }
    }
  }

  /** A killed task that runs has been running and is off, or is killed by this step. */
  lemma KilledBefore(k: Kin, s: Step, t: nat)
    requires Sound(k) && Enabled(k, s)
    requires t in Applied(k, s).runs && t !in Applied(k, s).live && Link(Applied(k, s).parent, t).Some?
    ensures t in k.runs && Link(k.parent, t) == Link(Applied(k, s).parent, t) && Link(k.parent, t).value < k.total
    ensures t !in k.live || s == Kill(t)
    ensures s.ForkInsert? ==> s.child != t
  {
    hide Kids, LinksOk, Youngest, Left;
    if s.Exit? || s.Kill? {
      LeavingFields(k, s, s.task);
    }
  }

  lemma TidyKept(k: Kin, s: Step)
    requires Sound(k) && Tidy(k) && Enabled(k, s) && !DeadExit(k, s)
    ensures Tidy(Applied(k, s))
  {
    var k' := Applied(k, s);
    forall t: nat
      ensures KilledIsOff(k', t)
    {
      KilledStaysOff(k, s, t);
    }
    forall p: nat | p < k'.total
      ensures ListOk(k', p) && Leads(k', p)
    {
      if p < k.total {
        assert ListOk(k, p);
        ListAfter(k, s, p);
        LeadsAfter(k, s, p);
      } else {
        NewList(k, s);
      }
    }
  }

  // ----- The books -----------------------------------------------------------------------------

  lemma RemovedLength(k: Kin, p: nat, t: nat)
    requires LinksOk(k)
    ensures |Removed(Kids(k, p), t)| == |Kids(k, p)| - (if t in Kids(k, p) then 1 else 0)
  {
    KidsDistinct(k, p);
    hide Kids, LinksOk;
    var l := Kids(k, p);
    if t in l {
      var i :| 0 <= i < |l| && l[i] == t;
      RemovedAt(l, i);
    } else {
      RemovedNone(l, t);
    }
  }

  /** Who of the leaving tasks is on the list of its parent. */
  lemma LeavingKid(k: Kin, s: Step, t: nat)
    requires Sound(k) && Tidy(k) && Enabled(k, s) && (s == Exit(t) || s == Kill(t)) && !DeadExit(k, s)
    requires Link(k.parent, t).Some?
    ensures t in Kids(k, Link(k.parent, t).value) <==> t !in k.pending
    ensures s.Exit? ==> t !in k.pending
  {
    hide Kids;
    var p := Link(k.parent, t).value;
    assert ListOk(k, p);
    KidsAreKin(k, p);
    if t !in k.pending {
      assert ChildOf(k, p, t);
    }
  }

  /** The books of p after a step. */
  function NewTally(k: Kin, s: Step, p: nat): Tally {
    var books := TallyOf(k, p);
    match s
    case ForkInsert(t, c) => if t == p then books.(forked := books.forked + 1) else books
    case Exit(t) => if Link(k.parent, t) == Some(p) then books.(waiting := books.waiting + 1) else books
    case Kill(t) =>
      if Link(k.parent, t) == Some(p) && t !in k.pending then books.(killed := books.killed + 1) else books
    case Reap(t) =>
      if t == p && books.waiting > 0 then books.(waiting := books.waiting - 1, reaped := books.reaped + 1) else books
    case _ => books
  }

  lemma TallyAfter(k: Kin, s: Step, p: nat)
    requires p < k.total
    ensures TallyOf(Applied(k, s), p) == NewTally(k, s, p)
    ensures !s.Create? && !s.ForkCreate? ==> Applied(k, s).total == k.total
  {}

  lemma BalancedAfter(k: Kin, s: Step, p: nat)
    requires Sound(k) && Tidy(k) && Enabled(k, s) && !DeadExit(k, s) && p < k.total && Balanced(k, p)
    ensures Balanced(Applied(k, s), p)
  {
    assert ListOk(k, p) && LinksOk(k);
    hide Kids, LinksOk, ListOk, Tidy, Applied, TallyOf, Sound;
    ListAfter(k, s, p);
    TallyAfter(k, s, p);
    if (s.Exit? || s.Kill?) && Link(k.parent, s.task) == Some(p) {
      LeavingKid(k, s, s.task);
      RemovedLength(k, p, s.task);
    }
  }

  lemma DeadExitUnbalances(k: Kin, s: Step)
    requires Sound(k) && Tidy(k) && Conserved(k) && Enabled(k, s) && DeadExit(k, s)
    ensures !Conserved(Applied(k, s))
  {
    hide Kids, LinksOk, Tidy, Applied, Youngest, TallyOf;
    var p := Link(k.parent, s.task).value;
    assert p < k.total && Balanced(k, p);
    NoneLost(k, s.task, p);
    TallyAfter(k, s, p);
    assert !Balanced(Applied(k, s), p);
  }

  /** One step unbalances the books exactly when a killed task exits that has a parent. */
  lemma ConservedAfter(k: Kin, s: Step)
    requires Sound(k) && Tidy(k) && Conserved(k) && Enabled(k, s)
    ensures Conserved(Applied(k, s)) <==> !DeadExit(k, s)
  {
    hide Enabled, Tidy, Sound, Balanced, DeadExit;
    var k' := Applied(k, s);
    if DeadExit(k, s) {
      DeadExitUnbalances(k, s);
    } else {
      forall p: nat | p < k'.total
        ensures Balanced(k', p)
      {
        if p < k.total {
          assert Balanced(k, p);
          BalancedAfter(k, s, p);
        } else {
          NewBalanced(k, s);
        }
      }
    }
  }

  lemma NewBalanced(k: Kin, s: Step)
    requires Sound(k) && Enabled(k, s) && (s.Create? || s.ForkCreate?)
    ensures Balanced(Applied(k, s), k.total)
  {
    NewList(k, s);
  }

  lemma {:induction false} TidyRun(steps: seq<Step>, n: nat)
    requires Run(steps) && n <= |steps| && forall i | 0 <= i < n :: !DeadExit(After(steps[..i]), steps[i])
    ensures Tidy(After(steps[..n]))
  {
    hide Applied, Enabled, Sound, After, Tidy, DeadExit;
    if n == 0 {
      BootTidy();
      assert steps[..0] == [];
    } else {
      TidyRun(steps, n - 1);
      RunsAreSound(steps, n - 1);
      AfterNext(steps, n - 1);
      TidyKept(After(steps[..n - 1]), steps[n - 1]);
    }
  }

  lemma BootTidy()
    ensures After([]) == Boot() && Tidy(Boot()) && Conserved(Boot())
  {}

  /** All along a run every child that was ever put on a list is there, or was killed, or left one record: if and only
      if no killed task of the run exits that has a parent. */
  lemma {:induction false} ConservedInAllRuns(steps: seq<Step>, n: nat)
    requires Run(steps) && n <= |steps|
    ensures (forall i | 0 <= i <= n :: Conserved(After(steps[..i])))
            <==> (forall i | 0 <= i < n :: !DeadExit(After(steps[..i]), steps[i]))
  {
    hide Applied, Enabled, Sound, After, Tidy, Conserved, DeadExit;
    if n == 0 {
      BootTidy();
      assert steps[..0] == [];
    } else {
      ConservedInAllRuns(steps, n - 1);
      AfterNext(steps, n - 1);
      if forall i | 0 <= i < n - 1 :: !DeadExit(After(steps[..i]), steps[i]) {
        TidyRun(steps, n - 1);
        RunsAreSound(steps, n - 1);
        ConservedAfter(After(steps[..n - 1]), steps[n - 1]);
      }
    }
  }
}
