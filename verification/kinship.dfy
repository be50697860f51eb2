/** Who is whose child while tasks fork, exit and are killed in os-l3/kernel/src/uproc.c, down to the links of the
    lists of children. `exit` and `kill` are steps, since what they do to the family they do under `wait_lk`; an
    insertion during their walk over a task's children is at the front of the list, which the walk has passed. `fork`
    is three steps: the child is created, its parent is written under no lock, and it is put on its parent's list
    under the lock of that list only. Steps of other tasks come in between. `kill` only marks its victim, which
    another processor may be running: a killed task goes on with its `fork` or its `exit`. */
module Kinship {
  import opened LinkedList
  import opened Sequences
  import opened Wrappers

  /** What became of the children a task has put on its list; `waiting` counts the exit records on its list. */
  datatype Tally = Tally(forked: nat, waiting: nat, reaped: nat, killed: nat)

  datatype Kin = Kin(
    /** `Total_Nr`; process ids are never used twice. */
    total: nat,
    /** The tasks that are not dead. */
    live: set<nat>,
    /** The tasks that have started and not exited; a killed one may still stand on its processor. */
    runs: set<nat>,
    parent: Links,
    chldlist: Links,
    nxtsib: Links,
    presib: Links,
    /** Who created a task by `fork`. */
    forker: map<nat, nat>,
    /** The children that a `fork` has created and not put on its list yet. */
    pending: set<nat>,
    tally: map<nat, Tally>)

  datatype Step =
    | Create
    | ForkCreate(task: nat)
    | ForkParent(task: nat, child: nat)
    | ForkInsert(task: nat, child: nat)
    | Exit(task: nat)
    | Kill(task: nat)
    | Reap(task: nat)

  /** The children that a loop over the list of task p meets. */
  function Kids(k: Kin, p: nat): seq<nat> {
    Walk(k.nxtsib, Link(k.chldlist, p))
  }

  function TallyOf(k: Kin, p: nat): Tally {
    if p in k.tally then k.tally[p] else Tally(0, 0, 0, 0)
  }

  /** The parents of a list of tasks set to NULL. */
  function Orphaned(parent: Links, l: seq<nat>): Links {
    map t | t in parent :: if t in l then None else parent[t]
  }

  /** The listed tasks, and no others, have no parent any more. */
  lemma OrphanedMeans(parent: Links, l: seq<nat>, c: nat)
    requires c in parent
    ensures c in Orphaned(parent, l) && Orphaned(parent, l)[c] == if c in l then None else parent[c]
    ensures Orphaned(parent, l).Keys == parent.Keys
  {}

  function Created(k: Kin): Kin {
    var t := k.total;
    k.(total := t + 1, live := k.live + {t}, parent := k.parent[t := None], chldlist := k.chldlist[t := None],
       nxtsib := k.nxtsib[t := None], presib := k.presib[t := None], tally := k.tally[t := Tally(0, 0, 0, 0)])
  }

  /** The heads of the lists once task t is off the list of p. */
  function DetachedHeads(p: nat, chldlist: Links, nxtsib: Links, t: nat): Links {
    if Link(chldlist, p) == Some(t) then chldlist[p := Link(nxtsib, t)] else chldlist
  }

  /** Task t taken out between the neighbours that it knows of, which may be neighbours of long ago. */
  function Unlinked(k: Kin, t: nat): Kin {
    var p := Link(k.parent, t);
    if p == None then k
    else
      k.(nxtsib := UnlinkedNext(k.nxtsib, k.presib, t), presib := UnlinkedPrev(k.nxtsib, k.presib, t),
         chldlist := DetachedHeads(p.value, k.chldlist, k.nxtsib, t))
  }

  /** What `exit` and `kill` do: the task leaves its parent's list, its children lose their parent, and it is dead. */
  function Left(k: Kin, t: nat): Kin {
    var u := Unlinked(k, t);
    u.(live := u.live - {t}, parent := Orphaned(u.parent, Kids(u, t)))
  }

  function Inserted(k: Kin, t: nat, c: nat): Kin {
    var tally := TallyOf(k, t);
    k.(nxtsib := PushedNext(k.nxtsib, Link(k.chldlist, t), c), presib := PushedPrev(k.presib, Link(k.chldlist, t), c),
       chldlist := k.chldlist[t := Some(c)], pending := k.pending - {c},
       runs := if c in k.live then k.runs + {c} else k.runs,
       tally := k.tally[t := tally.(forked := tally.forked + 1)])
  }

  /** The books of the parent after an exit or a kill of task t: a record, or none. */
  function ExitTally(k: Kin, t: nat): map<nat, Tally> {
    var p := Link(k.parent, t);
    if p == None then k.tally
    else k.tally[p.value := TallyOf(k, p.value).(waiting := TallyOf(k, p.value).waiting + 1)]
  }

  function KillTally(k: Kin, t: nat): map<nat, Tally> {
    var p := Link(k.parent, t);
    if p == None || t in k.pending then k.tally
    else k.tally[p.value := TallyOf(k, p.value).(killed := TallyOf(k, p.value).killed + 1)]
  }

  function ReapTally(k: Kin, t: nat): map<nat, Tally> {
    var tally := TallyOf(k, t);
    if tally.waiting == 0 then k.tally
    else k.tally[t := tally.(waiting := tally.waiting - 1, reaped := tally.reaped + 1)]
  }

  function Applied(k: Kin, s: Step): Kin {
    match s
    case Create => Created(k).(runs := k.runs + {k.total})
    case ForkCreate(t) => Created(k).(forker := k.forker[k.total := t], pending := k.pending + {k.total})
    case ForkParent(t, c) => k.(parent := k.parent[c := Some(t)])
    case ForkInsert(t, c) => Inserted(k, t, c)
    case Exit(t) => Left(k, t).(runs := k.runs - {t}, tally := ExitTally(k, t))
    case Kill(t) => Left(k, t).(tally := KillTally(k, t))
    case Reap(t) => k.(tally := ReapTally(k, t))
  }

  predicate PendingOf(k: Kin, t: nat, c: nat) {
    c in k.pending && c in k.forker && k.forker[c] == t
  }

  /** A child of p that was put on the list of p, whether it still is there or not. */
  predicate ChildOf(k: Kin, p: nat, c: nat) {
    c in k.forker && k.forker[c] == p && c !in k.pending
  }

  /** The task stands inside a `fork` whose child is not on the list yet, or is that child. */
  ghost predicate InWindow(k: Kin, t: nat) {
    t in k.pending || exists c :: PendingOf(k, t, c)
  }

  /** A task that may begin a system call; one in the middle of `fork` does nothing else. */
  ghost predicate Free(k: Kin, t: nat) {
    t in k.runs && !InWindow(k, t)
  }

  /** A task forks, exits and waits for its children while it may run and stands in no fork of its own; any live
      task may be killed, wherever it stands. */
  lemma EnabledMeans(k: Kin, t: nat)
    ensures Enabled(k, Create) && (Enabled(k, Kill(t)) <==> t in k.live)
    ensures Enabled(k, Exit(t)) <==>
              t in k.runs && t !in k.pending && forall c | c in k.pending && c in k.forker :: k.forker[c] != t
    ensures Enabled(k, ForkCreate(t)) <==> Enabled(k, Exit(t))
    ensures Enabled(k, Reap(t)) <==> Enabled(k, Exit(t)) && t in k.tally && k.tally[t].waiting > 0
    ensures forall c: nat | c in k.parent ::
              (Enabled(k, ForkParent(t, c)) <==>
                 c in k.pending && c in k.forker && k.forker[c] == t && k.parent[c] == None)
                && (Enabled(k, ForkInsert(t, c)) <==>
                      c in k.pending && c in k.forker && k.forker[c] == t && k.parent[c] == Some(t))
  {
    forall c | c in k.pending && c in k.forker && k.forker[c] == t
      ensures InWindow(k, t)
    {
      assert PendingOf(k, t, c);
    }
  }

  ghost predicate Enabled(k: Kin, s: Step) {
    match s
    case Create => true
    case ForkCreate(t) => Free(k, t)
    case ForkParent(t, c) => PendingOf(k, t, c) && Link(k.parent, c) == None
    case ForkInsert(t, c) => PendingOf(k, t, c) && Link(k.parent, c) == Some(t)
    case Exit(t) => Free(k, t)
    case Kill(t) => t in k.live
    case Reap(t) => Free(k, t) && TallyOf(k, t).waiting > 0
  }

  // ----- What every step keeps -----------------------------------------------------------------

  ghost predicate Numbers(k: Kin) {
    && (forall t: nat | t < k.total ::
          t in k.parent && t in k.chldlist && t in k.nxtsib && t in k.presib && t in k.tally)
    && (forall t | t in k.live :: t < k.total)
    && (forall t | t in k.runs :: t < k.total && t !in k.pending)
    && (forall c | c in k.pending :: c in k.forker)
    && (forall c | c in k.forker :: k.forker[c] < c < k.total)
  }

  /** A task creates one child at a time. */
  ghost predicate Youngest(k: Kin) {
    forall c, x | c in k.pending && c in k.forker && x in k.forker && k.forker[x] == k.forker[c] :: x <= c
  }

  predicate Siblings(k: Kin, older: nat, younger: nat) {
    older < younger && older in k.forker && ChildOf(k, k.forker[older], older) && ChildOf(k, k.forker[older], younger)
  }

  /** Links lead from child to child of one task, by age: no run ties a list into a ring. */
  ghost predicate LinksOk(k: Kin) {
    && (forall x: nat | Link(k.nxtsib, x).Some? :: Siblings(k, Link(k.nxtsib, x).value, x))
    && (forall x: nat | Link(k.presib, x).Some? :: Siblings(k, x, Link(k.presib, x).value))
    && (forall p: nat | Link(k.chldlist, p).Some? :: ChildOf(k, p, Link(k.chldlist, p).value))
  }

  /** The parent is the forking task or NULL; it is not NULL while the forking task lives. */
  ghost predicate ParentsOk(k: Kin) {
    && (forall c: nat | Link(k.parent, c).Some? :: c in k.forker && Link(k.parent, c).value == k.forker[c])
    && (forall c | c in k.forker && c !in k.pending && k.forker[c] in k.live :: Link(k.parent, c) == Some(k.forker[c]))
  }

  ghost predicate Sound(k: Kin) {
    Numbers(k) && Youngest(k) && LinksOk(k) && ParentsOk(k)
  }

  /** A walk over a list meets children of its task only, and ends. */
  lemma {:induction false} WalkKin(k: Kin, p: nat, head: Option<nat>)
    requires LinksOk(k) && (head.Some? ==> ChildOf(k, p, head.value))
    ensures forall c | c in Walk(k.nxtsib, head) :: ChildOf(k, p, c)
    decreases if head.Some? then head.value + 1 else 0
  {
    if head.Some? {
      var y := Link(k.nxtsib, head.value);
      assert y.Some? ==> Siblings(k, y.value, head.value);
      WalkKin(k, p, y);
    }
  }

  lemma KidsAreKin(k: Kin, p: nat)
    requires LinksOk(k)
    ensures Falling(k.nxtsib) && (forall c | c in Kids(k, p) :: ChildOf(k, p, c))
  {
    assert forall x: nat | Link(k.nxtsib, x).Some? :: Siblings(k, Link(k.nxtsib, x).value, x);
    WalkKin(k, p, Link(k.chldlist, p));
  }

  lemma LinkKin(k: Kin, p: nat, c: nat)
    requires LinksOk(k) && ChildOf(k, p, c)
    ensures Link(k.nxtsib, c).Some? ==> Link(k.nxtsib, c).value < c && ChildOf(k, p, Link(k.nxtsib, c).value)
    ensures Link(k.presib, c).Some? ==> c < Link(k.presib, c).value && ChildOf(k, p, Link(k.presib, c).value)
  {
    assert Link(k.nxtsib, c).Some? ==> Siblings(k, Link(k.nxtsib, c).value, c);
    assert Link(k.presib, c).Some? ==> Siblings(k, c, Link(k.presib, c).value);
  }

  lemma UnlinkedLinks(k: Kin, t: nat)
    requires LinksOk(k)
    ensures Unlinked(k, t).forker == k.forker && Unlinked(k, t).pending == k.pending
    ensures LinksOk(Unlinked(k, t)) && (t in k.pending ==> Unlinked(k, t) == k)
    ensures forall x: nat | Link(Unlinked(k, t).nxtsib, x) != Link(k.nxtsib, x) ::
              Link(k.presib, t) == Some(x) && Link(Unlinked(k, t).nxtsib, x) == Link(k.nxtsib, t)
    ensures forall x: nat | Link(Unlinked(k, t).presib, x) != Link(k.presib, x) ::
              Link(k.nxtsib, t) == Some(x) && Link(Unlinked(k, t).presib, x) == Link(k.presib, t)
  {
    var a, b := Link(k.presib, t), Link(k.nxtsib, t);
    assert a.Some? ==> Siblings(k, t, a.value);
    assert b.Some? ==> Siblings(k, b.value, t);
    var u := Unlinked(k, t);
    forall x: nat | Link(u.nxtsib, x).Some?
      ensures Siblings(u, Link(u.nxtsib, x).value, x)
    {
      assert Link(k.nxtsib, x).Some? ==> Siblings(k, Link(k.nxtsib, x).value, x);
    }
    forall x: nat | Link(u.presib, x).Some?
      ensures Siblings(u, x, Link(u.presib, x).value)
    {
      assert Link(k.presib, x).Some? ==> Siblings(k, x, Link(k.presib, x).value);
    }
    forall p: nat | Link(u.chldlist, p).Some?
      ensures ChildOf(u, p, Link(u.chldlist, p).value)
    {
      assert Link(k.chldlist, p).Some? ==> ChildOf(k, p, Link(k.chldlist, p).value);
    }
  }

  /** The nodes that an unlinking writes are children of the same parent. */
  lemma WrittenLinks(k: Kin, t: nat, x: nat)
    requires LinksOk(k) && ParentsOk(k)
    ensures Link(Unlinked(k, t).nxtsib, x) != Link(k.nxtsib, x) || Link(Unlinked(k, t).presib, x) != Link(k.presib, x)
            ==> Link(k.parent, t).Some? && ChildOf(k, Link(k.parent, t).value, x)
  {
    hide Unlinked;
    UnlinkedLinks(k, t);
    var a, b := Link(k.presib, t), Link(k.nxtsib, t);
    assert a.Some? ==> Siblings(k, t, a.value);
    assert b.Some? ==> Siblings(k, b.value, t);
    if Link(k.parent, t) == None {
      NothingUnlinked(k, t);
    }
  }

  lemma NothingUnlinked(k: Kin, t: nat)
    requires Link(k.parent, t) == None
    ensures Unlinked(k, t) == k
  {}

  /** Of other tasks' lists nothing changes, not even through a stale link. */
  lemma OthersUnlinked(k: Kin, t: nat, q: nat)
    requires LinksOk(k) && ParentsOk(k) && Link(k.parent, t) != Some(q)
    ensures Link(Unlinked(k, t).chldlist, q) == Link(k.chldlist, q) && Kids(Unlinked(k, t), q) == Kids(k, q)
    ensures forall c | c in Kids(k, q) ::
              && Link(Unlinked(k, t).nxtsib, c) == Link(k.nxtsib, c)
              && Link(Unlinked(k, t).presib, c) == Link(k.presib, c)
  {
    OtherHead(k, t, q);
    hide Unlinked, LinksOk, ParentsOk;
    KidsAreKin(k, q);
    forall c | c in Kids(k, q)
      ensures Link(Unlinked(k, t).nxtsib, c) == Link(k.nxtsib, c)
      ensures Link(Unlinked(k, t).presib, c) == Link(k.presib, c)
    {
      WrittenLinks(k, t, c);
    }
    WalkFrame(k.nxtsib, Unlinked(k, t).nxtsib, Link(k.chldlist, q));
  }

  lemma OtherHead(k: Kin, t: nat, q: nat)
    requires Link(k.parent, t) != Some(q)
    ensures Link(Unlinked(k, t).chldlist, q) == Link(k.chldlist, q)
  {}

  lemma CreatedLinks(k: Kin, s: Step)
    requires LinksOk(k) && k.total !in k.forker && (s.Create? || s.ForkCreate?)
    ensures LinksOk(Applied(k, s))
  {
    var k' := Applied(k, s);
    assert forall p: nat, c: nat | ChildOf(k, p, c) :: ChildOf(k', p, c);
    forall x: nat | Link(k'.nxtsib, x).Some?
      ensures Siblings(k', Link(k'.nxtsib, x).value, x)
    {
      assert Siblings(k, Link(k.nxtsib, x).value, x);
    }
    forall x: nat | Link(k'.presib, x).Some?
      ensures Siblings(k', x, Link(k'.presib, x).value)
    {
      assert Siblings(k, x, Link(k.presib, x).value);
    }
    forall p: nat | Link(k'.chldlist, p).Some?
      ensures ChildOf(k', p, Link(k'.chldlist, p).value)
    {
      assert ChildOf(k, p, Link(k.chldlist, p).value);
    }
  }

  lemma CreatedParents(k: Kin, s: Step)
    requires ParentsOk(k) && Numbers(k) && Enabled(k, s) && (s.Create? || s.ForkCreate?)
    ensures ParentsOk(Applied(k, s)) && Numbers(Applied(k, s))
  {}

  lemma CreatedYoungest(k: Kin, s: Step)
    requires Youngest(k) && Numbers(k) && Enabled(k, s) && (s.Create? || s.ForkCreate?)
    ensures Youngest(Applied(k, s))
  {
    var k' := Applied(k, s);
    forall c, x | c in k'.pending && c in k'.forker && x in k'.forker && k'.forker[x] == k'.forker[c]
      ensures x <= c
    {
      assert s.ForkCreate? && x == k.total && c != k.total ==> PendingOf(k, s.task, c);
    }
  }

  lemma InsertedLinks(k: Kin, t: nat, c: nat)
    requires LinksOk(k) && Youngest(k) && PendingOf(k, t, c)
    ensures LinksOk(Inserted(k, t, c))
  {
    var k', head := Inserted(k, t, c), Link(k.chldlist, t);
    assert head.Some? ==> ChildOf(k, t, head.value);
    forall x: nat | Link(k'.nxtsib, x).Some?
      ensures Siblings(k', Link(k'.nxtsib, x).value, x)
    {
      assert x != c ==> Siblings(k, Link(k.nxtsib, x).value, x);
    }
    forall x: nat | Link(k'.presib, x).Some?
      ensures Siblings(k', x, Link(k'.presib, x).value)
    {
      assert Link(k.presib, x).Some? ==> Siblings(k, x, Link(k.presib, x).value);
    }
    forall p: nat | Link(k'.chldlist, p).Some?
      ensures ChildOf(k', p, Link(k'.chldlist, p).value)
    {
      assert Link(k.chldlist, p).Some? ==> ChildOf(k, p, Link(k.chldlist, p).value);
    }
  }

  lemma InsertedSound(k: Kin, t: nat, c: nat)
    requires Sound(k) && PendingOf(k, t, c) && Link(k.parent, c) == Some(t)
    ensures Sound(Inserted(k, t, c))
  {
    hide LinksOk;
    InsertedLinks(k, t, c);
  }

  /** What leaving changes, and what it leaves alone. */
  lemma LeftFields(k: Kin, t: nat)
    requires Sound(k)
    ensures var u, k' := Unlinked(k, t), Left(k, t);
            && k' == k.(live := k.live - {t}, parent := Orphaned(k.parent, Kids(k, t)), nxtsib := u.nxtsib,
                        presib := u.presib, chldlist := u.chldlist)
            && (forall c: nat :: Link(k'.parent, c) == if c in Kids(k, t) then None else Link(k.parent, c))
  {
    OthersUnlinked(k, t, t);
  }

  lemma LeftLinks(k: Kin, t: nat)
    requires Sound(k)
    ensures LinksOk(Left(k, t))
  {
    hide Unlinked, Left, Kids;
    UnlinkedLinks(k, t);
    LeftFields(k, t);
    SameLinks(Unlinked(k, t), Left(k, t));
  }

  lemma SameLinks(k: Kin, k': Kin)
    requires LinksOk(k) && k'.forker == k.forker && k'.pending == k.pending
    requires k'.nxtsib == k.nxtsib && k'.presib == k.presib && k'.chldlist == k.chldlist
    ensures LinksOk(k')
  {
    forall x: nat | Link(k'.nxtsib, x).Some?
      ensures Siblings(k', Link(k'.nxtsib, x).value, x)
    {
      assert Siblings(k, Link(k.nxtsib, x).value, x);
    }
    forall x: nat | Link(k'.presib, x).Some?
      ensures Siblings(k', x, Link(k'.presib, x).value)
    {
      assert Siblings(k, x, Link(k.presib, x).value);
    }
    forall p: nat | Link(k'.chldlist, p).Some?
      ensures ChildOf(k', p, Link(k'.chldlist, p).value)
    {
      assert ChildOf(k, p, Link(k.chldlist, p).value);
    }
  }

  /** After a kill in the window and the exit of a killed task as well. */
  lemma SoundKept(k: Kin, s: Step)
    requires Sound(k) && Enabled(k, s)
    ensures Sound(Applied(k, s))
  {
    hide LinksOk, Left, Kids;
    match s
    case Create =>
      CreatedLinks(k, s);
      CreatedParents(k, s);
      CreatedYoungest(k, s);
    case ForkCreate(t) =>
      CreatedLinks(k, s);
      CreatedParents(k, s);
      CreatedYoungest(k, s);
    case ForkParent(t, c) => SameLinks(k, Applied(k, s));
    case ForkInsert(t, c) => InsertedSound(k, t, c);
    case Exit(t) => LeavingSound(k, s, t);
    case Kill(t) => LeavingSound(k, s, t);
    case Reap(t) => SameLinks(k, Applied(k, s));
  }

  lemma LeavingParents(k: Kin, s: Step, t: nat)
    requires Sound(k) && Enabled(k, s) && (s == Exit(t) || s == Kill(t))
    ensures ParentsOk(Applied(k, s))
  {
    hide LinksOk, Left, Kids;
    LeftFields(k, t);
    KidsAreKin(k, t);
  }

  lemma LeavingSound(k: Kin, s: Step, t: nat)
    requires Sound(k) && Enabled(k, s) && (s == Exit(t) || s == Kill(t))
    ensures Sound(Applied(k, s))
  {
    hide LinksOk, Left, Kids;
    LeftLinks(k, t);
    LeftFields(k, t);
    SameLinks(Left(k, t), Applied(k, s));
    LeavingParents(k, s, t);
  }

  /** A `fork` is never stuck: exactly one of its steps is next. */
  lemma ForkGoesOn(k: Kin, t: nat, c: nat)
    requires Sound(k) && PendingOf(k, t, c)
    ensures Enabled(k, ForkParent(t, c)) <==> !Enabled(k, ForkInsert(t, c))
  {}

  // ----- The lists of children -----------------------------------------------------------------

  /** The list of p is linked both ways and holds every live child that has p as its parent. */
  ghost predicate ListOk(k: Kin, p: nat) {
    && Listed(k.nxtsib, k.presib, Link(k.chldlist, p), Kids(k, p))
    && (forall c | ChildOf(k, p, c) && c in k.live && Link(k.parent, c) == Some(p) :: c in Kids(k, p))
  }

  /** The exit of a killed task that has a parent: `kill` took it off its parent's list, and its links are those of
      then. */
  predicate DeadExit(k: Kin, s: Step) {
    s.Exit? && s.task !in k.live && Link(k.parent, s.task).Some?
  }

  /** What a step should do to the list of p. */
  function NewKids(k: Kin, s: Step, p: nat): seq<nat> {
    match s
    case ForkInsert(t, c) => if t == p then [c] + Kids(k, p) else Kids(k, p)
    case Exit(t) => if Link(k.parent, t) == Some(p) then Removed(Kids(k, p), t) else Kids(k, p)
    case Kill(t) => if Link(k.parent, t) == Some(p) then Removed(Kids(k, p), t) else Kids(k, p)
    case _ => Kids(k, p)
  }

  lemma SameKids(k: Kin, k': Kin, p: nat)
    requires LinksOk(k) && Link(k'.chldlist, p) == Link(k.chldlist, p)
    requires forall c | c in Kids(k, p) :: Link(k'.nxtsib, c) == Link(k.nxtsib, c)
    ensures Kids(k', p) == Kids(k, p)
  {
    KidsAreKin(k, p);
    WalkFrame(k.nxtsib, k'.nxtsib, Link(k.chldlist, p));
  }

  lemma SameList(k: Kin, k': Kin, p: nat)
    requires Sound(k) && Sound(k') && ListOk(k, p) && Kids(k', p) == Kids(k, p)
    requires Link(k'.chldlist, p) == Link(k.chldlist, p) && k.total <= k'.total
    requires forall c | c in Kids(k, p) ::
               Link(k'.nxtsib, c) == Link(k.nxtsib, c) && Link(k'.presib, c) == Link(k.presib, c)
    requires forall c | ChildOf(k', p, c) && c in k'.live && Link(k'.parent, c) == Some(p) ::
               ChildOf(k, p, c) && c in k.live && Link(k.parent, c) == Some(p)
    ensures ListOk(k', p)
  {
    hide LinksOk, ParentsOk, Youngest, Kids;
    KidsAreKin(k, p);
    forall i | 0 <= i < |Kids(k, p)|
      ensures LinkedAt(k'.nxtsib, k'.presib, Kids(k, p), i)
    {
      assert LinkedAt(k.nxtsib, k.presib, Kids(k, p), i) && Kids(k, p)[i] in Kids(k, p);
      assert ChildOf(k, p, Kids(k, p)[i]);
    }
  }

  lemma InsertedKids(k: Kin, t: nat, c: nat)
    requires Sound(k) && PendingOf(k, t, c)
    ensures c !in Kids(k, t) && Kids(Inserted(k, t, c), t) == [c] + Kids(k, t)
  {
    var k', head := Inserted(k, t, c), Link(k.chldlist, t);
    hide Sound, Inserted;
    InsertedHead(k, t, c);
    KidsAreKin(k, t);
    WalkFrame(k.nxtsib, k'.nxtsib, head);
  }

  lemma InsertedHead(k: Kin, t: nat, c: nat)
    requires Sound(k) && PendingOf(k, t, c)
    ensures LinksOk(k) && c !in Kids(k, t)
    ensures var k', head := Inserted(k, t, c), Link(k.chldlist, t);
            && Link(k'.chldlist, t) == Some(c) && Link(k'.nxtsib, c) == head && (head.Some? ==> head.value < c)
            && forall x: nat | x != c :: Link(k'.nxtsib, x) == Link(k.nxtsib, x)
  {
    KidsAreKin(k, t);
    var head := Link(k.chldlist, t);
    assert head.Some? ==> ChildOf(k, t, head.value);
  }

  lemma InsertedList(k: Kin, t: nat, c: nat)
    requires Sound(k) && PendingOf(k, t, c) && ListOk(k, t)
    ensures ListOk(Inserted(k, t, c), t)
  {
    hide Sound, Kids;
    InsertedKids(k, t, c);
    PushKeeps(k.nxtsib, k.presib, Link(k.chldlist, t), Kids(k, t), c);
  }

  /** A task on its parent's list is taken out of it. */
  lemma UnlinkedList(k: Kin, t: nat, p: nat)
    requires Sound(k) && ListOk(k, p) && t in Kids(k, p) && Link(k.parent, t) == Some(p)
    ensures Kids(Unlinked(k, t), p) == Removed(Kids(k, p), t)
    ensures var u := Unlinked(k, t); Listed(u.nxtsib, u.presib, Link(u.chldlist, p), Kids(u, p))
  {
    hide Sound, Kids;
    var l, u := Kids(k, p), Unlinked(k, t);
    var i :| 0 <= i < |l| && l[i] == t;
    UnlinkKeeps(k.nxtsib, k.presib, Link(k.chldlist, p), l, i);
    RemovedAt(l, i);
    UnlinkedFalls(k, t);
    ListedKids(u, p, Without(l, i));
  }

  lemma UnlinkedFalls(k: Kin, t: nat)
    requires Sound(k)
    ensures Falling(Unlinked(k, t).nxtsib)
  {
    hide Unlinked;
    UnlinkedLinks(k, t);
    KidsAreKin(Unlinked(k, t), t);
  }

  lemma ListedKids(k: Kin, p: nat, l: seq<nat>)
    requires Falling(k.nxtsib) && Listed(k.nxtsib, k.presib, Link(k.chldlist, p), l)
    ensures Kids(k, p) == l
  {
    WalkMeets(k.nxtsib, k.presib, Link(k.chldlist, p), l, 0);
  }

  lemma OwnListLeft(k: Kin, s: Step, t: nat, p: nat)
    requires Sound(k) && Enabled(k, s) && (s == Exit(t) || s == Kill(t)) && Link(k.parent, t) == Some(p)
    requires t in k.live && t !in k.pending && ListOk(k, p)
    ensures ListOk(Applied(k, s), p) && Kids(Applied(k, s), p) == Removed(Kids(k, p), t)
  {
    hide LinksOk, Numbers, Youngest, Unlinked, Kids, Listed;
    assert ChildOf(k, p, t);
    UnlinkedList(k, t, p);
    LeavingFields(k, s, t);
    OnlyLinks(Unlinked(k, t), Applied(k, s), p);
    RemovedMembers(Kids(k, p), t) by {
      KidsDistinct(k, p);
    }
  }

  lemma KidsDistinct(k: Kin, p: nat)
    requires LinksOk(k)
    ensures Distinct(Kids(k, p)) && Descending(Kids(k, p))
  {
    KidsAreKin(k, p);
    WalkFalls(k.nxtsib, Link(k.chldlist, p));
  }

  lemma OnlyLinks(k: Kin, k': Kin, p: nat)
    requires k'.nxtsib == k.nxtsib && k'.chldlist == k.chldlist
    ensures Kids(k', p) == Kids(k, p)
  {}

  lemma LeavingFields(k: Kin, s: Step, t: nat)
    requires Sound(k) && (s == Exit(t) || s == Kill(t))
    ensures var u, k' := Unlinked(k, t), Applied(k, s);
            && k'.nxtsib == u.nxtsib && k'.presib == u.presib && k'.chldlist == u.chldlist
            && k'.total == k.total && k'.live == k.live - {t} && k'.forker == k.forker && k'.pending == k.pending
            && k'.runs == (if s.Exit? then k.runs - {t} else k.runs)
            && (forall c: nat :: Link(k'.parent, c) == if c in Kids(k, t) then None else Link(k.parent, c))
  {
    hide Unlinked, Left, Kids;
    LeftFields(k, t);
  }

  lemma OtherListLeft(k: Kin, s: Step, t: nat, p: nat)
    requires Sound(k) && Enabled(k, s) && (s == Exit(t) || s == Kill(t))
    requires Link(k.parent, t) != Some(p) || t in k.pending
    ensures Kids(Applied(k, s), p) == Kids(k, p) && (ListOk(k, p) ==> ListOk(Applied(k, s), p))
  {
    hide LinksOk, Unlinked, Kids, Numbers, Youngest, ListOk, Applied;
    SoundKept(k, s);
    LeavingFields(k, s, t);
    if t in k.pending {
      UnlinkedLinks(k, t);
    } else {
      OthersUnlinked(k, t, p);
    }
    OnlyLinks(Unlinked(k, t), Applied(k, s), p);
    if ListOk(k, p) {
      SameList(k, Applied(k, s), p);
    }
  }

  lemma InsertedElsewhere(k: Kin, t: nat, c: nat, p: nat)
    requires LinksOk(k) && PendingOf(k, t, c) && t != p
    ensures var k' := Inserted(k, t, c);
            && Link(k'.chldlist, p) == Link(k.chldlist, p) && k'.total == k.total && k'.live == k.live
            && k'.parent == k.parent
            && (forall x | ChildOf(k', p, x) :: ChildOf(k, p, x))
            && (forall x | ChildOf(k, p, x) ::
                  Link(k'.nxtsib, x) == Link(k.nxtsib, x) && Link(k'.presib, x) == Link(k.presib, x))
  {
    assert Link(k.chldlist, t).Some? ==> ChildOf(k, t, Link(k.chldlist, t).value);
  }

  lemma OtherListInserted(k: Kin, t: nat, c: nat, p: nat)
    requires Sound(k) && Enabled(k, ForkInsert(t, c)) && t != p
    ensures Kids(Inserted(k, t, c), p) == Kids(k, p) && (ListOk(k, p) ==> ListOk(Inserted(k, t, c), p))
  {
    hide Kids, ListOk, LinksOk, Numbers, Youngest, ParentsOk, Inserted;
    InsertedSound(k, t, c);
    KidsAreKin(k, p);
    InsertedElsewhere(k, t, c, p);
    SameKids(k, Inserted(k, t, c), p);
    if ListOk(k, p) {
      SameList(k, Inserted(k, t, c), p);
    }
  }

  lemma QuietFields(k: Kin, s: Step)
    requires Numbers(k) && Enabled(k, s) && !s.Exit? && !s.Kill? && !s.ForkInsert?
    ensures var k' := Applied(k, s);
            && k.total <= k'.total
            && (forall x: nat | x < k.total :: Link(k'.nxtsib, x) == Link(k.nxtsib, x))
            && (forall x: nat | x < k.total :: Link(k'.presib, x) == Link(k.presib, x))
            && (forall x: nat | x < k.total :: Link(k'.chldlist, x) == Link(k.chldlist, x))
            && (forall p: nat, c: nat | p < k.total && ChildOf(k', p, c) :: ChildOf(k, p, c))
            && (forall c: nat | c < k.total && c in k'.live :: c in k.live)
            && (forall c: nat | c in k.forker && c !in k.pending :: Link(k'.parent, c) == Link(k.parent, c))
  {}

  lemma OtherListStays(k: Kin, s: Step, p: nat)
    requires Sound(k) && Enabled(k, s) && p < k.total && !s.Exit? && !s.Kill? && !s.ForkInsert?
    ensures Kids(Applied(k, s), p) == Kids(k, p) && (ListOk(k, p) ==> ListOk(Applied(k, s), p))
  {
    hide Kids, ListOk, LinksOk, ParentsOk, Youngest, Applied, Enabled;
    SoundKept(k, s);
    KidsAreKin(k, p);
    QuietFields(k, s);
    SameKids(k, Applied(k, s), p);
    if ListOk(k, p) {
      SameList(k, Applied(k, s), p);
    }
  }

  /** The list of a new task is empty. */
  lemma NewList(k: Kin, s: Step)
    requires Sound(k) && Enabled(k, s) && (s.Create? || s.ForkCreate?)
    ensures Kids(Applied(k, s), k.total) == [] && ListOk(Applied(k, s), k.total)
  {}

  /** A step keeps a list and changes it as it should, unless it is the exit of a killed child of p. */
  lemma ListAfter(k: Kin, s: Step, p: nat)
    requires Sound(k) && Enabled(k, s) && p < k.total && ListOk(k, p)
    requires DeadExit(k, s) ==> Link(k.parent, s.task) != Some(p)
    ensures ListOk(Applied(k, s), p) && Kids(Applied(k, s), p) == NewKids(k, s, p)
  {
    hide ListOk, LinksOk, Kids, ParentsOk, Left, Youngest;
    match s
    case Exit(t) => LeavingList(k, s, t, p);
    case Kill(t) => LeavingList(k, s, t, p);
    case ForkInsert(t, c) =>
      if t == p {
        InsertedKids(k, t, c);
        InsertedList(k, t, c);
      } else {
        OtherListInserted(k, t, c, p);
      }
    case _ => OtherListStays(k, s, p);
  }

  lemma LeavingList(k: Kin, s: Step, t: nat, p: nat)
    requires Sound(k) && Enabled(k, s) && p < k.total && ListOk(k, p) && (s == Exit(t) || s == Kill(t))
    requires DeadExit(k, s) ==> Link(k.parent, t) != Some(p)
    ensures ListOk(Applied(k, s), p) && Kids(Applied(k, s), p) == NewKids(k, s, p)
  {
    hide ListOk, LinksOk, Kids, Left, Youngest, Numbers, Applied;
    if Link(k.parent, t) == Some(p) && t !in k.pending {
      OwnListLeft(k, s, t, p);
    } else {
      OtherListLeft(k, s, t, p);
      if t in k.pending && t in Kids(k, p) {
        KidsAreKin(k, p);
      }
      RemovedMembers(Kids(k, p), t) by {
        KidsDistinct(k, p);
      }
    }
  }

  // ----- Runs ----------------------------------------------------------------------------------

  function Boot(): Kin {
    Kin(0, {}, {}, map[], map[], map[], map[], map[], {}, map[])
  }

  function After(steps: seq<Step>): Kin {
    if steps == [] then Boot()
    else Applied(After(steps[..|steps| - 1]), steps[|steps| - 1])
  }

  /** Any interleaving of the steps of any number of tasks. */
  ghost predicate Run(steps: seq<Step>) {
    forall i | 0 <= i < |steps| :: Enabled(After(steps[..i]), steps[i])
  }

  lemma AfterNone()
    ensures After([]) == Boot() && Sound(Boot())
  {}

  lemma AfterNext(steps: seq<Step>, i: nat)
    requires i < |steps|
    ensures After(steps[..i + 1]) == Applied(After(steps[..i]), steps[i])
  {
    assert steps[..i + 1][..i] == steps[..i];
  }

  lemma {:induction false} RunsAreSound(steps: seq<Step>, n: nat)
    requires Run(steps) && n <= |steps|
    ensures Sound(After(steps[..n]))
  {
    hide Applied, Enabled, Sound, After;
    if n == 0 {
      AfterNone();
      assert steps[..0] == [];
    } else {
      RunsAreSound(steps, n - 1);
      AfterNext(steps, n - 1);
      SoundKept(After(steps[..n - 1]), steps[n - 1]);
    }
  }
}
