/** The family lists and exit records of processes in os-l3/kernel/src/uproc.c. Each method is one step: a round of
    `wait`, `exit` and `kill` under `wait_lk`, and the three steps of `fork`, between which other tasks may call the
    other methods. */
module ProcessTree {
  import opened Kinship
  import opened LinkedList
  import opened Sequences
  import opened Tallies
  import opened Wrappers

  /** `xchld_t`: the record of a dead child. */
  datatype Record = Record(pid: nat, status: int)

  /** What `wait` returns in one round: a record, -1 when there is nothing to wait for, or another round
      after a yield. */
  datatype Waited = Reaped(pid: nat, status: int) | NoChild | Again

  ghost predicate Hung(total: nat, nxt: Links, pre: Links, xclist: Links, zombies: map<nat, seq<nat>>) {
    forall p: nat | p < total :: p in xclist && p in zombies && Listed(nxt, pre, xclist[p], zombies[p])
  }

  ghost predicate Apart(total: nat, zombies: map<nat, seq<nat>>) {
    && (forall p: nat | p < total :: p in zombies)
    && (forall p: nat, q: nat, r | p < total && q < total && r in zombies[p] && r in zombies[q] :: p == q)
  }

  ghost predicate Unreported(total: nat, zombies: map<nat, seq<nat>>, records: map<nat, Record>,
                             exited: map<nat, int>, reported: set<nat>) {
    forall p: nat, r | p < total && p in zombies && r in zombies[p] :: RecordOk(r, records, exited, reported)
  }

  /** The exit records: each in one list at most, and each listed one of a task whose exit has not been
      reported. */
  ghost predicate Records(total: nat, nxt: Links, pre: Links, xclist: Links, zombies: map<nat, seq<nat>>,
                          records: map<nat, Record>, exited: map<nat, int>, reported: set<nat>) {
    && Hung(total, nxt, pre, xclist, zombies) && Apart(total, zombies)
    && Unreported(total, zombies, records, exited, reported)
    && (forall r, x | r in records && x in records && records[r].pid == records[x].pid :: r == x)
    && (forall r | r in records :: records[r].pid in exited)
    && (forall t | t in reported :: t in exited)
  }

  ghost predicate RecordOk(r: nat, records: map<nat, Record>, exited: map<nat, int>, reported: set<nat>) {
    && r in records && records[r].pid in exited
    && exited[records[r].pid] == records[r].status && records[r].pid !in reported
  }

  /** Numbers are given out once; a task that may still exit has not done so. */
  ghost predicate Numbered(k: Kin, exited: map<nat, int>, records: map<nat, Record>, recordNr: nat) {
    && (forall t | t in k.runs || t in k.pending :: t !in exited)
    && (forall t | t in exited :: t < k.total)
    && (forall r | r in records :: r < recordNr)
  }

  /** The records on the lists are those of the books. */
  ghost predicate Counted(k: Kin, zombies: map<nat, seq<nat>>) {
    forall p: nat | p < k.total :: p in zombies && |zombies[p]| == TallyOf(k, p).waiting
  }

  // ----- The exit records ----------------------------------------------------------------------

  lemma RecordsCreated(total: nat, nxt: Links, pre: Links, xclist: Links, zombies: map<nat, seq<nat>>,
                       records: map<nat, Record>, exited: map<nat, int>, reported: set<nat>)
    requires Records(total, nxt, pre, xclist, zombies, records, exited, reported)
    ensures Records(total + 1, nxt, pre, xclist[total := None], zombies[total := []], records, exited, reported)
  {
    hide RecordOk, Listed;
    var xclist', zombies' := xclist[total := None], zombies[total := []];
    assert Hung(total + 1, nxt, pre, xclist', zombies') by {
      EmptyListed(nxt, pre);
    }
    assert Apart(total + 1, zombies') by {
      forall p: nat, r | p < total + 1 && r in zombies'[p]
        ensures p < total && r in zombies[p]
      {}
    }
    assert Unreported(total + 1, zombies', records, exited, reported);
  }

  lemma EmptyListed(next: Links, prev: Links)
    ensures Listed(next, prev, None, [])
  {}

  /** One list gains record r, which is on none. */
  lemma ListsPushed(total: nat, nxt: Links, pre: Links, xclist: Links, zombies: map<nat, seq<nat>>, p: nat, r: nat)
    requires Hung(total, nxt, pre, xclist, zombies) && Apart(total, zombies) && p < total
    requires forall q: nat | q < total :: r !in zombies[q]
    ensures Hung(total, PushedNext(nxt, xclist[p], r), PushedPrev(pre, xclist[p], r), xclist[p := Some(r)],
                 zombies[p := [r] + zombies[p]])
  {
    var next', prev' := PushedNext(nxt, xclist[p], r), PushedPrev(pre, xclist[p], r);
    PushKeeps(nxt, pre, xclist[p], zombies[p], r);
    assert xclist[p].Some? ==> xclist[p].value in zombies[p];
    forall q: nat | q < total && q != p
      ensures Listed(next', prev', xclist[q], zombies[q])
    {
      assert forall x | x in zombies[q] :: x != r && x !in zombies[p];
      ListedFrame(nxt, pre, next', prev', xclist[q], zombies[q]);
    }
  }

  lemma ApartPushed(total: nat, zombies: map<nat, seq<nat>>, p: nat, r: nat)
    requires Apart(total, zombies) && p < total && forall q: nat | q < total :: r !in zombies[q]
    ensures Apart(total, zombies[p := [r] + zombies[p]])
  {
    var zombies' := zombies[p := [r] + zombies[p]];
    forall q: nat, q': nat, x | q < total && q' < total && x in zombies'[q] && x in zombies'[q']
      ensures q == q'
    {
      assert x == r || (x in zombies[q] && x in zombies[q']);
      assert q != p ==> x in zombies[q];
      assert q' != p ==> x in zombies[q'];
    }
  }

  lemma RecordsExited(total: nat, nxt: Links, pre: Links, xclist: Links, zombies: map<nat, seq<nat>>,
                      records: map<nat, Record>, exited: map<nat, int>, reported: set<nat>, p: nat, r: nat, t: nat,
                      status: int)
    requires Records(total, nxt, pre, xclist, zombies, records, exited, reported)
    requires p < total && p in xclist && p in zombies && r !in records && t !in exited
    ensures Records(total, PushedNext(nxt, xclist[p], r), PushedPrev(pre, xclist[p], r), xclist[p := Some(r)],
                    zombies[p := [r] + zombies[p]], records[r := Record(t, status)], exited[t := status], reported)
  {
    hide Listed, PushedNext, PushedPrev, Hung, Apart;
    assert forall q: nat | q < total :: q in zombies && r !in zombies[q] by {
      RecordsKnown(total, nxt, pre, xclist, zombies, records, exited, reported);
    }
    ListsPushed(total, nxt, pre, xclist, zombies, p, r);
    ApartPushed(total, zombies, p, r);
    var zombies' := zombies[p := [r] + zombies[p]];
    var records', exited' := records[r := Record(t, status)], exited[t := status];
    forall q: nat, x | q < total && q in zombies' && x in zombies'[q]
      ensures RecordOk(x, records', exited', reported)
    {
      assert x == r || (x in zombies[q] && RecordOk(x, records, exited, reported));
    }
  }

  lemma RecordsKnown(total: nat, nxt: Links, pre: Links, xclist: Links, zombies: map<nat, seq<nat>>,
                     records: map<nat, Record>, exited: map<nat, int>, reported: set<nat>)
    requires Records(total, nxt, pre, xclist, zombies, records, exited, reported)
    ensures forall p: nat | p < total :: p in xclist && p in zombies
    ensures forall p: nat, x | p < total && x in zombies[p] :: x in records
  {
    forall p: nat, x | p < total && x in zombies[p]
      ensures x in records
    {
      assert RecordOk(x, records, exited, reported);
    }
  }

  lemma RecordsReaped(total: nat, nxt: Links, pre: Links, xclist: Links, zombies: map<nat, seq<nat>>,
                      records: map<nat, Record>, exited: map<nat, int>, reported: set<nat>, p: nat)
    requires Records(total, nxt, pre, xclist, zombies, records, exited, reported) && p < total && zombies[p] != []
    ensures var r := zombies[p][0];
            && xclist[p] == Some(r) && r in nxt && r in pre && r in records
            && Records(total, UnlinkedNext(nxt, pre, r), UnlinkedPrev(nxt, pre, r), xclist[p := nxt[r]],
                       zombies[p := Without(zombies[p], 0)], records, exited, reported + {records[r].pid})
  {
    var r := zombies[p][0];
    assert r in zombies[p] && RecordOk(r, records, exited, reported);
    UnlinkKeeps(nxt, pre, xclist[p], zombies[p], 0);
    Neighbours(nxt, pre, xclist[p], zombies[p], 0);
    WithoutMembers(zombies[p], 0);
    var next', prev' := UnlinkedNext(nxt, pre, r), UnlinkedPrev(nxt, pre, r);
    forall q: nat | q < total && q != p
      ensures Listed(next', prev', xclist[q], zombies[q])
    {
      assert forall x | x in zombies[q] :: x !in zombies[p];
      ListedFrame(nxt, pre, next', prev', xclist[q], zombies[q]);
    }
    var zombies' := zombies[p := Without(zombies[p], 0)];
    forall q: nat, x | q < total && x in zombies'[q]
      ensures RecordOk(x, records, exited, reported + {records[r].pid})
    {
      assert x in zombies[q] && RecordOk(x, records, exited, reported) && x != r;
    }
  }

  // ----- The books -----------------------------------------------------------------------------

  lemma NumberedKept(k: Kin, s: Step, exited: map<nat, int>, records: map<nat, Record>, recordNr: nat)
    requires Sound(k) && Enabled(k, s) && Numbered(k, exited, records, recordNr)
    ensures Numbered(Applied(k, s), exited, records, recordNr)
  {
    hide LinksOk, Kids, ParentsOk;
  }

  lemma NumberedExited(k: Kin, t: nat, exited: map<nat, int>, records: map<nat, Record>, recordNr: nat, status: int)
    requires Sound(k) && Numbered(k, exited, records, recordNr) && Free(k, t)
    ensures t !in exited && recordNr !in records
    ensures Numbered(Applied(k, Exit(t)), exited[t := status], records[recordNr := Record(t, status)], recordNr + 1)
  {
    hide LinksOk, Kids, ParentsOk;
  }

  lemma CountedKept(k: Kin, s: Step, zombies: map<nat, seq<nat>>)
    requires Counted(k, zombies) && !s.Exit? && !s.Reap? && !s.Create? && !s.ForkCreate?
    ensures Counted(Applied(k, s), zombies)
  {
    forall p: nat | p < k.total
      ensures |zombies[p]| == TallyOf(Applied(k, s), p).waiting
    {
      TallyAfter(k, s, p);
    }
  }

  lemma CountedCreated(k: Kin, s: Step, zombies: map<nat, seq<nat>>)
    requires Counted(k, zombies) && (s.Create? || s.ForkCreate?)
    ensures Counted(Applied(k, s), zombies[k.total := []])
  {}

  /** One record more, or none when there is no parent. */
  lemma CountedExited(k: Kin, t: nat, zombies: map<nat, seq<nat>>, r: nat)
    requires Sound(k) && Enabled(k, Exit(t)) && Counted(k, zombies)
    ensures Link(k.parent, t) == None ==> Counted(Applied(k, Exit(t)), zombies)
    ensures Link(k.parent, t).Some? ==>
              var p := Link(k.parent, t).value;
              p < k.total && p in zombies && Counted(Applied(k, Exit(t)), zombies[p := [r] + zombies[p]])
  {
    hide LinksOk, Youngest, TallyOf, Applied;
    LeavingRest(k, Exit(t), t);
    forall p: nat | p < k.total
      ensures TallyOf(Applied(k, Exit(t)), p) == NewTally(k, Exit(t), p)
    {
      TallyAfter(k, Exit(t), p);
    }
  }

  /** One record less. */
  lemma CountedReaped(k: Kin, t: nat, zombies: map<nat, seq<nat>>)
    requires Sound(k) && Counted(k, zombies) && Free(k, t) && t in zombies && zombies[t] != []
    ensures Enabled(k, Reap(t)) && Counted(Applied(k, Reap(t)), zombies[t := Without(zombies[t], 0)])
  {
    hide LinksOk, Youngest, TallyOf;
    forall p: nat | p < k.total
      ensures TallyOf(Applied(k, Reap(t)), p) == NewTally(k, Reap(t), p)
    {
      TallyAfter(k, Reap(t), p);
    }
  }

  /** What `exit` and `kill` have in common. */
  lemma LeavingRest(k: Kin, s: Step, t: nat)
    requires s == Exit(t) || s == Kill(t)
    ensures Applied(k, s).total == k.total && Left(k, t).total == k.total && Applied(k, s).live == Left(k, t).live
    ensures Applied(k, s).parent == Left(k, t).parent && Applied(k, s).chldlist == Left(k, t).chldlist
    ensures Applied(k, s).nxtsib == Left(k, t).nxtsib && Applied(k, s).presib == Left(k, t).presib
  {}

  lemma UnlinkedFields(k: Kin, t: nat)
    ensures Link(k.parent, t) == None ==> Unlinked(k, t) == k
    ensures Link(k.parent, t).Some? ==>
              && Unlinked(k, t).nxtsib == UnlinkedNext(k.nxtsib, k.presib, t)
              && Unlinked(k, t).presib == UnlinkedPrev(k.nxtsib, k.presib, t)
              && Unlinked(k, t).chldlist == DetachedHeads(Link(k.parent, t).value, k.chldlist, k.nxtsib, t)
    ensures Left(k, t).total == k.total && Left(k, t).live == k.live - {t}
    ensures Left(k, t).parent == Orphaned(k.parent, Kids(Unlinked(k, t), t))
    ensures Left(k, t).nxtsib == Unlinked(k, t).nxtsib && Left(k, t).presib == Unlinked(k, t).presib
    ensures Left(k, t).chldlist == Unlinked(k, t).chldlist
  {}

  /** A task is not its own sibling, nor its own parent. */
  lemma OwnLinks(k: Kin, t: nat)
    requires Sound(k) && t < k.total
    ensures t in k.nxtsib && t in k.presib && t in k.parent && t in k.chldlist
    ensures k.nxtsib[t] != Some(t) && k.presib[t] != Some(t) && k.parent[t] != Some(t)
    ensures k.parent[t].Some? ==> k.parent[t].value < k.total
  {
    assert Link(k.nxtsib, t).Some? ==> Siblings(k, Link(k.nxtsib, t).value, t);
    assert Link(k.presib, t).Some? ==> Siblings(k, t, Link(k.presib, t).value);
    hide LinksOk, Youngest;
    assert Link(k.parent, t).Some? ==> t in k.forker && Link(k.parent, t).value == k.forker[t];
  }

  /** A loop over a list of children goes from one child in the task table to the next, and ends. */
  lemma KidsEnd(k: Kin, t: nat)
    requires Sound(k)
    ensures Link(k.chldlist, t) == At(Kids(k, t), 0)
    ensures forall i | 0 <= i < |Kids(k, t)| :: Kids(k, t)[i] < k.total && Follows(k.nxtsib, Kids(k, t), i)
  {
    KidsAreKin(k, t);
    WalkFalls(k.nxtsib, Link(k.chldlist, t));
    hide Kids, LinksOk, Youngest;
    forall i | 0 <= i < |Kids(k, t)|
      ensures Kids(k, t)[i] < k.total
    {
      assert Kids(k, t)[i] in Kids(k, t) && ChildOf(k, t, Kids(k, t)[i]);
    }
  }

  class Processes {
    var total: nat
    /** The tasks that are not dead. */
    var live: set<nat>
    var parent: Links
    var chldlist: Links
    var nxtsib: Links
    var presib: Links
    var xclist: Links
    /** The exit records that were ever allocated, numbered in that order. */
    var recordNr: nat
    var records: map<nat, Record>
    var nxt: Links
    var pre: Links
    /** The kinship that the fields stand for. */
    ghost var kin: Kin
    ghost var zombies: map<nat, seq<nat>>
    /** The statuses of all tasks that left an exit record, and whose were handed out by `wait`. */
    ghost var exited: map<nat, int>
    ghost var reported: set<nat>

    ghost predicate Mirrors()
      reads this
    {
      && total == kin.total && live == kin.live && parent == kin.parent && chldlist == kin.chldlist
      && nxtsib == kin.nxtsib && presib == kin.presib
    }

    /** The exit records fit kinship k. */
    ghost predicate Books(k: Kin)
      reads this`total, this`nxt, this`pre, this`xclist, this`zombies, this`records, this`exited, this`reported
      reads this`recordNr
    {
      && Records(total, nxt, pre, xclist, zombies, records, exited, reported)
      && Counted(k, zombies) && Numbered(k, exited, records, recordNr)
    }

    ghost predicate Valid()
      reads this
    {
      Mirrors() && Sound(kin) && Books(kin)
    }

    constructor ()
      ensures Valid() && kin == Boot()
      ensures total == 0 && live == {} && records == map[] && zombies == map[] && exited == map[] && reported == {}
    {
      kin := Boot();
      total, recordNr := 0, 0;
      live, reported := {}, {};
      parent, chldlist, nxtsib, presib, xclist, nxt, pre := map[], map[], map[], map[], map[], map[], map[];
      records, zombies, exited := map[], map[], map[];
    }

    /** A new number for a task without parent and children, on no list. */
    method AddTask() returns (t: nat)
      modifies this`total, this`live, this`parent, this`chldlist, this`nxtsib, this`presib, this`xclist, this`zombies
      ensures t == old(total) && total == t + 1 && live == old(live) + {t} && parent == old(parent)[t := None]
      ensures nxtsib == old(nxtsib)[t := None] && presib == old(presib)[t := None]
      ensures chldlist == old(chldlist)[t := None] && xclist == old(xclist)[t := None]
      ensures zombies == old(zombies)[t := []]
    {
      t := total;
      parent := parent[t := None];
      chldlist := chldlist[t := None];
      nxtsib := nxtsib[t := None];
      presib := presib[t := None];
      xclist := xclist[t := None];
      zombies := zombies[t := []];
      total := total + 1;
      live := live + {t};
    }

    lemma IsValid()
      requires Mirrors() && Sound(kin)
      requires Records(total, nxt, pre, xclist, zombies, records, exited, reported)
      requires Counted(kin, zombies) && Numbered(kin, exited, records, recordNr)
      ensures Valid()
    {}

    lemma HasBooks()
      requires Mirrors() && Sound(kin) && Books(kin)
      ensures Valid()
    {}

    lemma NewKeepsValid(s: Step)
      requires Valid() && Enabled(kin, s) && (s.Create? || s.ForkCreate?)
      ensures var k' := Applied(kin, s);
              && total !in exited && Sound(k') && k'.total == total + 1 && k'.live == live + {total}
              && k'.parent == parent[total := None] && k'.chldlist == chldlist[total := None]
              && k'.nxtsib == nxtsib[total := None] && k'.presib == presib[total := None]
              && Records(total + 1, nxt, pre, xclist[total := None], zombies[total := []], records, exited, reported)
              && Counted(k', zombies[total := []]) && Numbered(k', exited, records, recordNr)
    {
      hide Sound, Records, Counted, Enabled;
      SoundKept(kin, s);
      RecordsCreated(total, nxt, pre, xclist, zombies, records, exited, reported);
      CountedCreated(kin, s, zombies);
      NumberedKept(kin, s, exited, records, recordNr);
    }

    /** `uproc_create` outside of `fork`: a task without parent and children. */
    method Create() returns (t: nat)
      requires Valid()
      modifies this`total, this`live, this`parent, this`chldlist, this`nxtsib, this`presib, this`xclist
      modifies this`kin, this`zombies
      ensures Valid() && kin == Applied(old(kin), Step.Create) && t == old(total) && t !in exited
      ensures zombies == old(zombies)[t := []]
      ensures total == t + 1 && live == old(live) + {t} && parent == old(parent)[t := None]
      ensures chldlist == old(chldlist)[t := None] && nxtsib == old(nxtsib)[t := None]
    {
      hide Sound, Records, Counted, Numbered, Applied;
      NewKeepsValid(Step.Create);
      kin := Applied(kin, Step.Create);
      t := AddTask();
    }

    /** The first step of `fork`: the child exists, without parent and not to be scheduled. */
    method ForkCreate(task: nat) returns (child: nat)
      requires Valid() && Enabled(kin, Step.ForkCreate(task))
      modifies this`total, this`live, this`parent, this`chldlist, this`nxtsib, this`presib, this`xclist
      modifies this`kin, this`zombies
      ensures Valid() && kin == Applied(old(kin), Step.ForkCreate(task)) && child == old(total)
      ensures zombies == old(zombies)[child := []]
      ensures total == child + 1 && live == old(live) + {child} && parent == old(parent)[child := None]
      ensures chldlist == old(chldlist)[child := None] && nxtsib == old(nxtsib)[child := None]
    {
      hide Sound, Records, Counted, Numbered, Applied, Enabled;
      NewKeepsValid(Step.ForkCreate(task));
      kin := Applied(kin, Step.ForkCreate(task));
      child := AddTask();
    }

    /** The second one, under no lock. */
    method ForkParent(task: nat, child: nat)
      requires Valid() && Enabled(kin, Step.ForkParent(task, child))
      modifies this`parent, this`kin
      ensures Valid() && kin == Applied(old(kin), Step.ForkParent(task, child))
      ensures parent == old(parent)[child := Some(task)]
    {
      hide Sound, Records, Counted, Numbered, Enabled;
      var s := Step.ForkParent(task, child);
      SoundKept(kin, s);
      CountedKept(kin, s, zombies);
      NumberedKept(kin, s, exited, records, recordNr);
      parent := parent[child := Some(task)];
      kin := Applied(kin, s);
    }

    /** The insertion at the front of the parent's list; the child's own link to a younger sibling is NULL. */
    method Adopt(task: nat, child: nat)
      requires task in chldlist && child in presib && presib[child] == None
      modifies this`nxtsib, this`presib, this`chldlist
      ensures chldlist == old(chldlist)[task := Some(child)]
      ensures nxtsib == PushedNext(old(nxtsib), old(chldlist)[task], child)
      ensures presib == PushedPrev(old(presib), old(chldlist)[task], child)
    {
      assert presib[child := None] == presib;
      nxtsib := nxtsib[child := chldlist[task]];
      if chldlist[task].Some? {
        presib := presib[chldlist[task].value := Some(child)];
      }
      chldlist := chldlist[task := Some(child)];
    }

    lemma InsertKeepsValid(task: nat, child: nat)
      requires Valid() && Enabled(kin, Step.ForkInsert(task, child))
      ensures Sound(kin) && task in chldlist && child in presib && presib[child] == None
      ensures Records(total, nxt, pre, xclist, zombies, records, exited, reported)
      ensures var k' := Applied(kin, Step.ForkInsert(task, child));
              && Sound(k') && k'.total == total && k'.live == live && k'.parent == parent
              && k'.nxtsib == PushedNext(nxtsib, chldlist[task], child)
              && k'.presib == PushedPrev(presib, chldlist[task], child)
              && k'.chldlist == chldlist[task := Some(child)]
              && Counted(k', zombies) && Numbered(k', exited, records, recordNr)
    {
      var s := Step.ForkInsert(task, child);
      assert Link(presib, child).Some? ==> Siblings(kin, child, Link(presib, child).value);
      hide Records, Counted, PushedNext, PushedPrev, LinksOk, Youngest;
      SoundKept(kin, s);
      CountedKept(kin, s, zombies);
      NumberedKept(kin, s, exited, records, recordNr);
    }

    /** The third step of `fork`, under the lock of the parent's list. */
    method ForkInsert(task: nat, child: nat)
      requires Valid() && Enabled(kin, Step.ForkInsert(task, child))
      modifies this`nxtsib, this`presib, this`chldlist, this`kin
      ensures Valid() && kin == Applied(old(kin), Step.ForkInsert(task, child))
      ensures child !in Kids(old(kin), task) && Kids(kin, task) == [child] + Kids(old(kin), task)
      ensures forall p: nat | p != task :: Kids(kin, p) == Kids(old(kin), p)
    {
      hide Sound, Records, Counted, Numbered, Enabled, Applied, PushedNext, PushedPrev, Kids, Valid;
      InsertKeepsValid(task, child);
      NewKid(kin, task, child);
      ghost var k := Applied(kin, Step.ForkInsert(task, child));
      Adopt(task, child);
      kin := k;
      IsValid();
    }

    /** The unlinking of an exit record in `wait`. */
    method UnlinkRecord(x: nat)
      requires x in nxt && x in pre && pre[x] != Some(x) && nxt[x] != Some(x)
      modifies this`nxt, this`pre
      ensures nxt == UnlinkedNext(old(nxt), old(pre), x) && pre == UnlinkedPrev(old(nxt), old(pre), x)
    {
      if pre[x].Some? {
        nxt := nxt[pre[x].value := nxt[x]];
      }
      if nxt[x].Some? {
        pre := pre[nxt[x].value := pre[x]];
      }
    }

    /** The first exit record taken off a task's list. */
    method TakeRecord(task: nat, x: nat, ghost pid: nat)
      requires x in nxt && x in pre && pre[x] != Some(x) && nxt[x] != Some(x)
      requires task in zombies && zombies[task] != []
      modifies this`xclist, this`nxt, this`pre, this`zombies, this`reported
      ensures xclist == old(xclist)[task := old(nxt)[x]]
      ensures nxt == UnlinkedNext(old(nxt), old(pre), x) && pre == UnlinkedPrev(old(nxt), old(pre), x)
      ensures zombies == old(zombies)[task := old(zombies)[task][1..]]
      ensures old(zombies)[task][1..] == Without(old(zombies)[task], 0)
      ensures reported == old(reported) + {pid}
    {
      xclist := xclist[task := nxt[x]];
      UnlinkRecord(x);
      zombies := zombies[task := zombies[task][1..]];
      reported := reported + {pid};
    }

    /** The first exit record of a task. */
    lemma ReapFirst(t: nat)
      requires Valid() && t < total && t in xclist && xclist[t].Some?
      ensures t in zombies && zombies[t] != [] && xclist[t] == Some(zombies[t][0]) && zombies[t][0] in records
      ensures zombies[t][0] in nxt && zombies[t][0] in pre && pre[zombies[t][0]] == None
      ensures nxt[zombies[t][0]] != Some(zombies[t][0])
      ensures var rec := records[zombies[t][0]];
              rec.pid in exited && exited[rec.pid] == rec.status && rec.pid !in reported
    {
      hide Sound, Counted;
      assert Listed(nxt, pre, xclist[t], zombies[t]);
      assert zombies[t][0] in zombies[t];
      assert RecordOk(zombies[t][0], records, exited, reported);
      assert LinkedAt(nxt, pre, zombies[t], 0);
    }

    lemma FreeTask(t: nat)
      requires Valid() && Free(kin, t)
      ensures t < total && t in chldlist && t in xclist && t in zombies && |zombies[t]| == TallyOf(kin, t).waiting
      ensures chldlist[t] == None <==> Kids(kin, t) == []
      ensures xclist[t] == None <==> zombies[t] == []
    {
      hide LinksOk;
      assert xclist[t] == At(zombies[t], 0);
    }

    lemma ReapKeepsValid(task: nat)
      requires Valid() && Free(kin, task) && task in zombies && zombies[task] != []
      ensures var k', r := Applied(kin, Step.Reap(task)), zombies[task][0];
              && Enabled(kin, Step.Reap(task)) && Sound(k') && Mirrors() && k' == kin.(tally := k'.tally)
              && r in records && r in nxt && task in xclist && xclist[task] == Some(r)
              && Records(total, UnlinkedNext(nxt, pre, r), UnlinkedPrev(nxt, pre, r), xclist[task := nxt[r]],
                         zombies[task := Without(zombies[task], 0)], records, exited, reported + {records[r].pid})
              && Counted(k', zombies[task := Without(zombies[task], 0)]) && Numbered(k', exited, records, recordNr)
    {
      FreeTask(task);
      hide Sound, Records, Counted, Free;
      CountedReaped(kin, task, zombies);
      SoundKept(kin, Step.Reap(task));
      RecordsReaped(total, nxt, pre, xclist, zombies, records, exited, reported, task);
      NumberedKept(kin, Step.Reap(task), exited, records, recordNr);
    }

    /** One round of the loop of `wait`: the latest exit record is taken off the list and handed out; -1
        comes only when there is neither a record nor a child. */
    method Wait(task: nat) returns (r: Waited)
      requires Valid() && Free(kin, task)
      modifies this`xclist, this`nxt, this`pre, this`zombies, this`reported, this`kin
      ensures Valid() && task in old(zombies)
      ensures r == NoChild <==> old(zombies)[task] == [] && Kids(old(kin), task) == []
      ensures r == Again <==> old(zombies)[task] == [] && Kids(old(kin), task) != []
      ensures r.Reaped? ==>
                && Enabled(old(kin), Step.Reap(task)) && kin == Applied(old(kin), Step.Reap(task))
                && old(zombies)[task] != [] && old(zombies)[task][0] in records
                && records[old(zombies)[task][0]] == Record(r.pid, r.status)
                && zombies == old(zombies)[task := old(zombies)[task][1..]]
                && r.pid !in old(reported) && reported == old(reported) + {r.pid}
                && r.pid in exited && exited[r.pid] == r.status
      ensures !r.Reaped? ==> zombies == old(zombies) && kin == old(kin) && reported == old(reported)
    {
      hide Sound, Counted, Records, Numbered, UnlinkedNext, UnlinkedPrev, RecordOk, Applied, Enabled, Free, Kids, Valid;
      FreeTask(task);
      var item := xclist[task];
      if item.Some? {
        ReapFirst(task);
        r := Reaped(records[item.value].pid, records[item.value].status);
        ReapKeepsValid(task);
        kin := Applied(kin, Step.Reap(task));
        TakeRecord(task, item.value, r.pid);
        IsValid();
      } else if chldlist[task] == None {
        r := NoChild;
      } else {
        r := Again;
      }
    }

    /** The exit record that `exit` puts at the front of the parent's list. */
    method PushRecord(p: nat, pid: nat, status: int)
      requires p in xclist && p in zombies
      modifies this`recordNr, this`records, this`nxt, this`pre, this`xclist, this`zombies, this`exited
      ensures var r := old(recordNr);
              && recordNr == r + 1 && records == old(records)[r := Record(pid, status)]
              && nxt == PushedNext(old(nxt), old(xclist)[p], r) && pre == PushedPrev(old(pre), old(xclist)[p], r)
              && xclist == old(xclist)[p := Some(r)] && zombies == old(zombies)[p := [r] + old(zombies)[p]]
              && exited == old(exited)[pid := status]
    {
      var item := recordNr;
      recordNr := recordNr + 1;
      records := records[item := Record(pid, status)];
      var header := xclist[p];
      pre := pre[item := None];
      nxt := nxt[item := header];
      if header.Some? {
        pre := pre[header.value := Some(item)];
      }
      xclist := xclist[p := Some(item)];
      zombies := zombies[p := [item] + zombies[p]];
      exited := exited[pid := status];
    }

    /** A task taken out between the neighbours that it knows of, in `exit` and `kill`. */
    method Detach(t: nat)
      requires t in nxtsib && t in presib && nxtsib[t] != Some(t) && presib[t] != Some(t) && t in parent
      requires parent[t].Some? && parent[t].value in chldlist
      modifies this`nxtsib, this`presib, this`chldlist
      ensures nxtsib == UnlinkedNext(old(nxtsib), old(presib), t) && presib == UnlinkedPrev(old(nxtsib), old(presib), t)
      ensures chldlist == DetachedHeads(parent[t].value, old(chldlist), old(nxtsib), t)
    {
      var p := parent[t].value;
      if presib[t].Some? {
        nxtsib := nxtsib[presib[t].value := nxtsib[t]];
      }
      if nxtsib[t].Some? {
        presib := presib[nxtsib[t].value := presib[t]];
      }
      if chldlist[p] == Some(t) {
        chldlist := chldlist[p := nxtsib[t]];
      }
    }

    /** The loop over a dying task's children: they lose their parent. */
    method Orphan(t: nat, ghost l: seq<nat>)
      requires t in chldlist && chldlist[t] == At(l, 0)
      requires forall c | c in l :: c in parent && c in nxtsib
      requires forall i | 0 <= i < |l| :: Follows(nxtsib, l, i)
      modifies this`parent
      ensures parent == Orphaned(old(parent), l)
    {
      var proc := chldlist[t];
      ghost var k := 0;
      assert parent == Orphaned(parent, l[..0]);
      while proc.Some?
        invariant k <= |l| && proc == At(l, k) && parent.Keys == old(parent).Keys
        invariant parent == Orphaned(old(parent), l[..k])
        decreases |l| - k
      {
        assert Follows(nxtsib, l, k) && l[k] in l;
        assert l[..k + 1] == l[..k] + [l[k]];
        parent := parent[proc.value := None];
        proc := nxtsib[proc.value];
        k := k + 1;
      }
      assert l[..k] == l;
    }

    lemma ReadyToLeave(t: nat)
      requires Mirrors() && Sound(kin) && t < total
      ensures t in nxtsib && t in presib && t in parent && t in chldlist
      ensures nxtsib[t] != Some(t) && presib[t] != Some(t)
      ensures parent[t].Some? ==> parent[t].value in chldlist
      ensures var u := Unlinked(kin, t);
              && t in u.chldlist && u.chldlist[t] == At(Kids(u, t), 0) && Kids(u, t) == Kids(kin, t)
              && (forall c | c in Kids(u, t) :: c in parent && c in u.nxtsib)
              && (forall i | 0 <= i < |Kids(u, t)| :: Follows(u.nxtsib, Kids(u, t), i))
    {
      OwnLinks(kin, t);
      OwnLinks(kin, if parent[t].Some? then parent[t].value else t);
      KidsEnd(kin, t);
      OthersUnlinked(kin, t, t);
    }

    /** What `exit` and `kill` have in common: the task is taken out of its parent's list, if it has a parent, its
        children lose their parent, and it is dead. The walk over the children ends whatever became of the links. */
    method Leave(t: nat)
      requires Mirrors() && Sound(kin) && t < total
      modifies this`live, this`parent, this`nxtsib, this`presib, this`chldlist, this`kin
      ensures Mirrors() && kin == Left(old(kin), t)
      ensures parent == Orphaned(old(parent), Kids(old(kin), t)) && live == old(live) - {t}
    {
      hide Sound, Kids, Orphaned, UnlinkedNext, UnlinkedPrev, DetachedHeads, Unlinked, Left;
      ReadyToLeave(t);
      UnlinkedFields(kin, t);
      ghost var u := Unlinked(kin, t);
      if parent[t].Some? {
        Detach(t);
      }
      Orphan(t, Kids(u, t));
      live := live - {t};
      kin := Left(kin, t);
    }

    /** The books after an exit: with the record pushed for a parent, or as they are without one. */
    lemma ExitKeeps(task: nat, xstatus: int)
      requires Valid() && Enabled(kin, Step.Exit(task))
      ensures var k', r := Applied(kin, Step.Exit(task)), recordNr;
              && Mirrors() && Sound(kin) && Sound(k') && task < total && task in parent && task !in exited
              && (parent[task] == None ==>
                    && Records(total, nxt, pre, xclist, zombies, records, exited, reported)
                    && Counted(k', zombies) && Numbered(k', exited, records, recordNr))
              && (parent[task].Some? ==>
                    var p := parent[task].value;
                    var zombies', records' := zombies[p := [r] + zombies[p]], records[r := Record(task, xstatus)];
                    && p in xclist && p in zombies
                    && Records(total, PushedNext(nxt, xclist[p], r), PushedPrev(pre, xclist[p], r),
                               xclist[p := Some(r)], zombies', records', exited[task := xstatus], reported)
                    && Counted(k', zombies') && Numbered(k', exited[task := xstatus], records', recordNr + 1))
    {
      var k, r, s := kin, recordNr, Step.Exit(task);
      FreeTask(task);
      OwnLinks(k, task);
      SoundKept(k, s);
      hide Sound, Records, Counted, Numbered, Applied, PushedNext, PushedPrev, Kids;
      NumberedExited(k, task, exited, records, recordNr, xstatus);
      CountedExited(k, task, zombies, r);
      if parent[task].Some? {
        var p := parent[task].value;
        RecordsKnown(total, nxt, pre, xclist, zombies, records, exited, reported);
        RecordsExited(total, nxt, pre, xclist, zombies, records, exited, reported, p, r, task, xstatus);
      } else {
        NumberedKept(k, s, exited, records, recordNr);
      }
    }

    /** Record `rec` is the latest one of the parent, if there is a parent, and nothing else is new. */
    ghost predicate Recorded(p: Option<nat>, rec: Record, zombies0: map<nat, seq<nat>>, exited0: map<nat, int>)
      reads this`zombies, this`exited, this`records
    {
      && (p == None ==> zombies == zombies0 && exited == exited0)
      && (p.Some? ==>
            && p.value in zombies0 && p.value in zombies && zombies[p.value] != [] && zombies[p.value][0] in records
            && zombies == zombies0[p.value := [zombies[p.value][0]] + zombies0[p.value]]
            && records[zombies[p.value][0]] == rec && exited == exited0[rec.pid := rec.status])
    }

    lemma RecordedMeans(p: Option<nat>, rec: Record, zombies0: map<nat, seq<nat>>, exited0: map<nat, int>)
      requires Recorded(p, rec, zombies0, exited0)
      ensures p == None ==> zombies == zombies0 && exited == exited0
      ensures p.Some? ==>
                && p.value in zombies0 && p.value in zombies && zombies[p.value] != []
                && zombies[p.value][1..] == zombies0[p.value]
                && zombies[p.value][0] in records && records[zombies[p.value][0]] == rec
                && (forall q | q in zombies0 && q != p.value :: q in zombies && zombies[q] == zombies0[q])
                && exited == exited0[rec.pid := rec.status]
    {}

    /** The record of an exit, when there is a parent to read it. */
    method Report(task: nat, xstatus: int)
      requires Valid() && Enabled(kin, Step.Exit(task))
      modifies this`recordNr, this`records, this`nxt, this`pre, this`xclist, this`zombies, this`exited
      ensures Books(Applied(kin, Step.Exit(task))) && Sound(Applied(kin, Step.Exit(task)))
      ensures Mirrors() && Sound(kin) && task < total && task in parent
      ensures Recorded(parent[task], Record(task, xstatus), old(zombies), old(exited))
    {
      hide Sound, Records, Counted, Numbered, Applied, PushedNext, PushedPrev, Enabled, Valid;
      ExitKeeps(task, xstatus);
      if parent[task].Some? {
        PushRecord(parent[task].value, task, xstatus);
      }
    }

    /** `exit`, of a task that was killed while it ran as well: the status goes to the parent, if there is one, as the
        latest record; the children lose their parent. */
    method Exit(task: nat, status: int)
      requires Valid() && Enabled(kin, Step.Exit(task))
      modifies this`live, this`parent, this`nxtsib, this`presib, this`chldlist, this`kin
      modifies this`recordNr, this`records, this`nxt, this`pre, this`xclist, this`zombies, this`exited
      ensures Valid() && kin == Applied(old(kin), Step.Exit(task)) && task in old(parent)
      ensures Recorded(old(parent)[task], Record(task, status * 256), old(zombies), old(exited))
      ensures old(parent)[task].Some? ==>
                var p := old(parent)[task].value;
                && p in old(zombies) && p in zombies && zombies[p] != [] && zombies[p][1..] == old(zombies)[p]
                && zombies[p][0] in records && records[zombies[p][0]] == Record(task, status * 256)
                && (forall q | q in old(zombies) && q != p :: q in zombies && zombies[q] == old(zombies)[q])
                && exited == old(exited)[task := status * 256]
      ensures old(parent)[task] == None ==> zombies == old(zombies) && exited == old(exited)
      ensures live == old(live) - {task} && parent == Orphaned(old(parent), Kids(old(kin), task))
    {
      hide Sound, Records, Counted, Numbered, Applied, Left, Kids, Enabled, Recorded, Orphaned, Books, Valid;
      ghost var k := Applied(kin, Step.Exit(task));
      LeavingRest(kin, Step.Exit(task), task);
      Report(task, status * 256);
      RecordedMeans(parent[task], Record(task, status * 256), old(zombies), old(exited));
      Leave(task);
      kin := k;
      HasBooks();
    }

    /** `kill` of a live task, in whatever it stands: no record is left for its parent. */
    method Kill(pid: nat)
      requires Valid() && pid in live
      modifies this`live, this`parent, this`nxtsib, this`presib, this`chldlist, this`kin
      ensures Valid() && kin == Applied(old(kin), Step.Kill(pid)) && Enabled(old(kin), Step.Kill(pid))
      ensures live == old(live) - {pid} && parent == Orphaned(old(parent), Kids(old(kin), pid))
    {
      hide Sound, Records, Counted, Numbered, Applied, Left, Kids, Valid, Orphaned;
      ghost var s := Step.Kill(pid);
      ghost var k := Applied(kin, s);
      KillKeeps(pid);
      LeavingRest(kin, s, pid);
      Leave(pid);
      kin := k;
      IsValid();
    }

    lemma KillKeeps(t: nat)
      requires Valid() && t in live
      ensures Mirrors() && Sound(kin) && t < total && Enabled(kin, Step.Kill(t))
      ensures Records(total, nxt, pre, xclist, zombies, records, exited, reported)
      ensures var k' := Applied(kin, Step.Kill(t));
              Sound(k') && Counted(k', zombies) && Numbered(k', exited, records, recordNr)
    {
      hide Records, Counted, Numbered, Applied, Kids, LinksOk;
      SoundKept(kin, Step.Kill(t));
      CountedKept(kin, Step.Kill(t), zombies);
      NumberedKept(kin, Step.Kill(t), exited, records, recordNr);
    }

    /** While the books of the state machine are in order, every child put on a list is still there, or was killed, or
        its record waits or was handed out. */
    lemma EveryChildCounted(p: nat)
      requires Valid() && Conserved(kin) && p < total
      ensures p in zombies
      ensures var tally := TallyOf(kin, p);
              tally.forked == |Kids(kin, p)| + |zombies[p]| + tally.reaped + tally.killed
    {
      assert Balanced(kin, p);
    }
  }

  lemma NewKid(k: Kin, t: nat, c: nat)
    requires Sound(k) && Enabled(k, ForkInsert(t, c))
    ensures c !in Kids(k, t) && Kids(Applied(k, ForkInsert(t, c)), t) == [c] + Kids(k, t)
    ensures forall p: nat | p != t :: Kids(Applied(k, ForkInsert(t, c)), p) == Kids(k, p)
  {
    hide Kids, LinksOk, Inserted;
    InsertedKids(k, t, c);
    forall p: nat | p != t
      ensures Kids(Applied(k, ForkInsert(t, c)), p) == Kids(k, p)
    {
      OtherListInserted(k, t, c, p);
    }
  }
}
