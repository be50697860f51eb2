/** The semaphores of os-l3/kernel/src/kmt.c: a count and a stack of waiting tasks, linked through the
    tasks' own `next` fields. A semaphore's lock makes each operation one step. */
module Semaphore {
  import opened Wrappers

  datatype Sem = Sem(count: int, waiters: seq<nat>)

  /** The waiting list is as long as the count is below zero, and no task waits twice. */
  ghost predicate Sound(s: Sem) {
    && |s.waiters| == (if s.count < 0 then -s.count else 0)
    && (forall i, j | 0 <= i < j < |s.waiters| :: s.waiters[i] != s.waiters[j])
  }

  function Waited(s: Sem, t: nat): Sem {
    Sem(s.count - 1, if s.count - 1 < 0 then [t] + s.waiters else s.waiters)
  }

  /** A signal wakes the task that began to wait last, if any waits. */
  function Signaled(s: Sem): Sem
    requires s.count + 1 <= 0 ==> s.waiters != []
  {
    Sem(s.count + 1, if s.count + 1 <= 0 then s.waiters[1..] else s.waiters)
  }

  function Woken(s: Sem): Option<nat>
    requires s.count + 1 <= 0 ==> s.waiters != []
  {
    if s.count + 1 <= 0 then Some(s.waiters[0]) else None
  }

  ghost predicate Chain(next: map<nat, Option<nat>>, head: Option<nat>, l: seq<nat>) {
    && head == (if l == [] then None else Some(l[0]))
    && (forall i | 0 <= i < |l| :: LinkedAt(next, l, i))
  }

  predicate LinkedAt(next: map<nat, Option<nat>>, l: seq<nat>, i: nat)
    requires i < |l|
  {
    l[i] in next && next[l[i]] == if i + 1 < |l| then Some(l[i + 1]) else None
  }

  lemma ChainPushed(next: map<nat, Option<nat>>, head: Option<nat>, l: seq<nat>, t: nat)
    requires Chain(next, head, l) && t !in l
    ensures Chain(next[t := head], Some(t), [t] + l)
  {
    var next', l' := next[t := head], [t] + l;
    forall i | 0 <= i < |l'|
      ensures LinkedAt(next', l', i)
    {
      if i > 0 {
        assert LinkedAt(next, l, i - 1);
      }
    }
  }

  lemma ChainPopped(next: map<nat, Option<nat>>, head: Option<nat>, l: seq<nat>)
    requires Chain(next, head, l) && l != []
    ensures head == Some(l[0]) && l[0] in next && Chain(next, next[l[0]], l[1..])
  {
    assert LinkedAt(next, l, 0);
    forall i | 0 <= i < |l| - 1
      ensures LinkedAt(next, l[1..], i)
    {
      assert LinkedAt(next, l, i + 1);
    }
  }

  /** The list of one semaphore does not notice writes to tasks that are not on it. */
  lemma ChainFrame(next: map<nat, Option<nat>>, next': map<nat, Option<nat>>, head: Option<nat>, l: seq<nat>)
    requires Chain(next, head, l) && forall t | t in l && t in next :: t in next' && next'[t] == next[t]
    ensures Chain(next', head, l)
  {
    forall i | 0 <= i < |l|
      ensures LinkedAt(next', l, i)
    {
      assert LinkedAt(next, l, i) && l[i] in l;
    }
  }

  /** The `next` and `block` fields of the tasks. */
  class Tasks {
    var next: map<nat, Option<nat>>
    var blocked: set<nat>

    constructor ()
      ensures next == map[] && blocked == {}
    {
      next := map[];
      blocked := {};
    }
  }

  class Semaphore {
    const tasks: Tasks
    var count: int
    var waitList: Option<nat>
    ghost var waiters: seq<nat>

    ghost function Value(): Sem
      reads this
    {
      Sem(count, waiters)
    }

    ghost predicate Valid()
      reads this, tasks
    {
      Sound(Value()) && Chain(tasks.next, waitList, waiters) && forall t | t in waiters :: t in tasks.blocked
    }

    /** `sem_init`. */
    constructor (tasks: Tasks, value: nat)
      ensures Valid() && this.tasks == tasks && Value() == Sem(value, []) && count == value && waiters == []
    {
      this.tasks, count, waitList, waiters := tasks, value, None, [];
    }

    /** `sem_wait` up to the release of its lock; `blocked` says whether the task must then yield. */
    method Wait(current: nat) returns (blocked: bool)
      requires Valid() && current !in tasks.blocked
      modifies this, tasks
      ensures Valid() && Value() == Waited(old(Value()), current)
      ensures count == old(count) - 1 && waiters == if old(count) <= 0 then [current] + old(waiters) else old(waiters)
      ensures blocked == (old(count) <= 0) && tasks.blocked == old(tasks.blocked) + if blocked then {current} else {}
      ensures forall t | t in old(tasks.next) && t != current :: t in tasks.next && tasks.next[t] == old(tasks.next)[t]
    {
      blocked := false;
      count := count - 1;
      if count < 0 {
        ChainPushed(tasks.next, waitList, waiters, current);
        tasks.blocked := tasks.blocked + {current};
        tasks.next := tasks.next[current := waitList];
        waitList := Some(current);
        waiters := [current] + waiters;
        blocked := true;
      }
    }

    /** `sem_signal`; its assertion that somebody waits holds. */
    method Signal() returns (woken: Option<nat>)
      requires Valid()
      modifies this, tasks`blocked
      ensures Valid() && Sound(old(Value())) && Value() == Signaled(old(Value())) && woken == Woken(old(Value()))
      ensures tasks.blocked == old(tasks.blocked) - if woken.Some? then {woken.value} else {}
      ensures count == old(count) + 1 && (woken == None <==> old(waiters) == [])
      ensures woken == None ==> waiters == []
      ensures woken.Some? ==> old(waiters) == [woken.value] + waiters
      ensures |waiters| == if count < 0 then -count else 0
    {
      woken := None;
      count := count + 1;
      if count <= 0 {
        ChainPopped(tasks.next, waitList, waiters);
        woken := waitList;
        waitList := tasks.next[woken.value];
        waiters := waiters[1..];
        tasks.blocked := tasks.blocked - {woken.value};
      }
    }

    /** A `sem_wait` on another semaphore: the waiting task is on no list yet. */
    twostate lemma KeptByWait(current: nat)
      requires old(Valid()) && unchanged(this) && current !in old(tasks.blocked)
      requires old(tasks.blocked) <= tasks.blocked
      requires forall t | t in old(tasks.next) && t != current :: t in tasks.next && tasks.next[t] == old(tasks.next)[t]
      ensures Valid()
    {
      ChainFrame(old(tasks.next), tasks.next, waitList, waiters);
    }

    /** A `sem_signal` on another semaphore: the woken task waits on that one only. */
    twostate lemma KeptBySignal(woken: Option<nat>)
      requires old(Valid()) && unchanged(this) && unchanged(tasks`next) && (woken.Some? ==> woken.value !in waiters)
      requires tasks.blocked == old(tasks.blocked) - if woken.Some? then {woken.value} else {}
      ensures Valid()
    {}
  }

  // ----- Histories -----------------------------------------------------------------------------

  datatype Op = WaitBy(t: nat) | SignalBy

  /** The state after a history, if every wait is by a task that is not waiting already. */
  ghost function After(initial: nat, ops: seq<Op>): Option<Sem> {
    if ops == [] then Some(Sem(initial, []))
    else
      var last, before := ops[|ops| - 1], After(initial, ops[..|ops| - 1]);
      if before == None then None
      else if last.WaitBy? then if last.t in before.value.waiters then None else Some(Waited(before.value, last.t))
      else if before.value.count + 1 <= 0 && before.value.waiters == [] then None
      else Some(Signaled(before.value))
  }

  ghost function Waits(ops: seq<Op>): nat {
    if ops == [] then 0 else Waits(ops[..|ops| - 1]) + if ops[|ops| - 1].WaitBy? then 1 else 0
  }

  ghost function Signals(ops: seq<Op>): nat {
    if ops == [] then 0 else Signals(ops[..|ops| - 1]) + if ops[|ops| - 1].WaitBy? then 0 else 1
  }

  /** The waits granted by a history: those begun less the tasks still waiting. There are never more than
      the initial value and the signals allow, and exactly that many once a task must wait. */
  lemma {:induction false} GrantsBounded(initial: nat, ops: seq<Op>)
    requires After(initial, ops).Some?
    ensures var s := After(initial, ops).value;
            && Sound(s) && s.count == initial - Waits(ops) + Signals(ops)
            && Waits(ops) - |s.waiters| <= initial + Signals(ops)
            && (s.waiters != [] ==> Waits(ops) - |s.waiters| == initial + Signals(ops))
  {
    if ops != [] {
      GrantsBounded(initial, ops[..|ops| - 1]);
    }
  }

  /** What one more operation makes of a history: a wait of a task that does not wait already takes one from the count
      and puts the task first on the list when that makes the count negative; a signal adds one and wakes the first. */
  lemma HistoryGrows(initial: nat, ops: seq<Op>, op: Op)
    requires After(initial, ops).Some?
    ensures var s, s' := After(initial, ops).value, After(initial, ops + [op]);
            match op
            case WaitBy(t) =>
              s' == if t in s.waiters then None
                    else Some(Sem(s.count - 1, if s.count <= 0 then [t] + s.waiters else s.waiters))
            case SignalBy => s' == Some(Sem(s.count + 1, if s.waiters == [] then [] else s.waiters[1..]))
  {
    var s, all := After(initial, ops).value, ops + [op];
    assert |s.waiters| == (if s.count < 0 then -s.count else 0) by {
      GrantsBounded(initial, ops);
    }
    assert all[|all| - 1] == op && all[..|all| - 1] == ops;
    assert After(initial, all)
        == if op.WaitBy? then if op.t in s.waiters then None else Some(Waited(s, op.t))
           else if s.count + 1 <= 0 && s.waiters == [] then None
           else Some(Signaled(s));
  }

  /** A legal history never gets stuck: a signal is always possible. */
  lemma SignalPossible(initial: nat, ops: seq<Op>)
    requires After(initial, ops).Some?
    ensures After(initial, ops + [SignalBy]).Some?
  {
    GrantsBounded(initial, ops);
    assert (ops + [SignalBy])[..|ops|] == ops;
  }
}
