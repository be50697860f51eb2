/** The producers and consumers of os-l3/kernel/src/os.c over two semaphores: any number of tasks, any
    schedule. The output is what os-l3/kernel/pc-check.py accepts. */
module ProducerConsumer {
  import opened Semaphore
  import opened Wrappers

  datatype Role = Producer | Consumer

  /** A task is before its P, waiting in it, past it, or past its `putch`. */
  datatype Pc = Ready | Waiting | Granted | Printed

  datatype Task = Task(role: Role, pc: Pc)

  datatype State = State(tasks: map<nat, Task>, empty: Sem, fill: Sem, output: string)

  datatype Step = P(t: nat) | Putch(t: nat) | V(t: nat)

  /** The semaphore that a role waits for; it signals the other one. */
  function SemOf(s: State, role: Role): Sem {
    if role.Producer? then s.empty else s.fill
  }

  function WithSem(s: State, role: Role, sem: Sem): State {
    if role.Producer? then s.(empty := sem) else s.(fill := sem)
  }

  function Other(role: Role): Role {
    if role.Producer? then Consumer else Producer
  }

  function Moved(tasks: map<nat, Task>, t: nat, pc: Pc): map<nat, Task>
    requires t in tasks
  {
    tasks[t := Task(tasks[t].role, pc)]
  }

  ghost predicate Enabled(s: State, step: Step) {
    && step.t in s.tasks
    && match step
       case P(t) => s.tasks[t].pc == Ready
       case Putch(t) => s.tasks[t].pc == Granted
       case V(t) => s.tasks[t].pc == Printed
  }

  ghost function Apply(s: State, step: Step): State
    requires Enabled(s, step) && Balanced(s)
  {
    var role := s.tasks[step.t].role;
    match step
    case P(t) =>
      var sem := Waited(SemOf(s, role), t);
      WithSem(s, role, sem).(tasks := Moved(s.tasks, t, if sem.count < 0 then Waiting else Granted))
    case Putch(t) =>
      s.(tasks := Moved(s.tasks, t, Printed), output := s.output + [if role.Producer? then '(' else ')'])
    case V(t) =>
      var sem := SemOf(s, Other(role));
      var woken := Woken(sem);
      var tasks := Moved(s.tasks, t, Ready);
      WithSem(s, Other(role), Signaled(sem))
      .(tasks := if woken.Some? && woken.value in tasks then Moved(tasks, woken.value, Granted) else tasks)
  }

  // ----- Counting ------------------------------------------------------------------------------

  ghost function InState(tasks: map<nat, Task>, task: Task): set<nat> {
    set t | t in tasks && tasks[t] == task
  }

  ghost function Count(tasks: map<nat, Task>, role: Role, pc: Pc): nat {
    |InState(tasks, Task(role, pc))|
  }

  lemma CountMoved(tasks: map<nat, Task>, t: nat, pc: Pc, role: Role, at: Pc)
    requires t in tasks
    ensures Count(Moved(tasks, t, pc), role, at)
            == Count(tasks, role, at) + (if Task(role, at) == Task(tasks[t].role, pc) then 1 else 0)
               - if tasks[t] == Task(role, at) then 1 else 0
  {
    var a, b := InState(tasks, Task(role, at)), InState(Moved(tasks, t, pc), Task(role, at));
    var others := a - {t};
    assert b == if Task(role, at) == Task(tasks[t].role, pc) then others + {t} else others;
    assert a == if tasks[t] == Task(role, at) then others + {t} else others;
  }

  function CountChar(output: string, c: char): nat {
    if output == [] then 0 else CountChar(output[..|output| - 1], c) + if output[|output| - 1] == c then 1 else 0
  }

  function Depth(output: string): int {
    CountChar(output, '(') - CountChar(output, ')')
  }

  /** What the checker script asserts: after every character the depth lies between 0 and the limit. */
  ghost predicate Accepted(output: string, limit: int) {
    forall n | 0 <= n <= |output| :: 0 <= Depth(output[..n]) <= limit
  }

  // ----- Invariant -----------------------------------------------------------------------------

  ghost predicate WaitersMatch(s: State, role: Role) {
    forall t :: t in SemOf(s, role).waiters <==> t in s.tasks && s.tasks[t] == Task(role, Waiting)
  }

  ghost predicate Balanced(s: State) {
    && Sound(s.empty) && Sound(s.fill)
    && WaitersMatch(s, Producer) && WaitersMatch(s, Consumer)
  }

  /** A semaphore's value, not below zero, is what it started with and was given, less what was granted:
      every task past its P was granted once more than it printed. */
  ghost predicate Conserved(s: State, slots: nat) {
    var opens, closes := CountChar(s.output, '('), CountChar(s.output, ')');
    && Value(s.empty) == slots + (closes - Count(s.tasks, Consumer, Printed))
       - (opens + Count(s.tasks, Producer, Granted))
    && Value(s.fill) == (opens - Count(s.tasks, Producer, Printed)) - (closes + Count(s.tasks, Consumer, Granted))
  }

  function Value(sem: Sem): nat {
    if sem.count < 0 then 0 else sem.count
  }

  ghost predicate Invariant(s: State, slots: nat) {
    Balanced(s) && Conserved(s, slots) && Accepted(s.output, slots)
  }

  lemma WaitersAfterP(s: State, t: nat, role: Role)
    requires Balanced(s) && Enabled(s, P(t))
    ensures WaitersMatch(Apply(s, P(t)), role) && Sound(SemOf(Apply(s, P(t)), role))
  {
    assert WaitersMatch(s, role) && Sound(SemOf(s, role));
  }

  lemma SignalShape(sem: Sem)
    requires Sound(sem)
    ensures sem.count + 1 <= 0 ==> sem.waiters != []
    ensures Sound(Signaled(sem))
    ensures Woken(sem).Some? ==> Woken(sem).value in sem.waiters
    ensures forall x :: x in Signaled(sem).waiters <==> x in sem.waiters && Woken(sem) != Some(x)
  {
    if sem.count + 1 <= 0 {
      assert sem.waiters == [sem.waiters[0]] + sem.waiters[1..];
    }
  }

  lemma WaitersAfterV(s: State, t: nat, role: Role)
    requires Balanced(s) && Enabled(s, V(t))
    ensures WaitersMatch(Apply(s, V(t)), role) && Sound(SemOf(Apply(s, V(t)), role))
  {
    var other := Other(s.tasks[t].role);
    assert WaitersMatch(s, role) && Sound(SemOf(s, role)) && WaitersMatch(s, other);
    SignalShape(SemOf(s, other));
    hide Sound, Signaled, Woken;
    var s' := Apply(s, V(t));
    forall x: nat
      ensures x in SemOf(s', role).waiters <==> x in s'.tasks && s'.tasks[x] == Task(role, Waiting)
    {
      assert x in SemOf(s, role).waiters <==> x in s.tasks && s.tasks[x] == Task(role, Waiting);
    }
  }

  lemma WaitersAfterPutch(s: State, t: nat, role: Role)
    requires Balanced(s) && Enabled(s, Putch(t))
    ensures WaitersMatch(Apply(s, Putch(t)), role) && Sound(SemOf(Apply(s, Putch(t)), role))
  {
    assert WaitersMatch(s, role) && SemOf(Apply(s, Putch(t)), role) == SemOf(s, role);
  }

  lemma WaitersAfter(s: State, step: Step, role: Role)
    requires Balanced(s) && Enabled(s, step)
    ensures WaitersMatch(Apply(s, step), role) && Sound(SemOf(Apply(s, step), role))
  {
    hide WaitersMatch, Sound, Apply;
    match step
    case P(t) => WaitersAfterP(s, t, role);
    case Putch(t) => WaitersAfterPutch(s, t, role);
    case V(t) => WaitersAfterV(s, t, role);
  }

  lemma BalancedKept(s: State, step: Step)
    requires Balanced(s) && Enabled(s, step)
    ensures Balanced(Apply(s, step))
  {
    hide WaitersMatch, Sound;
    WaitersAfter(s, step, Producer);
    WaitersAfter(s, step, Consumer);
  }

  lemma CountsAfter(s: State, step: Step, role: Role, at: Pc)
    requires Balanced(s) && Enabled(s, step) && at in {Granted, Printed}
    ensures var actor := s.tasks[step.t].role;
            Count(Apply(s, step).tasks, role, at) - Count(s.tasks, role, at)
            == match step
               case P(_) => if role == actor && at == Granted && SemOf(s, actor).count > 0 then 1 else 0
               case Putch(_) => if role != actor then 0 else if at == Printed then 1 else -1
               case V(_) =>
                 if role == actor then if at == Printed then -1 else 0
                 else if at == Granted && SemOf(s, role).count < 0 then 1 else 0
  {
    var actor := s.tasks[step.t].role;
    match step
    case P(t) => CountMoved(s.tasks, t, if SemOf(s, actor).count - 1 < 0 then Waiting else Granted, role, at);
    case Putch(t) => CountMoved(s.tasks, t, Printed, role, at);
    case V(t) =>
      assert WaitersMatch(s, Other(actor));
      CountMoved(s.tasks, t, Ready, role, at);
      var sem, tasks := SemOf(s, Other(actor)), Moved(s.tasks, t, Ready);
      if Woken(sem).Some? {
        assert sem.waiters[0] in sem.waiters;
        CountMoved(tasks, sem.waiters[0], Granted, role, at);
      }
  }

  lemma CharAppended(output: string, c: char, d: char)
    ensures CountChar(output + [c], d) == CountChar(output, d) + if c == d then 1 else 0
  {
    assert (output + [c])[..|output|] == output;
  }

  lemma ConservedKept(s: State, step: Step, slots: nat)
    requires Balanced(s) && Conserved(s, slots) && Enabled(s, step)
    ensures Conserved(Apply(s, step), slots)
  {
    hide Count;
    CountsAfter(s, step, Producer, Granted);
    CountsAfter(s, step, Producer, Printed);
    CountsAfter(s, step, Consumer, Granted);
    CountsAfter(s, step, Consumer, Printed);
    if step.Putch? {
      var c := if s.tasks[step.t].role.Producer? then '(' else ')';
      CharAppended(s.output, c, '(');
      CharAppended(s.output, c, ')');
    }
  }

  lemma InvariantKept(s: State, step: Step, slots: nat)
    requires Invariant(s, slots) && Enabled(s, step)
    ensures Invariant(Apply(s, step), slots)
  {
    BalancedKept(s, step);
    ConservedKept(s, step, slots);
    var s' := Apply(s, step);
    forall n | 0 <= n <= |s'.output|
      ensures 0 <= Depth(s'.output[..n]) <= slots
    {
      if n == |s'.output| {
        assert s'.output[..n] == s'.output;
      } else {
        assert s'.output[..n] == s.output[..n];
      }
    }
  }

  // ----- Runs ----------------------------------------------------------------------------------

  /** `empty` starts with the given slots, `fill` with none; every task is about to begin. */
  ghost predicate Boot(s: State, slots: nat) {
    && s.empty == Sem(slots, []) && s.fill == Sem(0, []) && s.output == []
    && (forall t | t in s.tasks :: s.tasks[t].pc == Ready)
  }

  ghost predicate Legal(s: State, run: seq<Step>)
    decreases |run|
  {
    run == [] || (Enabled(s, run[0]) && Balanced(s) && Legal(Apply(s, run[0]), run[1..]))
  }

  ghost function Execute(s: State, run: seq<Step>): State
    requires Legal(s, run)
    decreases |run|
  {
    if run == [] then s else Execute(Apply(s, run[0]), run[1..])
  }

  /** Runs grow by one enabled step at a time. */
  lemma {:induction false} RunsMean(s: State, run: seq<Step>, step: Step)
    ensures Legal(s, []) && Execute(s, []) == s
    ensures Legal(s, run + [step]) <==> Legal(s, run) && Balanced(Execute(s, run)) && Enabled(Execute(s, run), step)
    ensures Legal(s, run + [step]) ==> Execute(s, run + [step]) == Apply(Execute(s, run), step)
    decreases |run|
  {
    hide Apply, Enabled, Balanced;
    var all := run + [step];
    if run == [] {
      assert all[1..] == [];
    } else {
      assert all[1..] == run[1..] + [step];
      if Balanced(s) && Enabled(s, run[0]) {
        RunsMean(Apply(s, run[0]), run[1..], step);
      }
    }
  }

  lemma {:induction false} RunKeeps(s: State, run: seq<Step>, slots: nat)
    requires Invariant(s, slots) && Legal(s, run)
    ensures Invariant(Execute(s, run), slots)
    decreases |run|
  {
    if run != [] {
      InvariantKept(s, run[0], slots);
      RunKeeps(Apply(s, run[0]), run[1..], slots);
    }
  }

  /** Any number of producers and consumers, in any schedule: the checker accepts the output, with the
      initial value of `empty` as its limit. */
  lemma OutputAccepted(boot: State, run: seq<Step>, slots: nat)
    requires Boot(boot, slots) && Legal(boot, run)
    ensures Accepted(Execute(boot, run).output, slots)
    ensures var output := Execute(boot, run).output;
            forall n | 0 <= n <= |output| ::
              && multiset(output[..n])[')'] <= multiset(output[..n])['(']
              && multiset(output[..n])['('] <= multiset(output[..n])[')'] + slots
  {
    RunKeeps(boot, run, slots);
    var output := Execute(boot, run).output;
    forall n | 0 <= n <= |output|
      ensures multiset(output[..n])[')'] <= multiset(output[..n])['(']
      ensures multiset(output[..n])['('] <= multiset(output[..n])[')'] + slots
    {
      CharsCounted(output[..n], '(');
      CharsCounted(output[..n], ')');
    }
  }

  lemma {:induction false} CharsCounted(output: string, c: char)
    ensures CountChar(output, c) == multiset(output)[c]
  {
    if output != [] {
      CharsCounted(output[..|output| - 1], c);
      assert output == output[..|output| - 1] + [output[|output| - 1]];
    }
  }

  lemma RoleAfter(s: State, step: Step, t: nat)
    requires Balanced(s) && Enabled(s, step) && t in s.tasks
    ensures t in Apply(s, step).tasks && Apply(s, step).tasks[t].role == s.tasks[t].role
  {}

  lemma {:induction false} RolesKept(s: State, run: seq<Step>, t: nat)
    requires Legal(s, run) && t in s.tasks
    ensures t in Execute(s, run).tasks && Execute(s, run).tasks[t].role == s.tasks[t].role
    decreases |run|
  {
    hide Apply, Balanced, Enabled;
    if run != [] {
      RoleAfter(s, run[0], t);
      RolesKept(Apply(s, run[0]), run[1..], t);
    }
  }

  /** The tasks are never all stuck: with a producer, a consumer and a slot, some task can move. */
  lemma NoDeadlock(boot: State, run: seq<Step>, slots: nat, p: nat, c: nat)
    requires Boot(boot, slots) && Legal(boot, run) && slots > 0
    requires p in boot.tasks && boot.tasks[p].role == Producer && c in boot.tasks && boot.tasks[c].role == Consumer
    ensures exists step :: Enabled(Execute(boot, run), step)
    ensures exists t :: t in Execute(boot, run).tasks && Execute(boot, run).tasks[t].pc != Waiting
  {
    var s := Execute(boot, run);
    RolesKept(boot, run, p);
    RolesKept(boot, run, c);
    RunKeeps(boot, run, slots);
    var t := SomebodyMoves(s, slots, p, c);
    var step := if s.tasks[t].pc == Ready then P(t) else if s.tasks[t].pc == Granted then Putch(t) else V(t);
    assert Enabled(s, step);
  }

  /** A producer and a consumer cannot both wait while nobody is past its P. */
  lemma SomebodyMoves(s: State, slots: nat, p: nat, c: nat) returns (t: nat)
    requires Invariant(s, slots) && slots > 0
    requires p in s.tasks && s.tasks[p].role == Producer && c in s.tasks && s.tasks[c].role == Consumer
    ensures t in s.tasks && s.tasks[t].pc != Waiting
  {
    assert WaitersMatch(s, Producer) && WaitersMatch(s, Consumer);
    assert p in SemOf(s, Producer).waiters <==> s.tasks[p].pc == Waiting;
    assert c in SemOf(s, Consumer).waiters <==> s.tasks[c].pc == Waiting;
    if s.tasks[p].pc != Waiting {
      t := p;
    } else if s.tasks[c].pc != Waiting {
      t := c;
    } else {
      assert Value(s.empty) == 0 && Value(s.fill) == 0;
      assert Count(s.tasks, Producer, Granted) + Count(s.tasks, Producer, Printed)
             + Count(s.tasks, Consumer, Granted) + Count(s.tasks, Consumer, Printed) == slots;
      var role := if Count(s.tasks, Producer, Granted) + Count(s.tasks, Producer, Printed) > 0 then Producer
          else Consumer;
      var at := if Count(s.tasks, role, Granted) > 0 then Granted else Printed;
      assert Count(s.tasks, role, at) > 0;
      t :| t in InState(s.tasks, Task(role, at));
    }
  }

  // ----- The tasks on two semaphores of the kernel ---------------------------------------------

  predicate IsWaiting(s: State, x: nat) {
    x in s.tasks && s.tasks[x].pc == Waiting
  }

  /** Who moves at a V: its task is ready again, and the latest waiter of the other role, if any, goes on. */
  lemma TasksAfterV(s: State, t: nat)
    requires Balanced(s) && Enabled(s, V(t))
    ensures var role := s.tasks[t].role;
            var waiters := SemOf(s, Other(role)).waiters;
            Apply(s, V(t)).tasks
            == if waiters == [] then s.tasks[t := Task(role, Ready)]
               else s.tasks[t := Task(role, Ready)][waiters[0] := Task(Other(role), Granted)]
  {
    var other := Other(s.tasks[t].role);
    var waiters := SemOf(s, other).waiters;
    assert WaitersMatch(s, other);
    assert waiters != [] ==> waiters[0] in waiters && s.tasks[waiters[0]] == Task(other, Waiting);
  }

  /** A task waits on one semaphore at most, and a signal wakes one that waits. */
  lemma OneWait(s: State)
    requires Balanced(s)
    ensures forall t: nat :: t !in s.empty.waiters || t !in s.fill.waiters
    ensures s.empty.count + 1 <= 0 ==> s.empty.waiters != []
    ensures s.fill.count + 1 <= 0 ==> s.fill.waiters != []
    ensures Woken(s.empty).Some? ==> Woken(s.empty).value in s.empty.waiters
    ensures Woken(s.fill).Some? ==> Woken(s.fill).value in s.fill.waiters
  {
    SignalShape(s.empty);
    SignalShape(s.fill);
    assert WaitersMatch(s, Producer) && WaitersMatch(s, Consumer);
    forall t: nat
      ensures t !in s.empty.waiters || t !in s.fill.waiters
    {
      assert t in SemOf(s, Producer).waiters ==> s.tasks[t].role == Producer;
      assert t in SemOf(s, Consumer).waiters ==> s.tasks[t].role == Consumer;
    }
  }

  /** The two semaphores share the `next` and `block` fields of the tasks. */
  class Workers {
    const tasks: Tasks
    const empty: Semaphore
    const fill: Semaphore
    var output: string
    /** The state that the objects stand for. */
    ghost var state: State

    ghost predicate Valid()
      reads this, tasks, empty, fill
    {
      && empty != fill && empty.tasks == tasks && fill.tasks == tasks && empty.Valid() && fill.Valid()
      && state.empty == empty.Value() && state.fill == fill.Value() && state.output == output
      && Balanced(state)
      && (forall t :: t in tasks.blocked <==> IsWaiting(state, t))
    }

    constructor (slots: nat, ghost roles: map<nat, Role>)
      ensures Valid() && Boot(state, slots) && state.tasks.Keys == roles.Keys
      ensures forall t | t in roles :: state.tasks[t].role == roles[t]
    {
      var fields := new Tasks();
      tasks := fields;
      empty := new Semaphore(fields, slots);
      fill := new Semaphore(fields, 0);
      output := [];
      state := State(map t | t in roles :: Task(roles[t], Ready), Sem(slots, []), Sem(0, []), []);
    }

    /** The state is that of the objects. */
    lemma StateOfObjects()
      requires Valid()
      ensures state.output == output
      ensures state.empty == Sem(empty.count, empty.waiters) && state.fill == Sem(fill.count, fill.waiters)
      ensures forall t :: t in tasks.blocked <==> t in state.tasks && state.tasks[t].pc == Waiting
    {}

    /** `P(&empty)` of a producer, `P(&fill)` of a consumer. */
    method Begin(t: nat, role: Role)
      requires Valid() && Enabled(state, P(t)) && state.tasks[t].role == role
      modifies this, tasks, empty, fill
      ensures Valid() && state == Apply(old(state), P(t)) && output == old(output)
      ensures state.tasks
              == old(state.tasks)[t := Task(role, if old(if role.Producer? then empty.count else fill.count) <= 0
                                                  then Waiting else Granted)]
      ensures empty.count == old(empty.count) - (if role.Producer? then 1 else 0)
      ensures fill.count == old(fill.count) - (if role.Producer? then 0 else 1)
    {
      hide Balanced, Sound, Chain;
      BalancedKept(state, P(t));
      forall x: nat
        ensures IsWaiting(Apply(state, P(t)), x) <==> IsWaiting(state, x) || (x == t && SemOf(state, role).count <= 0)
      {}
      if role.Producer? {
        var blocked := empty.Wait(t);
        fill.KeptByWait(t);
      } else {
        var blocked := fill.Wait(t);
        empty.KeptByWait(t);
      }
      state := Apply(state, P(t));
    }

    /** `putch`. */
    method Print(t: nat, role: Role)
      requires Valid() && Enabled(state, Putch(t)) && state.tasks[t].role == role
      modifies this
      ensures Valid() && state == Apply(old(state), Putch(t))
      ensures output == old(output) + [if role.Producer? then '(' else ')']
      ensures state.tasks == old(state.tasks)[t := Task(role, Printed)]
    {
      hide Balanced, Sound, Chain;
      BalancedKept(state, Putch(t));
      output := output + [if role.Producer? then '(' else ')'];
      state := Apply(state, Putch(t));
    }

    /** `V(&fill)` of a producer, `V(&empty)` of a consumer. */
    method End(t: nat, role: Role)
      requires Valid() && Enabled(state, V(t)) && state.tasks[t].role == role
      modifies this, tasks, empty, fill
      ensures Valid() && state == Apply(old(state), V(t)) && output == old(output)
      ensures empty.count == old(empty.count) + (if role.Producer? then 0 else 1)
      ensures fill.count == old(fill.count) + (if role.Producer? then 1 else 0)
      ensures var waiters := old(if role.Producer? then fill.waiters else empty.waiters);
              state.tasks == if waiters == [] then old(state.tasks)[t := Task(role, Ready)]
                             else old(state.tasks)[t := Task(role, Ready)]
                                  [waiters[0] := Task(if role.Producer? then Consumer else Producer, Granted)]
    {
      hide Balanced, Sound, Chain, Woken;
      BalancedKept(state, V(t));
      TasksAfterV(state, t);
      OneWait(state);
      forall x: nat
        ensures IsWaiting(Apply(state, V(t)), x) <==> IsWaiting(state, x) && Woken(SemOf(state, Other(role))) != Some(x)
      {}
      var woken;
      if role.Producer? {
        woken := fill.Signal();
        empty.KeptBySignal(woken);
      } else {
        woken := empty.Signal();
        fill.KeptBySignal(woken);
      }
      state := Apply(state, V(t));
    }
  }
}
