/** The hand-off protocol of the scheduler in os-l3/kernel/src/kmt.c, as atomic steps of any number of
    processors over any number of tasks, in any interleaving. */
module Sched {
  import opened Wrappers

  /** The idle task of a processor, or an entry of `tasks[]`. */
  datatype TaskId = Idle(cpu: nat) | Proc(id: nat)

  const MAX_INTR: nat := 8

  datatype Task = Task(suspend: bool, running: bool, block: bool, dead: bool, started: bool,
                       ntrap: nat, context: seq<nat>)

  /** Where a processor is: in code of its current task (a trap handler included), between the three
      writes of `kmt_context_save`, or between the writes of `kmt_schedule`. */
  datatype Phase = Code | ContextSaved | Suspended | Released | Probing | Won(task: TaskId) | Chosen | Marked

  /** `stack` is the task on whose stack the processor stands. */
  datatype Cpu = Cpu(current: TaskId, buffer: Option<TaskId>, phase: Phase, stack: TaskId)

  /** What happens to saved contexts. */
  datatype Event = Saved(task: TaskId, ctx: nat) | Resumed(task: TaskId, ctx: nat)

  datatype State = State(tasks: map<TaskId, Task>, table: set<nat>, cpus: seq<Cpu>, log: seq<Event>)

  datatype Step =
    | SaveContext(c: nat, ctx: nat)
    | MarkSuspended(c: nat)
    | MarkStopped(c: nat)
    | ReleaseBuffer(c: nat)
    | Reap(c: nat)
    | TakeBuffer(c: nat)
    | Probe(c: nat, t: nat)
    | GiveUp(c: nat)
    | Commit(c: nat)
    | MarkRunning(c: nat)
    | Return(c: nat)
    | Create(t: nat, ctx: nat, running: bool)
    | SetFlags(who: TaskId, block: bool, dead: bool, running: bool)

  // ----- Steps ---------------------------------------------------------------------------------

  /** The state is complete: every task a processor refers to exists. */
  ghost predicate Complete(s: State) {
    && (forall c: nat | c < |s.cpus| ::
          && Idle(c) in s.tasks && s.cpus[c].current in s.tasks
          && (s.cpus[c].buffer.Some? ==> s.cpus[c].buffer.value in s.tasks)
          && (s.cpus[c].phase.Won? ==> s.cpus[c].phase.task in s.tasks))
    && (forall t | t in s.table :: Proc(t) in s.tasks)
    && (forall t | t in s.tasks :: |s.tasks[t].context| == MAX_INTR && s.tasks[t].ntrap <= MAX_INTR)
  }

  /** When a step may be taken. A processor schedules only inside a trap, that is with a context of its
      current task saved, and traps nest at most MAX_INTR deep. */
  ghost predicate Enabled(s: State, step: Step)
    requires Complete(s)
  {
    match step
    case SaveContext(c, ctx) => c < |s.cpus| && s.cpus[c].phase == Code && s.tasks[s.cpus[c].current].ntrap < MAX_INTR
    case MarkSuspended(c) => c < |s.cpus| && s.cpus[c].phase == ContextSaved
    case MarkStopped(c) => c < |s.cpus| && s.cpus[c].phase == Suspended
    case ReleaseBuffer(c) => c < |s.cpus| && s.cpus[c].phase == Code && s.tasks[s.cpus[c].current].ntrap > 0
    case Reap(c) =>
      && c < |s.cpus| && s.cpus[c].phase == Released && s.cpus[c].buffer.Some?
      && s.cpus[c].buffer.value != s.cpus[c].current && s.tasks[s.cpus[c].buffer.value].dead
    case TakeBuffer(c) => c < |s.cpus| && s.cpus[c].phase == Released
    case Probe(c, t) => c < |s.cpus| && s.cpus[c].phase == Probing && t in s.table && Eligible(s, c, t)
    case GiveUp(c) => c < |s.cpus| && s.cpus[c].phase == Probing
    case Commit(c) => c < |s.cpus| && s.cpus[c].phase.Won?
    case MarkRunning(c) => c < |s.cpus| && s.cpus[c].phase == Chosen
    case Return(c) => c < |s.cpus| && s.cpus[c].phase == Marked
    case Create(t, ctx, running) => Proc(t) !in s.tasks
    case SetFlags(who, block, dead, running) => who in s.tasks
  }

  /** The condition under which the scheduler picks a task. */
  predicate Eligible(s: State, c: nat, t: nat)
    requires c < |s.cpus| && Proc(t) in s.tasks
  {
    var task := s.tasks[Proc(t)];
    !task.block && !task.dead && !task.running && (Proc(t) == s.cpus[c].current || !task.suspend)
  }

  function WithCpu(s: State, c: nat, cpu: Cpu): State
    requires c < |s.cpus|
  {
    s.(cpus := s.cpus[c := cpu])
  }

  function WithTask(s: State, t: TaskId, task: Task): State {
    s.(tasks := s.tasks[t := task])
  }

  /** The entry that `kmt_schedule` takes off a task's contexts. */
  function TopIndex(task: Task): nat {
    if task.ntrap == 0 then 0 else task.ntrap - 1
  }

  /** The steps that a processor can take next, by the place where it is. */
  lemma NextSteps(s: State, c: nat)
    requires Complete(s) && c < |s.cpus|
    ensures var cpu := s.cpus[c];
            && (forall ctx: nat :: Enabled(s, SaveContext(c, ctx)) <==>
                  cpu.phase == Code && s.tasks[cpu.current].ntrap < 8)
            && (Enabled(s, MarkSuspended(c)) <==> cpu.phase == ContextSaved)
            && (Enabled(s, MarkStopped(c)) <==> cpu.phase == Suspended)
            && (Enabled(s, ReleaseBuffer(c)) <==> cpu.phase == Code && s.tasks[cpu.current].ntrap > 0)
            && (Enabled(s, Reap(c)) <==>
                  cpu.phase == Released && cpu.buffer.Some? && cpu.buffer.value != cpu.current
                      && s.tasks[cpu.buffer.value].dead)
            && (Enabled(s, TakeBuffer(c)) <==> cpu.phase == Released)
            && (Enabled(s, GiveUp(c)) <==> cpu.phase == Probing)
            && (Enabled(s, Commit(c)) <==> cpu.phase.Won?)
            && (Enabled(s, MarkRunning(c)) <==> cpu.phase == Chosen)
            && (Enabled(s, Return(c)) <==> cpu.phase == Marked)
  {}

  ghost function Apply(s: State, step: Step): State
    requires Complete(s) && Enabled(s, step)
  {
    match step
    case SaveContext(c, ctx) =>
      var cpu := s.cpus[c];
      var task := s.tasks[cpu.current];
      var saved := task.(context := task.context[task.ntrap := ctx], ntrap := task.ntrap + 1);
      WithCpu(WithTask(s, cpu.current, saved), c, cpu.(phase := ContextSaved))
      .(log := s.log + [Saved(cpu.current, ctx)])
    case MarkSuspended(c) =>
      var cpu := s.cpus[c];
      WithCpu(WithTask(s, cpu.current, s.tasks[cpu.current].(suspend := true)), c, cpu.(phase := Suspended))
    case MarkStopped(c) =>
      var cpu := s.cpus[c];
      WithCpu(WithTask(s, cpu.current, s.tasks[cpu.current].(running := false)), c, cpu.(phase := Code))
    case ReleaseBuffer(c) =>
      var cpu := s.cpus[c];
      var s' := if cpu.buffer.Some? && cpu.buffer.value != cpu.current
                then WithTask(s, cpu.buffer.value, s.tasks[cpu.buffer.value].(suspend := false)) else s;
      WithCpu(s', c, cpu.(phase := Released))
    case Reap(c) => s.(table := if s.cpus[c].buffer.value.Proc? then s.table - {s.cpus[c].buffer.value.id} else s.table)
    case TakeBuffer(c) => WithCpu(s, c, s.cpus[c].(buffer := Some(s.cpus[c].current), phase := Probing))
    case Probe(c, t) =>
      var s' := if Proc(t) == s.cpus[c].current then s else WithTask(s, Proc(t), s.tasks[Proc(t)].(suspend := true));
      WithCpu(s', c, s.cpus[c].(phase := Won(Proc(t))))
    case GiveUp(c) => WithCpu(s, c, s.cpus[c].(phase := Won(Idle(c))))
    case Commit(c) => WithCpu(s, c, s.cpus[c].(current := s.cpus[c].phase.task, phase := Chosen))
    case MarkRunning(c) =>
      var cpu := s.cpus[c];
      WithCpu(WithTask(s, cpu.current, s.tasks[cpu.current].(running := true)), c, cpu.(phase := Marked))
    case Return(c) =>
      var cpu := s.cpus[c];
      var task := s.tasks[cpu.current];
      WithCpu(WithTask(s, cpu.current, task.(ntrap := TopIndex(task), started := true)), c,
              cpu.(phase := Code, stack := cpu.current))
      .(log := s.log + [Resumed(cpu.current, task.context[TopIndex(task)])])
    case Create(t, ctx, running) =>
      WithTask(s, Proc(t), Task(false, running, false, false, false, 0, seq(MAX_INTR, i => if i == 0 then ctx else 0)))
      .(table := s.table + {t}, log := s.log + [Saved(Proc(t), ctx)])
    case SetFlags(who, block, dead, running) =>
      WithTask(s, who, s.tasks[who].(block := block, dead := dead, running := running))
  }

  // ----- Ownership -----------------------------------------------------------------------------

  /** A processor owns its current task, the task it won, and the buffered one until it is released. */
  ghost predicate Owns(s: State, c: nat, t: TaskId) {
    c < |s.cpus| && (s.cpus[c].current == t || (s.cpus[c].buffer == Some(t) && s.cpus[c].phase != Released)
                     || s.cpus[c].phase == Won(t))
  }

  ghost predicate OwnIdle(s: State, c: nat)
    requires c < |s.cpus|
  {
    forall d :: Owns(s, c, Idle(d)) || s.cpus[c].buffer == Some(Idle(d)) ==> d == c
  }

  /** The stack a processor stands on is that of its current task, or of the buffered one from the choice
      of the next task to the return from the trap. */
  ghost predicate OnOwnStack(s: State, c: nat)
    requires c < |s.cpus|
  {
    var cpu := s.cpus[c];
    if cpu.phase in {Chosen, Marked} then cpu.buffer == Some(cpu.stack)
    else cpu.current == cpu.stack && (cpu.phase == Probing || cpu.phase.Won? ==> cpu.buffer == Some(cpu.stack))
  }

  ghost predicate Owned(s: State, t: TaskId) {
    exists c: nat :: Owns(s, c, t)
  }

  /** No task has two owners, and `suspend` says whether it has one. */
  ghost predicate Exclusive(s: State) {
    && (forall c: nat, d: nat, t | Owns(s, c, t) && Owns(s, d, t) && t.Proc? :: c == d)
    && (forall c: nat | c < |s.cpus| :: OwnIdle(s, c) && OnOwnStack(s, c))
    && (forall t | t in s.tasks && t.Proc? :: s.tasks[t].suspend <==> Owned(s, t))
  }

  /** The processor that takes a step, if it is one's. */
  function Actor(step: Step): Option<nat> {
    match step
    case Create(t, ctx, running) => None
    case SetFlags(who, block, dead, running) => None
    case _ => Some(step.c)
  }

  lemma TaskKept(s: State, step: Step, t: TaskId)
    requires Complete(s) && Enabled(s, step)
    ensures t in s.tasks ==> t in Apply(s, step).tasks
    ensures t in Apply(s, step).tasks ==>
              |Apply(s, step).tasks[t].context| == MAX_INTR && Apply(s, step).tasks[t].ntrap <= MAX_INTR
  {}

  lemma TableKept(s: State, step: Step, t: nat)
    requires Complete(s) && Enabled(s, step) && t in Apply(s, step).table
    ensures Proc(t) in Apply(s, step).tasks
  {}

  lemma CpuKept(s: State, step: Step, d: nat)
    requires Complete(s) && Enabled(s, step)
    ensures |Apply(s, step).cpus| == |s.cpus|
    ensures d < |s.cpus| && Actor(step) != Some(d) ==> Apply(s, step).cpus[d] == s.cpus[d]
    ensures d < |s.cpus| ==>
              var cpu := Apply(s, step).cpus[d];
              && cpu.current in s.tasks && (cpu.buffer.Some? ==> cpu.buffer.value in s.tasks)
              && (cpu.phase.Won? ==> cpu.phase.task in s.tasks)
  {}

  lemma CompleteKept(s: State, step: Step)
    requires Complete(s) && Enabled(s, step)
    ensures Complete(Apply(s, step)) && |Apply(s, step).cpus| == |s.cpus|
    ensures forall d: nat | d < |s.cpus| && Actor(step) != Some(d) :: Apply(s, step).cpus[d] == s.cpus[d]
  {
    hide Apply, Enabled;
    var s' := Apply(s, step);
    CpuKept(s, step, 0);
    forall t
      ensures t in s.tasks ==> t in s'.tasks
      ensures t in s'.tasks ==> |s'.tasks[t].context| == MAX_INTR && s'.tasks[t].ntrap <= MAX_INTR
    {
      TaskKept(s, step, t);
    }
    forall c: nat | c < |s.cpus|
      ensures Idle(c) in s'.tasks && s'.cpus[c].current in s'.tasks
      ensures s'.cpus[c].buffer.Some? ==> s'.cpus[c].buffer.value in s'.tasks
      ensures s'.cpus[c].phase.Won? ==> s'.cpus[c].phase.task in s'.tasks
      ensures Actor(step) != Some(c) ==> s'.cpus[c] == s.cpus[c]
    {
      CpuKept(s, step, c);
    }
    forall t | t in s'.table
      ensures Proc(t) in s'.tasks
    {
      TableKept(s, step, t);
    }
  }

  /** What a step does to ownership: a release gives one task up, a won probe takes one, and no other
      step changes anything. */
  lemma OwnersAfter(s: State, step: Step, d: nat, t: TaskId)
    requires Complete(s) && Exclusive(s) && Enabled(s, step) && t.Proc?
    ensures Owns(Apply(s, step), d, t) <==>
            if step.ReleaseBuffer? && d == step.c then s.cpus[d].current == t
            else if step.Probe? && d == step.c then Owns(s, d, t) || t == Proc(step.t)
            else Owns(s, d, t)
  {
    hide Apply, OnOwnStack;
    CpuKept(s, step, d);
    if d < |s.cpus| && Actor(step) == Some(d) {
      assert OnOwnStack(s, d);
      ActorOwns(s, step, d, t);
    }
  }

  /** The processor that takes the step. */
  lemma ActorOwns(s: State, step: Step, d: nat, t: TaskId)
    requires Complete(s) && Enabled(s, step) && t.Proc? && d < |s.cpus| && Actor(step) == Some(d) && OnOwnStack(s, d)
    ensures Owns(Apply(s, step), d, t) <==>
            if step.ReleaseBuffer? then s.cpus[d].current == t
            else if step.Probe? then Owns(s, d, t) || t == Proc(step.t)
            else Owns(s, d, t)
  {}

  lemma SuspendAfter(s: State, step: Step, t: TaskId)
    requires Complete(s) && Exclusive(s) && Enabled(s, step) && t.Proc? && t in Apply(s, step).tasks
    ensures Apply(s, step).tasks[t].suspend <==>
            if step.ReleaseBuffer? && s.cpus[step.c].buffer == Some(t) && s.cpus[step.c].current != t then false
            else if step.Probe? && t == Proc(step.t) then true
            else t in s.tasks && s.tasks[t].suspend
  {
    if step.MarkSuspended? || step.Probe? {
      assert Owns(s, step.c, s.cpus[step.c].current);
    }
  }

  lemma StacksAfter(s: State, step: Step, d: nat)
    requires Complete(s) && Exclusive(s) && Enabled(s, step) && d < |s.cpus|
    ensures d < |Apply(s, step).cpus| && OwnIdle(Apply(s, step), d) && OnOwnStack(Apply(s, step), d)
  {
    CompleteKept(s, step);
    assert OwnIdle(s, d) && OnOwnStack(s, d);
    var s' := Apply(s, step);
    forall i | Owns(s', d, Idle(i)) || s'.cpus[d].buffer == Some(Idle(i))
      ensures i == d
    {
      assert Owns(s, d, Idle(i)) || s.cpus[d].buffer == Some(Idle(i)) || i == d;
    }
  }

  lemma OwnershipKept(s: State, step: Step)
    requires Complete(s) && Exclusive(s) && Enabled(s, step)
    ensures Complete(Apply(s, step)) && Exclusive(Apply(s, step))
  {
    hide Apply, Enabled, OnOwnStack, OwnIdle;
    CompleteKept(s, step);
    var s' := Apply(s, step);
    forall d: nat | d < |s'.cpus|
      ensures OwnIdle(s', d) && OnOwnStack(s', d)
    {
      StacksAfter(s, step, d);
    }
    forall c: nat, d: nat, t | Owns(s', c, t) && Owns(s', d, t) && t.Proc?
      ensures c == d
    {
      UniqueAfter(s, step, c, d, t);
    }
    forall t | t in s'.tasks && t.Proc?
      ensures s'.tasks[t].suspend <==> Owned(s', t)
    {
      SuspendMatches(s, step, t);
    }
  }

  lemma UniqueAfter(s: State, step: Step, c: nat, d: nat, t: TaskId)
    requires Complete(s) && Exclusive(s) && Enabled(s, step) && t.Proc?
    requires Owns(Apply(s, step), c, t) && Owns(Apply(s, step), d, t)
    ensures c == d
  {
    hide Apply, Owns, OnOwnStack, OwnIdle;
    OwnersAfter(s, step, c, t);
    OwnersAfter(s, step, d, t);
    CurrentOwned(s, c);
    CurrentOwned(s, d);
    if step.Probe? && t == Proc(step.t) {
      ProbeExclusive(s, step.c, step.t, c);
      ProbeExclusive(s, step.c, step.t, d);
    }
  }

  lemma CurrentOwned(s: State, c: nat)
    ensures c < |s.cpus| ==> Owns(s, c, s.cpus[c].current)
  {}

  /** A task that a processor may pick is owned by no other processor. */
  lemma ProbeExclusive(s: State, c: nat, t: nat, d: nat)
    requires Complete(s) && Exclusive(s) && Enabled(s, Probe(c, t))
    ensures Owns(s, d, Proc(t)) ==> d == c
  {
    assert Owns(s, d, Proc(t)) ==> Owned(s, Proc(t));
    CurrentOwned(s, c);
  }

  lemma SuspendMatches(s: State, step: Step, t: TaskId)
    requires Complete(s) && Exclusive(s) && Enabled(s, step) && t.Proc? && t in Apply(s, step).tasks
    ensures Apply(s, step).tasks[t].suspend <==> Owned(Apply(s, step), t)
  {
    hide Apply, OnOwnStack, OwnIdle;
    var s' := Apply(s, step);
    SuspendAfter(s, step, t);
    forall d: nat
      ensures Owns(s', d, t) <==>
              if step.ReleaseBuffer? && d == step.c then s.cpus[d].current == t
              else if step.Probe? && d == step.c then Owns(s, d, t) || t == Proc(step.t)
              else Owns(s, d, t)
    {
      OwnersAfter(s, step, d, t);
    }
    if Owned(s, t) {
      var d: nat :| Owns(s, d, t);
      assert t in s.tasks;
      assert Owns(s', d, t) || (step.ReleaseBuffer? && d == step.c);
    }
    if step.Probe? {
      assert t == Proc(step.t) ==> Owns(s', step.c, t);
    }
    if step.ReleaseBuffer? {
      assert Owns(s, step.c, s.cpus[step.c].current);
      assert Owns(s, step.c, t) || s.cpus[step.c].current != t;
    }
  }

  // ----- Saved contexts ------------------------------------------------------------------------

  /** The contexts of a task that were saved and not yet resumed, latest last; None when some context was
      resumed that was not the latest. */
  ghost function Replay(log: seq<Event>, t: TaskId): Option<seq<nat>> {
    if log == [] then Some([])
    else
      var event, before := log[|log| - 1], Replay(log[..|log| - 1], t);
      if before == None || event.task != t then before
      else if event.Saved? then Some(before.value + [event.ctx])
      else if before.value != [] && before.value[|before.value| - 1] == event.ctx
      then Some(before.value[..|before.value| - 1])
      else None
  }

  lemma ReplayAppend(log: seq<Event>, event: Event, t: TaskId)
    ensures Replay(log + [event], t)
            == if Replay(log, t) == None || event.task != t then Replay(log, t)
               else
                 var before := Replay(log, t).value;
                 if event.Saved? then Some(before + [event.ctx])
                 else if before != [] && before[|before| - 1] == event.ctx then Some(before[..|before| - 1])
                 else None
  {
    assert (log + [event])[..|log + [event]| - 1] == log;
  }

  ghost predicate InCode(s: State, c: nat, t: TaskId) {
    c < |s.cpus| && s.cpus[c].current == t && s.cpus[c].phase == Code
  }

  ghost predicate Executing(s: State, t: TaskId) {
    exists c: nat :: InCode(s, c, t)
  }

  /** The contexts of a task hold what is pending: the first one alone until the task is started, the
      `ntrap` first ones from then on. */
  ghost predicate Holds(task: Task, pending: Option<seq<nat>>)
    requires |task.context| == MAX_INTR && task.ntrap <= MAX_INTR
  {
    && pending == Some(if task.started then task.context[..task.ntrap] else [task.context[0]])
    && (!task.started ==> task.ntrap == 0)
  }

  ghost predicate Pending(s: State, t: TaskId)
    requires t in s.tasks && |s.tasks[t].context| == MAX_INTR && s.tasks[t].ntrap <= MAX_INTR
  {
    Holds(s.tasks[t], Replay(s.log, t))
  }

  /** A task that runs nowhere has a context to be resumed with. */
  ghost predicate Resumable(s: State) {
    forall t | t in s.tasks && s.tasks[t].started && s.tasks[t].ntrap == 0 :: Executing(s, t)
  }

  /** The current task has been started, except between its choice and its first return. */
  ghost predicate StartedUnlessChosen(s: State, c: nat)
    requires Complete(s) && c < |s.cpus|
  {
    s.cpus[c].phase in {Chosen, Marked} || s.tasks[s.cpus[c].current].started
  }

  ghost predicate ContextsSound(s: State) {
    && Complete(s)
    && (forall t | t in s.tasks :: Pending(s, t))
    && (forall t | t !in s.tasks :: Replay(s.log, t) == Some([]))
    && (forall c: nat | c < |s.cpus| :: StartedUnlessChosen(s, c))
    && Resumable(s)
  }

  /** The event a step adds to the log. */
  function Logged(s: State, step: Step): Option<Event>
    requires step.SaveContext? || step.Return? ==> step.c < |s.cpus| && s.cpus[step.c].current in s.tasks
    requires step.Return? ==> |s.tasks[s.cpus[step.c].current].context| == MAX_INTR
    requires step.Return? ==> s.tasks[s.cpus[step.c].current].ntrap <= MAX_INTR
  {
    match step
    case SaveContext(c, ctx) => Some(Saved(s.cpus[c].current, ctx))
    case Return(c) =>
      var task := s.tasks[s.cpus[c].current];
      Some(Resumed(s.cpus[c].current, task.context[TopIndex(task)]))
    case Create(t, ctx, running) => Some(Saved(Proc(t), ctx))
    case _ => None
  }

  /** What a step leaves of a task's contexts and adds to the log. */
  lemma ContextsAfter(s: State, step: Step, t: TaskId)
    requires Complete(s) && Enabled(s, step)
    ensures Apply(s, step).log == s.log + if Logged(s, step).Some? then [Logged(s, step).value] else []
    ensures t in Apply(s, step).tasks <==> t in s.tasks || (step.Create? && t == Proc(step.t))
    ensures t in s.tasks ==>
              var task, task' := s.tasks[t], Apply(s, step).tasks[t];
              if step.SaveContext? && t == s.cpus[step.c].current then
                task'.context == task.context[task.ntrap := step.ctx] && task'.ntrap == task.ntrap + 1
                    && task'.started == task.started
              else if step.Return? && t == s.cpus[step.c].current then
                task'.context == task.context && task'.ntrap == TopIndex(task) && task'.started
              else
                task'.context == task.context && task'.ntrap == task.ntrap && task'.started == task.started
    ensures step.Create? && t == Proc(step.t) ==>
              var task := Apply(s, step).tasks[t];
              |task.context| == MAX_INTR && task.context[0] == step.ctx && task.ntrap == 0 && !task.started
  {}

  lemma ReplayAfter(s: State, step: Step, t: TaskId)
    requires Complete(s) && Enabled(s, step)
    ensures Replay(Apply(s, step).log, t)
            == if Logged(s, step) == None || Logged(s, step).value.task != t || Replay(s.log, t) == None
               then Replay(s.log, t)
               else
                 var before, event := Replay(s.log, t).value, Logged(s, step).value;
                 if event.Saved? then Some(before + [event.ctx])
                 else if before != [] && before[|before| - 1] == event.ctx then Some(before[..|before| - 1])
                 else None
  {
    hide Apply, Replay;
    ContextsAfter(s, step, t);
    if Logged(s, step).Some? {
      ReplayAppend(s.log, Logged(s, step).value, t);
    } else {
      assert s.log + [] == s.log;
    }
  }

  lemma HoldsSaved(task: Task, task': Task, pending: Option<seq<nat>>, ctx: nat)
    requires |task.context| == |task'.context| == MAX_INTR && task.ntrap < MAX_INTR && task'.ntrap == task.ntrap + 1
    requires Holds(task, pending) && task.started && task'.started
             && task'.context == task.context[task.ntrap := ctx]
    ensures pending.Some? && Holds(task', Some(pending.value + [ctx]))
  {
    assert task'.context[..task'.ntrap] == task.context[..task.ntrap] + [ctx];
  }

  lemma HoldsResumed(task: Task, task': Task, pending: Option<seq<nat>>)
    requires |task.context| == |task'.context| == MAX_INTR && task.ntrap <= MAX_INTR && task'.ntrap == TopIndex(task)
    requires Holds(task, pending) && task'.context == task.context && task'.started
    requires task.started ==> task.ntrap > 0
    ensures pending.Some? && pending.value != []
    ensures var before := pending.value;
            before[|before| - 1] == task.context[TopIndex(task)] && Holds(task', Some(before[..|before| - 1]))
  {
    var before := pending.value;
    assert before[..|before| - 1] == task'.context[..task'.ntrap];
  }

  lemma PendingSaved(s: State, step: Step)
    requires ContextsSound(s) && Enabled(s, step) && Complete(Apply(s, step)) && step.SaveContext?
    requires s.cpus[step.c].current in Apply(s, step).tasks
    ensures Pending(Apply(s, step), s.cpus[step.c].current)
  {
    hide Resumable, Apply, Replay, Holds;
    var t := s.cpus[step.c].current;
    ContextsAfter(s, step, t);
    ReplayAfter(s, step, t);
    assert Pending(s, t) && StartedUnlessChosen(s, step.c);
    HoldsSaved(s.tasks[t], Apply(s, step).tasks[t], Replay(s.log, t), step.ctx);
  }

  lemma PendingResumed(s: State, step: Step)
    requires ContextsSound(s) && Exclusive(s) && Enabled(s, step) && Complete(Apply(s, step)) && step.Return?
    requires s.cpus[step.c].current in Apply(s, step).tasks
    ensures Pending(Apply(s, step), s.cpus[step.c].current)
  {
    hide Exclusive, Resumable, Apply, Replay, Holds;
    var t := s.cpus[step.c].current;
    ContextsAfter(s, step, t);
    ReplayAfter(s, step, t);
    assert Pending(s, t);
    ChosenResumable(s, step.c);
    HoldsResumed(s.tasks[t], Apply(s, step).tasks[t], Replay(s.log, t));
  }

  lemma PendingAfter(s: State, step: Step, t: TaskId)
    requires ContextsSound(s) && Exclusive(s) && Enabled(s, step) && t in Apply(s, step).tasks
    requires Complete(Apply(s, step))
    ensures Pending(Apply(s, step), t)
  {
    hide Exclusive, Resumable, Apply, Replay, StartedUnlessChosen;
    ContextsAfter(s, step, t);
    ReplayAfter(s, step, t);
    if step.SaveContext? && t == s.cpus[step.c].current {
      PendingSaved(s, step);
    } else if step.Return? && t == s.cpus[step.c].current {
      PendingResumed(s, step);
    } else if t in s.tasks {
      assert Pending(s, t);
    } else {
      assert Replay(s.log, t) == Some([]) && [] + [step.ctx] == [step.ctx];
    }
  }

  /** The task a processor is about to return to has a context saved, or was never started. */
  lemma ChosenResumable(s: State, c: nat)
    requires ContextsSound(s) && Exclusive(s) && c < |s.cpus| && s.cpus[c].phase == Marked
    ensures var task := s.tasks[s.cpus[c].current]; task.started ==> task.ntrap > 0
  {
    var t := s.cpus[c].current;
    if s.tasks[t].started && s.tasks[t].ntrap == 0 {
      assert Executing(s, t);
      var d: nat :| InCode(s, d, t);
      CurrentOwned(s, c);
      CurrentOwned(s, d);
      SoleOwner(s, c, d, t);
    }
  }

  lemma SoleOwner(s: State, c: nat, d: nat, t: TaskId)
    requires Exclusive(s) && Owns(s, c, t) && Owns(s, d, t)
    ensures c == d
  {
    assert OwnIdle(s, c) && OwnIdle(s, d);
  }

  lemma ResumableAfter(s: State, step: Step, t: TaskId)
    requires ContextsSound(s) && Exclusive(s) && Enabled(s, step) && t in Apply(s, step).tasks
    requires Apply(s, step).tasks[t].started && Apply(s, step).tasks[t].ntrap == 0
    ensures Executing(Apply(s, step), t)
  {
    hide Replay, Pending, Exclusive;
    CompleteKept(s, step);
    ContextsAfter(s, step, t);
    var s' := Apply(s, step);
    if step.Return? && s.cpus[step.c].current == t {
      assert InCode(s', step.c, t);
    } else {
      assert Executing(s, t);
      var d: nat :| InCode(s, d, t);
      assert InCode(s', d, t);
    }
  }

  /** The processor that takes the step. */
  lemma ActorStarted(s: State, step: Step, c: nat)
    requires Complete(s) && Enabled(s, step) && Complete(Apply(s, step)) && c < |s.cpus| && Actor(step) == Some(c)
    requires StartedUnlessChosen(s, c) && |Apply(s, step).cpus| == |s.cpus|
    ensures StartedUnlessChosen(Apply(s, step), c)
  {}

  lemma StartedAfter(s: State, step: Step, c: nat)
    requires ContextsSound(s) && Enabled(s, step) && Complete(Apply(s, step)) && c < |Apply(s, step).cpus|
    ensures StartedUnlessChosen(Apply(s, step), c)
  {
    hide Apply, Enabled, Replay, Pending, Resumable;
    CpuKept(s, step, c);
    assert StartedUnlessChosen(s, c);
    if Actor(step) == Some(c) {
      ActorStarted(s, step, c);
    } else {
      ContextsAfter(s, step, s.cpus[c].current);
    }
  }

  lemma ContextsKept(s: State, step: Step)
    requires ContextsSound(s) && Exclusive(s) && Enabled(s, step)
    ensures ContextsSound(Apply(s, step))
  {
    hide Apply, Replay, Pending, Exclusive, StartedUnlessChosen, Executing;
    CompleteKept(s, step);
    var s' := Apply(s, step);
    forall t | t in s'.tasks
      ensures Pending(s', t)
    {
      PendingAfter(s, step, t);
    }
    forall c: nat | c < |s'.cpus|
      ensures StartedUnlessChosen(s', c)
    {
      StartedAfter(s, step, c);
    }
    forall t | t in s'.tasks && s'.tasks[t].started && s'.tasks[t].ntrap == 0
      ensures Executing(s', t)
    {
      ResumableAfter(s, step, t);
    }
    forall t | t !in s'.tasks
      ensures Replay(s'.log, t) == Some([])
    {
      ContextsAfter(s, step, t);
      ReplayAfter(s, step, t);
    }
  }

  // ----- Runs ----------------------------------------------------------------------------------

  ghost predicate Sound(s: State) {
    ContextsSound(s) && Exclusive(s)
  }

  /** After `switch_boot_pcb`: every processor in its idle task, which has started and saved nothing; the
      buffers are NULL and there are no other tasks. */
  ghost predicate Boot(s: State) {
    && s.table == {} && s.log == []
    && (forall t | t in s.tasks ::
         t.Idle? && t.cpu < |s.cpus| && |s.tasks[t].context| == MAX_INTR && s.tasks[t].ntrap == 0
                                   && s.tasks[t].started)
    && (forall c: nat | c < |s.cpus| :: Idle(c) in s.tasks && s.cpus[c] == Cpu(Idle(c), None, Code, Idle(c)))
  }

  lemma BootExclusive(s: State)
    requires Boot(s)
    ensures Exclusive(s)
  {
    forall c: nat, t | Owns(s, c, t)
      ensures t == Idle(c)
    {}
    forall c: nat | c < |s.cpus|
      ensures OwnIdle(s, c) && OnOwnStack(s, c)
    {}
  }

  lemma BootSound(s: State)
    requires Boot(s)
    ensures Sound(s)
  {
    hide Owns, OwnIdle, OnOwnStack;
    BootExclusive(s);
    hide Exclusive;
    forall t
      ensures Replay(s.log, t) == Some([])
    {}
    forall t | t in s.tasks
      ensures Executing(s, t) && Holds(s.tasks[t], Some([]))
    {
      assert InCode(s, t.cpu, t);
    }
  }

  lemma SoundKept(s: State, step: Step)
    requires Sound(s) && Enabled(s, step)
    ensures Sound(Apply(s, step))
  {
    OwnershipKept(s, step);
    ContextsKept(s, step);
  }

  /** Steps that can be taken one after the other. */
  ghost predicate Legal(s: State, run: seq<Step>)
    decreases |run|
  {
    run == [] || (Complete(s) && Enabled(s, run[0]) && Legal(Apply(s, run[0]), run[1..]))
  }

  ghost function Execute(s: State, run: seq<Step>): State
    requires Legal(s, run)
    decreases |run|
  {
    if run == [] then s else Execute(Apply(s, run[0]), run[1..])
  }

  /** There are such states for any number of processors. */
  lemma BootExists(n: nat) returns (s: State)
    ensures Boot(s) && Complete(s) && |s.cpus| == n
  {
    var idle := Task(false, true, false, false, true, 0, seq(MAX_INTR, i => 0));
    s := State(map c: nat | c < n :: Idle(c) := idle, {}, seq(n, (i: nat) => Cpu(Idle(i), None, Code, Idle(i))), []);
  }

  /** A created task is in the table with its first context, neither blocked nor dead nor owned, and running only if it
      was created so. */
  lemma CreatedTask(s: State, t: nat, ctx: nat, running: bool)
    requires Complete(s)
    ensures Enabled(s, Create(t, ctx, running)) <==> Proc(t) !in s.tasks
    ensures Proc(t) !in s.tasks ==>
              var s' := Apply(s, Create(t, ctx, running));
              && s'.table == s.table + {t} && s'.cpus == s.cpus && s'.log == s.log + [Saved(Proc(t), ctx)]
              && Proc(t) in s'.tasks
              && !s'.tasks[Proc(t)].suspend && !s'.tasks[Proc(t)].block && !s'.tasks[Proc(t)].dead
              && s'.tasks[Proc(t)].running == running
              && |s'.tasks[Proc(t)].context| == 8 && s'.tasks[Proc(t)].context[0] == ctx
              && (forall x | x in s.tasks :: x in s'.tasks && s'.tasks[x] == s.tasks[x])
  {}

  /** Runs grow by one enabled step at a time. */
  lemma {:induction false} RunsMean(s: State, run: seq<Step>, step: Step)
    ensures Legal(s, []) && Execute(s, []) == s
    ensures Legal(s, run + [step]) <==> Legal(s, run) && Complete(Execute(s, run)) && Enabled(Execute(s, run), step)
    ensures Legal(s, run + [step]) ==> Execute(s, run + [step]) == Apply(Execute(s, run), step)
    decreases |run|
  {
    hide Apply, Enabled, Complete;
    var all := run + [step];
    if run == [] {
      assert all[1..] == [];
    } else {
      assert all[1..] == run[1..] + [step];
      if Complete(s) && Enabled(s, run[0]) {
        RunsMean(Apply(s, run[0]), run[1..], step);
      }
    }
  }

  lemma {:induction false} RunSound(s: State, run: seq<Step>)
    requires Sound(s) && Legal(s, run)
    ensures Sound(Execute(s, run))
    decreases |run|
  {
    if run != [] {
      SoundKept(s, run[0]);
      RunSound(Apply(s, run[0]), run[1..]);
    }
  }

  /** In every run from boot, at any moment: no two processors have the same task as their current one
      or stand on the same stack; `suspend` is set exactly for the tasks that have an owner, and each
      has one owner; every context resumed was the one its task saved last. */
  lemma RunsAreSafe(boot: State, run: seq<Step>)
    requires Boot(boot) && Legal(boot, run)
    ensures var s := Execute(boot, run);
            && (forall c: nat, d: nat | c < d < |s.cpus| ::
                  s.cpus[c].current != s.cpus[d].current && s.cpus[c].stack != s.cpus[d].stack)
            && (forall t | t in s.tasks && t.Proc? :: s.tasks[t].suspend <==> Owned(s, t))
            && (forall c: nat, d: nat, t | Owns(s, c, t) && Owns(s, d, t) :: c == d)
            && (forall t :: Replay(s.log, t).Some?)
            && Complete(s)
  {
    BootSound(boot);
    RunSound(boot, run);
    var s := Execute(boot, run);
    forall c: nat, d: nat, t | Owns(s, c, t) && Owns(s, d, t)
      ensures c == d
    {
      assert OwnIdle(s, c) && OwnIdle(s, d);
    }
    forall c: nat, d: nat | c < d < |s.cpus|
      ensures s.cpus[c].current != s.cpus[d].current && s.cpus[c].stack != s.cpus[d].stack
    {
      StackOwned(s, c);
      StackOwned(s, d);
      CurrentOwned(s, c);
      CurrentOwned(s, d);
    }
    forall t
      ensures Replay(s.log, t).Some?
    {
      assert t in s.tasks ==> Pending(s, t);
    }
  }

  lemma StackOwned(s: State, c: nat)
    requires Exclusive(s) && c < |s.cpus|
    ensures Owns(s, c, s.cpus[c].stack)
  {
    assert OnOwnStack(s, c);
  }

  /** A task that a processor wins is in no other processor's hands: not current there, not its stack,
      and it has a context to return to. */
  lemma WinnerIsFree(boot: State, run: seq<Step>, c: nat, t: nat)
    requires Boot(boot) && Legal(boot, run) && Complete(Execute(boot, run)) && Enabled(Execute(boot, run), Probe(c, t))
    ensures var s := Execute(boot, run);
            && (forall d: nat | d < |s.cpus| && d != c ::
                  s.cpus[d].current != Proc(t) && s.cpus[d].stack != Proc(t) && !Owns(s, d, Proc(t)))
            && Replay(s.log, Proc(t)).Some? && Replay(s.log, Proc(t)).value != []
  {
    BootSound(boot);
    RunSound(boot, run);
    var s := Execute(boot, run);
    forall d: nat | d < |s.cpus| && d != c
      ensures s.cpus[d].current != Proc(t) && s.cpus[d].stack != Proc(t) && !Owns(s, d, Proc(t))
    {
      ProbeExclusive(s, c, t, d);
      StackOwned(s, d);
      CurrentOwned(s, d);
    }
    assert Pending(s, Proc(t));
    if s.tasks[Proc(t)].started && s.tasks[Proc(t)].ntrap == 0 {
      var d: nat :| InCode(s, d, Proc(t));
      CurrentOwned(s, d);
      ProbeExclusive(s, c, t, d);
    }
  }

  /** The tasks in a processor's hands, in plain terms. */
  lemma OwnsMeans(s: State, d: nat, t: TaskId)
    ensures Owns(s, d, t) <==>
            d < |s.cpus| && (s.cpus[d].current == t || s.cpus[d].phase == Won(t)
                             || (s.cpus[d].buffer == Some(t) && s.cpus[d].phase != Released))
  {}

  lemma SearchingOwns(s: State, c: nat, t: TaskId)
    requires Exclusive(s) && c < |s.cpus| && s.cpus[c].phase == Probing
    ensures Owns(s, c, t) <==> s.cpus[c].current == t
  {
    assert OnOwnStack(s, c);
  }

  /** Which tasks a search may win, in any run: those that are neither blocked nor dead nor running, and that no other
      processor has as its current task, keeps in its buffer until it is released, or has won. */
  lemma ProbeExact(boot: State, run: seq<Step>, c: nat, t: nat)
    requires Boot(boot) && Legal(boot, run)
    requires var s := Execute(boot, run); c < |s.cpus| && s.cpus[c].phase == Probing && t in s.table
    ensures var s := Execute(boot, run);
            && Complete(s) && Proc(t) in s.tasks
            && (Enabled(s, Probe(c, t)) <==>
                  && !s.tasks[Proc(t)].block && !s.tasks[Proc(t)].dead && !s.tasks[Proc(t)].running
                  && forall d: nat | d < |s.cpus| && d != c ::
                       && s.cpus[d].current != Proc(t) && s.cpus[d].phase != Won(Proc(t))
                       && (s.cpus[d].buffer == Some(Proc(t)) ==> s.cpus[d].phase == Released))
  {
    BootSound(boot);
    RunSound(boot, run);
    ProbeExactNow(Execute(boot, run), c, t);
  }

  lemma ProbeExactNow(s: State, c: nat, t: nat)
    requires Complete(s) && Exclusive(s) && c < |s.cpus| && s.cpus[c].phase == Probing && t in s.table
    ensures Enabled(s, Probe(c, t)) <==>
              && !s.tasks[Proc(t)].block && !s.tasks[Proc(t)].dead && !s.tasks[Proc(t)].running
              && forall d: nat | d < |s.cpus| && d != c ::
                   && s.cpus[d].current != Proc(t) && s.cpus[d].phase != Won(Proc(t))
                   && (s.cpus[d].buffer == Some(Proc(t)) ==> s.cpus[d].phase == Released)
  {
    assert s.tasks[Proc(t)].suspend <==> Owned(s, Proc(t));
    SearchingOwns(s, c, Proc(t));
    if s.tasks[Proc(t)].suspend {
      var d: nat :| Owns(s, d, Proc(t));
      OwnsMeans(s, d, Proc(t));
    }
    forall d: nat | d < |s.cpus| && d != c && Owns(s, d, Proc(t))
      ensures s.tasks[Proc(t)].suspend && s.cpus[c].current != Proc(t)
    {}
    forall d: nat | d < |s.cpus|
      ensures Owns(s, d, Proc(t)) <==>
              s.cpus[d].current == Proc(t) || s.cpus[d].phase == Won(Proc(t))
              || (s.cpus[d].buffer == Some(Proc(t)) && s.cpus[d].phase != Released)
    {
      OwnsMeans(s, d, Proc(t));
    }
  }

  ghost predicate Next(s: State, step: Step, s': State) {
    Complete(s) && Enabled(s, step) && s' == Apply(s, step) && Complete(s')
  }

  lemma Taken(s: State, step: Step) returns (s': State)
    requires Complete(s) && Enabled(s, step)
    ensures Next(s, step, s')
  {
    hide Apply, Enabled;
    s' := Apply(s, step);
    CompleteKept(s, step);
  }

  lemma ProbeTaken(s: State, c: nat, t: nat) returns (s': State)
    requires Complete(s) && Exclusive(s) && Enabled(s, Probe(c, t))
    ensures Next(s, Probe(c, t), s') && Enabled(s', Commit(c)) && |s'.cpus| == |s.cpus|
    ensures s'.cpus[c].phase == Won(Proc(t)) && s'.log == s.log && Proc(t) in s.tasks && Proc(t) in s'.tasks
    ensures s'.tasks[Proc(t)] == s.tasks[Proc(t)].(suspend := true)
  {
    s' := Taken(s, Probe(c, t));
    CurrentOwned(s, c);
    assert Owned(s, s.cpus[c].current);
  }

  lemma CommitTaken(s: State, c: nat) returns (s': State)
    requires Complete(s) && Enabled(s, Commit(c))
    ensures Next(s, Commit(c), s')
    ensures s'.cpus == s.cpus[c := s.cpus[c].(current := s.cpus[c].phase.task, phase := Chosen)]
    ensures s'.log == s.log && s'.tasks == s.tasks && Enabled(s', MarkRunning(c))
  {
    s' := Taken(s, Commit(c));
  }

  lemma RunningTaken(s: State, c: nat) returns (s': State)
    requires Complete(s) && Enabled(s, MarkRunning(c))
    ensures Next(s, MarkRunning(c), s') && s'.cpus == s.cpus[c := s.cpus[c].(phase := Marked)]
    ensures var t := s.cpus[c].current; s'.tasks == s.tasks[t := s.tasks[t].(running := true)]
    ensures s'.log == s.log && Enabled(s', Return(c))
  {
    s' := Taken(s, MarkRunning(c));
  }

  lemma ReturnTaken(s: State, c: nat) returns (s': State)
    requires Complete(s) && Enabled(s, Return(c))
    ensures Next(s, Return(c), s') && |s'.cpus| == |s.cpus|
    ensures var t := s.cpus[c].current;
            var task := s.tasks[t];
            var top: nat := if task.ntrap == 0 then 0 else task.ntrap - 1;
            && s'.cpus[c].current == s'.cpus[c].stack == t && s'.cpus[c].phase == Code
            && t in s'.tasks && s'.tasks[t] == task.(ntrap := top, started := true)
            && s'.log == s.log + [Resumed(t, task.context[top])]
  {
    s' := Taken(s, Return(c));
  }

  /** The way from a search to the task that it found, in any run: the processor stands on that task's stack and runs
      its code from the context saved last, and the task is marked as running and as owned. */
  lemma WinnerRuns(boot: State, run: seq<Step>, c: nat, t: nat) returns (s1: State, s2: State, s3: State, s4: State)
    requires Boot(boot) && Legal(boot, run) && Complete(Execute(boot, run)) && Enabled(Execute(boot, run), Probe(c, t))
    ensures var s := Execute(boot, run);
            && Next(s, Probe(c, t), s1) && Next(s1, Commit(c), s2)
            && Next(s2, MarkRunning(c), s3) && Next(s3, Return(c), s4)
            && c < |s4.cpus| && s4.cpus[c].current == s4.cpus[c].stack == Proc(t) && s4.cpus[c].phase == Code
            && Proc(t) in s4.tasks && s4.tasks[Proc(t)].running && s4.tasks[Proc(t)].suspend
            && Replay(s.log, Proc(t)).Some? && Replay(s.log, Proc(t)).value != []
            && s4.log == s.log
                         + [Resumed(Proc(t), Replay(s.log, Proc(t)).value[|Replay(s.log, Proc(t)).value| - 1])]
  {
    hide Apply, Enabled, Replay, Legal, Boot, Exclusive;
    WinnerIsFree(boot, run, c, t);
    BootSound(boot);
    RunSound(boot, run);
    var s := Execute(boot, run);
    s1 := ProbeTaken(s, c, t);
    s2 := CommitTaken(s1, c);
    s3 := RunningTaken(s2, c);
    s4 := ReturnTaken(s3, c);
    assert Pending(s, Proc(t));
  }

  /** The trap that takes a processor off its task saves the context; the task keeps its owner and is not marked as
      running any more, so that it may be picked again. */
  lemma TrapTaken(s: State, c: nat, ctx: nat) returns (s1: State, s2: State, s3: State)
    requires Complete(s) && Enabled(s, SaveContext(c, ctx))
    ensures Next(s, SaveContext(c, ctx), s1) && Next(s1, MarkSuspended(c), s2) && Next(s2, MarkStopped(c), s3)
    ensures var t := s.cpus[c].current;
            && t in s3.tasks && s3.tasks[t].suspend && !s3.tasks[t].running
            && s3.tasks[t].block == s.tasks[t].block && s3.tasks[t].dead == s.tasks[t].dead
            && s3.cpus == s.cpus && s3.log == s.log + [Saved(t, ctx)]
  {
    s1 := SaveTaken(s, c, ctx);
    hide Apply, Enabled;
    s2 := SuspendTaken(s1, c);
    s3 := StopTaken(s2, c);
  }

  lemma SaveTaken(s: State, c: nat, ctx: nat) returns (s': State)
    requires Complete(s) && Enabled(s, SaveContext(c, ctx))
    ensures Next(s, SaveContext(c, ctx), s') && Enabled(s', MarkSuspended(c)) && s.cpus[c].phase == Code
    ensures s'.cpus == s.cpus[c := s.cpus[c].(phase := ContextSaved)]
    ensures s'.log == s.log + [Saved(s.cpus[c].current, ctx)]
    ensures var t := s.cpus[c].current;
            t in s'.tasks && s'.tasks[t].block == s.tasks[t].block && s'.tasks[t].dead == s.tasks[t].dead
  {
    s' := Taken(s, SaveContext(c, ctx));
  }

  lemma SuspendTaken(s: State, c: nat) returns (s': State)
    requires Complete(s) && Enabled(s, MarkSuspended(c))
    ensures Next(s, MarkSuspended(c), s') && Enabled(s', MarkStopped(c)) && s'.log == s.log
    ensures s'.cpus == s.cpus[c := s.cpus[c].(phase := Suspended)]
    ensures var t := s.cpus[c].current; s'.tasks == s.tasks[t := s.tasks[t].(suspend := true)]
  {
    s' := Taken(s, MarkSuspended(c));
  }

  lemma StopTaken(s: State, c: nat) returns (s': State)
    requires Complete(s) && Enabled(s, MarkStopped(c))
    ensures Next(s, MarkStopped(c), s') && s'.log == s.log && s'.cpus == s.cpus[c := s.cpus[c].(phase := Code)]
    ensures var t := s.cpus[c].current; s'.tasks == s.tasks[t := s.tasks[t].(running := false)]
  {
    s' := Taken(s, MarkStopped(c));
  }

  /** Without a task to pick, a processor goes to its own idle task. */
  lemma IdleChosen(s: State, c: nat) returns (s1: State, s2: State)
    requires Complete(s) && Enabled(s, GiveUp(c))
    ensures Next(s, GiveUp(c), s1) && Next(s1, Commit(c), s2) && s2.tasks == s.tasks
    ensures s2.cpus == s.cpus[c := s.cpus[c].(current := Idle(c), phase := Chosen)]
  {
    s1 := Taken(s, GiveUp(c));
    assert s1.cpus == s.cpus[c := s.cpus[c].(phase := Won(Idle(c)))] && s1.tasks == s.tasks;
    assert Enabled(s1, Commit(c));
    hide Apply, Enabled;
    s2 := CommitTaken(s1, c);
  }

  /** A task leaves the table only when it is dead and the processor has gone on to another one. */
  lemma ReapExact(s: State, c: nat)
    requires Complete(s) && Enabled(s, Reap(c))
    ensures c < |s.cpus| && s.cpus[c].buffer.Some? && s.cpus[c].buffer.value != s.cpus[c].current
    ensures s.cpus[c].buffer.value in s.tasks && s.tasks[s.cpus[c].buffer.value].dead
    ensures Apply(s, Reap(c)).tasks == s.tasks && Apply(s, Reap(c)).cpus == s.cpus
    ensures forall x :: x in Apply(s, Reap(c)).table <==> x in s.table && s.cpus[c].buffer.value != Proc(x)
  {}

  lemma {:induction false} ReplayPrefix(log: seq<Event>, t: TaskId, n: nat)
    requires n <= |log| && Replay(log, t).Some?
    ensures Replay(log[..n], t).Some?
    decreases |log| - n
  {
    if n < |log| {
      ReplayPrefix(log, t, n + 1);
      assert log[..n + 1][..n] == log[..n];
    } else {
      assert log[..n] == log;
    }
  }

  lemma {:induction false} ReplayQuiet(log: seq<Event>, t: TaskId, m: nat, n: nat)
    requires m <= n <= |log| && forall j | m <= j < n :: log[j].task != t
    ensures Replay(log[..n], t) == Replay(log[..m], t)
    decreases n
  {
    if m < n {
      ReplayQuiet(log, t, m, n - 1);
      assert log[..n][..n - 1] == log[..n - 1];
    }
  }

  lemma LastSaved(log: seq<Event>, t: TaskId, i: nat, k: nat)
    requires Replay(log, t).Some? && i < k < |log|
    requires log[i].Saved? && log[i].task == t && log[k].Resumed? && log[k].task == t
    requires forall j | i < j < k :: log[j].task != t
    ensures log[k].ctx == log[i].ctx
  {
    hide Replay;
    ReplayPrefix(log, t, i);
    ReplayPrefix(log, t, k + 1);
    ReplayAppend(log[..i], log[i], t);
    ReplayQuiet(log, t, i + 1, k);
    ReplayAppend(log[..k], log[k], t);
    assert log[..i + 1] == log[..i] + [log[i]] && log[..k + 1] == log[..k] + [log[k]];
  }

  /** In every run: when nothing else is saved or resumed for a task in between, the context that a trap saved is the
      one that the task goes on with. */
  lemma ContextComesBack(boot: State, run: seq<Step>, t: TaskId, i: nat, k: nat)
    requires Boot(boot) && Legal(boot, run) && i < k < |Execute(boot, run).log|
    requires var log := Execute(boot, run).log;
             log[i].Saved? && log[i].task == t && log[k].Resumed? && log[k].task == t
             && forall j | i < j < k :: log[j].task != t
    ensures Execute(boot, run).log[k].ctx == Execute(boot, run).log[i].ctx
  {
    RunsAreSafe(boot, run);
    hide Replay, Legal, Execute, Complete, Owns, Owned;
    LastSaved(Execute(boot, run).log, t, i, k);
  }
}
