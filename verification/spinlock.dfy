/** The spinlocks of os-l3/kernel/src/kmt.c: nested interrupt disabling around an exchange loop, as
    atomic steps of any number of processors over any number of locks, in any interleaving. */
module Spinlock {
  import opened Wrappers

  /** Where a processor is in `spin_lock` (its check, its exchange loop, the write of the owner) or in
      `spin_unlock` (the two writes that follow its check, and `pop_off`). */
  datatype Pc =
    | Outside
    | Checking(lk: nat)
    | Spinning(lk: nat)
    | Entered(lk: nat)
    | Leaving(lk: nat)
    | Disowned(lk: nat)
    | Popping(lk: nat)
    | Panicked

  /** `held` are the locks whose exchange the processor has won and not yet undone. */
  datatype Cpu = Cpu(enabled: bool, noff: int, intena: bool, pc: Pc, held: set<nat>)

  datatype Lock = Lock(val: bool, cpu: Option<nat>)

  datatype State = State(cpus: seq<Cpu>, locks: map<nat, Lock>)

  datatype Step =
    | Acquire(c: nat, lk: nat)
    | Check(c: nat)
    | Exchange(c: nat)
    | Own(c: nat)
    | Release(c: nat, lk: nat)
    | Disown(c: nat)
    | Open(c: nat)
    | Pop(c: nat)
    | SetInterrupts(c: nat, enabled: bool)

  ghost predicate Complete(s: State) {
    forall c: nat | c < |s.cpus| :: s.cpus[c].pc.Outside? || s.cpus[c].pc.Panicked? || s.cpus[c].pc.lk in s.locks
  }

  /** When a step may be taken; `iset` is only called outside the lock operations and with no lock held. */
  ghost predicate Enabled(s: State, step: Step)
    requires Complete(s)
  {
    && step.c < |s.cpus|
    && var cpu := s.cpus[step.c];
       match step
       case Acquire(_, lk) => cpu.pc.Outside? && lk in s.locks
       case Check(_) => cpu.pc.Checking?
       case Exchange(_) => cpu.pc.Spinning?
       case Own(_) => cpu.pc.Entered?
       case Release(_, lk) => cpu.pc.Outside? && lk in s.locks
       case Disown(_) => cpu.pc.Leaving?
       case Open(_) => cpu.pc.Disowned?
       case Pop(_) => cpu.pc.Popping?
       case SetInterrupts(_, _) => cpu.pc.Outside? && cpu.noff == 0
  }

  /** `holding`. */
  predicate Holding(s: State, c: nat, lk: nat)
    requires lk in s.locks
  {
    s.locks[lk].val && s.locks[lk].cpu == Some(c)
  }

  function PushOff(cpu: Cpu): Cpu {
    cpu.(enabled := false, intena := if cpu.noff == 0 then cpu.enabled else cpu.intena, noff := cpu.noff + 1)
  }

  /** `pop_off`, which panics when interrupts are on or nothing is pushed. */
  function PopOff(cpu: Cpu): Cpu {
    if cpu.enabled || cpu.noff < 1 then cpu.(pc := Panicked)
    else cpu.(noff := cpu.noff - 1, enabled := cpu.enabled || (cpu.noff == 1 && cpu.intena), pc := Outside)
  }

  function WithCpu(s: State, c: nat, cpu: Cpu): State
    requires c < |s.cpus|
  {
    s.(cpus := s.cpus[c := cpu])
  }

  function WithLock(s: State, lk: nat, lock: Lock): State {
    s.(locks := s.locks[lk := lock])
  }

  ghost function Apply(s: State, step: Step): State
    requires Complete(s) && Enabled(s, step)
  {
    var c, cpu := step.c, s.cpus[step.c];
    match step
    case Acquire(_, lk) => WithCpu(s, c, PushOff(cpu).(pc := Checking(lk)))
    case Check(_) => WithCpu(s, c, cpu.(pc := if Holding(s, c, cpu.pc.lk) then Panicked else Spinning(cpu.pc.lk)))
    case Exchange(_) =>
      var lk := cpu.pc.lk;
      WithLock(if s.locks[lk].val then s else WithCpu(s, c, cpu.(pc := Entered(lk), held := cpu.held + {lk})),
               lk, s.locks[lk].(val := true))
    case Own(_) => WithLock(WithCpu(s, c, cpu.(pc := Outside)), cpu.pc.lk, s.locks[cpu.pc.lk].(cpu := Some(c)))
    case Release(_, lk) => WithCpu(s, c, cpu.(pc := if Holding(s, c, lk) then Leaving(lk) else Panicked))
    case Disown(_) => WithLock(WithCpu(s, c, cpu.(pc := Disowned(cpu.pc.lk))), cpu.pc.lk,
        s.locks[cpu.pc.lk].(cpu := None))
    case Open(_) =>
      var lk := cpu.pc.lk;
      WithLock(WithCpu(s, c, cpu.(pc := Popping(lk), held := cpu.held - {lk})), lk, s.locks[lk].(val := false))
    case Pop(_) => WithCpu(s, c, PopOff(cpu))
    case SetInterrupts(_, enabled) => WithCpu(s, c, cpu.(enabled := enabled))
  }

  // ----- Invariant -----------------------------------------------------------------------------

  ghost predicate Has(s: State, c: nat, lk: nat) {
    c < |s.cpus| && lk in s.cpus[c].held
  }

  ghost predicate Taken(s: State, lk: nat) {
    exists c: nat :: Has(s, c, lk)
  }

  /** `noff` counts the locks held and the one being acquired or just given up; interrupts are off
      while it is not zero. */
  ghost predicate Counted(cpu: Cpu) {
    cpu.pc.Panicked? ||
    (&& cpu.noff == |cpu.held| + (if cpu.pc.Checking? || cpu.pc.Spinning? || cpu.pc.Popping? then 1 else 0)
     && (cpu.noff > 0 ==> !cpu.enabled)
     && (cpu.pc.Entered? || cpu.pc.Leaving? || cpu.pc.Disowned? ==> cpu.pc.lk in cpu.held)
     && (cpu.pc.Spinning? ==> cpu.pc.lk !in cpu.held))
  }

  /** The owner written in a lock is its holder, but for the moments around the two exchanges. */
  ghost predicate OwnerExact(s: State, lk: nat, c: nat)
    requires lk in s.locks && c < |s.cpus|
  {
    s.locks[lk].cpu == Some(c) <==> lk in s.cpus[c].held && s.cpus[c].pc != Entered(lk) && s.cpus[c].pc != Disowned(lk)
  }

  ghost predicate Sound(s: State) {
    && Complete(s)
    && (forall c: nat | c < |s.cpus| :: Counted(s.cpus[c]))
    && (forall c: nat, lk | Has(s, c, lk) :: lk in s.locks)
    && (forall c: nat, d: nat, lk | Has(s, c, lk) && Has(s, d, lk) :: c == d)
    && (forall lk | lk in s.locks :: s.locks[lk].val <==> Taken(s, lk))
    && (forall lk, c: nat | lk in s.locks && c < |s.cpus| :: OwnerExact(s, lk, c))
  }

  lemma HasAfter(s: State, step: Step, c: nat, lk: nat)
    requires Sound(s) && Enabled(s, step)
    ensures Has(Apply(s, step), c, lk) <==>
            if step.Open? && c == step.c && lk == s.cpus[c].pc.lk then false
            else if step.Exchange? && c == step.c && lk == s.cpus[c].pc.lk && !s.locks[lk].val then true
            else Has(s, c, lk)
  {}

  /** The processor that takes the step. */
  lemma ActorCounted(s: State, step: Step)
    requires Complete(s) && Enabled(s, step) && Counted(s.cpus[step.c])
    requires s.cpus[step.c].pc.Checking? ==> OwnerExact(s, s.cpus[step.c].pc.lk, step.c)
    requires step.Release? ==> OwnerExact(s, step.lk, step.c)
    requires step.Check? || step.Exchange? ==>
               (s.cpus[step.c].pc.lk in s.cpus[step.c].held ==> s.locks[s.cpus[step.c].pc.lk].val)
    ensures Counted(Apply(s, step).cpus[step.c])
  {}

  lemma CompleteAfter(s: State, step: Step)
    requires Complete(s) && Enabled(s, step)
    ensures Complete(Apply(s, step)) && Apply(s, step).locks.Keys == s.locks.Keys
    ensures |Apply(s, step).cpus| == |s.cpus|
    ensures forall c: nat | c < |s.cpus| && c != step.c :: Apply(s, step).cpus[c] == s.cpus[c]
  {}

  lemma CpuAfter(s: State, step: Step, c: nat)
    requires Sound(s) && Enabled(s, step) && c < |s.cpus|
    ensures |Apply(s, step).cpus| == |s.cpus| && Counted(Apply(s, step).cpus[c])
  {
    hide Apply, Counted;
    CompleteAfter(s, step);
    assert Counted(s.cpus[c]);
    if step.c == c {
      var cpu := s.cpus[c];
      assert step.Release? ==> OwnerExact(s, step.lk, c);
      assert cpu.pc.Checking? ==> OwnerExact(s, cpu.pc.lk, c);
      assert (step.Check? || step.Exchange?) && cpu.pc.lk in cpu.held ==> Has(s, c, cpu.pc.lk) && Taken(s, cpu.pc.lk);
      ActorCounted(s, step);
    }
  }

  lemma ValAfter(s: State, step: Step, lk: nat)
    requires Sound(s) && Enabled(s, step) && lk in s.locks && lk in Apply(s, step).locks
    ensures Apply(s, step).locks[lk].val <==> Taken(Apply(s, step), lk)
  {
    hide OwnerExact, Counted;
    var s' := Apply(s, step);
    forall c: nat
      ensures Has(s', c, lk) <==>
              if step.Open? && c == step.c && lk == s.cpus[c].pc.lk then false
              else if step.Exchange? && c == step.c && lk == s.cpus[c].pc.lk && !s.locks[lk].val then true
              else Has(s, c, lk)
    {
      HasAfter(s, step, c, lk);
    }
    HolderLeaves(s, step);
    if Taken(s, lk) {
      var c: nat :| Has(s, c, lk);
      assert Has(s', c, lk) || (step.Open? && c == step.c && lk == s.cpus[c].pc.lk);
    }
    if step.Exchange? && lk == s.cpus[step.c].pc.lk && !s.locks[lk].val {
      assert Has(s', step.c, lk);
    }
  }

  lemma HolderLeaves(s: State, step: Step)
    requires Sound(s) && Enabled(s, step)
    ensures step.Open? || step.Own? || step.Disown? ==> Has(s, step.c, s.cpus[step.c].pc.lk)
  {
    assert Counted(s.cpus[step.c]);
  }

  lemma UniqueAfter(s: State, step: Step, c: nat, d: nat, lk: nat)
    requires Sound(s) && Enabled(s, step)
    requires Has(Apply(s, step), c, lk) && Has(Apply(s, step), d, lk)
    ensures c == d && lk in s.locks
  {
    hide Apply, OwnerExact, Counted;
    HasAfter(s, step, c, lk);
    HasAfter(s, step, d, lk);
    assert Has(s, c, lk) || Has(s, d, lk) ==> Taken(s, lk);
  }

  lemma OwnerAfter(s: State, step: Step, lk: nat, c: nat)
    requires Sound(s) && Enabled(s, step) && lk in s.locks && c < |s.cpus|
    requires lk in Apply(s, step).locks && c < |Apply(s, step).cpus|
    ensures OwnerExact(Apply(s, step), lk, c)
  {
    hide Counted;
    HolderLeaves(s, step);
    assert OwnerExact(s, lk, c) && OwnerExact(s, lk, step.c);
    assert Has(s, c, lk) && Has(s, step.c, lk) ==> c == step.c;
    if step.Exchange? && lk == s.cpus[step.c].pc.lk && c == step.c {
      assert !s.locks[lk].val ==> !Taken(s, lk);
      assert Has(s, c, lk) ==> Taken(s, lk);
    }
  }

  lemma SoundKept(s: State, step: Step)
    requires Sound(s) && Enabled(s, step)
    ensures Sound(Apply(s, step))
  {
    hide Apply, OwnerExact, Counted, Taken;
    CompleteAfter(s, step);
    CpuAfter(s, step, step.c);
    var s' := Apply(s, step);
    forall c: nat | c < |s'.cpus|
      ensures Counted(s'.cpus[c])
    {
      CpuAfter(s, step, c);
    }
    forall c: nat, d: nat, lk | Has(s', c, lk) && Has(s', d, lk)
      ensures c == d && lk in s.locks
    {
      UniqueAfter(s, step, c, d, lk);
    }
    forall lk | lk in s'.locks
      ensures s'.locks[lk].val <==> Taken(s', lk)
    {
      ValAfter(s, step, lk);
    }
    forall lk, c: nat | lk in s'.locks && c < |s'.cpus|
      ensures OwnerExact(s', lk, c)
    {
      OwnerAfter(s, step, lk, c);
    }
  }

  // ----- Runs ----------------------------------------------------------------------------------

  /** After `spin_init` of every lock. */
  ghost predicate Boot(s: State) {
    && (forall c: nat | c < |s.cpus| :: s.cpus[c].noff == 0 && s.cpus[c].pc == Outside && s.cpus[c].held == {})
    && (forall lk | lk in s.locks :: s.locks[lk] == Lock(false, None))
  }

  ghost predicate Legal(s: State, run: seq<Step>)
    decreases |run|
  {
    run == [] || (Complete(s) && Enabled(s, run[0]) && Legal(Apply(s, run[0]), run[1..]))
  }

  ghost function Execute(s: State, run: seq<Step>): State
    requires Legal(s, run)
    decreases |run|
  {
    if run == [] then s else Execute(Apply(s, run[0]), run[1..])
  }

  /** There are such states for any number of processors and any locks. */
  lemma BootExists(n: nat, locks: set<nat>) returns (s: State)
    ensures Boot(s) && Complete(s) && |s.cpus| == n && s.locks.Keys == locks
  {
    s := State(seq(n, i => Cpu(true, 0, true, Outside, {})), map lk | lk in locks :: Lock(false, None));
  }

  /** When the checks of the source fire: `spin_lock` on a lock whose word is set by this processor, `spin_unlock` on
      any other lock, `pop_off` with interrupts on or with nothing pushed. */
  lemma ChecksFire(s: State, c: nat, lk: nat)
    requires Complete(s) && c < |s.cpus|
    ensures s.cpus[c].pc == Checking(lk) ==>
              (Apply(s, Check(c)).cpus[c].pc == Panicked <==> s.locks[lk].val && s.locks[lk].cpu == Some(c))
    ensures s.cpus[c].pc == Outside && lk in s.locks ==>
              (Apply(s, Release(c, lk)).cpus[c].pc == Panicked <==> !(s.locks[lk].val && s.locks[lk].cpu == Some(c)))
    ensures s.cpus[c].pc == Popping(lk) ==>
              (Apply(s, Pop(c)).cpus[c].pc == Panicked <==> s.cpus[c].enabled || s.cpus[c].noff < 1)
  {}

  /** Runs grow by one enabled step at a time. */
  lemma {:induction false} RunsMean(s: State, run: seq<Step>, step: Step)
    ensures Legal(s, []) && Execute(s, []) == s
    ensures Legal(s, run + [step]) <==> Legal(s, run) && Complete(Execute(s, run)) && Enabled(Execute(s, run), step)
    ensures Legal(s, run + [step]) ==> Execute(s, run + [step]) == Apply(Execute(s, run), step)
    decreases |run|
  {
    hide Apply, Enabled, Complete;
    var all := run + [step];
    if run == [] {
      assert all[1..] == [];
    } else {
      assert all[1..] == run[1..] + [step];
      if Complete(s) && Enabled(s, run[0]) {
        RunsMean(Apply(s, run[0]), run[1..], step);
      }
    }
  }

  lemma {:induction false} RunSound(s: State, run: seq<Step>)
    requires Sound(s) && Legal(s, run)
    ensures Sound(Execute(s, run)) && |Execute(s, run).cpus| == |s.cpus|
    decreases |run|
  {
    if run != [] {
      CpuAfter(s, run[0], run[0].c);
      SoundKept(s, run[0]);
      RunSound(Apply(s, run[0]), run[1..]);
    }
  }

  lemma BootSound(s: State)
    requires Boot(s)
    ensures Sound(s)
  {}

  /** In every run: a lock has at most one holder, its word is 1 exactly when it has one, and interrupts
      are off on a processor that holds a lock. `holding` is right outside the lock operations. */
  lemma MutualExclusion(boot: State, run: seq<Step>)
    requires Boot(boot) && Legal(boot, run)
    ensures var s := Execute(boot, run);
            && (forall c: nat, d: nat, lk | Has(s, c, lk) && Has(s, d, lk) :: c == d)
            && (forall lk | lk in s.locks :: s.locks[lk].val <==> Taken(s, lk))
            && (forall c: nat | c < |s.cpus| && s.cpus[c].held != {} && s.cpus[c].pc != Panicked :: !s.cpus[c].enabled)
            && (forall c: nat | c < |s.cpus| && s.cpus[c].pc == Outside ::
                  && s.cpus[c].noff == |s.cpus[c].held|
                  && forall lk | lk in s.locks :: Holding(s, c, lk) <==> Has(s, c, lk))
            && Complete(s)
  {
    BootSound(boot);
    RunSound(boot, run);
    var s := Execute(boot, run);
    forall c: nat | c < |s.cpus|
      ensures s.cpus[c].held != {} && s.cpus[c].pc != Panicked ==> !s.cpus[c].enabled
      ensures s.cpus[c].pc == Outside ==> s.cpus[c].noff == |s.cpus[c].held|
    {
      assert Counted(s.cpus[c]);
    }
    forall c: nat, lk | c < |s.cpus| && s.cpus[c].pc == Outside && lk in s.locks
      ensures Holding(s, c, lk) <==> Has(s, c, lk)
    {
      assert OwnerExact(s, lk, c);
      assert Has(s, c, lk) ==> Taken(s, lk);
    }
  }

  /** The panics of the lock operations are exact: taking a lock one holds, giving up one that one does
      not hold, and nothing else. */
  lemma PanicsAreMisuse(boot: State, run: seq<Step>, step: Step)
    requires Boot(boot) && Legal(boot, run) && Complete(Execute(boot, run)) && Enabled(Execute(boot, run), step)
    ensures var s := Execute(boot, run);
            Apply(s, step).cpus[step.c].pc == Panicked <==>
              (step.Check? && Has(s, step.c, s.cpus[step.c].pc.lk)) || (step.Release? && !Has(s, step.c, step.lk))
  {
    BootSound(boot);
    RunSound(boot, run);
    var s := Execute(boot, run);
    assert Counted(s.cpus[step.c]);
    if step.Check? || step.Release? {
      var lk := if step.Check? then s.cpus[step.c].pc.lk else step.lk;
      assert OwnerExact(s, lk, step.c);
      assert Has(s, step.c, lk) ==> Taken(s, lk);
    }
  }

  /** The interrupt flag that a processor had, or will have again once it holds nothing. */
  function Restored(cpu: Cpu): bool {
    if cpu.noff == 0 then cpu.enabled else cpu.intena
  }

  lemma {:induction false} PanicForever(s: State, run: seq<Step>, c: nat)
    requires Sound(s) && Legal(s, run) && c < |s.cpus| && s.cpus[c].pc == Panicked
    ensures c < |Execute(s, run).cpus| && Execute(s, run).cpus[c].pc == Panicked
    decreases |run|
  {
    if run != [] {
      SoundKept(s, run[0]);
      PanicForever(Apply(s, run[0]), run[1..], c);
    }
  }

  /** Whatever locks a processor takes and gives up in between, in whatever order: when it holds nothing
      again, its interrupt flag is what it was when it held nothing before. */
  lemma {:induction false} InterruptsRestored(s: State, run: seq<Step>, c: nat)
    requires Sound(s) && Legal(s, run) && c < |s.cpus|
    requires forall i | 0 <= i < |run| :: !(run[i].SetInterrupts? && run[i].c == c)
    ensures c < |Execute(s, run).cpus|
    ensures Execute(s, run).cpus[c].pc != Panicked ==> Restored(Execute(s, run).cpus[c]) == Restored(s.cpus[c])
    decreases |run|
  {
    if run != [] {
      var s' := Apply(s, run[0]);
      CpuAfter(s, run[0], c);
      SoundKept(s, run[0]);
      if s'.cpus[c].pc == Panicked {
        PanicForever(s', run[1..], c);
      } else {
        InterruptsRestored(s', run[1..], c);
      }
    }
  }

  /** The same for a processor that starts and ends with no lock: its flag is back. */
  lemma FlagComesBack(boot: State, before: seq<Step>, run: seq<Step>, c: nat)
    requires Boot(boot) && Legal(boot, before) && Legal(Execute(boot, before), run) && c < |boot.cpus|
    requires forall i | 0 <= i < |run| :: !(run[i].SetInterrupts? && run[i].c == c)
    ensures c < |Execute(boot, before).cpus| && c < |Execute(Execute(boot, before), run).cpus|
    ensures var first, last := Execute(boot, before).cpus[c], Execute(Execute(boot, before), run).cpus[c];
            first.pc == Outside && first.held == {} && last.pc == Outside && last.held == {} ==>
              last.enabled == first.enabled
  {
    BootSound(boot);
    RunSound(boot, before);
    var s := Execute(boot, before);
    RunSound(s, run);
    InterruptsRestored(s, run, c);
    assert Counted(s.cpus[c]) && Counted(Execute(s, run).cpus[c]);
  }

  // ----- What an operation does ----------------------------------------------------------------

  /** A processor on its way through `spin_lock(lk)`, or through with it. */
  ghost predicate Locking(cpu: Cpu, lk: nat, held: set<nat>) {
    match cpu.pc
    case Checking(l) => l == lk && cpu.held == held
    case Spinning(l) => l == lk && cpu.held == held && lk !in held
    case Entered(l) => l == lk && cpu.held == held + {lk} && lk !in held
    case Outside => cpu.held == held + {lk} && lk !in held
    case Panicked => true
    case _ => false
  }

  /** The same for `spin_unlock(lk)`. */
  ghost predicate Unlocking(cpu: Cpu, lk: nat, held: set<nat>) {
    match cpu.pc
    case Leaving(l) => l == lk && cpu.held == held && lk in held
    case Disowned(l) => l == lk && cpu.held == held && lk in held
    case Popping(l) => l == lk && cpu.held == held - {lk} && lk in held
    case Outside => cpu.held == held - {lk} && lk in held
    case Panicked => true
    case _ => false
  }

  lemma LockingAfter(s: State, step: Step, c: nat, lk: nat, held: set<nat>)
    requires Sound(s) && Enabled(s, step) && c < |s.cpus| && (step.c == c ==> !step.Acquire? && !step.Release?)
    ensures c < |Apply(s, step).cpus|
    ensures Locking(s.cpus[c], lk, held) ==> Locking(Apply(s, step).cpus[c], lk, held)
    ensures Unlocking(s.cpus[c], lk, held) ==> Unlocking(Apply(s, step).cpus[c], lk, held)
  {
    assert Counted(s.cpus[c]);
    if s.cpus[c].pc.Checking? {
      assert OwnerExact(s, s.cpus[c].pc.lk, c);
      assert Has(s, c, s.cpus[c].pc.lk) ==> Taken(s, s.cpus[c].pc.lk);
    }
  }

  lemma {:induction false} LockingOn(s: State, run: seq<Step>, c: nat, lk: nat, held: set<nat>)
    requires Sound(s) && Legal(s, run) && c < |s.cpus|
    requires forall i | 0 <= i < |run| && run[i].c == c :: !run[i].Acquire? && !run[i].Release?
    ensures c < |Execute(s, run).cpus|
    ensures Locking(s.cpus[c], lk, held) ==> Locking(Execute(s, run).cpus[c], lk, held)
    ensures Unlocking(s.cpus[c], lk, held) ==> Unlocking(Execute(s, run).cpus[c], lk, held)
    decreases |run|
  {
    hide Locking, Unlocking, Apply, Enabled, Sound;
    if run != [] {
      assert run[0] in run;
      LockingAfter(s, run[0], c, lk, held);
      SoundKept(s, run[0]);
      LockingOn(Apply(s, run[0]), run[1..], c, lk, held);
    }
  }

  /** In every run, whatever other processors do: when a `spin_lock(lk)` is through, the processor holds that lock and
      those that it held before; it did not hold it before. */
  lemma LockTakes(boot: State, before: seq<Step>, run: seq<Step>, c: nat, lk: nat)
    requires Boot(boot) && Legal(boot, before) && Legal(Execute(boot, before), [Acquire(c, lk)] + run)
    requires forall i | 0 <= i < |run| && run[i].c == c :: !run[i].Acquire? && !run[i].Release?
    ensures var s, s' := Execute(boot, before), Execute(Execute(boot, before), [Acquire(c, lk)] + run);
            && c < |s.cpus| && c < |s'.cpus|
            && (s'.cpus[c].pc == Outside ==> s'.cpus[c].held == s.cpus[c].held + {lk} && lk !in s.cpus[c].held)
  {
    BootSound(boot);
    RunSound(boot, before);
    var s, steps := Execute(boot, before), [Acquire(c, lk)] + run;
    assert steps[0] == Acquire(c, lk) && steps[1..] == run;
    SoundKept(s, steps[0]);
    assert c < |s.cpus| && Locking(Apply(s, steps[0]).cpus[c], lk, s.cpus[c].held);
    LockingOn(Apply(s, steps[0]), run, c, lk, s.cpus[c].held);
  }

  /** And when a `spin_unlock(lk)` is through, it holds the others; it did hold that one. */
  lemma UnlockGives(boot: State, before: seq<Step>, run: seq<Step>, c: nat, lk: nat)
    requires Boot(boot) && Legal(boot, before) && Legal(Execute(boot, before), [Release(c, lk)] + run)
    requires forall i | 0 <= i < |run| && run[i].c == c :: !run[i].Acquire? && !run[i].Release?
    ensures var s, s' := Execute(boot, before), Execute(Execute(boot, before), [Release(c, lk)] + run);
            && c < |s.cpus| && c < |s'.cpus|
            && (s'.cpus[c].pc == Outside ==> s'.cpus[c].held == s.cpus[c].held - {lk} && lk in s.cpus[c].held)
  {
    BootSound(boot);
    RunSound(boot, before);
    var s, steps := Execute(boot, before), [Release(c, lk)] + run;
    assert steps[0] == Release(c, lk) && steps[1..] == run;
    SoundKept(s, steps[0]);
    assert OwnerExact(s, lk, c);
    assert c < |s.cpus| && Unlocking(Apply(s, steps[0]).cpus[c], lk, s.cpus[c].held);
    LockingOn(Apply(s, steps[0]), run, c, lk, s.cpus[c].held);
  }
}
