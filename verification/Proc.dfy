/** Scheduling, sleep and wakeup of kernel/proc.c as a step system: any number of processes and
    CPUs, one step for each stretch that takes or gives up a lock, and interrupt handlers that
    call wakeup on top of whatever a CPU was doing. */
module Proc {
  import opened Common

  type Lk = nat
  type Chan = nat

  datatype Status = Unused | Sleeping | Runnable | Running | Zombie

  /** Where a process is in the kernel: before a stretch of sleep, yield, exit or wakeup, about to
      switch away in sched, or switched away (Out). Kernel stands for all other code. */
  datatype Pc =
    | Absent
    | Kernel
    | SleepAcq(chan: Chan, lk: Lk)
    | SleepRel(chan: Chan, lk: Lk)
    | SleepSet(chan: Chan, lk: Lk)
    | SleepSched(chan: Chan, lk: Lk)
    | SleepOut(chan: Chan, lk: Lk)
    | SleepTidy(lk: Lk)
    | SleepReacq(lk: Lk)
    | YieldAcq
    | YieldSched
    | YieldOut
    | Resumed
    | ExitSched
    | ExitOut
    | Wake

  /** A wakeup(chan) in progress by a holder of lk, at process i, with or without its lock. */
  datatype Waker = Waker(lk: Lk, chan: Chan, i: nat, held: bool)

  /** `on` is the CPU whose registers hold the process, `sleeps` counts its calls of sleep. */
  datatype Process = Process(state: Status, chan: Option<Chan>, lock: Option<nat>, pc: Pc, on: Option<nat>, sleeps: nat)

  datatype Scheduler = Look(i: nat) | Took(i: nat) | Switched(i: nat) | Back(i: nat)

  /** A CPU, whether a handler has taken it over, and the wakeup that runs on it. */
  datatype Cpu = Cpu(proc: Option<nat>, sched: Scheduler, irq: bool, wake: Option<Waker>)

  /** A held spinlock, and who was inside sleep on it when it was taken: which call, which channel. */
  datatype Held = Held(cpu: nat, due: map<nat, Due>)
  datatype Due = Due(call: nat, chan: Chan)

  datatype System = System(procs: seq<Process>, cpus: seq<Cpu>, locks: map<Lk, Held>)

  // ---- reading a state

  predicate InSleep(pc: Pc, lk: Lk) {
    (pc.SleepAcq? || pc.SleepRel? || pc.SleepSet? || pc.SleepSched? || pc.SleepOut?) && pc.lk == lk
  }

  /** The call of sleep with this number has not been ended by a wakeup or a kill. */
  predicate StillAsleep(p: Process, call: nat) {
    && p.sleeps == call
    && (p.pc.SleepAcq? || p.pc.SleepRel? || p.pc.SleepSet? || p.pc.SleepSched? || p.pc.SleepOut?)
    && (p.pc.SleepOut? ==> p.state.Sleeping?)
  }

  function Snapshot(procs: seq<Process>, lk: Lk): (due: map<nat, Due>)
    ensures forall q: nat :: q in due <==> q < |procs| && InSleep(procs[q].pc, lk)
    ensures forall q: nat | q < |procs| && InSleep(procs[q].pc, lk) :: due[q] == Due(procs[q].sleeps, procs[q].pc.chan)
  {
    map q: nat | q < |procs| && InSleep(procs[q].pc, lk) :: Due(procs[q].sleeps, procs[q].pc.chan)
  }

  /** Program points where the process is on a CPU, and where it holds its own lock. */
  predicate OnCpu(pc: Pc) {
    !(pc.Absent? || pc.SleepOut? || pc.YieldOut? || pc.ExitOut?)
  }

  predicate HoldsOwn(pc: Pc) {
    pc.SleepRel? || pc.SleepSet? || pc.SleepSched? || pc.SleepTidy? || pc.YieldSched? || pc.Resumed? || pc.ExitSched?
  }

  predicate InSched(pc: Pc) {
    pc.SleepSched? || pc.YieldSched? || pc.ExitSched?
  }

  // ---- the invariant

  ghost predicate StateOk(p: Process) {
    match p.pc
    case Absent => p.state.Unused?
    case SleepSched(chan, _) => p.state.Sleeping? && p.chan == Some(chan)
    case SleepOut(chan, _) => p.state.Runnable? || (p.state.Sleeping? && p.chan == Some(chan))
    case YieldSched => p.state.Runnable?
    case YieldOut => p.state.Runnable?
    case ExitSched => p.state.Zombie?
    case ExitOut => p.state.Zombie?
    case _ => p.state.Running?
  }

  ghost predicate LockOwned(s: System, q: nat, c: nat)
    requires q < |s.procs|
  {
    && c < |s.cpus|
    && (|| s.cpus[c].sched == Took(q) || s.cpus[c].sched == Back(q)
        || (s.procs[q].on == Some(c) && HoldsOwn(s.procs[q].pc))
        || (s.cpus[c].wake.Some? && s.cpus[c].wake.value.held && s.cpus[c].wake.value.i == q))
  }

  ghost predicate ProcOk(s: System, q: nat)
    requires q < |s.procs|
  {
    var p := s.procs[q];
    && StateOk(p)
    && (OnCpu(p.pc) <==> p.on.Some?)
    && (p.on.Some? ==> p.on.value < |s.cpus| && s.cpus[p.on.value].sched == Switched(q))
    && (p.chan.Some? <==> p.pc.SleepSched? || p.pc.SleepOut? || p.pc.SleepTidy?)
    && (HoldsOwn(p.pc) ==> p.lock == p.on)
    && (p.lock.Some? ==> LockOwned(s, q, p.lock.value))
    && (p.pc.SleepAcq? || p.pc.SleepRel? ==> p.pc.lk in s.locks && Some(s.locks[p.pc.lk].cpu) == p.on)
  }

  ghost predicate CpuOk(s: System, c: nat)
    requires c < |s.cpus|
  {
    var u := s.cpus[c];
    && u.sched.i < |s.procs|
    && (u.sched.Switched? ==> s.procs[u.sched.i].on == Some(c))
    && (u.sched.Took? || u.sched.Back? ==> s.procs[u.sched.i].lock == Some(c))
    && (u.sched.Back? ==> !s.procs[u.sched.i].pc.Absent? && s.procs[u.sched.i].on.None?)
    && u.proc == (if u.sched.Switched? || u.sched.Back? then Some(u.sched.i) else None)
    && (u.irq ==> Interruptible(s, u))
    && (u.wake.Some? <==> u.irq || (u.sched.Switched? && s.procs[u.sched.i].pc.Wake?))
    && (u.wake.Some? ==> WakerOk(s, c, u.wake.value))
  }

  /** A handler runs only where no spinlock was held. */
  ghost predicate Interruptible(s: System, u: Cpu) {
    || u.sched.Look?
    || (&& u.sched.Switched? && u.sched.i < |s.procs|
        && (var pc := s.procs[u.sched.i].pc; pc.Kernel? || pc.SleepReacq? || pc.YieldAcq?))
  }

  ghost predicate WakerOk(s: System, c: nat, w: Waker) {
    && w.i <= |s.procs|
    && (w.held ==> w.i < |s.procs| && s.procs[w.i].lock == Some(c))
    && w.lk in s.locks && s.locks[w.lk].cpu == c
  }

  /** Which spinlocks a CPU may hold where it is. */
  ghost predicate MayHold(s: System, c: nat, l: Lk)
    requires c < |s.cpus|
  {
    if s.cpus[c].irq then s.cpus[c].wake.Some? && l == s.cpus[c].wake.value.lk
    else
      && s.cpus[c].sched.Switched? && s.cpus[c].sched.i < |s.procs|
      && (var pc := s.procs[s.cpus[c].sched.i].pc;
          pc.Kernel? || pc.Wake? || ((pc.SleepAcq? || pc.SleepRel?) && pc.lk == l))
  }

  ghost predicate LockOk(s: System, l: Lk)
    requires l in s.locks
  {
    s.locks[l].cpu < |s.cpus| && MayHold(s, s.locks[l].cpu, l)
  }

  ghost predicate Struct(s: System) {
    && |s.procs| > 0
    && (forall q: nat | q < |s.procs| :: ProcOk(s, q))
    && (forall c: nat | c < |s.cpus| :: CpuOk(s, c))
    && (forall l | l in s.locks :: LockOk(s, l))
  }

  /** A call that is due has released the lock, and is on the channel that was noted. */
  ghost predicate DueOk(p: Process, d: Due) {
    && d.call <= p.sleeps
    && (StillAsleep(p, d.call) ==> !p.pc.SleepAcq? && !p.pc.SleepRel? && p.pc.chan == d.chan)
  }

  ghost predicate AllDue(procs: seq<Process>, due: map<nat, Due>) {
    forall q | q in due :: q < |procs| && DueOk(procs[q], due[q])
  }

  /** Whom the waker has passed is not asleep from a call that was there when the lock was taken. */
  ghost predicate Passed(procs: seq<Process>, due: map<nat, Due>, chan: Chan, i: nat) {
    forall q | q in due && q < i && q < |procs| && due[q].chan == chan :: !StillAsleep(procs[q], due[q].call)
  }

  ghost predicate WakerPassed(s: System, c: nat)
    requires c < |s.cpus|
  {
    var w := s.cpus[c].wake;
    w.Some? && w.value.lk in s.locks ==> Passed(s.procs, s.locks[w.value.lk].due, w.value.chan, w.value.i)
  }

  ghost predicate History(s: System) {
    && (forall c: nat | c < |s.cpus| :: WakerPassed(s, c))
    && (forall l | l in s.locks :: AllDue(s.procs, s.locks[l].due))
  }

  ghost predicate Inv(s: System) {
    Struct(s) && History(s)
  }

  // ---- the steps

  datatype Step =
    | Acquire(p: nat, lk: Lk)
    | Release(p: nat, lk: Lk)
    | SleepCall(p: nat, chan: Chan, lk: Lk)
    | SleepStep(p: nat)
    | YieldCall(p: nat)
    | YieldTake(p: nat)
    | ExitTake(p: nat)
    | SwitchOut(p: nat)
    | FirstSteps(p: nat)
    | WakeCall(p: nat, chan: Chan, lk: Lk)
    | IrqEnter(c: nat, chan: Chan, lk: Lk)
    | WakeTake(c: nat)
    | WakeLook(c: nat)
    | WakeSkip(c: nat)
    | WakeReturn(c: nat)
    | SchedTake(c: nat)
    | SchedRun(c: nat)
    | SchedPass(c: nat)
    | Kill(p: nat, q: nat)
    | Spawn(p: nat, q: nat)
    | Reap(p: nat, q: nat)

  /** Process p is on a CPU that no handler has taken over. */
  ghost predicate Active(s: System, p: nat) {
    && p < |s.procs| && s.procs[p].on.Some?
    && s.procs[p].on.value < |s.cpus| && !s.cpus[s.procs[p].on.value].irq
  }

  ghost predicate HoldsNone(s: System, c: nat) {
    forall l | l in s.locks :: s.locks[l].cpu != c
  }

  ghost predicate Enabled(s: System, a: Step) {
    match a
    case Acquire(p, lk) => Active(s, p) && s.procs[p].pc.Kernel? && lk !in s.locks
    case Release(p, lk) =>
      Active(s, p) && s.procs[p].pc.Kernel? && lk in s.locks && Some(s.locks[lk].cpu) == s.procs[p].on
    case SleepCall(p, chan, lk) =>
      && Active(s, p) && s.procs[p].pc.Kernel? && lk in s.locks
      && (forall l | l in s.locks :: Some(s.locks[l].cpu) == s.procs[p].on <==> l == lk)
    case SleepStep(p) =>
      && Active(s, p)
      && (match s.procs[p].pc
          case SleepAcq(_, _) => s.procs[p].lock.None?
          case SleepRel(_, lk) => lk in s.locks
          case SleepSet(_, _) => true
          case SleepTidy(_) => true
          case SleepReacq(lk) => lk !in s.locks
          case _ => false)
    case YieldCall(p) => Active(s, p) && s.procs[p].pc.Kernel? && HoldsNone(s, s.procs[p].on.value)
    case YieldTake(p) => Active(s, p) && s.procs[p].pc.YieldAcq? && s.procs[p].lock.None?
    case ExitTake(p) =>
      Active(s, p) && s.procs[p].pc.Kernel? && HoldsNone(s, s.procs[p].on.value) && s.procs[p].lock.None?
    case SwitchOut(p) => Active(s, p) && InSched(s.procs[p].pc)
    case FirstSteps(p) => Active(s, p) && s.procs[p].pc.Resumed?
    case WakeCall(p, chan, lk) =>
      Active(s, p) && s.procs[p].pc.Kernel? && lk in s.locks && Some(s.locks[lk].cpu) == s.procs[p].on
    case IrqEnter(c, chan, lk) =>
      c < |s.cpus| && !s.cpus[c].irq && HoldsNone(s, c) && Interruptible(s, s.cpus[c]) && lk !in s.locks
    case WakeTake(c) =>
      && c < |s.cpus| && s.cpus[c].wake.Some?
      && (var w := s.cpus[c].wake.value;
          w.i < |s.procs| && !w.held && s.cpus[c].proc != Some(w.i) && s.procs[w.i].lock.None?)
    case WakeLook(c) =>
      c < |s.cpus| && s.cpus[c].wake.Some? && s.cpus[c].wake.value.held && s.cpus[c].wake.value.i < |s.procs|
    case WakeSkip(c) =>
      && c < |s.cpus| && s.cpus[c].wake.Some? && !s.cpus[c].wake.value.held
      && s.cpus[c].proc == Some(s.cpus[c].wake.value.i) && s.cpus[c].wake.value.i < |s.procs|
    case WakeReturn(c) =>
      && c < |s.cpus| && s.cpus[c].wake.Some? && !s.cpus[c].wake.value.held
      && s.cpus[c].wake.value.i >= |s.procs| && s.cpus[c].sched.i < |s.procs|
    case SchedTake(c) =>
      && c < |s.cpus| && !s.cpus[c].irq && s.cpus[c].sched.Look?
      && s.cpus[c].sched.i < |s.procs| && s.procs[s.cpus[c].sched.i].lock.None?
    case SchedRun(c) =>
      && c < |s.cpus| && !s.cpus[c].irq && s.cpus[c].sched.Took?
      && s.cpus[c].sched.i < |s.procs| && s.procs[s.cpus[c].sched.i].state.Runnable?
    case SchedPass(c) =>
      && c < |s.cpus| && !s.cpus[c].irq && s.cpus[c].sched.i < |s.procs|
      && (s.cpus[c].sched.Back? || (s.cpus[c].sched.Took? && !s.procs[s.cpus[c].sched.i].state.Runnable?))
    case Kill(p, q) =>
      Active(s, p) && s.procs[p].pc.Kernel? && q < |s.procs| && s.procs[q].lock.None?
    case Spawn(p, q) =>
      Active(s, p) && s.procs[p].pc.Kernel? && q < |s.procs| && s.procs[q].lock.None? && s.procs[q].pc.Absent?
    case Reap(p, q) =>
      Active(s, p) && s.procs[p].pc.Kernel? && q < |s.procs| && s.procs[q].lock.None? && s.procs[q].state.Zombie?
  }

  function WithProc(s: System, p: nat, r: Process): (t: System)
    requires p < |s.procs|
  {
    s.(procs := s.procs[p := r])
  }

  function WithCpu(s: System, c: nat, u: Cpu): (t: System)
    requires c < |s.cpus|
  {
    s.(cpus := s.cpus[c := u])
  }

  function TakeLock(s: System, lk: Lk, c: nat): (t: System) {
    s.(locks := s.locks[lk := Held(c, Snapshot(s.procs, lk))])
  }

  function DropLock(s: System, lk: Lk): (t: System) {
    s.(locks := s.locks - {lk})
  }

  ghost function DoSleep(s: System, p: nat): (t: System)
    requires Enabled(s, SleepStep(p))
  {
    var r := s.procs[p];
    match r.pc
    case SleepAcq(chan, lk) => WithProc(s, p, r.(lock := r.on, pc := SleepRel(chan, lk)))
    case SleepRel(chan, lk) => WithProc(DropLock(s, lk), p, r.(pc := SleepSet(chan, lk)))
    case SleepSet(chan, lk) => WithProc(s, p, r.(chan := Some(chan), state := Sleeping, pc := SleepSched(chan, lk)))
    case SleepTidy(lk) => WithProc(s, p, r.(chan := None, lock := None, pc := SleepReacq(lk)))
    case SleepReacq(lk) => WithProc(TakeLock(s, lk, r.on.value), p, r.(pc := Kernel))
  }

  ghost function DoWake(s: System, a: Step): (t: System)
    requires Enabled(s, a) && (a.WakeTake? || a.WakeLook? || a.WakeSkip? || a.WakeReturn?)
  {
    var w := s.cpus[a.c].wake.value;
    match a
    case WakeTake(c) =>
      WithCpu(WithProc(s, w.i, s.procs[w.i].(lock := Some(c))), c, s.cpus[c].(wake := Some(w.(held := true))))
    case WakeLook(c) =>
      var q := s.procs[w.i];
      var woken := if q.state.Sleeping? && q.chan == Some(w.chan) then q.(state := Runnable) else q;
      WithCpu(WithProc(s, w.i, woken.(lock := None)), c,
              s.cpus[c].(wake := Some(w.(held := false, i := w.i + 1))))
    case WakeSkip(c) => WithCpu(s, c, s.cpus[c].(wake := Some(w.(i := w.i + 1))))
    case WakeReturn(c) =>
      var r := WithCpu(s, c, s.cpus[c].(irq := false, wake := None));
      if s.cpus[c].irq then DropLock(r, w.lk)
      else WithProc(r, s.cpus[c].sched.i, s.procs[s.cpus[c].sched.i].(pc := Kernel))
  }

  ghost function DoSched(s: System, a: Step): (t: System)
    requires Enabled(s, a) && (a.SchedTake? || a.SchedRun? || a.SchedPass? || a.SwitchOut?)
  {
    match a
    case SchedTake(c) =>
      var i := s.cpus[c].sched.i;
      WithProc(WithCpu(s, c, s.cpus[c].(sched := Took(i))), i, s.procs[i].(lock := Some(c)))
    case SchedRun(c) =>
      var i := s.cpus[c].sched.i;
      WithProc(WithCpu(s, c, s.cpus[c].(sched := Switched(i), proc := Some(i))), i,
               s.procs[i].(state := Running, on := Some(c), pc := Reloaded(s.procs[i].pc)))
    case SchedPass(c) =>
      var i := s.cpus[c].sched.i;
      WithProc(WithCpu(s, c, s.cpus[c].(sched := Look((i + 1) % |s.procs|), proc := None)), i,
               s.procs[i].(lock := None))
    case SwitchOut(p) =>
      var c := s.procs[p].on.value;
      WithProc(WithCpu(s, c, s.cpus[c].(sched := Back(p))), p,
               s.procs[p].(on := None, pc := GivenUp(s.procs[p].pc)))
  }

  /** Where a process is once swtch has saved its registers, and once they are loaded again. */
  function GivenUp(pc: Pc): (r: Pc)
    requires InSched(pc)
  {
    match pc
    case SleepSched(chan, lk) => SleepOut(chan, lk)
    case YieldSched => YieldOut
    case ExitSched => ExitOut
  }

  function Reloaded(pc: Pc): (r: Pc) {
    if pc.SleepOut? then SleepTidy(pc.lk) else Resumed
  }

  ghost function Do(s: System, a: Step): (t: System)
    requires Enabled(s, a)
  {
    match a
    case Acquire(p, lk) => TakeLock(s, lk, s.procs[p].on.value)
    case Release(p, lk) => DropLock(s, lk)
    case SleepCall(p, chan, lk) =>
      WithProc(s, p, s.procs[p].(pc := SleepAcq(chan, lk), sleeps := s.procs[p].sleeps + 1))
    case SleepStep(p) => DoSleep(s, p)
    case YieldCall(p) => WithProc(s, p, s.procs[p].(pc := YieldAcq))
    case YieldTake(p) => WithProc(s, p, s.procs[p].(lock := s.procs[p].on, state := Runnable, pc := YieldSched))
    case ExitTake(p) => WithProc(s, p, s.procs[p].(lock := s.procs[p].on, state := Zombie, pc := ExitSched))
    case FirstSteps(p) => WithProc(s, p, s.procs[p].(lock := None, pc := Kernel))
    case WakeCall(p, chan, lk) =>
      var c := s.procs[p].on.value;
      WithProc(WithCpu(s, c, s.cpus[c].(wake := Some(Waker(lk, chan, 0, false)))), p, s.procs[p].(pc := Wake))
    case IrqEnter(c, chan, lk) =>
      WithCpu(TakeLock(s, lk, c), c, s.cpus[c].(irq := true, wake := Some(Waker(lk, chan, 0, false))))
    case WakeTake(_) => DoWake(s, a)
    case WakeLook(_) => DoWake(s, a)
    case WakeSkip(_) => DoWake(s, a)
    case WakeReturn(_) => DoWake(s, a)
    case SwitchOut(_) => DoSched(s, a)
    case SchedTake(_) => DoSched(s, a)
    case SchedRun(_) => DoSched(s, a)
    case SchedPass(_) => DoSched(s, a)
    case Kill(p, q) =>
      if s.procs[q].state.Sleeping? then WithProc(s, q, s.procs[q].(state := Runnable)) else s
    case Spawn(p, q) => WithProc(s, q, s.procs[q].(state := Runnable, pc := YieldOut))
    case Reap(p, q) => WithProc(s, q, s.procs[q].(state := Unused, pc := Absent))
  }

  // ---- every step keeps the structure

  /** Process p and CPU c change, with locks of c only, and nothing that others rely on. */
  ghost predicate Local(s: System, t: System, p: nat, c: nat) {
    && p < |s.procs| == |t.procs| && c < |s.cpus| == |t.cpus|
    && t.procs == s.procs[p := t.procs[p]] && t.cpus == s.cpus[c := t.cpus[c]]
    && ProcLocal(s.procs[p], t.procs[p], c)
    && CpuLocal(s.cpus[c], t.cpus[c], p)
    && (forall l | l in s.locks && s.locks[l].cpu != c :: l in t.locks && t.locks[l] == s.locks[l])
    && (forall l | l in t.locks && t.locks[l].cpu != c :: l in s.locks && t.locks[l] == s.locks[l])
    && (t.locks == s.locks || s.procs[p].on == Some(c) || HoldsNone(s, c) || s.cpus[c].irq)
  }

  ghost predicate ProcLocal(p: Process, r: Process, c: nat) {
    && (p.on.Some? && p.on != Some(c) ==> r.on == p.on && r.pc == p.pc)
    && (p.lock.Some? && p.lock != Some(c) ==> r.lock == p.lock && r.on == p.on && (r.pc.Absent? ==> p.pc.Absent?))
  }

  ghost predicate CpuLocal(u: Cpu, v: Cpu, p: nat) {
    && (u.sched.i != p && !u.sched.Look? ==> v.sched == u.sched)
    && (u.wake.Some? && u.wake.value.held && u.wake.value.i != p ==>
          v.wake.Some? && v.wake.value.held && v.wake.value.i == u.wake.value.i)
  }

  lemma LocalKeeps(s: System, t: System, p: nat, c: nat)
    requires Struct(s) && Local(s, t, p, c)
    requires ProcOk(t, p) && CpuOk(t, c)
    requires forall l | l in t.locks && t.locks[l].cpu == c :: LockOk(t, l)
    ensures Struct(t)
  {
    hide Local, ProcOk, CpuOk, LockOk;
    assert |t.procs| == |s.procs| && |t.cpus| == |s.cpus| by {
      LocalSizes(s, t, p, c);
    }
    forall q: nat | q < |t.procs| ensures ProcOk(t, q) {
      if q != p {
        OtherProc(s, t, p, c, q);
      }
    }
    forall d: nat | d < |t.cpus| ensures CpuOk(t, d) {
      if d != c {
        OtherCpu(s, t, p, c, d);
      }
    }
    forall l | l in t.locks ensures LockOk(t, l) {
      if t.locks[l].cpu != c {
        OtherLock(s, t, p, c, l);
      }
    }
  }

  lemma LocalSizes(s: System, t: System, p: nat, c: nat)
    requires Local(s, t, p, c)
    ensures p < |t.procs| == |s.procs| && c < |t.cpus| == |s.cpus|
  {
  }

  lemma OtherProc(s: System, t: System, p: nat, c: nat, q: nat)
    requires Struct(s) && Local(s, t, p, c) && q < |s.procs| && q != p
    ensures q < |t.procs| && ProcOk(t, q)
  {
    hide Struct;
    AboutProc(s, p);
    AboutProc(s, q);
    AboutCpu(s, c);
  }

  lemma OtherCpu(s: System, t: System, p: nat, c: nat, d: nat)
    requires Struct(s) && Local(s, t, p, c) && d < |s.cpus| && d != c
    ensures d < |t.cpus| && CpuOk(t, d)
  {
    hide Struct;
    AboutProc(s, p);
    AboutCpu(s, d);
  }

  lemma OtherLock(s: System, t: System, p: nat, c: nat, l: Lk)
    requires Struct(s) && Local(s, t, p, c) && l in t.locks && t.locks[l].cpu != c
    ensures LockOk(t, l)
  {
    hide Struct;
    AboutLock(s, l);
    AboutProc(s, p);
    AboutCpu(s, s.locks[l].cpu);
  }

  lemma AboutProc(s: System, q: nat)
    requires Struct(s) && q < |s.procs|
    ensures ProcOk(s, q)
  {
  }

  lemma AboutCpu(s: System, c: nat)
    requires Struct(s) && c < |s.cpus|
    ensures CpuOk(s, c)
  {
  }

  lemma AboutLock(s: System, l: Lk)
    requires Struct(s) && l in s.locks
    ensures LockOk(s, l)
  {
  }

  /** The process and the CPU that a step changes. */
  ghost function Subject(s: System, a: Step): (r: (nat, nat))
    requires Enabled(s, a)
  {
    match a
    case IrqEnter(c, _, _) => (s.cpus[c].sched.i, c)
    case WakeTake(c) => (s.cpus[c].wake.value.i, c)
    case WakeLook(c) => (s.cpus[c].wake.value.i, c)
    case WakeSkip(c) => (s.cpus[c].wake.value.i, c)
    case WakeReturn(c) => (s.cpus[c].sched.i, c)
    case SchedTake(c) => (s.cpus[c].sched.i, c)
    case SchedRun(c) => (s.cpus[c].sched.i, c)
    case SchedPass(c) => (s.cpus[c].sched.i, c)
    case Kill(p, q) => (q, s.procs[p].on.value)
    case Spawn(p, q) => (q, s.procs[p].on.value)
    case Reap(p, q) => (q, s.procs[p].on.value)
    case _ => (a.p, s.procs[a.p].on.value)
  }

  ghost predicate Fits(s: System, a: Step)
    requires Enabled(s, a)
  {
    var (p, c) := Subject(s, a);
    var t := Do(s, a);
    && Local(s, t, p, c) && ProcOk(t, p) && CpuOk(t, c)
    && (forall l | l in t.locks && t.locks[l].cpu == c :: LockOk(t, l))
  }

  lemma LockFits(s: System, a: Step)
    requires Struct(s) && Enabled(s, a) && (a.Acquire? || a.Release?)
    ensures Fits(s, a)
  {
    hide Snapshot, Struct;
    AboutProc(s, a.p);
    AboutCpu(s, s.procs[a.p].on.value);
    forall l | l in Do(s, a).locks && Do(s, a).locks[l].cpu == Subject(s, a).1 ensures LockOk(Do(s, a), l) {
      if l in s.locks {
        AboutLock(s, l);
      }
    }
  }

  lemma SleepCallFits(s: System, a: Step)
    requires Struct(s) && Enabled(s, a) && (a.SleepCall?)
    ensures Fits(s, a)
  {
    hide Snapshot, Struct;
    AboutProc(s, a.p);
    AboutCpu(s, s.procs[a.p].on.value);
    forall l | l in Do(s, a).locks && Do(s, a).locks[l].cpu == Subject(s, a).1 ensures LockOk(Do(s, a), l) {
      if l in s.locks {
        AboutLock(s, l);
      }
    }
  }

  lemma YieldCallFits(s: System, a: Step)
    requires Struct(s) && Enabled(s, a) && (a.YieldCall?)
    ensures Fits(s, a)
  {
    hide Snapshot, Struct;
    AboutProc(s, a.p);
    AboutCpu(s, s.procs[a.p].on.value);
  }

  lemma WakeCallFits(s: System, a: Step)
    requires Struct(s) && Enabled(s, a) && (a.WakeCall?)
    ensures Fits(s, a)
  {
    hide Snapshot, Struct;
    AboutProc(s, a.p);
    AboutCpu(s, s.procs[a.p].on.value);
    forall l | l in Do(s, a).locks && Do(s, a).locks[l].cpu == Subject(s, a).1 ensures LockOk(Do(s, a), l) {
      if l in s.locks {
        AboutLock(s, l);
      }
    }
  }

  lemma OwnFits(s: System, a: Step)
    requires Struct(s) && Enabled(s, a) && (a.YieldTake? || a.ExitTake? || a.FirstSteps?)
    ensures Fits(s, a)
  {
    hide Snapshot, Struct;
    AboutProc(s, a.p);
    AboutCpu(s, s.procs[a.p].on.value);
    if !a.ExitTake? {
      HoldsNothing(s, s.procs[a.p].on.value);
    }
  }

  lemma SleepLockFits(s: System, a: Step)
    requires Struct(s) && Enabled(s, a) && a.SleepStep? && (s.procs[a.p].pc.SleepRel? || s.procs[a.p].pc.SleepReacq?)
    ensures Fits(s, a)
  {
    hide Snapshot, Struct;
    AboutProc(s, a.p);
    AboutCpu(s, s.procs[a.p].on.value);
    forall l | l in Do(s, a).locks && Do(s, a).locks[l].cpu == Subject(s, a).1 ensures LockOk(Do(s, a), l) {
      if l in s.locks {
        AboutLock(s, l);
      }
    }
  }

  lemma SleepOwnFits(s: System, a: Step)
    requires Struct(s) && Enabled(s, a) && a.SleepStep? && !s.procs[a.p].pc.SleepRel? && !s.procs[a.p].pc.SleepReacq?
    ensures Fits(s, a)
  {
    hide Snapshot, Struct;
    AboutProc(s, a.p);
    AboutCpu(s, s.procs[a.p].on.value);
    forall l | l in Do(s, a).locks && Do(s, a).locks[l].cpu == Subject(s, a).1 ensures LockOk(Do(s, a), l) {
      if l in s.locks {
        AboutLock(s, l);
      }
    }
  }

  lemma WakeTakeFits(s: System, a: Step)
    requires Struct(s) && Enabled(s, a) && (a.WakeTake?)
    ensures Fits(s, a)
  {
    hide Snapshot, Struct;
    AboutCpu(s, a.c);
    AboutProc(s, s.cpus[a.c].sched.i);
    AboutProc(s, s.cpus[a.c].wake.value.i);
    forall l | l in Do(s, a).locks && Do(s, a).locks[l].cpu == Subject(s, a).1 ensures LockOk(Do(s, a), l) {
      if l in s.locks {
        AboutLock(s, l);
      }
    }
  }

  lemma WakeLookFits(s: System, a: Step)
    requires Struct(s) && Enabled(s, a) && (a.WakeLook?)
    ensures Fits(s, a)
  {
    hide Snapshot, Struct;
    AboutCpu(s, a.c);
    AboutProc(s, s.cpus[a.c].sched.i);
    AboutProc(s, s.cpus[a.c].wake.value.i);
    forall l | l in Do(s, a).locks && Do(s, a).locks[l].cpu == Subject(s, a).1 ensures LockOk(Do(s, a), l) {
      if l in s.locks {
        AboutLock(s, l);
      }
    }
  }

  lemma WakeSkipFits(s: System, a: Step)
    requires Struct(s) && Enabled(s, a) && (a.WakeSkip?)
    ensures Fits(s, a)
  {
    hide Snapshot, Struct;
    AboutCpu(s, a.c);
    AboutProc(s, s.cpus[a.c].sched.i);
    AboutProc(s, s.cpus[a.c].wake.value.i);
    forall l | l in Do(s, a).locks && Do(s, a).locks[l].cpu == Subject(s, a).1 ensures LockOk(Do(s, a), l) {
      if l in s.locks {
        AboutLock(s, l);
      }
    }
  }

  lemma IrqEnterFits(s: System, a: Step)
    requires Struct(s) && Enabled(s, a) && (a.IrqEnter?)
    ensures Fits(s, a)
  {
    hide Snapshot, Struct;
    AboutCpu(s, a.c);
    AboutProc(s, s.cpus[a.c].sched.i);
    forall l | l in Do(s, a).locks && Do(s, a).locks[l].cpu == Subject(s, a).1 ensures LockOk(Do(s, a), l) {
      if l in s.locks {
        AboutLock(s, l);
      }
    }
  }

  lemma WakeReturnFits(s: System, a: Step)
    requires Struct(s) && Enabled(s, a) && (a.WakeReturn?)
    ensures Fits(s, a)
  {
    hide Snapshot, Struct;
    AboutCpu(s, a.c);
    AboutProc(s, s.cpus[a.c].sched.i);
    forall l | l in Do(s, a).locks && Do(s, a).locks[l].cpu == Subject(s, a).1 ensures LockOk(Do(s, a), l) {
      if l in s.locks {
        AboutLock(s, l);
      }
    }
  }

  lemma TakeFits(s: System, a: Step)
    requires Struct(s) && Enabled(s, a) && (a.SchedTake? || a.SchedPass?)
    ensures Fits(s, a)
  {
    hide Snapshot, Struct;
    AboutCpu(s, a.c);
    AboutProc(s, s.cpus[a.c].sched.i);
    HoldsNothing(s, a.c);
  }

  lemma RunFits(s: System, a: Step)
    requires Struct(s) && Enabled(s, a) && (a.SchedRun?)
    ensures Fits(s, a)
  {
    hide Snapshot, Struct;
    AboutCpu(s, a.c);
    AboutProc(s, s.cpus[a.c].sched.i);
    HoldsNothing(s, a.c);
  }

  lemma SwitchFits(s: System, a: Step)
    requires Struct(s) && Enabled(s, a) && (a.SwitchOut?)
    ensures Fits(s, a)
  {
    hide Snapshot, Struct;
    AboutProc(s, a.p);
    AboutCpu(s, s.procs[a.p].on.value);
    HoldsNothing(s, s.procs[a.p].on.value);
  }

  lemma KillFits(s: System, a: Step)
    requires Struct(s) && Enabled(s, a) && (a.Kill?)
    ensures Fits(s, a)
  {
    hide Snapshot, Struct;
    AboutProc(s, a.p);
    AboutCpu(s, s.procs[a.p].on.value);
    AboutProc(s, a.q);
    forall l | l in Do(s, a).locks && Do(s, a).locks[l].cpu == Subject(s, a).1 ensures LockOk(Do(s, a), l) {
      if l in s.locks {
        AboutLock(s, l);
      }
    }
  }

  lemma LifeFits(s: System, a: Step)
    requires Struct(s) && Enabled(s, a) && (a.Spawn? || a.Reap?)
    ensures Fits(s, a)
  {
    hide Snapshot, Struct, HoldsNone, Interruptible;
    AboutProc(s, a.p);
    AboutCpu(s, s.procs[a.p].on.value);
    AboutProc(s, a.q);
    assert Do(s, a).locks == s.locks;
    forall l | l in Do(s, a).locks && Do(s, a).locks[l].cpu == Subject(s, a).1 ensures LockOk(Do(s, a), l) {
      if l in s.locks {
        AboutLock(s, l);
      }
    }
  }

  predicate HoldsNoLk(pc: Pc) {
    !(pc.Kernel? || pc.Wake? || pc.SleepAcq? || pc.SleepRel?)
  }

  /** In the scheduler and on the way to it a CPU holds no spinlock but that of the process. */
  lemma HoldsNothing(s: System, c: nat)
    requires Struct(s) && c < |s.cpus| && !s.cpus[c].irq
    requires s.cpus[c].sched.Switched? ==> s.cpus[c].sched.i < |s.procs| && HoldsNoLk(s.procs[s.cpus[c].sched.i].pc)
    ensures HoldsNone(s, c)
  {
  }

  lemma StepFits(s: System, a: Step)
    requires Struct(s) && Enabled(s, a)
    ensures Fits(s, a)
  {
    hide Struct, Do, Local, ProcOk, CpuOk, Subject;
    match a {
      case Acquire(_, _) => LockFits(s, a);
      case Release(_, _) => LockFits(s, a);
      case YieldTake(_) => OwnFits(s, a);
      case ExitTake(_) => OwnFits(s, a);
      case FirstSteps(_) => OwnFits(s, a);
      case SleepStep(p) =>
        if s.procs[p].pc.SleepRel? || s.procs[p].pc.SleepReacq? {
          SleepLockFits(s, a);
        } else {
          SleepOwnFits(s, a);
        }
      case IrqEnter(_, _, _) => IrqEnterFits(s, a);
      case WakeTake(_) => WakeTakeFits(s, a);
      case WakeLook(_) => WakeLookFits(s, a);
      case WakeSkip(_) => WakeSkipFits(s, a);
      case WakeReturn(_) => WakeReturnFits(s, a);
      case SwitchOut(_) => SwitchFits(s, a);
      case SchedTake(_) => TakeFits(s, a);
      case SchedRun(_) => RunFits(s, a);
      case SchedPass(_) => TakeFits(s, a);
      case Kill(_, _) => KillFits(s, a);
      case Spawn(_, _) => LifeFits(s, a);
      case Reap(_, _) => LifeFits(s, a);
      case SleepCall(_, _, _) => SleepCallFits(s, a);
      case YieldCall(_) => YieldCallFits(s, a);
      case WakeCall(_, _, _) => WakeCallFits(s, a);
    }
  }

  lemma StepKeepsStruct(s: System, a: Step)
    requires Struct(s) && Enabled(s, a)
    ensures Struct(Do(s, a))
  {
    hide Struct, Enabled, Do, Local, ProcOk, CpuOk, Subject;
    StepFits(s, a);
    LocalKeeps(s, Do(s, a), Subject(s, a).0, Subject(s, a).1);
  }

  // ---- every step keeps the history

  /** A call of sleep only moves on: once past a point it does not come back to it. */
  ghost predicate Advances(p: Process, r: Process) {
    && p.sleeps <= r.sleeps
    && (p.sleeps == r.sleeps && StillAsleep(r, r.sleeps) ==>
          && StillAsleep(p, p.sleeps) && r.pc.chan == p.pc.chan
          && (r.pc.SleepAcq? || r.pc.SleepRel? ==> p.pc.SleepAcq? || p.pc.SleepRel?))
  }

  lemma ProcessAdvances(s: System, a: Step)
    requires Struct(s) && Enabled(s, a) && Fits(s, a) && (a.SleepCall? || a.SleepStep? || a.SwitchOut? || a.SchedRun?)
    ensures Advances(s.procs[Subject(s, a).0], Do(s, a).procs[Subject(s, a).0])
  {
    hide Snapshot, Struct, CpuOk, LockOk, LockOwned, HoldsNone;
    AboutProc(s, Subject(s, a).0);
  }

  lemma SubjectAdvances(s: System, a: Step)
    requires Struct(s) && Enabled(s, a) && Fits(s, a)
    ensures Advances(s.procs[Subject(s, a).0], Do(s, a).procs[Subject(s, a).0])
  {
    hide Snapshot, Struct, CpuOk, LockOk, LockOwned, HoldsNone;
    if a.SleepCall? || a.SleepStep? || a.SwitchOut? || a.SchedRun? {
      ProcessAdvances(s, a);
    }
  }

  lemma StepAdvances(s: System, a: Step, q: nat)
    requires Struct(s) && Enabled(s, a) && q < |s.procs|
    ensures |Do(s, a).procs| == |s.procs| && Advances(s.procs[q], Do(s, a).procs[q])
  {
    hide Struct, Enabled, Do, ProcOk, CpuOk, Subject;
    StepFits(s, a);
    SubjectAdvances(s, a);
  }

  lemma DueStable(p: Process, r: Process, d: Due)
    requires Advances(p, r) && DueOk(p, d)
    ensures DueOk(r, d) && (!StillAsleep(p, d.call) ==> !StillAsleep(r, d.call))
  {
  }

  /** A lock that is held after a step was held before it, or was free and is taken by it. */
  lemma LockOrigin(s: System, a: Step, l: Lk)
    requires Struct(s) && Enabled(s, a) && l in Do(s, a).locks
    ensures if l in s.locks then Do(s, a).locks[l] == s.locks[l]
            else Do(s, a).locks[l].due == Snapshot(s.procs, l)
  {
    hide Snapshot, Struct, ProcOk, CpuOk, LockOk;
  }

  /** No one who is inside sleep on a free lock has yet to release it. */
  lemma SnapshotDue(s: System, l: Lk)
    requires Struct(s) && l !in s.locks
    ensures AllDue(s.procs, Snapshot(s.procs, l))
  {
    hide CpuOk, LockOk;
    forall q | q in Snapshot(s.procs, l) ensures q < |s.procs| && DueOk(s.procs[q], Snapshot(s.procs, l)[q]) {
      assert ProcOk(s, q);
    }
  }

  lemma AllDueStable(s: System, a: Step, due: map<nat, Due>)
    requires Struct(s) && Enabled(s, a) && AllDue(s.procs, due)
    ensures AllDue(Do(s, a).procs, due)
    ensures forall chan, i | Passed(s.procs, due, chan, i) :: Passed(Do(s, a).procs, due, chan, i)
  {
    hide Struct, Enabled, Do, DueOk, StillAsleep;
    var t := Do(s, a);
    forall q | q in due
      ensures q < |t.procs| && DueOk(t.procs[q], due[q])
      ensures !StillAsleep(s.procs[q], due[q].call) ==> !StillAsleep(t.procs[q], due[q].call)
    {
      StepAdvances(s, a, q);
      DueStable(s.procs[q], t.procs[q], due[q]);
    }
    if s.procs != [] {
      StepAdvances(s, a, 0);
    }
  }

  /** A wakeup that runs after a step has just begun, is where it was, or has gone past one process. */
  lemma WakeOrigin(s: System, a: Step, c: nat)
    requires Struct(s) && Enabled(s, a) && c < |s.cpus| == |Do(s, a).cpus| && Do(s, a).cpus[c].wake.Some?
    ensures var v := Do(s, a).cpus[c].wake.value;
            || v.i == 0
            || (&& s.cpus[c].wake.Some? && s.cpus[c].wake.value.lk == v.lk && s.cpus[c].wake.value.chan == v.chan
                && (s.cpus[c].wake.value.i == v.i || (s.cpus[c].wake.value.i + 1 == v.i && (a == WakeLook(c) || a == WakeSkip(c)))))
  {
    hide Snapshot, Struct, ProcOk, CpuOk, LockOk;
  }

  /** The process a waker goes past is no longer asleep from a call that is due. */
  lemma LookEnds(s: System, a: Step, c: nat)
    requires Inv(s) && Enabled(s, a) && (a == WakeLook(c) || a == WakeSkip(c))
    ensures var w := s.cpus[c].wake.value;
            && w.lk in s.locks && w.i < |s.procs| == |Do(s, a).procs|
            && (w.i in s.locks[w.lk].due && s.locks[w.lk].due[w.i].chan == w.chan ==>
                  !StillAsleep(Do(s, a).procs[w.i], s.locks[w.lk].due[w.i].call))
  {
    hide Snapshot, Struct, LockOk;
    AboutCpu(s, c);
    AboutProc(s, s.cpus[c].wake.value.i);
  }

  lemma StepKeepsHistory(s: System, a: Step)
    requires Inv(s) && Enabled(s, a)
    ensures History(Do(s, a))
  {
    hide Struct, Enabled, Do, AllDue, Passed;
    var t := Do(s, a);
    forall l | l in t.locks ensures AllDue(t.procs, t.locks[l].due) {
      LockOrigin(s, a, l);
      if l !in s.locks {
        SnapshotDue(s, l);
      }
      AllDueStable(s, a, t.locks[l].due);
    }
    StepKeepsStruct(s, a);
    forall c: nat | c < |t.cpus| ensures WakerPassed(t, c) {
      WakerKeepsPassing(s, a, c);
    }
  }

  lemma WakerKeepsPassing(s: System, a: Step, c: nat)
    requires Inv(s) && Enabled(s, a) && Struct(Do(s, a)) && c < |Do(s, a).cpus|
    ensures WakerPassed(Do(s, a), c)
  {
    hide Struct, Enabled, Do, AllDue, StillAsleep, Snapshot;
    var t := Do(s, a);
    SameCpus(s, a);
    if t.cpus[c].wake.Some? {
      WakeOrigin(s, a, c);
      var v := t.cpus[c].wake.value;
      AboutCpu(t, c);
      if v.i > 0 {
        AboutCpu(s, c);
        LockOrigin(s, a, v.lk);
        AllDueStable(s, a, s.locks[v.lk].due);
        assert WakerPassed(s, c);
        if v.i != s.cpus[c].wake.value.i {
          LookEnds(s, a, c);
        }
      }
    }
  }

  lemma SameCpus(s: System, a: Step)
    requires Struct(s) && Enabled(s, a)
    ensures |Do(s, a).cpus| == |s.cpus| && |Do(s, a).procs| == |s.procs|
  {
    hide Struct, Enabled, Do, ProcOk, CpuOk, Subject;
    StepFits(s, a);
  }

  // ---- whole runs

  ghost predicate Init(s: System) {
    && |s.procs| > 0 && s.locks == map[]
    && (forall c: nat | c < |s.cpus| :: s.cpus[c] == Cpu(None, Look(0), false, None))
    && (forall q: nat | q < |s.procs| ::
          && s.procs[q].lock.None? && s.procs[q].on.None? && s.procs[q].chan.None?
          && ((s.procs[q].pc.Absent? && s.procs[q].state.Unused?) || (s.procs[q].pc.YieldOut? && s.procs[q].state.Runnable?)))
  }

  ghost predicate Next(s: System, a: Step, t: System) {
    Enabled(s, a) && t == Do(s, a)
  }

  ghost predicate Run(ss: seq<System>, steps: seq<Step>) {
    && |ss| == |steps| + 1 && Init(ss[0])
    && forall k: nat | k < |steps| :: Next(ss[k], steps[k], ss[k + 1])
  }

  lemma {:induction false} RunKeeps(ss: seq<System>, steps: seq<Step>, k: nat)
    requires Run(ss, steps) && k < |ss|
    ensures Inv(ss[k])
  {
    hide Struct, Enabled, Do, Init, History;
    if k == 0 {
      InitHolds(ss[0]);
    } else {
      RunKeeps(ss, steps, k - 1);
      assert Next(ss[k - 1], steps[k - 1], ss[k - 1 + 1]);
      StepKeepsStruct(ss[k - 1], steps[k - 1]);
      StepKeepsHistory(ss[k - 1], steps[k - 1]);
    }
  }

  lemma InitHolds(s: System)
    requires Init(s)
    ensures Inv(s)
  {
  }

  /** In a run, a lock that stays held keeps the note of who was asleep on it when it was taken. */
  lemma {:induction false} NoteKept(ss: seq<System>, steps: seq<Step>, i: nat, j: nat, lk: Lk)
    requires Run(ss, steps) && i < j < |ss|
    requires lk !in ss[i].locks && forall k | i < k <= j :: lk in ss[k].locks
    ensures ss[j].locks[lk].due == Snapshot(ss[i].procs, lk)
    decreases j
  {
    hide Struct, Enabled, Do, Init, History, Snapshot;
    RunKeeps(ss, steps, j - 1);
    assert Next(ss[j - 1], steps[j - 1], ss[j - 1 + 1]);
    LockOrigin(ss[j - 1], steps[j - 1], lk);
    if i < j - 1 {
      NoteKept(ss, steps, i, j - 1, lk);
    }
  }

  /** What has stopped being asleep from a call stays so. */
  lemma {:induction false} AwakeForGood(ss: seq<System>, steps: seq<Step>, j: nat, m: nat, q: nat, call: nat)
    requires Run(ss, steps) && j <= m < |ss| && q < |ss[j].procs|
    requires call <= ss[j].procs[q].sleeps && !StillAsleep(ss[j].procs[q], call)
    ensures |ss[m].procs| == |ss[j].procs| && call <= ss[m].procs[q].sleeps && !StillAsleep(ss[m].procs[q], call)
    decreases m
  {
    hide Struct, Enabled, Do, Init, History;
    if j < m {
      AwakeForGood(ss, steps, j, m - 1, q, call);
      RunKeeps(ss, steps, m - 1);
      assert Next(ss[m - 1], steps[m - 1], ss[m - 1 + 1]);
      StepAdvances(ss[m - 1], steps[m - 1], q);
    }
  }

  /** No lost wakeup. A process q is inside sleep(chan, lk) when lk is taken; the holder keeps lk
      until its wakeup(chan) returns. From then on q is never again asleep from that call. */
  lemma NoLostWakeup(ss: seq<System>, steps: seq<Step>, i: nat, j: nat, m: nat, c: nat, lk: Lk, chan: Chan, q: nat)
    requires Run(ss, steps) && i < j < m < |ss|
    requires lk !in ss[i].locks && forall k | i < k <= j :: lk in ss[k].locks
    requires q < |ss[i].procs| && InSleep(ss[i].procs[q].pc, lk) && ss[i].procs[q].pc.chan == chan
    requires steps[j] == WakeReturn(c) && c < |ss[j].cpus|
    requires ss[j].cpus[c].wake.Some? && ss[j].cpus[c].wake.value.lk == lk && ss[j].cpus[c].wake.value.chan == chan
    ensures |ss[m].procs| == |ss[i].procs| && !StillAsleep(ss[m].procs[q], ss[i].procs[q].sleeps)
  {
    hide Struct, Do, Init, StillAsleep, InSleep;
    RunKeeps(ss, steps, j);
    NoteKept(ss, steps, i, j, lk);
    SizesKept(ss, steps, i, j);
    assert Next(ss[j], steps[j], ss[j + 1]) && WakerPassed(ss[j], c);
    var due := ss[j].locks[lk].due;
    assert AllDue(ss[j].procs, due) && q in due;
    AwakeForGood(ss, steps, j, m, q, due[q].call);
  }

  lemma {:induction false} SizesKept(ss: seq<System>, steps: seq<Step>, i: nat, j: nat)
    requires Run(ss, steps) && i <= j < |ss|
    ensures |ss[j].procs| == |ss[i].procs|
    decreases j
  {
    hide Struct, Enabled, Do, Init, History;
    if i < j {
      SizesKept(ss, steps, i, j - 1);
      RunKeeps(ss, steps, j - 1);
      assert Next(ss[j - 1], steps[j - 1], ss[j - 1 + 1]);
      SameCpus(ss[j - 1], steps[j - 1]);
    }
  }

  /** In every state of a run, a process whose lock is free is RUNNING exactly when a CPU has it as
      current, and then one. */
  lemma RunningIffCurrent(ss: seq<System>, steps: seq<Step>, k: nat, q: nat)
    requires Run(ss, steps) && k < |ss| && q < |ss[k].procs| && ss[k].procs[q].lock.None?
    ensures ss[k].procs[q].state.Running? <==> exists c: nat | c < |ss[k].cpus| :: ss[k].cpus[c].proc == Some(q)
    ensures forall c: nat, d: nat | c < |ss[k].cpus| && d < |ss[k].cpus| && ss[k].cpus[c].proc == ss[k].cpus[d].proc == Some(q) ::
              c == d
  {
    hide Inv, Run;
    RunKeeps(ss, steps, k);
    CurrentOk(ss[k], q);
  }

  /** In every state of a run, none of the panics of sched is reached: the process holds its own
      lock and no other, and has left the state RUNNING. */
  lemma SchedNeverPanics(ss: seq<System>, steps: seq<Step>, k: nat, p: nat)
    requires Run(ss, steps) && k < |ss| && p < |ss[k].procs| && InSched(ss[k].procs[p].pc)
    ensures var s := ss[k];
            && s.procs[p].on.Some? && s.procs[p].lock == s.procs[p].on && !s.procs[p].state.Running?
            && HoldsNone(s, s.procs[p].on.value)
            && forall q: nat | q < |s.procs| && s.procs[q].lock == s.procs[p].on :: q == p
  {
    hide Inv, Run;
    RunKeeps(ss, steps, k);
    SchedOk(ss[k], p);
  }

  lemma CurrentOk(s: System, q: nat)
    requires Inv(s) && q < |s.procs| && s.procs[q].lock.None?
    ensures s.procs[q].state.Running? <==> exists c: nat | c < |s.cpus| :: s.cpus[c].proc == Some(q)
    ensures forall c: nat, d: nat | c < |s.cpus| && d < |s.cpus| && s.cpus[c].proc == s.cpus[d].proc == Some(q) :: c == d
  {
    hide History;
    assert ProcOk(s, q);
    forall c: nat | c < |s.cpus| && s.cpus[c].proc == Some(q) ensures s.procs[q].on == Some(c) {
      assert CpuOk(s, c);
    }
    if s.procs[q].state.Running? {
      assert CpuOk(s, s.procs[q].on.value);
    }
  }

  lemma SchedOk(s: System, p: nat)
    requires Inv(s) && p < |s.procs| && InSched(s.procs[p].pc)
    ensures s.procs[p].on.Some? && s.procs[p].lock == s.procs[p].on && !s.procs[p].state.Running?
    ensures HoldsNone(s, s.procs[p].on.value)
    ensures forall q: nat | q < |s.procs| && s.procs[q].lock == s.procs[p].on :: q == p
  {
    hide History;
    assert ProcOk(s, p);
    var c := s.procs[p].on.value;
    assert CpuOk(s, c);
    HoldsNothing(s, c);
    forall q: nat | q < |s.procs| && s.procs[q].lock == Some(c) ensures q == p {
      assert ProcOk(s, q);
    }
  }

  // ---- what a call of sleep does

  /** Inside sleep(chan, lk), from the call until the lock is taken again. */
  predicate InCall(pc: Pc, chan: Chan, lk: Lk) {
    match pc
    case SleepAcq(ch, l) => ch == chan && l == lk
    case SleepRel(ch, l) => ch == chan && l == lk
    case SleepSet(ch, l) => ch == chan && l == lk
    case SleepSched(ch, l) => ch == chan && l == lk
    case SleepOut(ch, l) => ch == chan && l == lk
    case SleepTidy(l) => l == lk
    case SleepReacq(l) => l == lk
    case _ => false
  }

  /** A process inside sleep stays inside, or its step takes the lock, which was free, on its CPU. */
  lemma SleepAdvances(s: System, a: Step, p: nat, chan: Chan, lk: Lk)
    requires Struct(s) && Enabled(s, a) && p < |s.procs| && InCall(s.procs[p].pc, chan, lk)
    ensures var t := Do(s, a);
            && |t.procs| == |s.procs| && t.procs[p].sleeps == s.procs[p].sleeps
            && (|| InCall(t.procs[p].pc, chan, lk)
                || (&& a == SleepStep(p) && t.procs[p].pc.Kernel? && lk !in s.locks
                    && lk in t.locks && t.procs[p].on == Some(t.locks[lk].cpu)))
  {
    hide Struct, Enabled, Do, ProcOk, CpuOk, Subject, InCall;
    StepFits(s, a);
    if Subject(s, a).0 == p {
      if a.SleepStep? {
        SleepStepAdvances(s, a, p, chan, lk);
      } else {
        OtherStepKeepsCall(s, a, p, chan, lk);
      }
    }
  }

  lemma SleepStepAdvances(s: System, a: Step, p: nat, chan: Chan, lk: Lk)
    requires Enabled(s, a) && p < |s.procs| && InCall(s.procs[p].pc, chan, lk) && a.SleepStep? && Subject(s, a).0 == p
    ensures var t := Do(s, a);
            && p < |t.procs| && t.procs[p].sleeps == s.procs[p].sleeps
            && (|| InCall(t.procs[p].pc, chan, lk)
                || (&& a == SleepStep(p) && t.procs[p].pc.Kernel? && lk !in s.locks
                    && lk in t.locks && t.procs[p].on == Some(t.locks[lk].cpu)))
  {
    hide Snapshot;
  }

  lemma OtherStepKeepsCall(s: System, a: Step, p: nat, chan: Chan, lk: Lk)
    requires Struct(s) && Enabled(s, a) && p < |s.procs| && InCall(s.procs[p].pc, chan, lk) && !a.SleepStep? && Subject(s, a).0 == p
    ensures var t := Do(s, a); p < |t.procs| && t.procs[p].sleeps == s.procs[p].sleeps && InCall(t.procs[p].pc, chan, lk)
  {
    hide Snapshot, Struct, LockOk, LockOwned, HoldsNone;
    AboutProc(s, p);
    if a.WakeReturn? {
      AboutCpu(s, a.c);
    }
  }

  lemma {:induction false} SleepGoesOn(ss: seq<System>, steps: seq<Step>, i: nat, k: nat, p: nat, chan: Chan, lk: Lk)
    requires Run(ss, steps) && i < k < |ss| && steps[i] == SleepCall(p, chan, lk)
    requires forall m | i < m < k :: p < |ss[m].procs| && !ss[m].procs[p].pc.Kernel?
    ensures p < |ss[i].procs| == |ss[k].procs| && ss[k].procs[p].sleeps == ss[i].procs[p].sleeps + 1
    ensures InCall(ss[k].procs[p].pc, chan, lk)
         || (&& i + 1 < k && steps[k - 1] == SleepStep(p) && ss[k].procs[p].pc.Kernel? && lk !in ss[k - 1].locks
             && lk in ss[k].locks && ss[k].procs[p].on == Some(ss[k].locks[lk].cpu))
    decreases k
  {
    hide Struct, Init, History;
    assert Next(ss[k - 1], steps[k - 1], ss[k - 1 + 1]);
    if i + 1 < k {
      SleepGoesOn(ss, steps, i, k - 1, p, chan, lk);
      assert !ss[k - 1].procs[p].pc.Kernel?;
      RunKeeps(ss, steps, k - 1);
      SleepAdvances(ss[k - 1], steps[k - 1], p, chan, lk);
    }
  }

  /** sleep returns with the lock. In the first state after a call of sleep(chan, lk) where the
      process is back in other code, its CPU holds lk; lk was given up in between, and was free just
      before. */
  lemma SleepReturnsWithLock(ss: seq<System>, steps: seq<Step>, i: nat, j: nat, p: nat, chan: Chan, lk: Lk)
    requires Run(ss, steps) && i < j < |ss| && steps[i] == SleepCall(p, chan, lk)
    requires p < |ss[j].procs| && ss[j].procs[p].pc.Kernel?
    requires forall m | i < m < j :: p < |ss[m].procs| && !ss[m].procs[p].pc.Kernel?
    ensures lk in ss[j].locks && ss[j].procs[p].on == Some(ss[j].locks[lk].cpu)
    ensures i < j - 1 && lk !in ss[j - 1].locks && lk in ss[i].locks
  {
    hide Struct, Init, History, Do;
    SleepGoesOn(ss, steps, i, j, p, chan, lk);
    assert Next(ss[i], steps[i], ss[i + 1]);
  }

  /** Nobody else ends a sleep: a sleeping process becomes runnable only when a wakeup on its channel
      looks at it, or when it is killed. */
  lemma WokenBy(s: System, a: Step, q: nat)
    requires Struct(s) && Enabled(s, a) && q < |s.procs| && s.procs[q].state.Sleeping?
    ensures var t := Do(s, a);
            && |t.procs| == |s.procs|
            && (if (a.Kill? && a.q == q) || (a.WakeLook? && s.cpus[a.c].wake.value.i == q && Some(s.cpus[a.c].wake.value.chan) == s.procs[q].chan)
                then t.procs[q].state.Runnable? else t.procs[q].state.Sleeping? && t.procs[q].chan == s.procs[q].chan)
  {
    hide Struct, Do, ProcOk, CpuOk;
    StepFits(s, a);
    if Subject(s, a).0 == q {
      WokenSubject(s, a, q);
    }
  }

  lemma WokenSubject(s: System, a: Step, q: nat)
    requires Struct(s) && Enabled(s, a) && q < |s.procs| && s.procs[q].state.Sleeping? && Subject(s, a).0 == q
    ensures var t := Do(s, a);
            && q < |t.procs|
            && (if a.Kill? || (a.WakeLook? && Some(s.cpus[a.c].wake.value.chan) == s.procs[q].chan)
                then t.procs[q].state.Runnable? else t.procs[q].state.Sleeping? && t.procs[q].chan == s.procs[q].chan)
  {
    hide Snapshot, Struct, LockOk, LockOwned, HoldsNone, CpuOk;
    AboutProc(s, q);
  }

  /** In every run: a process that is asleep is asleep on in the next state, on the same channel,
      unless it is killed or a wakeup on that channel looks at it, and then it is runnable. */
  lemma NoSpuriousWakeup(ss: seq<System>, steps: seq<Step>, k: nat, q: nat)
    requires Run(ss, steps) && k < |steps| && q < |ss[k].procs| && ss[k].procs[q].state.Sleeping?
    ensures q < |ss[k + 1].procs|
    ensures if steps[k].Kill? && steps[k].q == q then ss[k + 1].procs[q].state.Runnable?
            else if steps[k].WakeLook? && steps[k].c < |ss[k].cpus| && ss[k].cpus[steps[k].c].wake.Some?
                    && ss[k].cpus[steps[k].c].wake.value.i == q && ss[k].procs[q].chan == Some(ss[k].cpus[steps[k].c].wake.value.chan)
            then ss[k + 1].procs[q].state.Runnable?
            else ss[k + 1].procs[q].state.Sleeping? && ss[k + 1].procs[q].chan == ss[k].procs[q].chan
  {
    hide Struct, Init, History, Do;
    RunKeeps(ss, steps, k);
    assert Next(ss[k], steps[k], ss[k + 1]);
    WokenBy(ss[k], steps[k], q);
  }

  // ---- the scheduler goes round

  /** What a step does to the place of a scheduler in the process table. */
  lemma SchedAdvances(s: System, a: Step, c: nat)
    requires Struct(s) && Enabled(s, a) && c < |s.cpus|
    ensures |Do(s, a).cpus| == |s.cpus| && |Do(s, a).procs| == |s.procs|
    ensures var u, v := s.cpus[c].sched, Do(s, a).cpus[c].sched;
            if a == SchedPass(c) then v == Look((u.i + 1) % |s.procs|) else v.i == u.i && (v.Look? <==> u.Look? && a != SchedTake(c))
  {
    hide Do, ProcOk, CpuOk, LockOk;
    StepFits(s, a);
    if Subject(s, a).1 == c {
      if a.SchedTake? || a.SchedRun? || a.SchedPass? || a.SwitchOut? {
        SchedSubject(s, a, c);
      } else {
        SchedSame(s, a, c);
      }
    }
  }

  lemma SchedSubject(s: System, a: Step, c: nat)
    requires Struct(s) && |s.procs| > 0 && Enabled(s, a) && c < |s.cpus| && Subject(s, a).1 == c
    requires a.SchedTake? || a.SchedRun? || a.SchedPass? || a.SwitchOut?
    ensures c < |Do(s, a).cpus|
    ensures var u, v := s.cpus[c].sched, Do(s, a).cpus[c].sched;
            if a == SchedPass(c) then v == Look((u.i + 1) % |s.procs|) else v.i == u.i && (v.Look? <==> u.Look? && a != SchedTake(c))
  {
    hide Snapshot, Struct, LockOk, LockOwned, HoldsNone, CpuOk;
    if a.SwitchOut? {
      AboutProc(s, a.p);
    }
  }

  lemma SchedSame(s: System, a: Step, c: nat)
    requires Enabled(s, a) && c < |s.cpus| && Subject(s, a).1 == c
    requires !(a.SchedTake? || a.SchedRun? || a.SchedPass? || a.SwitchOut?)
    ensures c < |Do(s, a).cpus| && Do(s, a).cpus[c].sched == s.cpus[c].sched
  {
    hide Snapshot, HoldsNone, Interruptible;
  }

  /** Between two looks at the process table, a scheduler stays at one process. */
  lemma {:induction false} SchedStays(ss: seq<System>, steps: seq<Step>, j: nat, k: nat, c: nat)
    requires Run(ss, steps) && j < k < |ss| && steps[j] == SchedTake(c) && forall m | j < m < k :: steps[m] != SchedTake(c)
    ensures c < |ss[j].cpus| == |ss[k].cpus| && |ss[k].procs| == |ss[j].procs| > 0
    ensures var i, n, u := ss[j].cpus[c].sched.i, |ss[j].procs|, ss[k].cpus[c].sched;
            i < n && (if u.Look? then u.i == (i + 1) % n else u.i == i)
    decreases k
  {
    hide Struct, Init, History, Do;
    RunKeeps(ss, steps, k - 1);
    assert Next(ss[k - 1], steps[k - 1], ss[k - 1 + 1]);
    if j + 1 < k {
      SchedStays(ss, steps, j, k - 1, c);
      SchedAdvances(ss[k - 1], steps[k - 1], c);
      AboutCpu(ss[k - 1], c);
    } else {
      SchedAdvances(ss[j], steps[j], c);
    }
  }

  /** Every scheduler tries the processes in turn, all of them: of two tries in a row the second is
      of the next process in the table, going round at its end. */
  lemma RoundRobin(ss: seq<System>, steps: seq<Step>, j: nat, k: nat, c: nat)
    requires Run(ss, steps) && j < k < |steps| && steps[j] == SchedTake(c) && steps[k] == SchedTake(c)
    requires forall m | j < m < k :: steps[m] != SchedTake(c)
    ensures c < |ss[j].cpus| == |ss[k].cpus| && |ss[j].procs| > 0
    ensures ss[k].cpus[c].sched.i == (ss[j].cpus[c].sched.i + 1) % |ss[j].procs|
  {
    hide Struct, Init, History, Do;
    SchedStays(ss, steps, j, k, c);
    assert Next(ss[k], steps[k], ss[k + 1]);
  }

  // ---- nobody waits for itself, and nobody waits in a circle

  /** The process on CPU c is in other kernel code, where it may do anything. */
  ghost predicate AtWill(s: System, c: nat)
    requires c < |s.cpus|
  {
    var u := s.cpus[c];
    !u.irq && u.sched.Switched? && u.sched.i < |s.procs| && s.procs[u.sched.i].pc.Kernel?
  }

  /** What CPU c does next where it has no choice. */
  ghost function Turn(s: System, c: nat): (a: Step)
    requires c < |s.cpus| && s.cpus[c].sched.i < |s.procs| && !AtWill(s, c)
  {
    var u := s.cpus[c];
    if u.wake.Some? then
      var w := u.wake.value;
      if w.held then WakeLook(c)
      else if w.i >= |s.procs| then WakeReturn(c)
      else if u.proc == Some(w.i) then WakeSkip(c) else WakeTake(c)
    else
      match u.sched
      case Look(i) => SchedTake(c)
      case Took(i) => if s.procs[i].state.Runnable? then SchedRun(c) else SchedPass(c)
      case Back(i) => SchedPass(c)
      case Switched(i) =>
        var pc := s.procs[i].pc;
        if InSched(pc) then SwitchOut(i)
        else if pc.YieldAcq? then YieldTake(i)
        else if pc.Resumed? then FirstSteps(i)
        else SleepStep(i)
  }

  ghost predicate CanGoOn(s: System, c: nat)
    requires c < |s.cpus| && s.cpus[c].sched.i < |s.procs|
  {
    AtWill(s, c) || Enabled(s, Turn(s, c))
  }

  /** The CPU that has the lock of process q. */
  ghost predicate HasProcLock(s: System, q: nat, h: nat) {
    q < |s.procs| && s.procs[q].lock == Some(h)
  }

  /** CPU c, which is not h, spins for the lock of a process that h has. */
  ghost predicate WaitsForProc(s: System, c: nat, h: nat)
    requires c < |s.cpus| && s.cpus[c].sched.i < |s.procs|
  {
    && !AtWill(s, c) && c != h
    && match Turn(s, c)
       case WakeTake(_) => HasProcLock(s, s.cpus[c].wake.value.i, h)
       case SchedTake(_) => HasProcLock(s, s.cpus[c].sched.i, h)
       case YieldTake(p) => HasProcLock(s, p, h)
       case SleepStep(p) => p < |s.procs| && s.procs[p].pc.SleepAcq? && HasProcLock(s, p, h)
       case _ => false
  }

  /** CPU c, which is not h, is at the end of a call of sleep and spins for the spinlock, which h has. */
  ghost predicate WaitsForSpin(s: System, c: nat, h: nat)
    requires c < |s.cpus| && s.cpus[c].sched.i < |s.procs|
  {
    && !AtWill(s, c) && c != h && Turn(s, c).SleepStep?
    && var p := Turn(s, c).p;
       && p < |s.procs| && s.procs[p].pc.SleepReacq?
       && s.procs[p].pc.lk in s.locks && s.locks[s.procs[p].pc.lk].cpu == h
  }

  /** A CPU goes on, or waits for a lock that another CPU has. */
  lemma GoesOnOrWaits(s: System, c: nat) returns (h: nat)
    requires Struct(s) && c < |s.cpus|
    ensures s.cpus[c].sched.i < |s.procs|
    ensures CanGoOn(s, c) || WaitsForProc(s, c, h) || WaitsForSpin(s, c, h)
  {
    hide Struct, Snapshot;
    AboutCpu(s, c);
    AboutProc(s, s.cpus[c].sched.i);
    h := 0;
    if !AtWill(s, c) && !Enabled(s, Turn(s, c)) {
      if s.cpus[c].wake.Some? {
        h := WakeWaits(s, c);
      } else {
        h := OthersWait(s, c);
      }
    }
  }

  lemma WakeWaits(s: System, c: nat) returns (h: nat)
    requires Struct(s) && c < |s.cpus| && s.cpus[c].sched.i < |s.procs| && !AtWill(s, c)
    requires s.cpus[c].wake.Some? && !Enabled(s, Turn(s, c))
    ensures WaitsForProc(s, c, h)
  {
    hide Struct, Snapshot;
    AboutCpu(s, c);
    var i := s.cpus[c].wake.value.i;
    AboutProc(s, i);
    h := s.procs[i].lock.value;
  }

  lemma OthersWait(s: System, c: nat) returns (h: nat)
    requires Struct(s) && c < |s.cpus| && s.cpus[c].sched.i < |s.procs| && !AtWill(s, c)
    requires s.cpus[c].wake.None? && !Enabled(s, Turn(s, c))
    ensures WaitsForProc(s, c, h) || WaitsForSpin(s, c, h)
  {
    hide Struct, Snapshot;
    AboutCpu(s, c);
    var i := s.cpus[c].sched.i;
    AboutProc(s, i);
    if s.procs[i].pc.SleepReacq? && s.cpus[c].sched.Switched? {
      AboutLock(s, s.procs[i].pc.lk);
      h := s.locks[s.procs[i].pc.lk].cpu;
    } else {
      h := s.procs[i].lock.value;
    }
  }

  /** Whoever has the lock of a process waits for nothing. */
  lemma ProcLockGoesOn(s: System, q: nat, h: nat)
    requires Struct(s) && HasProcLock(s, q, h)
    ensures h < |s.cpus| && s.cpus[h].sched.i < |s.procs| && CanGoOn(s, h)
  {
    hide Struct, Snapshot;
    AboutProc(s, q);
    AboutCpu(s, h);
  }

  /** Whoever has a spinlock goes on, or waits for the lock of a process. */
  lemma SpinGoesOn(s: System, l: Lk) returns (g: nat)
    requires Struct(s) && l in s.locks
    ensures var h := s.locks[l].cpu;
            && h < |s.cpus| && s.cpus[h].sched.i < |s.procs|
            && (CanGoOn(s, h) || WaitsForProc(s, h, g))
  {
    hide Struct, Snapshot, Enabled, Turn;
    AboutLock(s, l);
    var h := s.locks[l].cpu;
    g := GoesOnOrWaits(s, h);
    AboutCpu(s, h);
    if WaitsForSpin(s, h, g) {
      SpinnerHoldsNone(s, h, g, l);
    }
  }

  lemma SpinnerHoldsNone(s: System, c: nat, h: nat, l: Lk)
    requires Struct(s) && c < |s.cpus| && s.cpus[c].sched.i < |s.procs| && WaitsForSpin(s, c, h) && l in s.locks
    ensures s.locks[l].cpu != c
  {
    hide Struct, Snapshot, Enabled;
    AboutLock(s, l);
    AboutCpu(s, c);
  }

  /** No deadlock, in any state of any run: every CPU can go on, or waits for a lock of another CPU, and
      at the end of the chain, which has at most two links, is a CPU that can go on. */
  lemma NoDeadlock(ss: seq<System>, steps: seq<Step>, k: nat, c: nat) returns (h: nat, g: nat)
    requires Run(ss, steps) && k < |ss| && c < |ss[k].cpus|
    ensures forall d: nat | d < |ss[k].cpus| :: ss[k].cpus[d].sched.i < |ss[k].procs|
    ensures var s := ss[k];
            || CanGoOn(s, c)
            || (WaitsForProc(s, c, h) && h < |s.cpus| && CanGoOn(s, h))
            || (&& WaitsForSpin(s, c, h) && h < |s.cpus|
                && (CanGoOn(s, h) || (WaitsForProc(s, h, g) && g < |s.cpus| && CanGoOn(s, g))))
  {
    hide Struct, Init, History, Do, Enabled, Turn;
    RunKeeps(ss, steps, k);
    var s := ss[k];
    forall d: nat | d < |s.cpus| ensures s.cpus[d].sched.i < |s.procs| {
      AboutCpu(s, d);
    }
    h := GoesOnOrWaits(s, c);
    g := 0;
    if WaitsForProc(s, c, h) {
      WaitedForGoesOn(s, c, h);
    } else if WaitsForSpin(s, c, h) {
      g := SpinGoesOn(s, s.procs[Turn(s, c).p].pc.lk);
      if !CanGoOn(s, h) {
        WaitedForGoesOn(s, h, g);
      }
    }
  }

  lemma WaitedForGoesOn(s: System, c: nat, h: nat)
    requires Struct(s) && c < |s.cpus| && s.cpus[c].sched.i < |s.procs| && WaitsForProc(s, c, h)
    ensures h < |s.cpus| && s.cpus[h].sched.i < |s.procs| && CanGoOn(s, h)
  {
    hide Struct, Enabled, CanGoOn, Snapshot;
    match Turn(s, c)
    case WakeTake(_) => ProcLockGoesOn(s, s.cpus[c].wake.value.i, h);
    case SchedTake(_) => ProcLockGoesOn(s, s.cpus[c].sched.i, h);
    case YieldTake(p) => ProcLockGoesOn(s, p, h);
    case SleepStep(p) => ProcLockGoesOn(s, p, h);
    case _ =>
  }
}
