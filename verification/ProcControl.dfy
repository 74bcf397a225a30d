/** Who runs where and who holds which lock, in every reachable state. */
module ProcControl {
  import opened Collections
  import opened Proc

  /** A lock operation from one set of locks, some spin-locks and perhaps one p->lock, to another. A switch is made with
      only the lock of the process that switches. */
  predicate Accounts(p: nat, ns: seq<nat>, own: Option<nat>, op: LockOp, ns': seq<nat>, own': Option<nat>) {
    match op
    case Acquire(Spin(n)) => n !in ns && ns' == ns + [n] && own' == own
    case Acquire(OwnLock(i)) => own == None && own' == Some(i) && ns' == ns
    case Release(Spin(n)) => ns == ns' + [n] && own' == own
    case Release(OwnLock(i)) => own == Some(i) && own' == None && ns' == ns
    case Switch(_, _) => ns == [] == ns' && own == Some(p) == own'
    case Stay => ns' == ns && own' == own
  }

  lemma ClientLocks(s: State, p: nat, op: LockOp, eff: Effect, pc': Pc)
    requires p < |s.procs| && ClientMove(s, p, op, eff, pc')
    ensures var pc := s.procs[p].pc; Accounts(p, Spins(pc), OwnOf(p, pc), op, Spins(pc'), OwnOf(p, pc'))
  {
    hide MaySleep, ParentChan;
  }

  lemma SleepLockLocks(s: State, p: nat, op: LockOp, eff: Effect, pc': Pc)
    requires p < |s.procs| && SleepLockMove(s, p, op, eff, pc')
    ensures var pc := s.procs[p].pc; Accounts(p, Spins(pc), OwnOf(p, pc), op, Spins(pc'), OwnOf(p, pc'))
  {
    hide MaySleep, ParentChan;
  }

  lemma SchedLocks(s: State, p: nat, op: LockOp, eff: Effect, pc': Pc)
    requires p < |s.procs| && SchedMove(s, p, op, eff, pc')
    ensures var pc := s.procs[p].pc; Accounts(p, Spins(pc), OwnOf(p, pc), op, Spins(pc'), OwnOf(p, pc'))
  {
    hide MaySleep, ParentChan;
  }

  lemma WakeLocks(s: State, p: nat, op: LockOp, eff: Effect, pc': Pc)
    requires p < |s.procs| && WakeMove(s, p, op, eff, pc')
    ensures var pc := s.procs[p].pc; Accounts(p, Spins(pc), OwnOf(p, pc), op, Spins(pc'), OwnOf(p, pc'))
  {
    hide MaySleep, ParentChan;
  }

  lemma KillLocks(s: State, p: nat, op: LockOp, eff: Effect, pc': Pc)
    requires p < |s.procs| && KillMove(s, p, op, eff, pc')
    ensures var pc := s.procs[p].pc; Accounts(p, Spins(pc), OwnOf(p, pc), op, Spins(pc'), OwnOf(p, pc'))
  {
    hide MaySleep, ParentChan;
  }

  lemma ForkLocks(s: State, p: nat, op: LockOp, eff: Effect, pc': Pc)
    requires p < |s.procs| && ForkMove(s, p, op, eff, pc')
    ensures var pc := s.procs[p].pc; Accounts(p, Spins(pc), OwnOf(p, pc), op, Spins(pc'), OwnOf(p, pc'))
  {
    hide MaySleep, ParentChan;
  }

  lemma ExitLocks(s: State, p: nat, op: LockOp, eff: Effect, pc': Pc)
    requires p < |s.procs| && ExitMove(s, p, op, eff, pc')
    ensures var pc := s.procs[p].pc; Accounts(p, Spins(pc), OwnOf(p, pc), op, Spins(pc'), OwnOf(p, pc'))
  {
    hide MaySleep, ParentChan;
  }

  lemma WaitLocks(s: State, p: nat, op: LockOp, eff: Effect, pc': Pc)
    requires p < |s.procs| && WaitMove(s, p, op, eff, pc')
    ensures var pc := s.procs[p].pc; Accounts(p, Spins(pc), OwnOf(p, pc), op, Spins(pc'), OwnOf(p, pc'))
  {
    hide MaySleep, ParentChan;
  }

  lemma CodeLocks(s: State, p: nat, op: LockOp, eff: Effect, pc': Pc)
    requires p < |s.procs| && CodeMove(s, p, op, eff, pc')
    ensures var pc := s.procs[p].pc; Accounts(p, Spins(pc), OwnOf(p, pc), op, Spins(pc'), OwnOf(p, pc'))
  {
    hide Accounts, ClientMove, SleepLockMove, SchedMove, WakeMove, KillMove, ForkMove, ExitMove, WaitMove;
    if ClientMove(s, p, op, eff, pc') {
      ClientLocks(s, p, op, eff, pc');
    } else if SleepLockMove(s, p, op, eff, pc') {
      SleepLockLocks(s, p, op, eff, pc');
    } else if SchedMove(s, p, op, eff, pc') {
      SchedLocks(s, p, op, eff, pc');
    } else if WakeMove(s, p, op, eff, pc') {
      WakeLocks(s, p, op, eff, pc');
    } else if KillMove(s, p, op, eff, pc') {
      KillLocks(s, p, op, eff, pc');
    } else if ForkMove(s, p, op, eff, pc') {
      ForkLocks(s, p, op, eff, pc');
    } else if ExitMove(s, p, op, eff, pc') {
      ExitLocks(s, p, op, eff, pc');
    } else {
      WaitLocks(s, p, op, eff, pc');
    }
  }

  /** A handler's locks. */
  function HandlerSpins(h: Option<Handler>): seq<nat> {
    if h.Some? then [h.value.n] else []
  }

  function HandlerOwn(h: Option<Handler>): Option<nat> {
    if h.Some? && h.value.HandlerWakeAt? then Some(h.value.i) else None
  }

  lemma HandlerLocks(size: nat, p: nat, skip: Option<nat>, h: Option<Handler>, op: LockOp, eff: Effect,
                     h': Option<Handler>)
    requires HandlerMove(size, skip, h, op, eff, h')
    ensures Accounts(p, HandlerSpins(h), HandlerOwn(h), op, HandlerSpins(h'), HandlerOwn(h')) && !op.Switch?
    ensures eff == Nothing || (h.Some? && h.value.HandlerWakeAt? && eff == Wakeup(h.value.i, h.value.ch))
    ensures h.None? ==> h'.Some? && eff == Nothing
  {
  }

  /** What is on top of a thread's code finds it without locks, a look at the killed flag without p->lock. */
  predicate OverOk(p: nat, q: Process) {
    && (!q.over.Plain? ==> OwnOf(p, q.pc) == None)
    && (q.over.Yielding? || q.over.Yielded? || q.over.Handling? ==> Spins(q.pc) == [])
  }

  lemma OverLocks(s: State, p: nat, op: LockOp, eff: Effect, over': Over)
    requires p < |s.procs| && OverMove(s, p, op, eff, over') && OverOk(p, s.procs[p])
    ensures var q := s.procs[p]; var q' := q.(over := over');
      OverOk(p, q') && Accounts(p, AllSpins(q), AllOwn(p, q), op, AllSpins(q'), AllOwn(p, q'))
  {
    hide HandlerMove, Spins, OwnOf;
    var q := s.procs[p];
    if HandlerMove(|s.procs|, Some(p), HandlerOf(q.over), op, eff, HandlerOf(over')) {
      HandlerLocks(|s.procs|, p, Some(p), HandlerOf(q.over), op, eff, HandlerOf(over'));
    }
  }

  /** Each step of a thread keeps account of its locks. */
  lemma MoveLocks(s: State, p: nat, op: LockOp, eff: Effect, pc': Pc, over': Over)
    requires p < |s.procs| && Move(s, p, op, eff, pc', over') && OverOk(p, s.procs[p])
    ensures var q := s.procs[p]; var q' := q.(pc := pc', over := over');
      OverOk(p, q') && Accounts(p, AllSpins(q), AllOwn(p, q), op, AllSpins(q'), AllOwn(p, q'))
  {
    hide CodeMove, OverMove, Spins, OwnOf;
    var q := s.procs[p];
    if q.over == Plain == over' && CodeMove(s, p, op, eff, pc') {
      CodeLocks(s, p, op, eff, pc');
      assert AllSpins(q) == Spins(q.pc) && AllSpins(q.(pc := pc', over := over')) == Spins(pc');
    } else {
      OverLocks(s, p, op, eff, over');
    }
  }

  /** The locks that CPU c holds, in a process or in its scheduler. */
  ghost function CpuSpins(s: State, c: nat): seq<nat>
    requires c < |s.cpus|
  {
    var k := s.cpus[c];
    if k.on.Some? then
      if k.on.value < |s.procs| then AllSpins(s.procs[k.on.value]) else []
    else HandlerSpins(SchedHandler(k.spc))
  }

  ghost function CpuOwn(s: State, c: nat): Option<nat>
    requires c < |s.cpus|
  {
    var k := s.cpus[c];
    if k.on.Some? then
      if k.on.value < |s.procs| then AllOwn(k.on.value, s.procs[k.on.value]) else None
    else if k.spc.Look? || k.spc.Switched? then Some(k.spc.p)
    else HandlerOwn(SchedHandler(k.spc))
  }

  ghost predicate CpuHolds(s: State, c: nat, l: Lock)
    requires c < |s.cpus|
  {
    match l
    case Spin(n) => n in CpuSpins(s, c)
    case OwnLock(i) => CpuOwn(s, c) == Some(i)
  }

  /** c->proc, the stack the CPU is on and its scheduler's place agree. */
  ghost predicate StackOk(s: State, k: Cpu) {
    && (k.on.Some? ==> k.on.value < |s.procs| && k.proc == k.on && k.spc == Switched(k.on.value))
    && (k.spc.Switched? ==> k.proc == Some(k.spc.p)) && (!k.spc.Switched? ==> k.proc == None)
    && (k.spc.Look? || k.spc.Switched? ==> k.spc.p < |s.procs|)
  }

  ghost predicate CpuOk(s: State, c: nat)
    requires c < |s.cpus|
  {
    var k := s.cpus[c];
    && StackOk(s, k) && NoDup(CpuSpins(s, c)) && (k.intr ==> k.noff == 0)
    && k.noff == |CpuSpins(s, c)| + if CpuOwn(s, c).Some? then 1 else 0
  }

  ghost predicate HoldsExactly(s: State, c: nat)
    requires c < |s.cpus|
  {
    forall l :: l in s.held && s.held[l] == c <==> CpuHolds(s, c, l)
  }

  /** No process is on two CPUs. */
  ghost predicate OnOne(s: State) {
    forall c, d ::
      0 <= c < |s.cpus| && 0 <= d < |s.cpus| && s.cpus[c].on.Some? && s.cpus[c].on == s.cpus[d].on ==> c == d
  }

  ghost predicate IsOn(s: State, p: nat) {
    exists c :: 0 <= c < |s.cpus| && s.cpus[c].on == Some(p)
  }

  /** A process on a CPU is RUNNING, or on the way out a ZOMBIE with its own lock held. */
  predicate Runs(q: Process) {
    q.pc != Exited && q.state == if q.pc == ExitOwn then ZOMBIE else RUNNING
  }

  /** A process off the CPUs is where its state says. */
  predicate Parked(q: Process) {
    match q.state
    case UNUSED => q.pc == Exited && q.over == Plain
    case USED => q.pc == Start && q.over == Plain
    case SLEEPING => q.pc.Slept? && q.over == Plain
    case RUNNABLE => q.over == Yielded || (q.over == Plain && (q.pc == Start || q.pc.Slept?))
    case RUNNING => false
    case ZOMBIE => q.pc == Exited && q.over == Plain
  }

  predicate ProcessOk(p: nat, q: Process, on: bool) {
    (if on then Runs(q) else Parked(q)) && OverOk(p, q) && (q.pc.Slept? ==> q.chan == Some(q.pc.ch))
  }

  predicate Forking(pc: Pc) {
    pc.Forked? || pc.ForkWait? || pc.ForkParent? || pc.ForkLast?
  }

  /** The slot that a fork is filling is USED, and is one fork's only. */
  ghost predicate ForksOk(s: State) {
    && (forall p: nat | p < |s.procs| && Forking(s.procs[p].pc) ::
         s.procs[p].pc.i < |s.procs| && s.procs[s.procs[p].pc.i].state == USED)
    && (forall p: nat, q: nat | p < |s.procs| && q < |s.procs| && Forking(s.procs[p].pc) && Forking(s.procs[q].pc) ::
         s.procs[p].pc.i == s.procs[q].pc.i ==> p == q)
  }

  ghost predicate Inv(s: State) {
    && (forall c :: 0 <= c < |s.cpus| ==> CpuOk(s, c))
    && (forall c :: 0 <= c < |s.cpus| ==> HoldsExactly(s, c))
    && (forall l :: l in s.held ==> s.held[l] < |s.cpus|)
    && OnOne(s) && ForksOk(s)
    && (forall p: nat :: p < |s.procs| ==> ProcessOk(p, s.procs[p], IsOn(s, p)))
  }

  lemma InitialInv(s: State)
    requires Initial(s)
    ensures Inv(s)
  {
    forall p: nat | p < |s.procs|
      ensures ProcessOk(p, s.procs[p], IsOn(s, p))
    {
      assert !IsOn(s, p);
    }
  }

  /** Thread p itself after its move, its switch included. */
  ghost function OwnAfter(s: State, p: nat, op: LockOp, eff: Effect, pc': Pc, over': Over): Process
    requires p < |s.procs|
  {
    var q := (if Target(eff) == Some(p) then Affect(s.procs[p], eff) else s.procs[p]).(pc := pc', over := over');
    if op.Switch? then q.(state := op.state, chan := op.chan) else q
  }

  /** What the code knows of the process that it changes: a slot to fill is UNUSED or USED, one to free a ZOMBIE. */
  ghost predicate TargetFree(s: State, p: nat, eff: Effect) {
    match eff
    case Create(i, _) => i < |s.procs| && s.procs[i].state == UNUSED
    case Abandon(i) => i < |s.procs| && s.procs[i].state == UNUSED
    case MakeRunnable(i) => i < |s.procs| && s.procs[i].state == USED
    case Free(i, _) => i < |s.procs| && s.procs[i].state == ZOMBIE && !IsOn(s, i)
    case MakeZombie(i) => i == p
    case ClearChan(i) => i == p
    case _ => true
  }

  lemma ClientStays(s: State, p: nat, op: LockOp, eff: Effect, pc': Pc)
    requires p < |s.procs| && ClientMove(s, p, op, eff, pc') && s.procs[p].over == Plain
    requires ProcessOk(p, s.procs[p], true) && TargetFree(s, p, eff)
    ensures ProcessOk(p, OwnAfter(s, p, op, eff, pc', Plain), !op.Switch?)
  {
    hide MaySleep, ParentChan, Spins, OwnOf;
  }

  lemma SleepLockStays(s: State, p: nat, op: LockOp, eff: Effect, pc': Pc)
    requires p < |s.procs| && SleepLockMove(s, p, op, eff, pc') && s.procs[p].over == Plain
    requires ProcessOk(p, s.procs[p], true) && TargetFree(s, p, eff)
    ensures ProcessOk(p, OwnAfter(s, p, op, eff, pc', Plain), !op.Switch?)
  {
    hide MaySleep, ParentChan, Spins, OwnOf;
  }

  lemma SchedStays(s: State, p: nat, op: LockOp, eff: Effect, pc': Pc)
    requires p < |s.procs| && SchedMove(s, p, op, eff, pc') && s.procs[p].over == Plain
    requires ProcessOk(p, s.procs[p], true) && TargetFree(s, p, eff)
    ensures ProcessOk(p, OwnAfter(s, p, op, eff, pc', Plain), !op.Switch?)
  {
    hide MaySleep, ParentChan, Spins, OwnOf;
  }

  lemma WakeStays(s: State, p: nat, op: LockOp, eff: Effect, pc': Pc)
    requires p < |s.procs| && WakeMove(s, p, op, eff, pc') && s.procs[p].over == Plain
    requires ProcessOk(p, s.procs[p], true) && TargetFree(s, p, eff)
    ensures ProcessOk(p, OwnAfter(s, p, op, eff, pc', Plain), !op.Switch?)
  {
    hide MaySleep, ParentChan, Spins, OwnOf;
  }

  lemma KillStays(s: State, p: nat, op: LockOp, eff: Effect, pc': Pc)
    requires p < |s.procs| && KillMove(s, p, op, eff, pc') && s.procs[p].over == Plain
    requires ProcessOk(p, s.procs[p], true) && TargetFree(s, p, eff)
    ensures ProcessOk(p, OwnAfter(s, p, op, eff, pc', Plain), !op.Switch?)
  {
    hide MaySleep, ParentChan, Spins, OwnOf;
  }

  lemma ForkStays(s: State, p: nat, op: LockOp, eff: Effect, pc': Pc)
    requires p < |s.procs| && ForkMove(s, p, op, eff, pc') && s.procs[p].over == Plain
    requires ProcessOk(p, s.procs[p], true) && TargetFree(s, p, eff)
    ensures ProcessOk(p, OwnAfter(s, p, op, eff, pc', Plain), !op.Switch?)
  {
    hide MaySleep, ParentChan, Spins, OwnOf;
  }

  lemma ExitStays(s: State, p: nat, op: LockOp, eff: Effect, pc': Pc)
    requires p < |s.procs| && ExitMove(s, p, op, eff, pc') && s.procs[p].over == Plain
    requires ProcessOk(p, s.procs[p], true) && TargetFree(s, p, eff)
    ensures ProcessOk(p, OwnAfter(s, p, op, eff, pc', Plain), !op.Switch?)
  {
    hide MaySleep, ParentChan, Spins, OwnOf;
  }

  lemma WaitStays(s: State, p: nat, op: LockOp, eff: Effect, pc': Pc)
    requires p < |s.procs| && WaitMove(s, p, op, eff, pc') && s.procs[p].over == Plain
    requires ProcessOk(p, s.procs[p], true) && TargetFree(s, p, eff)
    ensures ProcessOk(p, OwnAfter(s, p, op, eff, pc', Plain), !op.Switch?)
  {
    hide MaySleep, ParentChan, Spins, OwnOf;
  }

  lemma CodeStays(s: State, p: nat, op: LockOp, eff: Effect, pc': Pc)
    requires p < |s.procs| && CodeMove(s, p, op, eff, pc') && s.procs[p].over == Plain
    requires ProcessOk(p, s.procs[p], true) && TargetFree(s, p, eff)
    ensures ProcessOk(p, OwnAfter(s, p, op, eff, pc', Plain), !op.Switch?)
  {
    hide ProcessOk, OwnAfter, TargetFree, ClientMove, SleepLockMove, SchedMove, WakeMove, KillMove, ForkMove,
      ExitMove, WaitMove;
    if ClientMove(s, p, op, eff, pc') {
      ClientStays(s, p, op, eff, pc');
    } else if SleepLockMove(s, p, op, eff, pc') {
      SleepLockStays(s, p, op, eff, pc');
    } else if SchedMove(s, p, op, eff, pc') {
      SchedStays(s, p, op, eff, pc');
    } else if WakeMove(s, p, op, eff, pc') {
      WakeStays(s, p, op, eff, pc');
    } else if KillMove(s, p, op, eff, pc') {
      KillStays(s, p, op, eff, pc');
    } else if ForkMove(s, p, op, eff, pc') {
      ForkStays(s, p, op, eff, pc');
    } else if ExitMove(s, p, op, eff, pc') {
      ExitStays(s, p, op, eff, pc');
    } else {
      WaitStays(s, p, op, eff, pc');
    }
  }

  lemma OverStays(s: State, p: nat, op: LockOp, eff: Effect, over': Over)
    requires p < |s.procs| && OverMove(s, p, op, eff, over') && ProcessOk(p, s.procs[p], true)
    ensures ProcessOk(p, OwnAfter(s, p, op, eff, s.procs[p].pc, over'), !op.Switch?)
    ensures eff == Nothing || (eff.Wakeup? && !op.Switch?)
  {
    hide Spins, OwnOf, HandlerMove;
    var q := s.procs[p];
    OverLocks(s, p, op, eff, over');
    if HandlerMove(|s.procs|, Some(p), HandlerOf(q.over), op, eff, HandlerOf(over')) {
      HandlerLocks(|s.procs|, p, Some(p), HandlerOf(q.over), op, eff, HandlerOf(over'));
    }
  }

  lemma MoveStays(s: State, p: nat, op: LockOp, eff: Effect, pc': Pc, over': Over)
    requires p < |s.procs| && Move(s, p, op, eff, pc', over') && ProcessOk(p, s.procs[p], true) && TargetFree(s, p, eff)
    ensures ProcessOk(p, OwnAfter(s, p, op, eff, pc', over'), !op.Switch?)
  {
    hide ProcessOk, OwnAfter, TargetFree, CodeMove, OverMove;
    if s.procs[p].over == Plain == over' && CodeMove(s, p, op, eff, pc') {
      CodeStays(s, p, op, eff, pc');
    } else {
      OverStays(s, p, op, eff, over');
    }
  }

  /** A CPU that has a ZOMBIE as its process, on its stack or just off it, holds that process's lock. */
  lemma ZombieHeld(s: State, d: nat, j: nat)
    requires Inv(s) && d < |s.cpus| && j < |s.procs| && s.procs[j].state == ZOMBIE && s.cpus[d].proc == Some(j)
    ensures OwnLock(j) in s.held && s.held[OwnLock(j)] == d
  {
    hide ForksOk, OnOne;
    assert CpuOk(s, d) && HoldsExactly(s, d);
    assert s.cpus[d].on == Some(j) ==> IsOn(s, j);
    assert CpuHolds(s, d, OwnLock(j));
  }

  /** freeproc in wait finds the slot's thread off every CPU: the child, in exit, keeps its lock until it has
      switched. */
  lemma FreeOff(s: State, c: nat, p: nat, j: nat)
    requires Inv(s) && c < |s.cpus| && s.cpus[c].on == Some(p) && p < |s.procs|
    requires s.procs[p].pc.WaitAt? && s.procs[p].pc.j == j && j < |s.procs| && s.procs[j].state == ZOMBIE
    ensures !IsOn(s, j) && forall d :: 0 <= d < |s.cpus| ==> s.cpus[d].proc != Some(j)
  {
    hide ForksOk, OnOne;
    assert IsOn(s, p) && ProcessOk(p, s.procs[p], true) && CpuOk(s, c) && HoldsExactly(s, c);
    assert CpuHolds(s, c, OwnLock(j));
    forall d | 0 <= d < |s.cpus|
      ensures s.cpus[d].proc != Some(j) && s.cpus[d].on != Some(j)
    {
      assert CpuOk(s, d);
      if s.cpus[d].proc == Some(j) {
        ZombieHeld(s, d, j);
      }
    }
  }

  /** Only fork fills a slot, only the fork that took it makes it RUNNABLE, and only wait frees one. */
  predicate SlotStep(p: nat, pc: Pc, eff: Effect, pc': Pc) {
    && (Forking(pc') ==>
         eff == Create(pc'.i, p) || (Forking(pc) && pc.i == pc'.i && (eff == Nothing || eff.SetParent? || eff.Wakeup?)))
    && (eff.MakeRunnable? ==> Forking(pc) && pc.i == eff.i && !Forking(pc'))
    && (eff.Create? ==> eff.who == p && pc' == Forked(eff.i))
    && (eff.Free? ==> pc.WaitAt? && pc.j == eff.j && eff.who == p)
  }

  lemma ClientTarget(s: State, p: nat, op: LockOp, eff: Effect, pc': Pc)
    requires p < |s.procs| && ClientMove(s, p, op, eff, pc') && ForksOk(s)
    ensures TargetFree(s, p, eff) && SlotStep(p, s.procs[p].pc, eff, pc')
  {
    hide MaySleep, ParentChan;
  }

  lemma SleepLockTarget(s: State, p: nat, op: LockOp, eff: Effect, pc': Pc)
    requires p < |s.procs| && SleepLockMove(s, p, op, eff, pc') && ForksOk(s)
    ensures TargetFree(s, p, eff) && SlotStep(p, s.procs[p].pc, eff, pc')
  {
    hide MaySleep, ParentChan;
  }

  lemma SchedTarget(s: State, p: nat, op: LockOp, eff: Effect, pc': Pc)
    requires p < |s.procs| && SchedMove(s, p, op, eff, pc') && ForksOk(s)
    ensures TargetFree(s, p, eff) && SlotStep(p, s.procs[p].pc, eff, pc')
  {
    hide MaySleep, ParentChan;
  }

  lemma WakeTarget(s: State, p: nat, op: LockOp, eff: Effect, pc': Pc)
    requires p < |s.procs| && WakeMove(s, p, op, eff, pc') && ForksOk(s)
    ensures TargetFree(s, p, eff) && SlotStep(p, s.procs[p].pc, eff, pc')
  {
    hide MaySleep, ParentChan;
  }

  lemma KillTarget(s: State, p: nat, op: LockOp, eff: Effect, pc': Pc)
    requires p < |s.procs| && KillMove(s, p, op, eff, pc') && ForksOk(s)
    ensures TargetFree(s, p, eff) && SlotStep(p, s.procs[p].pc, eff, pc')
  {
    hide MaySleep, ParentChan;
  }

  lemma ForkTarget(s: State, p: nat, op: LockOp, eff: Effect, pc': Pc)
    requires p < |s.procs| && ForkMove(s, p, op, eff, pc') && ForksOk(s)
    ensures TargetFree(s, p, eff) && SlotStep(p, s.procs[p].pc, eff, pc')
  {
    hide MaySleep, ParentChan;
  }

  lemma ExitTarget(s: State, p: nat, op: LockOp, eff: Effect, pc': Pc)
    requires p < |s.procs| && ExitMove(s, p, op, eff, pc') && ForksOk(s)
    ensures TargetFree(s, p, eff) && SlotStep(p, s.procs[p].pc, eff, pc')
  {
    hide MaySleep, ParentChan;
  }

  lemma WaitTarget(s: State, c: nat, p: nat, op: LockOp, eff: Effect, pc': Pc)
    requires Inv(s) && c < |s.cpus| && s.cpus[c].on == Some(p) && p < |s.procs| && WaitMove(s, p, op, eff, pc')
    ensures TargetFree(s, p, eff) && SlotStep(p, s.procs[p].pc, eff, pc')
  {
    hide Inv;
    if eff.Free? {
      FreeOff(s, c, p, eff.j);
    }
  }

  lemma CodeTarget(s: State, c: nat, p: nat, op: LockOp, eff: Effect, pc': Pc)
    requires Inv(s) && c < |s.cpus| && s.cpus[c].on == Some(p) && p < |s.procs| && CodeMove(s, p, op, eff, pc')
    ensures TargetFree(s, p, eff) && SlotStep(p, s.procs[p].pc, eff, pc')
  {
    hide ForksOk, TargetFree, SlotStep, ClientMove, SleepLockMove, SchedMove, WakeMove, KillMove, ForkMove, ExitMove,
      WaitMove;
    if ClientMove(s, p, op, eff, pc') {
      ClientTarget(s, p, op, eff, pc');
    } else if SleepLockMove(s, p, op, eff, pc') {
      SleepLockTarget(s, p, op, eff, pc');
    } else if SchedMove(s, p, op, eff, pc') {
      SchedTarget(s, p, op, eff, pc');
    } else if WakeMove(s, p, op, eff, pc') {
      WakeTarget(s, p, op, eff, pc');
    } else if KillMove(s, p, op, eff, pc') {
      KillTarget(s, p, op, eff, pc');
    } else if ForkMove(s, p, op, eff, pc') {
      ForkTarget(s, p, op, eff, pc');
    } else if ExitMove(s, p, op, eff, pc') {
      ExitTarget(s, p, op, eff, pc');
    } else {
      WaitTarget(s, c, p, op, eff, pc');
    }
  }

  lemma MoveTarget(s: State, c: nat, p: nat, op: LockOp, eff: Effect, pc': Pc, over': Over)
    requires Inv(s) && c < |s.cpus| && s.cpus[c].on == Some(p) && p < |s.procs| && Move(s, p, op, eff, pc', over')
    ensures TargetFree(s, p, eff) && SlotStep(p, s.procs[p].pc, eff, pc')
  {
    hide CpuOk, HoldsExactly, OnOne, ForksOk, CodeMove, OverMove, ProcessOk;
    if s.procs[p].over == Plain == over' && CodeMove(s, p, op, eff, pc') {
      CodeTarget(s, c, p, op, eff, pc');
    } else {
      assert IsOn(s, p);
      OverStays(s, p, op, eff, over');
    }
  }

  /** The locks and its CPU after an operation. */
  ghost predicate LockStep(s: State, c: nat, op: LockOp, s': State) {
    && c < |s.cpus| == |s'.cpus|
    && match op
       case Acquire(l) => l !in s.held && s'.held == s.held[l := c] && SameCount(PushOff(s.cpus[c]), s'.cpus[c])
       case Release(l) =>
         && l in s.held && s.held[l] == c && s.cpus[c].noff > 0 && s'.held == s.held - {l}
         && SameCount(PopOff(s.cpus[c]), s'.cpus[c])
       case Switch(_, _) => s'.held == s.held && SameCount(s.cpus[c], s'.cpus[c])
       case Stay => s'.held == s.held && SameCount(s.cpus[c], s'.cpus[c])
  }

  predicate SameCount(k: Cpu, k': Cpu) {
    k'.noff == k.noff && k'.intr == k.intr
  }

  /** On its own CPU a step that keeps account of locks keeps noff and the locks held. */
  lemma HereHolds(s: State, c: nat, p: nat, op: LockOp, s': State)
    requires LockStep(s, c, op, s') && CpuOk(s, c) && HoldsExactly(s, c) && StackOk(s', s'.cpus[c])
    requires Accounts(p, CpuSpins(s, c), CpuOwn(s, c), op, CpuSpins(s', c), CpuOwn(s', c))
    ensures CpuOk(s', c) && HoldsExactly(s', c)
  {
    hide CpuSpins, CpuOwn, StackOk;
    var ns, ns' := CpuSpins(s, c), CpuSpins(s', c);
    if op.Acquire? && op.l.Spin? {
      NoDupPush(ns, op.l.n);
    } else if op.Release? && op.l.Spin? {
      NoDupPush(ns', op.l.n);
    }
    forall l
      ensures l in s'.held && s'.held[l] == c <==> CpuHolds(s', c, l)
    {
      assert l in s.held && s.held[l] == c <==> CpuHolds(s, c, l);
    }
  }

  /** A CPU that a step on another does not touch holds what it held. */
  lemma ElseHolds(s: State, c: nat, op: LockOp, s': State, d: nat)
    requires LockStep(s, c, op, s') && d < |s.cpus| && d != c && CpuOk(s, d) && HoldsExactly(s, d)
    requires s'.cpus[d] == s.cpus[d] && |s'.procs| == |s.procs|
    requires var on := s.cpus[d].on; on.Some? ==>
      on.value < |s.procs| && s'.procs[on.value].pc == s.procs[on.value].pc
        && s'.procs[on.value].over == s.procs[on.value].over
    ensures CpuOk(s', d) && HoldsExactly(s', d)
  {
    hide Spins, OwnOf, PushOff, PopOff;
    forall l
      ensures l in s'.held && s'.held[l] == d <==> CpuHolds(s', d, l)
    {
      assert l in s.held && s.held[l] == d <==> CpuHolds(s, d, l);
    }
  }

  /** One step of the thread p that is on CPU c. */
  ghost predicate ThreadStep(s: State, c: nat, p: nat, op: LockOp, eff: Effect, pc': Pc, over': Over, s': State) {
    && CanStep(s, Thread(c, op, eff, pc', over')) && s.cpus[c].on == Some(p)
    && s' == Next(s, Thread(c, op, eff, pc', over'))
  }

  /** Such a step changes its CPU, its own process and its target. */
  ghost predicate ThreadShape(s: State, c: nat, p: nat, op: LockOp, eff: Effect, pc': Pc, over': Over, s': State) {
    && c < |s.cpus| == |s'.cpus| && p < |s.procs| == |s'.procs|
    && (forall d :: 0 <= d < |s.cpus| && d != c ==> s'.cpus[d] == s.cpus[d])
    && s.cpus[c].on == Some(p) && s'.cpus[c].on == (if op.Switch? then None else Some(p))
    && s'.cpus[c].proc == s.cpus[c].proc && s'.cpus[c].spc == s.cpus[c].spc
    && (forall q: nat | q < |s.procs| && q != p :: s'.procs[q] == AffectedBy(s.procs, eff, q))
    && s'.procs[p] == OwnAfter(s, p, op, eff, pc', over').(intena := s'.procs[p].intena)
  }

  ghost function AffectedBy(procs: seq<Process>, eff: Effect, q: nat): Process
    requires q < |procs|
  {
    if Target(eff) == Some(q) then Affect(procs[q], eff) else procs[q]
  }

  lemma ThreadShapes(s: State, c: nat, p: nat, op: LockOp, eff: Effect, pc': Pc, over': Over, s': State)
    requires ThreadStep(s, c, p, op, eff, pc', over', s')
    ensures ThreadShape(s, c, p, op, eff, pc', over', s') && Move(s, p, op, eff, pc', over') && Enabled(s, c, op)
    ensures LockStep(s, c, op, s')
  {
    hide Move, Affect, Target;
  }

  lemma ThreadIsOn(s: State, c: nat, p: nat, op: LockOp, eff: Effect, pc': Pc, over': Over, s': State, q: nat)
    requires ThreadShape(s, c, p, op, eff, pc', over', s') && OnOne(s)
    ensures IsOn(s', q) <==> IsOn(s, q) && !(q == p && op.Switch?)
  {
    hide Affect, OwnAfter, Target;
    if d :| 0 <= d < |s.cpus| && s.cpus[d].on == Some(q) {
      assert s'.cpus[d].on == if d == c && op.Switch? then None else Some(q);
    }
    if d :| 0 <= d < |s'.cpus| && s'.cpus[d].on == Some(q) {
      assert s.cpus[d].on == Some(q);
    }
  }

  /** An effect on a process other than the one that has it leaves that where its state says, on its CPU in its
      place. */
  lemma AffectOk(s: State, p: nat, eff: Effect, q: nat)
    requires q < |s.procs| && q != p && ProcessOk(q, s.procs[q], IsOn(s, q)) && TargetFree(s, p, eff)
    ensures var q' := AffectedBy(s.procs, eff, q);
      ProcessOk(q, q', IsOn(s, q)) && q'.over == s.procs[q].over && (IsOn(s, q) ==> q'.pc == s.procs[q].pc)
  {
    hide Spins, IsOn;
  }

  lemma ThreadProcess(s: State, c: nat, p: nat, op: LockOp, eff: Effect, pc': Pc, over': Over, s': State, q: nat)
    requires Inv(s) && ThreadShape(s, c, p, op, eff, pc', over', s') && Move(s, p, op, eff, pc', over')
    requires TargetFree(s, p, eff) && q < |s.procs|
    ensures ProcessOk(q, s'.procs[q], IsOn(s', q))
    ensures q != p && IsOn(s, q) ==> s'.procs[q].pc == s.procs[q].pc && s'.procs[q].over == s.procs[q].over
  {
    hide CpuOk, HoldsExactly, ForksOk, Move, AffectedBy, OwnAfter, TargetFree, Spins, OwnOf;
    ThreadIsOn(s, c, p, op, eff, pc', over', s', q);
    assert IsOn(s, p);
    if q == p {
      MoveStays(s, p, op, eff, pc', over');
    } else {
      AffectOk(s, p, eff, q);
    }
  }

  lemma ThreadCpu(s: State, c: nat, p: nat, op: LockOp, eff: Effect, pc': Pc, over': Over, s': State, d: nat)
    requires Inv(s) && ThreadShape(s, c, p, op, eff, pc', over', s') && Move(s, p, op, eff, pc', over')
    requires LockStep(s, c, op, s') && TargetFree(s, p, eff) && d < |s.cpus|
    ensures CpuOk(s', d) && HoldsExactly(s', d)
  {
    hide Move, ForksOk, LockStep, TargetFree, AffectedBy, HoldsExactly;
    assert CpuOk(s, d) && HoldsExactly(s, d);
    if d == c {
      assert IsOn(s, p) && ProcessOk(p, s.procs[p], true);
      MoveLocks(s, p, op, eff, pc', over');
      CpuAccounts(s, c, p, op, eff, pc', over', s');
      HereHolds(s, c, p, op, s');
    } else {
      if s.cpus[d].on.Some? {
        assert IsOn(s, s.cpus[d].on.value) by { assert s.cpus[d].on == Some(s.cpus[d].on.value); }
        ThreadProcess(s, c, p, op, eff, pc', over', s', s.cpus[d].on.value);
      }
      ElseHolds(s, c, op, s', d);
    }
  }

  /** What MoveLocks says of the thread, said of its CPU. */
  lemma CpuAccounts(s: State, c: nat, p: nat, op: LockOp, eff: Effect, pc': Pc, over': Over, s': State)
    requires ThreadShape(s, c, p, op, eff, pc', over', s') && StackOk(s, s.cpus[c])
    requires var q := s.procs[p]; var q' := q.(pc := pc', over := over');
      Accounts(p, AllSpins(q), AllOwn(p, q), op, AllSpins(q'), AllOwn(p, q'))
    ensures Accounts(p, CpuSpins(s, c), CpuOwn(s, c), op, CpuSpins(s', c), CpuOwn(s', c)) && StackOk(s', s'.cpus[c])
  {
    hide Affect, Target;
    var q' := s.procs[p].(pc := pc', over := over');
    assert AllSpins(s'.procs[p]) == AllSpins(q') && AllOwn(p, s'.procs[p]) == AllOwn(p, q');
  }

  /** A thread but the one that moves stays in its place, unless its slot is filled anew. */
  lemma OtherPc(s: State, c: nat, p: nat, op: LockOp, eff: Effect, pc': Pc, over': Over, s': State, q: nat)
    requires ThreadShape(s, c, p, op, eff, pc', over', s') && q < |s.procs| && q != p
    ensures s'.procs[q].pc == s.procs[q].pc || s'.procs[q].pc == Start
  {
    hide OwnAfter;
  }

  lemma UsedStays(s: State, c: nat, p: nat, op: LockOp, eff: Effect, pc': Pc, over': Over, s': State, i: nat)
    requires ThreadShape(s, c, p, op, eff, pc', over', s') && TargetFree(s, p, eff) && Runs(s.procs[p])
    requires i < |s.procs| && eff != MakeRunnable(i)
    ensures s.procs[i].state == USED || (eff.Create? && eff.i == i) ==> s'.procs[i].state == USED
  {
    hide OwnAfter;
  }

  lemma ThreadForkState(s: State, c: nat, p: nat, op: LockOp, eff: Effect, pc': Pc, over': Over, s': State, q: nat)
    requires Inv(s) && ThreadShape(s, c, p, op, eff, pc', over', s') && TargetFree(s, p, eff)
    requires SlotStep(p, s.procs[p].pc, eff, pc') && q < |s.procs| && Forking(s'.procs[q].pc)
    ensures var i := s'.procs[q].pc.i; i < |s.procs| && s'.procs[i].state == USED
    ensures q != p ==> Forking(s.procs[q].pc) && s.procs[q].pc.i == s'.procs[q].pc.i
  {
    hide CpuOk, HoldsExactly, OnOne, OverOk, ThreadShape;
    ShapeSize(s, c, p, op, eff, pc', over', s');
    assert ProcessOk(p, s.procs[p], true) by { OnCpu(s, c, p, op, eff, pc', over', s'); }
    if q != p {
      OtherPc(s, c, p, op, eff, pc', over', s', q);
    }
    var i := s'.procs[q].pc.i;
    if i < |s.procs| {
      UsedStays(s, c, p, op, eff, pc', over', s', i);
    }
  }

  lemma OnCpu(s: State, c: nat, p: nat, op: LockOp, eff: Effect, pc': Pc, over': Over, s': State)
    requires Inv(s) && ThreadShape(s, c, p, op, eff, pc', over', s')
    ensures IsOn(s, p) && ProcessOk(p, s.procs[p], true)
  {
    hide CpuOk, HoldsExactly, OnOne, OverOk, OwnAfter, ForksOk;
    assert IsOn(s, p);
  }

  lemma ThreadForks(s: State, c: nat, p: nat, op: LockOp, eff: Effect, pc': Pc, over': Over, s': State)
    requires Inv(s) && ThreadShape(s, c, p, op, eff, pc', over', s') && TargetFree(s, p, eff)
    requires SlotStep(p, s.procs[p].pc, eff, pc')
    ensures ForksOk(s')
  {
    hide CpuOk, HoldsExactly, OnOne, ProcessOk, ThreadShape;
    ShapeSize(s, c, p, op, eff, pc', over', s');
    forall q: nat | q < |s.procs| && Forking(s'.procs[q].pc)
      ensures var i := s'.procs[q].pc.i; i < |s.procs| && s'.procs[i].state == USED
      ensures q != p ==> Forking(s.procs[q].pc) && s.procs[q].pc.i == s'.procs[q].pc.i
    {
      ThreadForkState(s, c, p, op, eff, pc', over', s', q);
    }
  }

  lemma ShapeSize(s: State, c: nat, p: nat, op: LockOp, eff: Effect, pc': Pc, over': Over, s': State)
    requires ThreadShape(s, c, p, op, eff, pc', over', s')
    ensures |s'.procs| == |s.procs| > p && s'.procs[p].pc == pc' && s'.procs[p].over == over'
  {
  }

  lemma ThreadInv(s: State, c: nat, p: nat, op: LockOp, eff: Effect, pc': Pc, over': Over, s': State)
    requires Inv(s) && ThreadStep(s, c, p, op, eff, pc', over', s')
    ensures Inv(s')
  {
    hide Move, ForksOk, ProcessOk, TargetFree, SlotStep, IsOn, CpuOk, HoldsExactly, ThreadStep, OwnAfter, AffectedBy;
    ThreadShapes(s, c, p, op, eff, pc', over', s');
    MoveTarget(s, c, p, op, eff, pc', over');
    forall d | 0 <= d < |s'.cpus|
      ensures CpuOk(s', d) && HoldsExactly(s', d)
    {
      ThreadCpu(s, c, p, op, eff, pc', over', s', d);
    }
    forall q: nat | q < |s'.procs|
      ensures ProcessOk(q, s'.procs[q], IsOn(s', q))
    {
      ThreadProcess(s, c, p, op, eff, pc', over', s', q);
    }
    ThreadForks(s, c, p, op, eff, pc', over', s');
  }

  /** A step of a scheduler moves no thread; at most it wakes a sleeping process or runs a RUNNABLE one. */
  ghost predicate Unmoved(q: Process, q': Process) {
    && q'.pc == q.pc && q'.over == q.over && q'.chan == q.chan && q'.parent == q.parent && q'.gen == q.gen
    && q'.creator == q.creator && q'.killed == q.killed
    && (q'.state == q.state || (q.state == SLEEPING && q'.state == RUNNABLE)
         || (q.state == RUNNABLE && q'.state == RUNNING))
  }

  lemma QuietProcs(s: State, st: Step)
    requires CanStep(s, st) && !st.Thread?
    ensures |Next(s, st).procs| == |s.procs| && Next(s, st).locked == s.locked
    ensures Next(s, st).reaped == s.reaped && Next(s, st).copies == s.copies
    ensures forall p: nat :: p < |s.procs| ==> Unmoved(s.procs[p], Next(s, st).procs[p])
    ensures !st.Dispatch? ==> forall p: nat :: p < |s.procs| && s.procs[p].state != SLEEPING ==>
      Next(s, st).procs[p] == s.procs[p]
  {
    hide PushOff, PopOff;
    if st.Handle? {
      HandlerLocks(|s.procs|, 0, None, SchedHandler(s.cpus[st.c].spc), st.op, st.eff, st.h');
    }
  }

  /** The lock operation of a scheduler's step. */
  function SchedOp(s: State, st: Step): LockOp
    requires CanStep(s, st) && !st.Thread?
  {
    match st
    case Handle(_, op, _, _) => op
    case Pick(_, p) => Acquire(OwnLock(p))
    case Skip(c) => Release(OwnLock(s.cpus[c].spc.p))
    case Back(c) => Release(OwnLock(s.cpus[c].spc.p))
    case _ => Stay
  }

  lemma QuietCpus(s: State, st: Step)
    requires CanStep(s, st) && !st.Thread? && !st.Interrupts? && StackOk(s, s.cpus[st.c])
    ensures var s', c := Next(s, st), st.c;
      && LockStep(s, c, SchedOp(s, st), s') && StackOk(s', s'.cpus[c])
      && (forall d :: 0 <= d < |s.cpus| && d != c ==> s'.cpus[d] == s.cpus[d])
      && s'.cpus[c].on == if st.Dispatch? then Some(s.cpus[c].spc.p) else s.cpus[c].on
  {
    if st.Handle? {
      HandlerLocks(|s.procs|, 0, None, SchedHandler(s.cpus[st.c].spc), st.op, st.eff, st.h');
    }
  }

  lemma QuietAccounts(s: State, st: Step)
    requires CanStep(s, st) && !st.Thread? && !st.Interrupts? && StackOk(s, s.cpus[st.c])
    requires st.Dispatch? ==> ProcessOk(s.cpus[st.c].spc.p, s.procs[s.cpus[st.c].spc.p], false)
    ensures |Next(s, st).cpus| == |s.cpus|
    ensures var s', c := Next(s, st), st.c;
      Accounts(0, CpuSpins(s, c), CpuOwn(s, c), SchedOp(s, st), CpuSpins(s', c), CpuOwn(s', c))
  {
    var s', c := Next(s, st), st.c;
    if st.Handle? {
      HandlerLocks(|s.procs|, 0, None, SchedHandler(s.cpus[c].spc), st.op, st.eff, st.h');
    } else if st.Dispatch? {
      var p := s.cpus[c].spc.p;
      assert AllSpins(s'.procs[p]) == [] && AllOwn(p, s'.procs[p]) == Some(p);
    }
  }

  lemma QuietIsOn(s: State, st: Step, q: nat)
    requires CanStep(s, st) && !st.Thread? && StackOk(s, s.cpus[st.c])
    ensures IsOn(Next(s, st), q) <==> IsOn(s, q) || (st.Dispatch? && q == s.cpus[st.c].spc.p)
  {
    var s', c := Next(s, st), st.c;
    if st.Handle? {
      HandlerLocks(|s.procs|, 0, None, SchedHandler(s.cpus[c].spc), st.op, st.eff, st.h');
    }
    assert forall d :: 0 <= d < |s.cpus| && d != c ==> s'.cpus[d].on == s.cpus[d].on;
    assert s'.cpus[c].on == if st.Dispatch? then Some(s.cpus[c].spc.p) else s.cpus[c].on;
    if d :| 0 <= d < |s.cpus| && s.cpus[d].on == Some(q) {
      assert s'.cpus[d].on == Some(q);
    }
    if d :| 0 <= d < |s'.cpus| && s'.cpus[d].on == Some(q) {
      assert d != c ==> s.cpus[d].on == Some(q);
    }
  }

  lemma QuietCpu(s: State, st: Step, d: nat)
    requires Inv(s) && CanStep(s, st) && !st.Thread? && !st.Interrupts? && d < |s.cpus|
    requires st.Dispatch? ==> !IsOn(s, s.cpus[st.c].spc.p)
    ensures |Next(s, st).cpus| == |s.cpus| && CpuOk(Next(s, st), d) && HoldsExactly(Next(s, st), d)
  {
    hide Next, ForksOk, OnOne, HoldsExactly, ProcessOk, Accounts, SchedOp, LockStep, CanStep;
    var s', c := Next(s, st), st.c;
    assert c < |s.cpus|
      && (st.Dispatch? ==> s.cpus[c].spc.Look? && s.cpus[c].spc.p < |s.procs|) by { StepBounds(s, st); }
    assert CpuOk(s, c) && HoldsExactly(s, c) && CpuOk(s, d) && HoldsExactly(s, d);
    QuietCpus(s, st);
    QuietProcs(s, st);
    assert |s'.cpus| == |s.cpus| by { LockSize(s, c, SchedOp(s, st), s'); }
    if d == c {
      QuietAccounts(s, st);
      HereHolds(s, c, 0, SchedOp(s, st), s');
    } else {
      ElseHolds(s, c, SchedOp(s, st), s', d);
    }
  }

  lemma StepBounds(s: State, st: Step)
    requires CanStep(s, st)
    ensures st.c < |s.cpus| && (st.Dispatch? ==> s.cpus[st.c].spc.Look? && s.cpus[st.c].spc.p < |s.procs|)
  {
  }

  lemma LockSize(s: State, c: nat, op: LockOp, s': State)
    requires LockStep(s, c, op, s')
    ensures c < |s.cpus| == |s'.cpus| && forall l :: l in s'.held ==> l in s.held || s'.held[l] == c
    ensures forall l :: l in s'.held && l in s.held ==> s'.held[l] == s.held[l] || s'.held[l] == c
  {
  }

  /** The process that a scheduler has picked is on no CPU when it is RUNNABLE. */
  lemma PickedOff(s: State, c: nat)
    requires Inv(s) && CanStep(s, Dispatch(c))
    ensures var p := s.cpus[c].spc.p; !IsOn(s, p) && ProcessOk(p, s.procs[p], false)
  {
    hide CpuOk, HoldsExactly, OnOne, ForksOk;
  }

  lemma QuietForks(s: State, s': State)
    requires ForksOk(s) && |s'.procs| == |s.procs|
      && forall p: nat :: p < |s.procs| ==> Unmoved(s.procs[p], s'.procs[p])
    ensures ForksOk(s')
  {
    forall p: nat | p < |s.procs|
      ensures s'.procs[p].pc == s.procs[p].pc && (s.procs[p].state == USED ==> s'.procs[p].state == USED)
    {
      assert Unmoved(s.procs[p], s'.procs[p]);
    }
  }

  lemma QuietProcess(s: State, st: Step, q: nat)
    requires Inv(s) && CanStep(s, st) && !st.Thread? && q < |s.procs|
    ensures |Next(s, st).procs| == |s.procs| && ProcessOk(q, Next(s, st).procs[q], IsOn(Next(s, st), q))
  {
    hide Next, CpuOk, HoldsExactly, OnOne, ForksOk, IsOn, Spins;
    QuietProcs(s, st);
    assert CpuOk(s, st.c);
    assert StackOk(s, s.cpus[st.c]) by { StackAt(s, st.c); }
    QuietIsOn(s, st, q);
    assert Unmoved(s.procs[q], Next(s, st).procs[q]);
    if st.Dispatch? {
      PickedOff(s, st.c);
      DispatchState(s, st.c, q);
    }
  }

  lemma StackAt(s: State, c: nat)
    requires c < |s.cpus| && CpuOk(s, c)
    ensures StackOk(s, s.cpus[c])
  {
  }

  lemma DispatchState(s: State, c: nat, q: nat)
    requires CanStep(s, Dispatch(c)) && q < |s.procs|
    ensures |Next(s, Dispatch(c)).procs| == |s.procs|
    ensures Next(s, Dispatch(c)).procs[q] == if q == s.cpus[c].spc.p then s.procs[q].(state := RUNNING) else s.procs[q]
  {
  }

  lemma QuietInv(s: State, st: Step)
    requires Inv(s) && CanStep(s, st) && !st.Thread? && !st.Interrupts?
    ensures Inv(Next(s, st))
  {
    hide Next, ForksOk, ProcessOk, IsOn, CpuOk, HoldsExactly, CanStep, LockStep, Unmoved;
    StepBounds(s, st);
    var s', c := Next(s, st), st.c;
    assert CpuOk(s, c);
    StackAt(s, c);
    QuietCpus(s, st);
    QuietProcs(s, st);
    LockSize(s, c, SchedOp(s, st), s');
    if st.Dispatch? {
      PickedOff(s, c);
    }
    forall d | 0 <= d < |s'.cpus|
      ensures CpuOk(s', d) && HoldsExactly(s', d)
    {
      QuietCpu(s, st, d);
    }
    forall q: nat | q < |s'.procs|
      ensures ProcessOk(q, s'.procs[q], IsOn(s', q))
    {
      QuietProcess(s, st, q);
    }
    QuietForks(s, s');
    assert OnOne(s') by {
      if st.Dispatch? {
        NotOn(s, s.cpus[c].spc.p);
      }
    }
  }

  lemma NotOn(s: State, p: nat)
    requires !IsOn(s, p)
    ensures forall d :: 0 <= d < |s.cpus| ==> s.cpus[d].on != Some(p)
  {
  }

  lemma InterruptsInv(s: State, c: nat, on: bool)
    requires Inv(s) && CanStep(s, Interrupts(c, on))
    ensures Inv(Next(s, Interrupts(c, on)))
  {
    hide ForksOk, Spins, OwnOf;
    var s' := Next(s, Interrupts(c, on));
    forall d | 0 <= d < |s'.cpus|
      ensures CpuOk(s', d) && HoldsExactly(s', d)
    {
      assert CpuOk(s, d) && HoldsExactly(s, d);
      assert CpuSpins(s', d) == CpuSpins(s, d) && CpuOwn(s', d) == CpuOwn(s, d);
      forall l
        ensures CpuHolds(s', d, l) == CpuHolds(s, d, l)
      {
      }
    }
    forall q: nat | q < |s'.procs|
      ensures ProcessOk(q, s'.procs[q], IsOn(s', q))
    {
      QuietProcess(s, Interrupts(c, on), q);
    }
    assert ForksOk(s') by { QuietForks(s, s'); }
  }

  lemma StepInv(s: State, st: Step)
    requires Inv(s) && CanStep(s, st)
    ensures Inv(Next(s, st))
  {
    hide Inv, Next;
    match st
    case Thread(c, op, eff, pc', over') => ThreadInv(s, c, s.cpus[c].on.value, op, eff, pc', over', Next(s, st));
    case Interrupts(c, on) => InterruptsInv(s, c, on);
    case _ => QuietInv(s, st);
  }

  lemma {:induction false} RunInv(run: seq<State>, steps: seq<Step>, i: nat)
    requires IsRun(run, steps) && i < |run|
    ensures Inv(run[i])
  {
    hide Inv, Next;
    if i == 0 {
      InitialInv(run[0]);
    } else {
      RunInv(run, steps, i - 1);
      StepInv(run[i - 1], steps[i - 1]);
    }
  }

  ghost predicate IsProcOf(s: State, c: nat, p: nat) {
    c < |s.cpus| && s.cpus[c].proc == Some(p)
  }

  /** Scheduler exclusivity: while p->lock is free, p is RUNNING exactly when some CPU has c->proc == p, and then one
      only. */
  lemma Exclusive(run: seq<State>, steps: seq<Step>, i: nat, p: nat)
    requires IsRun(run, steps) && i < |run| && p < |run[i].procs| && OwnLock(p) !in run[i].held
    ensures run[i].procs[p].state == RUNNING <==> exists c :: IsProcOf(run[i], c, p)
    ensures forall c, d :: IsProcOf(run[i], c, p) && IsProcOf(run[i], d, p) ==> c == d
  {
    hide Next, ForksOk;
    RunInv(run, steps, i);
    var s := run[i];
    forall c: nat | IsProcOf(s, c, p)
      ensures s.cpus[c].on == Some(p) && IsOn(s, p)
    {
      assert CpuOk(s, c) && HoldsExactly(s, c);
      assert s.cpus[c].on == None ==> CpuHolds(s, c, OwnLock(p));
    }
    assert ProcessOk(p, s.procs[p], IsOn(s, p));
    if s.procs[p].state == RUNNING {
      var c :| 0 <= c < |s.cpus| && s.cpus[c].on == Some(p);
      assert CpuOk(s, c) && IsProcOf(s, c, p);
    }
    if c: nat :| IsProcOf(s, c, p) {
      assert s.procs[p].pc == ExitOwn ==> CpuHolds(s, c, OwnLock(p)) && HoldsExactly(s, c);
    }
  }

  /** Every switch, to or from the scheduler, is made with p->lock held by this CPU, noff == 1 and interrupts off, and a
      process that switches away has left RUNNING: none of sched's panics occurs. */
  lemma SwitchSafe(run: seq<State>, steps: seq<Step>, i: nat)
    requires IsRun(run, steps) && i < |steps| && (steps[i].Dispatch? || (steps[i].Thread? && steps[i].op.Switch?))
    ensures var s, c := run[i], steps[i].c;
      var p := if steps[i].Dispatch? then s.cpus[c].spc.p else s.cpus[c].on.value;
      && OwnLock(p) in s.held && s.held[OwnLock(p)] == c
      && (forall l :: l in s.held && s.held[l] == c ==> l == OwnLock(p))
      && s.cpus[c].noff == 1 && !s.cpus[c].intr
      && (steps[i].Thread? ==> steps[i].op.state != RUNNING && run[i + 1].procs[p].state != RUNNING)
  {
    hide ForksOk, OnOne, ProcessOk, Move, Spins, OwnOf;
    RunInv(run, steps, i);
    var s, st := run[i], steps[i];
    assert CpuOk(s, st.c) && HoldsExactly(s, st.c);
    if st.Thread? {
      var p := s.cpus[st.c].on.value;
      assert IsOn(s, p) && ProcessOk(p, s.procs[p], true);
      OverIn(p, s.procs[p], true);
      MoveLocks(s, p, st.op, st.eff, st.pc', st.over');
      MoveTarget(s, st.c, p, st.op, st.eff, st.pc', st.over');
      MoveStays(s, p, st.op, st.eff, st.pc', st.over');
      assert st.op.state != RUNNING by { NotRunning(p, OwnAfter(s, p, st.op, st.eff, st.pc', st.over')); }
      assert CpuHolds(s, st.c, OwnLock(p));
    } else {
      assert CpuHolds(s, st.c, OwnLock(s.cpus[st.c].spc.p));
    }
  }

  lemma OverIn(p: nat, q: Process, on: bool)
    requires ProcessOk(p, q, on)
    ensures OverOk(p, q)
  {
  }

  lemma NotRunning(p: nat, q: Process)
    requires ProcessOk(p, q, false)
    ensures q.state != RUNNING
  {
  }

  /** An acquire of a lock that this CPU does not hold; a release of one that it does, with noff at least 1 and
      interrupts off: none of the panics of acquire, release and pop_off. */
  ghost predicate LockSafe(s: State, c: nat, op: LockOp)
    requires c < |s.cpus|
  {
    && (op.Acquire? && op.l in s.held ==> s.held[op.l] != c)
    && (op.Release? ==> op.l in s.held && s.held[op.l] == c && s.cpus[c].noff > 0 && !s.cpus[c].intr)
  }

  lemma AccountsSafe(s: State, c: nat, p: nat, op: LockOp, ns': seq<nat>, own': Option<nat>)
    requires c < |s.cpus| && CpuOk(s, c) && HoldsExactly(s, c)
      && Accounts(p, CpuSpins(s, c), CpuOwn(s, c), op, ns', own')
    ensures LockSafe(s, c, op)
  {
    hide CpuSpins, CpuOwn, StackOk;
    if op.Acquire? || op.Release? {
      assert op.l in s.held && s.held[op.l] == c <==> CpuHolds(s, c, op.l);
    }
  }

  /** No thread and no interrupt handler on an idle CPU panics in acquire, release or pop_off. */
  lemma ThreadLocksSafe(run: seq<State>, steps: seq<Step>, i: nat, c: nat, op: LockOp, eff: Effect, pc': Pc,
                        over': Over)
    requires IsRun(run, steps) && i < |run| && c < |run[i].cpus| && run[i].cpus[c].on.Some?
    requires run[i].cpus[c].on.value < |run[i].procs| && Move(run[i], run[i].cpus[c].on.value, op, eff, pc', over')
    ensures LockSafe(run[i], c, op)
  {
    hide ForksOk, OnOne, Move, Next, HoldsExactly, LockSafe, Accounts, Spins, OwnOf;
    RunInv(run, steps, i);
    var s := run[i];
    var p := s.cpus[c].on.value;
    assert CpuOk(s, c) && HoldsExactly(s, c) && IsOn(s, p) && ProcessOk(p, s.procs[p], true);
    MoveLocks(s, p, op, eff, pc', over');
    var q' := s.procs[p].(pc := pc', over := over');
    AccountsSafe(s, c, p, op, AllSpins(q'), AllOwn(p, q'));
  }

  lemma HandlerLocksSafe(run: seq<State>, steps: seq<Step>, i: nat, c: nat, op: LockOp, eff: Effect,
                         h': Option<Handler>)
    requires IsRun(run, steps) && i < |run| && c < |run[i].cpus| && run[i].cpus[c].on.None?
    requires run[i].cpus[c].spc.Scan? || run[i].cpus[c].spc.Interrupted?
    requires HandlerMove(|run[i].procs|, None, SchedHandler(run[i].cpus[c].spc), op, eff, h')
    ensures LockSafe(run[i], c, op)
  {
    hide ForksOk, OnOne, HandlerMove, Next, HoldsExactly, LockSafe, Accounts;
    RunInv(run, steps, i);
    var s := run[i];
    assert CpuOk(s, c) && HoldsExactly(s, c);
    HandlerLocks(|s.procs|, 0, None, SchedHandler(s.cpus[c].spc), op, eff, h');
    AccountsSafe(s, c, 0, op, HandlerSpins(h'), HandlerOwn(h'));
  }

  /** wait frees a ZOMBIE only when no CPU is on its stack or still has it as its process. */
  lemma FreeSafe(run: seq<State>, steps: seq<Step>, i: nat)
    requires IsRun(run, steps) && i < |steps| && steps[i].Thread? && steps[i].eff.Free?
    ensures var s, j := run[i], steps[i].eff.j;
      j < |s.procs| && s.procs[j].state == ZOMBIE && !IsOn(s, j) && forall c :: !IsProcOf(s, c, j)
  {
    hide Inv, Next, IsOn;
    RunInv(run, steps, i);
    var s, st := run[i], steps[i];
    var p := s.cpus[st.c].on.value;
    MoveTarget(s, st.c, p, st.op, st.eff, st.pc', st.over');
    FreeOff(s, st.c, p, st.eff.j);
  }
}
