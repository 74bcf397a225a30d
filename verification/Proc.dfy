/** Processes and CPUs as a state machine. A step is one lock acquire, one lock release, one context switch, or code
    in between that takes no lock; code run with a lock held belongs to the step that ends it. Any number of processes
    and CPUs interleave; a process's thread follows the kernel code from one step to the next and chooses freely among
    calls. */
module Proc {
  import opened Collections

  datatype PState = UNUSED | USED | SLEEPING | RUNNABLE | RUNNING | ZOMBIE

  /** What a process sleeps on: a sleep-lock, a process (in wait), or anything else. */
  datatype Chan = OfLock(n: nat) | OfProc(p: nat) | Other(n: nat)

  /** p->lock, or another spin-lock: 0 is wait_lock, any other may be the inner lock of a sleep-lock. */
  datatype Lock = OwnLock(p: nat) | Spin(n: nat)

  const WAIT := 0
  /** initproc's slot. */
  const INIT := 0

  /** What follows a wakeup: the caller's code with no lock, with some spin-locks, or in exit. */
  datatype After = ToRun | ToHold(ns: seq<nat>) | ToReparent(j: nat) | ToExit

  /** What wait returns: the child that it has reaped, as its slot and the number of its life there; or -1, when the
      copy of that zombie's status to the caller fails, when there is no child, or when the caller has been killed. */
  datatype WaitResult = Pid(j: nat, gen: nat) | CopyFailed(j: nat) | NoChild | WasKilled

  /** Where a process's thread is in the kernel's code. The name says what it has done last. */
  datatype Pc =
    | Start | Run
    | Hold(ns: seq<nat>)
    | SleepBoth(ch: Chan, n: nat) | SleepOwn(ch: Chan, n: nat) | Slept(ch: Chan, n: nat) | Relock(n: nat)
    | Wake(i: nat, ch: Chan, after: After) | WakeAt(i: nat, ch: Chan, after: After)
    | KillScan(i: nat, pid: Option<(nat, nat)>) | KillAt(i: nat, pid: Option<(nat, nat)>)
    | ForkScan(i: nat) | ForkAt(i: nat) | Forked(i: nat) | ForkWait(i: nat) | ForkParent(i: nat) | ForkLast(i: nat)
    | ExitScan(j: nat) | ExitWoke | ExitBoth | ExitOwn | Exited
    | WaitScan(j: nat, kids: bool) | WaitAt(j: nat, kids: bool) | WaitCheck | WaitSleep | WaitDone(r: WaitResult)

  /** An interrupt handler: it takes a spin-lock, calls wakeup any number of times, and releases the lock. */
  datatype Handler =
    | HandlerHold(n: nat) | HandlerWake(i: nat, ch: Chan, n: nat) | HandlerWakeAt(i: nat, ch: Chan, n: nat)

  /** What a thread does on top of its place in the code: nothing, yield, a look at its own killed flag other than
      wait's, or an interrupt handler. */
  datatype Over = Plain | Yielding | Yielded | Checking | Handling(h: Handler)

  /** The scheduler's place: between processes, there in an interrupt handler, with p->lock, or in p after a switch. */
  datatype SchedPc = Scan | Interrupted(h: Handler) | Look(p: nat) | Switched(p: nat)

  /** proc is c->proc; on is the process whose stack the CPU is on, None for the scheduler's own. */
  datatype Cpu = Cpu(proc: Option<nat>, on: Option<nat>, spc: SchedPc, noff: nat, intr: bool, intena: bool)

  /** gen counts the lives of a slot; creator is the process that forked the current one. */
  datatype Process = Process(
    state: PState, chan: Option<Chan>, parent: Option<nat>, killed: bool, pc: Pc, over: Over, intena: bool, gen: nat,
    creator: nat)

  /** locked: the sleep-locks with lk->locked set. copies: the processes whose last wait was called with an address for
      the status. reaped: which process reaped which life of which slot. */
  datatype State = State(
    cpus: seq<Cpu>, procs: seq<Process>, held: map<Lock, nat>, locked: set<nat>, copies: set<nat>,
    reaped: map<(nat, nat), nat>)

  datatype LockOp = Acquire(l: Lock) | Release(l: Lock) | Switch(state: PState, chan: Option<Chan>) | Stay

  datatype Effect =
    | Nothing
    | Wakeup(i: nat, ch: Chan) | KillWake(i: nat) | ClearChan(i: nat)
    | Create(i: nat, who: nat) | Abandon(i: nat) | SetParent(i: nat, who: nat) | MakeRunnable(i: nat)
    | Reparent(j: nat) | MakeZombie(i: nat) | Free(j: nat, who: nat)
    | LockSleep(n: nat) | UnlockSleep(n: nat) | WaitArg(p: nat, copy: bool)

  /** The spin-locks, in the order taken, and the one p->lock that the code of thread p holds at a place. */
  function Spins(pc: Pc): seq<nat> {
    match pc
    case Hold(ns) => ns
    case SleepBoth(_, n) => [n]
    case Wake(_, _, after) => AfterSpins(after)
    case WakeAt(_, _, after) => AfterSpins(after)
    case ForkWait(_) => [WAIT]
    case ExitScan(_) => [WAIT]
    case ExitWoke => [WAIT]
    case ExitBoth => [WAIT]
    case WaitScan(_, _) => [WAIT]
    case WaitAt(_, _) => [WAIT]
    case WaitCheck => [WAIT]
    case WaitSleep => [WAIT]
    case WaitDone(_) => [WAIT]
    case _ => []
  }

  function AfterSpins(after: After): seq<nat> {
    match after
    case ToRun => []
    case ToHold(ns) => ns
    case _ => [WAIT]
  }

  function OwnOf(p: nat, pc: Pc): Option<nat> {
    match pc
    case WakeAt(i, _, _) => Some(i)
    case KillAt(i, _) => Some(i)
    case ForkAt(i) => Some(i)
    case ForkLast(i) => Some(i)
    case WaitAt(j, _) => Some(j)
    case WaitCheck => Some(p)
    case Start => Some(p)
    case SleepBoth(_, _) => Some(p)
    case SleepOwn(_, _) => Some(p)
    case Slept(_, _) => Some(p)
    case ExitBoth => Some(p)
    case ExitOwn => Some(p)
    case Exited => Some(p)
    case _ => None
  }

  /** The same with what is on top of the code. */
  function OverSpins(over: Over): seq<nat> {
    if over.Handling? then [over.h.n] else []
  }

  function OverOwn(p: nat, over: Over): Option<nat> {
    match over
    case Plain => None
    case Handling(HandlerWakeAt(i, _, _)) => Some(i)
    case Handling(_) => None
    case _ => Some(p)
  }

  function AllSpins(q: Process): seq<nat> {
    Spins(q.pc) + OverSpins(q.over)
  }

  function AllOwn(p: nat, q: Process): Option<nat> {
    if OverOwn(p, q.over).Some? then OverOwn(p, q.over) else OwnOf(p, q.pc)
  }

  /** wakeup's caller continues here. */
  function Continue(after: After): Pc {
    match after
    case ToRun => Run
    case ToHold(ns) => Hold(ns)
    case ToReparent(j) => ExitScan(j)
    case ToExit => ExitWoke
  }

  /** What exit wakes: its parent's channel. */
  function ParentChan(parent: Option<nat>): Chan {
    if parent.Some? then OfProc(parent.value) else Other(0)
  }

  /** A general client's sleep, not that of wait: on a sleep-lock's channel only in acquiresleep, with its own inner
      lock. */
  predicate MaySleep(s: State, ch: Chan, n: nat) {
    n != WAIT && !ch.OfProc? && (ch.OfLock? ==> ch.n == n && n in s.locked)
  }

  /** Each part of the kernel as moves: for thread p at its place, the next lock operation or switch, the effect of the
      code up to it, and the place after it. First kernel code in general, with any spin-locks nested in each other. */
  predicate ClientMove(s: State, p: nat, op: LockOp, eff: Effect, pc': Pc)
    requires p < |s.procs|
  {
    match s.procs[p].pc
    case Run =>
      eff == Nothing && (
        || (op.Acquire? && op.l.Spin? && op.l.n != WAIT && pc' == Hold([op.l.n]))
        || (op == Stay && pc'.Wake? && pc'.i == 0 && pc'.after == ToRun)
        || (op == Stay && ((pc'.KillScan? && pc'.i == 0) || pc' == ForkScan(0))))
    case Hold(ns) =>
      eff == Nothing && ns != [] && (
        || (op.Acquire? && op.l.Spin? && op.l.n != WAIT && op.l.n !in ns && pc' == Hold(ns + [op.l.n]))
        || (op == Release(Spin(ns[|ns| - 1])) && pc' == if |ns| == 1 then Run else Hold(ns[..|ns| - 1]))
        || (op == Acquire(OwnLock(p)) && pc'.SleepBoth? && ns == [pc'.n] && MaySleep(s, pc'.ch, pc'.n))
        || (op == Stay && pc'.Wake? && pc'.i == 0 && pc'.after == ToHold(ns)))
    case _ => false
  }

  /** acquiresleep's and releasesleep's accesses to lk->locked. */
  predicate SleepLockMove(s: State, p: nat, op: LockOp, eff: Effect, pc': Pc)
    requires p < |s.procs|
  {
    var pc := s.procs[p].pc;
    pc.Hold? && op == Stay && (
      || (eff.LockSleep? && eff.n in pc.ns && eff.n !in s.locked && pc' == pc)
      || (eff.UnlockSleep? && eff.n in pc.ns && pc' == Wake(0, OfLock(eff.n), ToHold(pc.ns))))
  }

  /** forkret and sleep. */
  predicate SchedMove(s: State, p: nat, op: LockOp, eff: Effect, pc': Pc)
    requires p < |s.procs|
  {
    var own := OwnLock(p);
    match s.procs[p].pc
    case Start => op == Release(own) && eff == Nothing && pc' == Run
    case SleepBoth(ch, n) => op == Release(Spin(n)) && eff == Nothing && pc' == SleepOwn(ch, n)
    case SleepOwn(ch, n) => op == Switch(SLEEPING, Some(ch)) && eff == Nothing && pc' == Slept(ch, n)
    case Slept(ch, n) => op == Release(own) && eff == ClearChan(p) && pc' == Relock(n)
    case Relock(n) =>
      op == Acquire(Spin(n)) && eff == Nothing && pc' == if n == WAIT then WaitScan(0, false) else Hold([n])
    case _ => false
  }

  predicate WakeMove(s: State, p: nat, op: LockOp, eff: Effect, pc': Pc)
    requires p < |s.procs|
  {
    match s.procs[p].pc
    case Wake(i, ch, after) =>
      && eff == Nothing
      && if i >= |s.procs| then op == Stay && pc' == Continue(after)
         else if i == p then op == Stay && pc' == Wake(i + 1, ch, after)
         else op == Acquire(OwnLock(i)) && pc' == WakeAt(i, ch, after)
    case WakeAt(i, ch, after) => op == Release(OwnLock(i)) && eff == Wakeup(i, ch) && pc' == Wake(i + 1, ch, after)
    case _ => false
  }

  /** A pid is a slot and the number of a life there; None is 0, which every UNUSED slot has. */
  predicate HasPid(i: nat, q: Process, pid: Option<(nat, nat)>) {
    if q.state == UNUSED then pid == None else pid == Some((i, q.gen))
  }

  predicate KillMove(s: State, p: nat, op: LockOp, eff: Effect, pc': Pc)
    requires p < |s.procs|
  {
    match s.procs[p].pc
    case KillScan(i, pid) =>
      && eff == Nothing
      && if i >= |s.procs| then op == Stay && pc' == Run
         else op == Acquire(OwnLock(i)) && pc' == KillAt(i, pid)
    case KillAt(i, pid) =>
      && op == Release(OwnLock(i)) && i < |s.procs|
      && if HasPid(i, s.procs[i], pid) then eff == KillWake(i) && pc' == Run
         else eff == Nothing && pc' == KillScan(i + 1, pid)
    case _ => false
  }

  /** fork; after a failed allocation or copy freeproc leaves the slot UNUSED. */
  predicate ForkMove(s: State, p: nat, op: LockOp, eff: Effect, pc': Pc)
    requires p < |s.procs|
  {
    match s.procs[p].pc
    case ForkScan(i) =>
      && eff == Nothing
      && if i >= |s.procs| then op == Stay && pc' == Run
         else op == Acquire(OwnLock(i)) && pc' == ForkAt(i)
    case ForkAt(i) =>
      && op == Release(OwnLock(i)) && i < |s.procs|
      && if s.procs[i].state == UNUSED then
           || (eff == Create(i, p) && pc' == Forked(i))
           || (eff == Abandon(i) && pc' == Run)
         else eff == Nothing && pc' == ForkScan(i + 1)
    case Forked(i) => op == Acquire(Spin(WAIT)) && eff == Nothing && pc' == ForkWait(i)
    case ForkWait(i) => op == Release(Spin(WAIT)) && eff == SetParent(i, p) && pc' == ForkParent(i)
    case ForkParent(i) => op == Acquire(OwnLock(i)) && eff == Nothing && pc' == ForkLast(i)
    case ForkLast(i) => op == Release(OwnLock(i)) && eff == MakeRunnable(i) && pc' == Run
    case _ => false
  }

  /** exit and reparent. */
  predicate ExitMove(s: State, p: nat, op: LockOp, eff: Effect, pc': Pc)
    requires p < |s.procs|
  {
    match s.procs[p].pc
    case Run => op == Acquire(Spin(WAIT)) && eff == Nothing && p != INIT && pc' == ExitScan(0)
    case ExitScan(j) =>
      && op == Stay
      && if j >= |s.procs| then eff == Nothing && pc' == Wake(0, ParentChan(s.procs[p].parent), ToExit)
         else if s.procs[j].parent == Some(p) then eff == Reparent(j) && pc' == Wake(0, OfProc(INIT), ToReparent(j + 1))
         else eff == Nothing && pc' == ExitScan(j + 1)
    case ExitWoke => op == Acquire(OwnLock(p)) && eff == Nothing && pc' == ExitBoth
    case ExitBoth => op == Release(Spin(WAIT)) && eff == MakeZombie(p) && pc' == ExitOwn
    case ExitOwn => op == Switch(ZOMBIE, s.procs[p].chan) && eff == Nothing && pc' == Exited
    case _ => false
  }

  /** wait, with or without an address for the status: only with one can the copy fail. Its look at the killed flag and
      its sleep are two steps, so that a kill can come between them. After its sleep it scans again. */
  predicate WaitMove(s: State, p: nat, op: LockOp, eff: Effect, pc': Pc)
    requires p < |s.procs|
  {
    match s.procs[p].pc
    case Run => op == Acquire(Spin(WAIT)) && eff.WaitArg? && eff.p == p && pc' == WaitScan(0, false)
    case WaitScan(j, kids) =>
      && eff == Nothing
      && if j < |s.procs| then
           if s.procs[j].parent == Some(p) then op == Acquire(OwnLock(j)) && pc' == WaitAt(j, kids)
           else op == Stay && pc' == WaitScan(j + 1, kids)
         else if kids then op == Acquire(OwnLock(p)) && pc' == WaitCheck
         else op == Stay && pc' == WaitDone(NoChild)
    case WaitAt(j, kids) =>
      && op == Release(OwnLock(j)) && j < |s.procs|
      && if s.procs[j].state == ZOMBIE then
           || (eff == Free(j, p) && pc' == WaitDone(Pid(j, s.procs[j].gen)))
           || (eff == Nothing && p in s.copies && pc' == WaitDone(CopyFailed(j)))
         else eff == Nothing && pc' == WaitScan(j + 1, true)
    case WaitCheck =>
      op == Release(OwnLock(p)) && eff == Nothing && pc' == if s.procs[p].killed then WaitDone(WasKilled) else WaitSleep
    case WaitSleep => op == Acquire(OwnLock(p)) && eff == Nothing && pc' == SleepBoth(OfProc(p), WAIT)
    case WaitDone(_) => op == Release(Spin(WAIT)) && eff == Nothing && pc' == Run
    case _ => false
  }

  /** A move of the kernel's code. */
  predicate CodeMove(s: State, p: nat, op: LockOp, eff: Effect, pc': Pc)
    requires p < |s.procs|
  {
    || ClientMove(s, p, op, eff, pc') || SleepLockMove(s, p, op, eff, pc') || SchedMove(s, p, op, eff, pc')
    || WakeMove(s, p, op, eff, pc') || KillMove(s, p, op, eff, pc') || ForkMove(s, p, op, eff, pc')
    || ExitMove(s, p, op, eff, pc') || WaitMove(s, p, op, eff, pc')
  }

  /** An interrupt handler on a CPU whose process is skip: None before it and after it. */
  predicate HandlerMove(size: nat, skip: Option<nat>, h: Option<Handler>, op: LockOp, eff: Effect,
                        h': Option<Handler>)
  {
    match h
    case None =>
      eff == Nothing && h'.Some? && h'.value.HandlerHold? && h'.value.n != WAIT && op == Acquire(Spin(h'.value.n))
    case Some(HandlerHold(n)) =>
      eff == Nothing && (
        || (op == Release(Spin(n)) && h' == None)
        || (op == Stay && h'.Some? && h'.value.HandlerWake? && h'.value.i == 0 && h'.value.n == n))
    case Some(HandlerWake(i, ch, n)) =>
      && eff == Nothing
      && if i >= size then op == Stay && h' == Some(HandlerHold(n))
         else if skip == Some(i) then op == Stay && h' == Some(HandlerWake(i + 1, ch, n))
         else op == Acquire(OwnLock(i)) && h' == Some(HandlerWakeAt(i, ch, n))
    case Some(HandlerWakeAt(i, ch, n)) =>
      op == Release(OwnLock(i)) && eff == Wakeup(i, ch) && h' == Some(HandlerWake(i + 1, ch, n))
  }

  function HandlerOf(over: Over): Option<Handler> {
    if over.Handling? then Some(over.h) else None
  }

  /** A move on top of the code. An interrupt comes, and a timer interrupt yields, wherever the code holds no lock. */
  predicate OverMove(s: State, p: nat, op: LockOp, eff: Effect, over': Over)
    requires p < |s.procs|
  {
    var q, own := s.procs[p], OwnLock(p);
    match q.over
    case Plain =>
      || (op == Acquire(own) && eff == Nothing && OwnOf(p, q.pc) == None && over' == Checking)
      || (op == Acquire(own) && eff == Nothing && OwnOf(p, q.pc) == None && Spins(q.pc) == [] && over' == Yielding)
      || (OwnOf(p, q.pc) == None && Spins(q.pc) == []
           && HandlerMove(|s.procs|, Some(p), None, op, eff, HandlerOf(over')))
    case Yielding => op == Switch(RUNNABLE, q.chan) && eff == Nothing && over' == Yielded
    case Yielded => op == Release(own) && eff == Nothing && over' == Plain
    case Checking => op == Release(own) && eff == Nothing && over' == Plain
    case Handling(h) =>
      HandlerMove(|s.procs|, Some(p), Some(h), op, eff, HandlerOf(over')) && (over' == Plain || over'.Handling?)
  }

  predicate Move(s: State, p: nat, op: LockOp, eff: Effect, pc': Pc, over': Over)
    requires p < |s.procs|
  {
    || (s.procs[p].over == Plain == over' && CodeMove(s, p, op, eff, pc'))
    || (pc' == s.procs[p].pc && OverMove(s, p, op, eff, over'))
  }

  /** push_off and pop_off; a pop_off with noff 0 is a panic. */
  function PushOff(c: Cpu): Cpu {
    c.(noff := c.noff + 1, intena := if c.noff == 0 then c.intr else c.intena, intr := false)
  }

  function PopOff(c: Cpu): Cpu
    requires c.noff > 0
  {
    c.(noff := c.noff - 1, intr := c.intr || (c.noff == 1 && c.intena))
  }

  function Waken(q: Process): Process {
    if q.state == SLEEPING then q.(state := RUNNABLE) else q
  }

  /** The effect of code on the process it names. */
  function Affect(q: Process, eff: Effect): Process {
    match eff
    case Wakeup(_, ch) => if q.chan == Some(ch) then Waken(q) else q
    case KillWake(_) => Waken(q).(killed := true)
    case ClearChan(_) => q.(chan := None)
    case Create(_, who) => q.(state := USED, pc := Start, gen := q.gen + 1, creator := who)
    case Abandon(_) => q.(killed := false)
    case SetParent(_, who) => q.(parent := Some(who))
    case MakeRunnable(_) => q.(state := RUNNABLE)
    case Reparent(_) => q.(parent := Some(INIT))
    case MakeZombie(_) => q.(state := ZOMBIE)
    case Free(_, _) => q.(state := UNUSED, chan := None, parent := None, killed := false)
    case _ => q
  }

  function Target(eff: Effect): Option<nat> {
    match eff
    case Wakeup(i, _) => Some(i)
    case KillWake(i) => Some(i)
    case ClearChan(i) => Some(i)
    case Create(i, _) => Some(i)
    case Abandon(i) => Some(i)
    case SetParent(i, _) => Some(i)
    case MakeRunnable(i) => Some(i)
    case Reparent(i) => Some(i)
    case MakeZombie(i) => Some(i)
    case Free(i, _) => Some(i)
    case _ => None
  }

  /** All the processes after thread p's move, before its switch if it is one. */
  function Moved(procs: seq<Process>, p: nat, eff: Effect, pc': Pc, over': Over): (r: seq<Process>)
    requires p < |procs|
    ensures |r| == |procs|
  {
    var after := Affected(procs, eff);
    after[p := after[p].(pc := pc', over := over')]
  }

  function Affected(procs: seq<Process>, eff: Effect): (r: seq<Process>)
    ensures |r| == |procs|
  {
    var t := Target(eff);
    if t.Some? && t.value < |procs| then procs[t.value := Affect(procs[t.value], eff)] else procs
  }

  function Locked(locked: set<nat>, eff: Effect): set<nat> {
    match eff
    case LockSleep(n) => locked + {n}
    case UnlockSleep(n) => locked - {n}
    case _ => locked
  }

  function Copies(copies: set<nat>, eff: Effect): set<nat> {
    if eff.WaitArg? then if eff.copy then copies + {eff.p} else copies - {eff.p} else copies
  }

  function Reaped(s: State, eff: Effect): map<(nat, nat), nat> {
    if eff.Free? && eff.j < |s.procs| then s.reaped[(eff.j, s.procs[eff.j].gen) := eff.who] else s.reaped
  }

  datatype Step =
    | Thread(c: nat, op: LockOp, eff: Effect, pc': Pc, over': Over)
    | Handle(c: nat, op: LockOp, eff: Effect, h': Option<Handler>)
    | Pick(c: nat, p: nat) | Skip(c: nat) | Dispatch(c: nat) | Back(c: nat)
    | Interrupts(c: nat, on: bool)

  /** A lock is taken only when free, and released only by the CPU that holds it: anything else is a spin or a panic. */
  predicate Enabled(s: State, c: nat, op: LockOp)
    requires c < |s.cpus|
  {
    match op
    case Acquire(l) => l !in s.held
    case Release(l) => l in s.held && s.held[l] == c && s.cpus[c].noff > 0
    case Switch(_, _) => true
    case Stay => true
  }

  /** The interrupt handler that a scheduler is in. */
  function SchedHandler(spc: SchedPc): Option<Handler> {
    if spc.Interrupted? then Some(spc.h) else None
  }

  predicate CanStep(s: State, st: Step) {
    && st.c < |s.cpus|
    && var k := s.cpus[st.c];
       match st
       case Thread(c, op, eff, pc', over') =>
         && k.on.Some? && k.on.value < |s.procs| && Move(s, k.on.value, op, eff, pc', over') && Enabled(s, c, op)
       case Handle(c, op, eff, h') =>
         && k.on.None? && (k.spc.Scan? || k.spc.Interrupted?) && Enabled(s, c, op)
         && HandlerMove(|s.procs|, None, SchedHandler(k.spc), op, eff, h')
       case Pick(c, p) => k.on.None? && k.spc == Scan && p < |s.procs| && OwnLock(p) !in s.held
       case Skip(c) =>
         && k.on.None? && k.spc.Look? && k.spc.p < |s.procs| && s.procs[k.spc.p].state != RUNNABLE
         && Enabled(s, c, Release(OwnLock(k.spc.p)))
       case Dispatch(c) => k.on.None? && k.spc.Look? && k.spc.p < |s.procs| && s.procs[k.spc.p].state == RUNNABLE
       case Back(c) => k.on.None? && k.spc.Switched? && Enabled(s, c, Release(OwnLock(k.spc.p)))
       case Interrupts(c, on) => k.noff == 0
  }

  /** A lock operation's effect on the locks and on its CPU. */
  function AfterOp(s: State, c: nat, op: LockOp): State
    requires c < |s.cpus| && Enabled(s, c, op)
  {
    var k := s.cpus[c];
    match op
    case Acquire(l) => s.(held := s.held[l := c], cpus := s.cpus[c := PushOff(k)])
    case Release(l) => s.(held := s.held - {l}, cpus := s.cpus[c := PopOff(k)])
    case Switch(_, _) => s.(cpus := s.cpus[c := k.(on := None)])
    case Stay => s
  }

  /** A switch's effect on its process: sched saves intena on its stack. */
  function SwitchedProcs(procs: seq<Process>, p: nat, op: LockOp, intena: bool): seq<Process>
    requires p < |procs|
  {
    if op.Switch? then procs[p := procs[p].(state := op.state, chan := op.chan, intena := intena)] else procs
  }

  function Next(s: State, st: Step): State
    requires CanStep(s, st)
  {
    var k := s.cpus[st.c];
    match st
    case Thread(c, op, eff, pc', over') =>
      var p := k.on.value;
      AfterOp(s, c, op).(
        procs := SwitchedProcs(Moved(s.procs, p, eff, pc', over'), p, op, k.intena),
        locked := Locked(s.locked, eff), copies := Copies(s.copies, eff), reaped := Reaped(s, eff))
    case Handle(c, op, eff, h') =>
      var s' := AfterOp(s, c, op);
      var spc' := if h'.Some? then Interrupted(h'.value) else Scan;
      s'.(procs := Affected(s.procs, eff), cpus := s'.cpus[c := s'.cpus[c].(spc := spc')])
    case Pick(c, p) => s.(held := s.held[OwnLock(p) := c], cpus := s.cpus[c := PushOff(k).(spc := Look(p))])
    case Skip(c) => s.(held := s.held - {OwnLock(k.spc.p)}, cpus := s.cpus[c := PopOff(k).(spc := Scan)])
    case Dispatch(c) =>
      var p := k.spc.p;
      var intena := if s.procs[p].pc == Start then k.intena else s.procs[p].intena;
      s.(procs := s.procs[p := s.procs[p].(state := RUNNING)],
         cpus := s.cpus[c := k.(proc := Some(p), on := Some(p), spc := Switched(p), intena := intena)])
    case Back(c) => s.(held := s.held - {OwnLock(k.spc.p)}, cpus := s.cpus[c := PopOff(k).(proc := None, spc := Scan)])
    case Interrupts(c, on) => s.(cpus := s.cpus[c := k.(intr := on)])
  }

  const EMPTY_SLOT := Process(UNUSED, None, None, false, Exited, Plain, false, 0, INIT)

  /** Only init, ready to run; every CPU in its scheduler. */
  ghost predicate Initial(s: State) {
    && |s.procs| > 0 && s.procs[INIT] == Process(RUNNABLE, None, None, false, Start, Plain, false, 0, INIT)
    && s.held == map[] && s.reaped == map[] && s.locked == {}
    && (forall p :: 0 < p < |s.procs| ==> s.procs[p] == EMPTY_SLOT)
    && (forall c :: 0 <= c < |s.cpus| ==>
         var k := s.cpus[c]; k.proc == None && k.on == None && k.spc == Scan && k.noff == 0)
  }

  /** The states of a run, from an initial one, each the step after the one before. */
  ghost predicate IsRun(run: seq<State>, steps: seq<Step>) {
    && |run| == |steps| + 1 && Initial(run[0])
    && forall i :: 0 <= i < |steps| ==> CanStep(run[i], steps[i]) && run[i + 1] == Next(run[i], steps[i])
  }
}
