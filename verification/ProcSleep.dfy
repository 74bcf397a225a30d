/** sleep and wakeup: no wakeup is lost, whoever makes it, and no process stays asleep on a free sleep-lock. */
module ProcSleep {
  import opened Collections
  import opened Proc
  import opened ProcControl

  /** Inside sleep(ch, n), with n released: about to be SLEEPING, with its own lock still held, or SLEEPING. */
  predicate Asleep(q: Process, ch: Chan, n: nat) {
    q.pc == SleepOwn(ch, n) || (q.pc == Slept(ch, n) && q.state == SLEEPING)
  }

  /** sleep is called by a client with its one spin-lock, or by wait at the end of its scan. */
  predicate Enters(s: State, p: nat, pc: Pc, ch: Chan, n: nat) {
    (pc == Hold([n]) && MaySleep(s, ch, n)) || (pc.WaitSleep? && ch == OfProc(p) && n == WAIT)
  }

  /** The way into sleep, through it and out of it. */
  predicate SleepStep(s: State, p: nat, pc: Pc, op: LockOp, eff: Effect, pc': Pc) {
    && (pc'.SleepBoth? ==> op == Acquire(OwnLock(p)) && eff == Nothing && Enters(s, p, pc, pc'.ch, pc'.n))
    && (pc'.SleepOwn? ==> pc == SleepBoth(pc'.ch, pc'.n) && op == Release(Spin(pc'.n)) && eff == Nothing)
    && (pc'.Slept? ==> pc == SleepOwn(pc'.ch, pc'.n) && eff == Nothing)
    && (pc.SleepOwn? ==> pc' == Slept(pc.ch, pc.n)) && (pc.Slept? ==> pc' == Relock(pc.n))
    && (pc.Relock? ==> op == Acquire(Spin(pc.n)))
    && (eff.LockSleep? ==> pc.Hold? && eff.n in pc.ns)
    && (eff.UnlockSleep? ==> pc.Hold? && eff.n in pc.ns && pc' == Wake(0, OfLock(eff.n), ToHold(pc.ns)))
  }

  predicate Waking(pc: Pc) {
    pc.Wake? || pc.WakeAt?
  }

  /** The way through wakeup's scan. */
  predicate WakeStep(s: State, p: nat, pc: Pc, op: LockOp, eff: Effect, pc': Pc) {
    && (pc'.Wake? ==>
         || pc'.i == 0
         || (pc == WakeAt(pc'.i - 1, pc'.ch, pc'.after) && eff == Wakeup(pc'.i - 1, pc'.ch))
         || (pc == Wake(pc'.i - 1, pc'.ch, pc'.after) && pc'.i - 1 == p && eff == Nothing))
    && (pc'.WakeAt? ==> pc == Wake(pc'.i, pc'.ch, pc'.after) && eff == Nothing)
    && (pc.Wake? ==>
         || pc' == WakeAt(pc.i, pc.ch, pc.after) || (pc.i == p && pc' == Wake(pc.i + 1, pc.ch, pc.after))
         || pc.i >= |s.procs|)
    && (pc.WakeAt? ==> pc' == Wake(pc.i + 1, pc.ch, pc.after) && eff == Wakeup(pc.i, pc.ch))
  }

  lemma ClientSleeps(s: State, p: nat, op: LockOp, eff: Effect, pc': Pc)
    requires p < |s.procs| && ClientMove(s, p, op, eff, pc')
    ensures SleepStep(s, p, s.procs[p].pc, op, eff, pc') && WakeStep(s, p, s.procs[p].pc, op, eff, pc')
  {
    hide MaySleep, ParentChan;
  }

  lemma SleepLockSleeps(s: State, p: nat, op: LockOp, eff: Effect, pc': Pc)
    requires p < |s.procs| && SleepLockMove(s, p, op, eff, pc')
    ensures SleepStep(s, p, s.procs[p].pc, op, eff, pc') && WakeStep(s, p, s.procs[p].pc, op, eff, pc')
  {
    hide MaySleep, ParentChan;
  }

  lemma SchedSleeps(s: State, p: nat, op: LockOp, eff: Effect, pc': Pc)
    requires p < |s.procs| && SchedMove(s, p, op, eff, pc')
    ensures SleepStep(s, p, s.procs[p].pc, op, eff, pc') && WakeStep(s, p, s.procs[p].pc, op, eff, pc')
  {
    hide MaySleep, ParentChan;
  }

  lemma WakeSleeps(s: State, p: nat, op: LockOp, eff: Effect, pc': Pc)
    requires p < |s.procs| && WakeMove(s, p, op, eff, pc')
    ensures SleepStep(s, p, s.procs[p].pc, op, eff, pc') && WakeStep(s, p, s.procs[p].pc, op, eff, pc')
  {
    hide MaySleep, ParentChan;
  }

  lemma KillSleeps(s: State, p: nat, op: LockOp, eff: Effect, pc': Pc)
    requires p < |s.procs| && KillMove(s, p, op, eff, pc')
    ensures SleepStep(s, p, s.procs[p].pc, op, eff, pc') && WakeStep(s, p, s.procs[p].pc, op, eff, pc')
  {
    hide MaySleep, ParentChan;
  }

  lemma ForkSleeps(s: State, p: nat, op: LockOp, eff: Effect, pc': Pc)
    requires p < |s.procs| && ForkMove(s, p, op, eff, pc')
    ensures SleepStep(s, p, s.procs[p].pc, op, eff, pc') && WakeStep(s, p, s.procs[p].pc, op, eff, pc')
  {
    hide MaySleep, ParentChan;
  }

  lemma ExitSleeps(s: State, p: nat, op: LockOp, eff: Effect, pc': Pc)
    requires p < |s.procs| && ExitMove(s, p, op, eff, pc')
    ensures SleepStep(s, p, s.procs[p].pc, op, eff, pc') && WakeStep(s, p, s.procs[p].pc, op, eff, pc')
  {
    hide MaySleep, ParentChan;
  }

  lemma WaitSleeps(s: State, p: nat, op: LockOp, eff: Effect, pc': Pc)
    requires p < |s.procs| && WaitMove(s, p, op, eff, pc')
    ensures SleepStep(s, p, s.procs[p].pc, op, eff, pc') && WakeStep(s, p, s.procs[p].pc, op, eff, pc')
  {
    hide MaySleep, ParentChan;
  }

  lemma CodeSleeps(s: State, p: nat, op: LockOp, eff: Effect, pc': Pc)
    requires p < |s.procs| && CodeMove(s, p, op, eff, pc')
    ensures SleepStep(s, p, s.procs[p].pc, op, eff, pc') && WakeStep(s, p, s.procs[p].pc, op, eff, pc')
  {
    hide SleepStep, WakeStep, ClientMove, SleepLockMove, SchedMove, WakeMove, KillMove, ForkMove, ExitMove, WaitMove;
    if ClientMove(s, p, op, eff, pc') {
      ClientSleeps(s, p, op, eff, pc');
    } else if SleepLockMove(s, p, op, eff, pc') {
      SleepLockSleeps(s, p, op, eff, pc');
    } else if SchedMove(s, p, op, eff, pc') {
      SchedSleeps(s, p, op, eff, pc');
    } else if WakeMove(s, p, op, eff, pc') {
      WakeSleeps(s, p, op, eff, pc');
    } else if KillMove(s, p, op, eff, pc') {
      KillSleeps(s, p, op, eff, pc');
    } else if ForkMove(s, p, op, eff, pc') {
      ForkSleeps(s, p, op, eff, pc');
    } else if ExitMove(s, p, op, eff, pc') {
      ExitSleeps(s, p, op, eff, pc');
    } else {
      WaitSleeps(s, p, op, eff, pc');
    }
  }

  /** A thread's step as these proofs see it: a step of its code, or one on top of its code. */
  ghost predicate Stepped(s: State, c: nat, p: nat, op: LockOp, eff: Effect, pc': Pc, over': Over, s': State) {
    && Inv(s) && ThreadShape(s, c, p, op, eff, pc', over', s') && TargetFree(s, p, eff)
    && s'.locked == Locked(s.locked, eff) && ProcessOk(p, s.procs[p], true)
    && if s.procs[p].over == Plain == over' then CodeStep(s, p, op, eff, pc')
       else OverStep(s, p, op, eff, pc', over')
  }

  ghost predicate CodeStep(s: State, p: nat, op: LockOp, eff: Effect, pc': Pc)
    requires p < |s.procs|
  {
    SleepStep(s, p, s.procs[p].pc, op, eff, pc') && WakeStep(s, p, s.procs[p].pc, op, eff, pc')
  }

  ghost predicate OverStep(s: State, p: nat, op: LockOp, eff: Effect, pc': Pc, over': Over)
    requires p < |s.procs|
  {
    && pc' == s.procs[p].pc && (eff == Nothing || (eff.Wakeup? && !op.Switch? && Spins(pc') == []))
    && (op.Switch? ==> op.state == RUNNABLE) && OwnOf(p, pc') == None
    && (s.procs[p].over.Handling? || over'.Handling? ==>
         HandlerMove(|s.procs|, Some(p), HandlerOf(s.procs[p].over), op, eff, HandlerOf(over')))
    && !(s.procs[p].over == Plain == over')
  }

  lemma OverSteps(s: State, p: nat, op: LockOp, eff: Effect, over': Over)
    requires p < |s.procs| && OverMove(s, p, op, eff, over') && ProcessOk(p, s.procs[p], true)
    ensures OverStep(s, p, op, eff, s.procs[p].pc, over')
  {
    hide Spins, OwnOf, HandlerMove;
    OverStays(s, p, op, eff, over');
    if HandlerMove(|s.procs|, Some(p), HandlerOf(s.procs[p].over), op, eff, HandlerOf(over')) {
      HandlerLocks(|s.procs|, p, Some(p), HandlerOf(s.procs[p].over), op, eff, HandlerOf(over'));
    }
  }

  lemma ThreadStepped(s: State, c: nat, p: nat, op: LockOp, eff: Effect, pc': Pc, over': Over, s': State)
    requires Inv(s) && ThreadStep(s, c, p, op, eff, pc', over', s')
    ensures Stepped(s, c, p, op, eff, pc', over', s')
  {
    hide CodeMove, OverMove, TargetFree, SlotStep, SleepStep, WakeStep, OverStep, ThreadShape, Affect, Moved, Locked,
      Inv, ProcessOk;
    ThreadShapes(s, c, p, op, eff, pc', over', s');
    MoveTarget(s, c, p, op, eff, pc', over');
    OnCpu(s, c, p, op, eff, pc', over', s');
    if s.procs[p].over == Plain == over' && CodeMove(s, p, op, eff, pc') {
      CodeSleeps(s, p, op, eff, pc');
    } else {
      OverSteps(s, p, op, eff, over');
      assert !(s.procs[p].over == Plain == over') by { OverNew(s, p, op, eff, over'); }
    }
  }

  lemma OverNew(s: State, p: nat, op: LockOp, eff: Effect, over': Over)
    requires p < |s.procs| && OverStep(s, p, op, eff, s.procs[p].pc, over')
    ensures !(s.procs[p].over == Plain == over')
  {
  }

  /** Who can be in the middle of a wakeup: a thread's code, an interrupt handler on a thread, or one on an idle CPU. */
  datatype Waker = ByCode(q: nat) | ByThread(q: nat) | ByCpu(c: nat)

  /** A wakeup in progress: the next process, the channel, the spin-locks held, and whether that process's lock is
      held. */
  datatype WakeScan = WakeScan(i: nat, ch: Chan, ns: seq<nat>, at: bool)

  function HandlerScan(h: Handler): Option<WakeScan> {
    match h
    case HandlerHold(_) => None
    case HandlerWake(i, ch, n) => Some(WakeScan(i, ch, [n], false))
    case HandlerWakeAt(i, ch, n) => Some(WakeScan(i, ch, [n], true))
  }

  function CodeScan(pc: Pc): Option<WakeScan> {
    if Waking(pc) then Some(WakeScan(pc.i, pc.ch, AfterSpins(pc.after), pc.WakeAt?)) else None
  }

  function ScanOf(s: State, w: Waker): Option<WakeScan> {
    match w
    case ByCode(q) => if q < |s.procs| then CodeScan(s.procs[q].pc) else None
    case ByThread(q) =>
      if q < |s.procs| && s.procs[q].over.Handling? then HandlerScan(s.procs[q].over.h) else None
    case ByCpu(c) =>
      if c < |s.cpus| && s.cpus[c].on.None? && s.cpus[c].spc.Interrupted? then HandlerScan(s.cpus[c].spc.h) else None
  }

  /** myproc() of a waker, which its scan skips. */
  function SkipOf(w: Waker): Option<nat> {
    if w.ByCpu? then None else Some(w.q)
  }

  /** No process that a wakeup has passed is asleep on its channel with a spin-lock that the waker holds. */
  ghost predicate Passed(s: State, w: Waker) {
    var x := ScanOf(s, w);
    x.Some? ==>
      forall p: nat, n: nat | p < |s.procs| && p < x.value.i && SkipOf(w) != Some(p) && n in x.value.ns ::
        !Asleep(s.procs[p], x.value.ch, n)
  }

  /** The CPU of a thread that holds a spin-lock in its code holds it. */
  lemma SpinHeld(s: State, q: nat, n: nat)
    requires Inv(s) && q < |s.procs| && n in Spins(s.procs[q].pc)
    ensures Spin(n) in s.held && s.held[Spin(n)] < |s.cpus| && s.cpus[s.held[Spin(n)]].on == Some(q)
  {
    hide ForksOk, CpuOk, OnOne;
    assert ProcessOk(q, s.procs[q], IsOn(s, q));
    var d :| 0 <= d < |s.cpus| && s.cpus[d].on == Some(q);
    assert HoldsExactly(s, d) && CpuHolds(s, d, Spin(n));
  }

  /** Two threads at places with the same spin-lock are one. */
  lemma SpinOne(s: State, q: nat, r: nat, n: nat)
    requires Inv(s) && q < |s.procs| && r < |s.procs| && n in Spins(s.procs[q].pc) && n in Spins(s.procs[r].pc)
    ensures q == r
  {
    hide Inv, Spins;
    SpinHeld(s, q, n);
    SpinHeld(s, r, n);
  }

  /** A CPU on which a waker is, with the locks of its wakeup. */
  ghost predicate WakerOn(s: State, w: Waker, d: nat) {
    d < |s.cpus| && if w.ByCpu? then d == w.c && s.cpus[d].on.None? else s.cpus[d].on == Some(w.q)
  }

  lemma WakerHolds(s: State, w: Waker) returns (d: nat)
    requires Inv(s) && ScanOf(s, w).Some? && (ScanOf(s, w).value.ns != [] || ScanOf(s, w).value.at)
    ensures WakerOn(s, w, d)
    ensures forall n :: n in ScanOf(s, w).value.ns ==> Spin(n) in s.held && s.held[Spin(n)] == d
    ensures ScanOf(s, w).value.at ==>
      OwnLock(ScanOf(s, w).value.i) in s.held && s.held[OwnLock(ScanOf(s, w).value.i)] == d
  {
    hide ForksOk, CpuOk, OnOne;
    var x := ScanOf(s, w).value;
    if w.ByCpu? {
      d := w.c;
    } else {
      assert ProcessOk(w.q, s.procs[w.q], IsOn(s, w.q));
      d :| 0 <= d < |s.cpus| && s.cpus[d].on == Some(w.q);
    }
    assert HoldsExactly(s, d);
    forall n | n in x.ns
      ensures CpuHolds(s, d, Spin(n))
    {
    }
    assert x.at ==> CpuHolds(s, d, OwnLock(x.i));
  }

  /** A step makes a process asleep only by its own release of the spin-lock in sleep. */
  lemma NewlyAsleep(s: State, c: nat, p: nat, op: LockOp, eff: Effect, pc': Pc, over': Over, s': State, q: nat,
                    ch: Chan, n: nat)
    requires Stepped(s, c, p, op, eff, pc', over', s')
    requires q < |s.procs| && Asleep(s'.procs[q], ch, n) && !Asleep(s.procs[q], ch, n)
    ensures q == p && s.procs[p].pc == SleepBoth(ch, n) && op == Release(Spin(n)) && eff == Nothing
    ensures s.procs[p].over == Plain == over' && pc' == SleepOwn(ch, n)
  {
    hide CpuOk, HoldsExactly, OnOne, ForksOk, WakeStep, HandlerMove, Spins;
    assert ProcessOk(q, s.procs[q], IsOn(s, q));
  }

  /** A process that has released the spin-lock in sleep and has not switched yet holds its own lock. */
  lemma SleeperHolds(s: State, p: nat)
    requires Inv(s) && p < |s.procs| && s.procs[p].pc.SleepOwn?
    ensures OwnLock(p) in s.held && s.held[OwnLock(p)] < |s.cpus| && s.cpus[s.held[OwnLock(p)]].on == Some(p)
  {
    hide ForksOk, CpuOk, OnOne;
    assert ProcessOk(p, s.procs[p], IsOn(s, p));
    var d :| 0 <= d < |s.cpus| && s.cpus[d].on == Some(p);
    assert HoldsExactly(s, d) && CpuHolds(s, d, OwnLock(p));
  }

  /** wakeup finds the process whose lock it holds off its CPU, and wakes it if it is asleep on the channel. */
  lemma Woken(s: State, w: Waker, q': Process, n: nat)
    requires Inv(s) && ScanOf(s, w).Some? && ScanOf(s, w).value.at && ScanOf(s, w).value.i < |s.procs|
    requires SkipOf(w) != Some(ScanOf(s, w).value.i)
    requires var x := ScanOf(s, w).value; q' == Affect(s.procs[x.i], Wakeup(x.i, x.ch))
    ensures !Asleep(q', ScanOf(s, w).value.ch, n)
  {
    hide CpuOk, OnOne, ForksOk, HoldsExactly, ScanOf;
    var x := ScanOf(s, w).value;
    assert ProcessOk(x.i, s.procs[x.i], IsOn(s, x.i));
    if s.procs[x.i].pc == SleepOwn(x.ch, n) {
      var d := WakerHolds(s, w);
      SleeperHolds(s, x.i);
    }
  }

  /** From scan x to x' a wakeup has not moved, or has passed its own process or one just woken. */
  ghost predicate Advances(s: State, skip: Option<nat>, x: WakeScan, x': WakeScan, s': State) {
    && x'.ch == x.ch && x'.ns == x.ns && (
      || x'.i == x.i
      || (x'.i == x.i + 1 && skip == Some(x.i))
      || (x'.i == x.i + 1 && x.at && (x.i < |s.procs| == |s'.procs| ==>
           s'.procs[x.i] == Affect(s.procs[x.i], Wakeup(x.i, x.ch)))))
  }

  /** How a step moves a wakeup on: one in progress stays so up to its end, and has begun at the first process. */
  ghost predicate ScanMoves(s: State, w: Waker, s': State) {
    var x, x' := ScanOf(s, w), ScanOf(s', w);
    && (x'.Some? ==> x'.value.i == 0 || (x.Some? && Advances(s, SkipOf(w), x.value, x'.value, s')))
    && (x.Some? && x.value.ns != [] && x.value.i < |s.procs| ==>
         x'.Some? && Advances(s, SkipOf(w), x.value, x'.value, s'))
  }

  /** If the step puts nobody to sleep with a lock that the waker holds, the processes passed stay awake. */
  lemma PassedMoves(s: State, w: Waker, s': State)
    requires Inv(s) && Passed(s, w) && ScanMoves(s, w, s') && |s'.procs| == |s.procs|
    requires var x := ScanOf(s, w); x.Some? ==>
      forall p: nat, n: nat | p < |s.procs| && n in x.value.ns && Asleep(s'.procs[p], x.value.ch, n) ::
        Asleep(s.procs[p], x.value.ch, n)
    ensures Passed(s', w)
  {
    hide Inv, ScanOf, Asleep;
    var x, x' := ScanOf(s, w), ScanOf(s', w);
    if x'.Some? && x'.value.i > 0 {
      forall p: nat, n: nat | p < |s'.procs| && p < x'.value.i && SkipOf(w) != Some(p) && n in x'.value.ns
        ensures !Asleep(s'.procs[p], x'.value.ch, n)
      {
        if p == x.value.i && x'.value.i == x.value.i + 1 {
          Woken(s, w, s'.procs[p], n);
        }
      }
    }
  }

  /** An interrupt handler's wakeup. */
  lemma HandlerScans(s: State, skip: Option<nat>, h: Option<Handler>, op: LockOp, eff: Effect, h': Option<Handler>,
                     s': State)
    requires HandlerMove(|s.procs|, skip, h, op, eff, h') && |s'.procs| == |s.procs|
    requires eff.Wakeup? && eff.i < |s.procs| && Some(eff.i) != skip ==> s'.procs[eff.i] == Affect(s.procs[eff.i], eff)
    ensures h'.Some? && HandlerScan(h'.value).Some? ==>
      || HandlerScan(h'.value).value.i == 0
      || (h.Some? && HandlerScan(h.value).Some?
           && Advances(s, skip, HandlerScan(h.value).value, HandlerScan(h'.value).value, s'))
    ensures h.Some? && HandlerScan(h.value).Some? && HandlerScan(h.value).value.i < |s.procs| ==>
      h'.Some? && HandlerScan(h'.value).Some?
        && Advances(s, skip, HandlerScan(h.value).value, HandlerScan(h'.value).value, s')
  {
    hide Affect;
  }

  /** A wakeup by the code of a thread. */
  lemma PcScans(s: State, p: nat, pc: Pc, op: LockOp, eff: Effect, pc': Pc, s': State)
    requires WakeStep(s, p, pc, op, eff, pc') && |s'.procs| == |s.procs|
    requires eff.Wakeup? && eff.i < |s.procs| && eff.i != p ==> s'.procs[eff.i] == Affect(s.procs[eff.i], eff)
    ensures CodeScan(pc').Some? ==>
      CodeScan(pc').value.i == 0
        || (CodeScan(pc).Some? && Advances(s, Some(p), CodeScan(pc).value, CodeScan(pc').value, s'))
    ensures CodeScan(pc).Some? && CodeScan(pc).value.i < |s.procs| ==>
      CodeScan(pc').Some? && Advances(s, Some(p), CodeScan(pc).value, CodeScan(pc').value, s')
  {
    hide Affect, AfterSpins;
  }

  lemma CodeScans(s: State, c: nat, p: nat, op: LockOp, eff: Effect, pc': Pc, over': Over, s': State)
    requires Stepped(s, c, p, op, eff, pc', over', s')
    ensures ScanMoves(s, ByCode(p), s')
  {
    hide Inv, TargetFree, SleepStep, WakeStep, Affect, HandlerMove, ProcessOk, OwnAfter, CodeScan;
    ShapeSize(s, c, p, op, eff, pc', over', s');
    if s.procs[p].over == Plain == over' {
      PcScans(s, p, s.procs[p].pc, op, eff, pc', s');
    }
  }

  lemma ThreadScans(s: State, c: nat, p: nat, op: LockOp, eff: Effect, pc': Pc, over': Over, s': State)
    requires Stepped(s, c, p, op, eff, pc', over', s')
    ensures ScanMoves(s, ByThread(p), s')
  {
    hide Inv, TargetFree, CodeStep, Affect, HandlerMove, ProcessOk, OwnAfter, HandlerScan, Advances;
    ShapeSize(s, c, p, op, eff, pc', over', s');
    if s.procs[p].over.Handling? || over'.Handling? {
      HandlerScans(s, Some(p), HandlerOf(s.procs[p].over), op, eff, HandlerOf(over'), s');
    }
  }

  /** Another waker's wakeup stays where it is. */
  lemma OtherScans(s: State, c: nat, p: nat, op: LockOp, eff: Effect, pc': Pc, over': Over, s': State, w: Waker)
    requires Stepped(s, c, p, op, eff, pc', over', s') && SkipOf(w) != Some(p)
    requires Move(s, p, op, eff, pc', over')
    ensures ScanMoves(s, w, s')
  {
    hide Inv, TargetFree, CodeStep, OverStep, HandlerScan, Move, ProcessOk;
    ShapeSize(s, c, p, op, eff, pc', over', s');
    if w.ByCpu? {
      ThreadsCpu(s, c, p, op, eff, pc', over', s');
    } else if w.q < |s.procs| {
      OtherStays(s, c, p, op, eff, pc', over', s', w.q);
    }
  }

  /** A CPU on a thread's stack is in no interrupt handler of its scheduler's. */
  lemma ThreadsCpu(s: State, c: nat, p: nat, op: LockOp, eff: Effect, pc': Pc, over': Over, s': State)
    requires Inv(s) && ThreadShape(s, c, p, op, eff, pc', over', s')
    ensures |s'.cpus| == |s.cpus| > c && !s'.cpus[c].spc.Interrupted?
    ensures forall d: nat :: d < |s.cpus| && d != c ==> s'.cpus[d] == s.cpus[d]
  {
    hide HoldsExactly, ForksOk, OnOne, ProcessOk, OwnAfter, AffectedBy, CpuSpins, CpuOwn;
    assert CpuOk(s, c);
  }

  /** A thread but the one that moves stays in its place, if it has a spin-lock there; else its slot may be filled
      anew. */
  lemma OtherStays(s: State, c: nat, p: nat, op: LockOp, eff: Effect, pc': Pc, over': Over, s': State, q: nat)
    requires Inv(s) && ThreadShape(s, c, p, op, eff, pc', over', s') && q < |s.procs| && q != p
    requires Move(s, p, op, eff, pc', over') && TargetFree(s, p, eff)
    ensures |s'.procs| == |s.procs| && s'.procs[q].over == s.procs[q].over
    ensures s'.procs[q].pc == s.procs[q].pc || (s'.procs[q].pc == Start && Spins(s.procs[q].pc) == [])
  {
    hide HoldsExactly, ForksOk, OnOne, CpuOk, TargetFree, ThreadShape, Move;
    ShapeSize(s, c, p, op, eff, pc', over', s');
    ThreadProcess(s, c, p, op, eff, pc', over', s', q);
    OtherPc(s, c, p, op, eff, pc', over', s', q);
    OtherOver(s, c, p, op, eff, pc', over', s', q);
    assert ProcessOk(q, s.procs[q], IsOn(s, q));
  }

  lemma OtherOver(s: State, c: nat, p: nat, op: LockOp, eff: Effect, pc': Pc, over': Over, s': State, q: nat)
    requires ThreadShape(s, c, p, op, eff, pc', over', s') && q < |s.procs| && q != p
    ensures s'.procs[q].over == s.procs[q].over
  {
    hide OwnAfter;
  }

  lemma AnyScans(s: State, c: nat, p: nat, op: LockOp, eff: Effect, pc': Pc, over': Over, s': State, w: Waker)
    requires Stepped(s, c, p, op, eff, pc', over', s') && Move(s, p, op, eff, pc', over')
    ensures ScanMoves(s, w, s')
  {
    hide Stepped, ScanMoves, Move;
    if SkipOf(w) != Some(p) {
      OtherScans(s, c, p, op, eff, pc', over', s', w);
    } else if w.ByCode? {
      CodeScans(s, c, p, op, eff, pc', over', s');
    } else {
      ThreadScans(s, c, p, op, eff, pc', over', s');
    }
  }

  /** A process falls asleep only with a spin-lock that no waker holds. */
  lemma FallsAsleepAlone(s: State, c: nat, p: nat, op: LockOp, eff: Effect, pc': Pc, over': Over, s': State, w: Waker,
                         q: nat, ch: Chan, n: nat)
    requires Stepped(s, c, p, op, eff, pc', over', s') && q < |s.procs| == |s'.procs|
    requires ScanOf(s, w).Some? && n in ScanOf(s, w).value.ns && Asleep(s'.procs[q], ch, n)
    ensures Asleep(s.procs[q], ch, n)
  {
    hide Inv, ThreadShape, TargetFree, CodeStep, OverStep, ProcessOk;
    if !Asleep(s.procs[q], ch, n) {
      NewlyAsleep(s, c, p, op, eff, pc', over', s', q, ch, n);
      SpinHeld(s, p, n);
      var d := WakerHolds(s, w);
    }
  }

  lemma ThreadPassed(s: State, c: nat, p: nat, op: LockOp, eff: Effect, pc': Pc, over': Over, s': State, w: Waker)
    requires Stepped(s, c, p, op, eff, pc', over', s') && Move(s, p, op, eff, pc', over') && Passed(s, w)
    ensures Passed(s', w)
  {
    hide Inv, ThreadShape, TargetFree, CodeStep, OverStep, ProcessOk, ScanMoves, ScanOf, Asleep, Passed, Move;
    ShapeSize(s, c, p, op, eff, pc', over', s');
    AnyScans(s, c, p, op, eff, pc', over', s', w);
    var x := ScanOf(s, w);
    if x.Some? {
      forall q: nat, n: nat | q < |s.procs| && n in x.value.ns && Asleep(s'.procs[q], x.value.ch, n)
        ensures Asleep(s.procs[q], x.value.ch, n)
      {
        FallsAsleepAlone(s, c, p, op, eff, pc', over', s', w, q, x.value.ch, n);
      }
    }
    PassedMoves(s, w, s');
  }

  /** What is known of a thread in sleep: a sleep-lock's channel goes with its own spin-lock, with the lock locked when
      the sleeper looked; a process's channel is the sleeper's own, in wait. */
  predicate SleepsRight(s: State, p: nat)
    requires p < |s.procs|
  {
    var pc := s.procs[p].pc;
    && (pc.SleepBoth? || pc.SleepOwn? || pc.Slept? ==>
         && (pc.ch.OfLock? ==> pc.ch.n == pc.n)
         && (pc.ch.OfProc? ==> pc.ch == OfProc(p) && pc.n == WAIT))
    && (pc.SleepBoth? && pc.ch.OfLock? ==> pc.n in s.locked)
  }

  /** A wakeup on a channel, made with spin-lock n held, has still to come to p. */
  ghost predicate Pending(s: State, ch: Chan, n: nat, p: nat, w: Waker) {
    var x := ScanOf(s, w);
    x.Some? && SkipOf(w) != Some(p) && x.value.i <= p && x.value.ch == ch && n in x.value.ns
  }

  /** A process asleep on a sleep-lock has it locked, or a wakeup on the way. */
  ghost predicate Attended(s: State, p: nat)
    requires p < |s.procs|
  {
    forall n :: Asleep(s.procs[p], OfLock(n), n) && n !in s.locked ==> exists w :: Pending(s, OfLock(n), n, p, w)
  }

  ghost predicate SleepInv(s: State) {
    && (forall w :: Passed(s, w))
    && (forall p: nat :: p < |s.procs| ==> SleepsRight(s, p) && Attended(s, p))
  }

  lemma SleepsRightStep(s: State, c: nat, p: nat, op: LockOp, eff: Effect, pc': Pc, over': Over, s': State, q: nat)
    requires Stepped(s, c, p, op, eff, pc', over', s') && q < |s.procs| && SleepsRight(s, q)
    ensures |s'.procs| == |s.procs| && SleepsRight(s', q)
  {
    hide Inv, TargetFree, WakeStep, ThreadShape, ProcessOk, HandlerMove;
    ShapeSize(s, c, p, op, eff, pc', over', s');
    if q != p {
      OtherPc(s, c, p, op, eff, pc', over', s', q);
      var pc := s'.procs[q].pc;
      if pc.SleepBoth? && eff == UnlockSleep(pc.n) {
        SpinOne(s, p, q, pc.n);
      }
    }
  }

  /** A wakeup that has still to come to a process comes to it before that process is asleep no more. */
  lemma PendingMoves(s: State, w: Waker, s': State, q: nat, ch: Chan, n: nat)
    requires Inv(s) && Pending(s, ch, n, q, w) && ScanMoves(s, w, s')
    requires q < |s.procs| == |s'.procs| && Asleep(s'.procs[q], ch, n)
    ensures Pending(s', ch, n, q, w)
  {
    hide Inv, ScanOf, Asleep;
    var x, x' := ScanOf(s, w).value, ScanOf(s', w).value;
    if x.i == q && x'.i == x.i + 1 {
      Woken(s, w, s'.procs[q], n);
    }
  }

  lemma UnlockWakes(s: State, c: nat, p: nat, op: LockOp, eff: Effect, pc': Pc, over': Over, s': State, n: nat)
    requires Stepped(s, c, p, op, eff, pc', over', s') && n in s.locked && n !in s'.locked
    ensures pc'.Wake? && pc'.i == 0 && pc'.ch == OfLock(n) && pc'.after.ToHold? && n in pc'.after.ns
    ensures s.procs[p].pc.Hold?
  {
    hide Inv, ThreadShape, TargetFree, WakeStep, ProcessOk, HandlerMove;
  }

  lemma AttendedStep(s: State, c: nat, p: nat, op: LockOp, eff: Effect, pc': Pc, over': Over, s': State, q: nat, n: nat)
    requires Stepped(s, c, p, op, eff, pc', over', s') && Move(s, p, op, eff, pc', over')
    requires q < |s.procs| == |s'.procs| && Attended(s, q) && SleepsRight(s, q)
    requires Asleep(s'.procs[q], OfLock(n), n) && n !in s'.locked
    ensures exists w :: Pending(s', OfLock(n), n, q, w)
  {
    hide Inv, TargetFree, CodeStep, OverStep, ThreadShape, ProcessOk, ScanMoves, Move;
    ShapeSize(s, c, p, op, eff, pc', over', s');
    if !Asleep(s.procs[q], OfLock(n), n) {
      NewlyAsleep(s, c, p, op, eff, pc', over', s', q, OfLock(n), n);
    } else if n in s.locked {
      UnlockWakes(s, c, p, op, eff, pc', over', s', n);
      assert Pending(s', OfLock(n), n, q, ByCode(p));
    } else {
      var w :| Pending(s, OfLock(n), n, q, w);
      AnyScans(s, c, p, op, eff, pc', over', s', w);
      PendingMoves(s, w, s', q, OfLock(n), n);
    }
  }

  lemma ThreadSleepInv(s: State, c: nat, p: nat, op: LockOp, eff: Effect, pc': Pc, over': Over, s': State)
    requires Inv(s) && SleepInv(s) && ThreadStep(s, c, p, op, eff, pc', over', s')
    ensures SleepInv(s')
  {
    hide Inv, Move, Stepped, ThreadStep, ThreadShape, Passed, SleepsRight, Pending, Asleep;
    ThreadShapes(s, c, p, op, eff, pc', over', s');
    ShapeSize(s, c, p, op, eff, pc', over', s');
    ThreadStepped(s, c, p, op, eff, pc', over', s');
    forall w
      ensures Passed(s', w)
    {
      ThreadPassed(s, c, p, op, eff, pc', over', s', w);
    }
    forall q: nat | q < |s'.procs|
      ensures SleepsRight(s', q) && Attended(s', q)
    {
      SleepsRightStep(s, c, p, op, eff, pc', over', s', q);
      forall n | Asleep(s'.procs[q], OfLock(n), n) && n !in s'.locked
        ensures exists w :: Pending(s', OfLock(n), n, q, w)
      {
        AttendedStep(s, c, p, op, eff, pc', over', s', q, n);
      }
    }
  }

  /** A scheduler's step moves on a wakeup only in its own interrupt handler. */
  lemma QuietScans(s: State, st: Step, w: Waker)
    requires Inv(s) && CanStep(s, st) && !st.Thread?
    ensures ScanMoves(s, w, Next(s, st))
  {
    hide Inv, Next, CanStep, HandlerScan, CodeScan;
    QuietProcs(s, st);
    if w.ByCpu? {
      QuietCpuScans(s, st, w.c);
    } else if w.q < |s.procs| {
      assert Unmoved(s.procs[w.q], Next(s, st).procs[w.q]);
    }
  }

  lemma QuietCpuScans(s: State, st: Step, c: nat)
    requires CanStep(s, st) && !st.Thread?
    ensures ScanMoves(s, ByCpu(c), Next(s, st))
  {
    hide HandlerScan, HandlerMove, Affected;
    if st.Handle? && c == st.c {
      HandleScans(s, c, st.op, st.eff, st.h');
    }
  }

  lemma HandleScans(s: State, c: nat, op: LockOp, eff: Effect, h': Option<Handler>)
    requires CanStep(s, Handle(c, op, eff, h'))
    ensures ScanMoves(s, ByCpu(c), Next(s, Handle(c, op, eff, h')))
  {
    hide HandlerScan, HandlerMove, Affect, Advances;
    var s' := Next(s, Handle(c, op, eff, h'));
    assert s'.cpus[c].on == None && SchedHandler(s'.cpus[c].spc) == h';
    HandlerScans(s, None, SchedHandler(s.cpus[c].spc), op, eff, h', s');
  }

  lemma QuietSleepInv(s: State, st: Step)
    requires Inv(s) && SleepInv(s) && CanStep(s, st) && !st.Thread?
    ensures SleepInv(Next(s, st))
  {
    hide Inv, Next, CanStep, ScanMoves, ScanOf, Pending;
    QuietProcs(s, st);
    var s' := Next(s, st);
    assert forall p: nat | p < |s.procs| :: Unmoved(s.procs[p], s'.procs[p]);
    forall w
      ensures Passed(s', w)
    {
      QuietScans(s, st, w);
      PassedMoves(s, w, s');
    }
    forall p: nat | p < |s'.procs|
      ensures SleepsRight(s', p) && Attended(s', p)
    {
      assert SleepsRight(s, p) && Attended(s, p);
      forall n | Asleep(s'.procs[p], OfLock(n), n) && n !in s'.locked
        ensures exists w :: Pending(s', OfLock(n), n, p, w)
      {
        var w :| Pending(s, OfLock(n), n, p, w);
        QuietScans(s, st, w);
        PendingMoves(s, w, s', p, OfLock(n), n);
      }
    }
  }

  lemma InitialSleepInv(s: State)
    requires Initial(s)
    ensures SleepInv(s)
  {
    assert forall p: nat :: p < |s.procs| ==> s.procs[p].pc == Start || s.procs[p].pc == Exited;
    forall w
      ensures ScanOf(s, w) == None
    {
    }
  }

  lemma {:induction false} RunSleepInv(run: seq<State>, steps: seq<Step>, i: nat)
    requires IsRun(run, steps) && i < |run|
    ensures Inv(run[i]) && SleepInv(run[i])
  {
    hide Inv, Next, SleepInv;
    RunInv(run, steps, i);
    if i == 0 {
      InitialSleepInv(run[0]);
    } else {
      RunSleepInv(run, steps, i - 1);
      var s, st := run[i - 1], steps[i - 1];
      if st.Thread? {
        ThreadSleepInv(s, st.c, s.cpus[st.c].on.value, st.op, st.eff, st.pc', st.over', run[i]);
      } else {
        QuietSleepInv(s, st);
      }
    }
  }

  /** No process is asleep on a sleep-lock that is free, whenever its spin-lock is free. */
  lemma FreeSleepLock(run: seq<State>, steps: seq<Step>, i: nat, n: nat, p: nat)
    requires IsRun(run, steps) && i < |run| && n !in run[i].locked && Spin(n) !in run[i].held && p < |run[i].procs|
    ensures !Asleep(run[i].procs[p], OfLock(n), n)
  {
    hide Inv, Next, Asleep, IsRun, ScanOf;
    RunSleepInv(run, steps, i);
    var s := run[i];
    assert Attended(s, p);
    if Asleep(s.procs[p], OfLock(n), n) {
      var w :| Pending(s, OfLock(n), n, p, w);
      var d := WakerHolds(s, w);
    }
  }

  /** A process on whose thread a wakeup is made, by its code or by an interrupt handler, is not asleep. */
  lemma WakerAwake(s: State, w: Waker, ch: Chan, n: nat)
    requires Inv(s) && ScanOf(s, w).Some? && SkipOf(w).Some?
    ensures w.q < |s.procs| && !Asleep(s.procs[w.q], ch, n)
  {
    hide HoldsExactly, ForksOk, OnOne, CpuOk;
    assert ProcessOk(w.q, s.procs[w.q], IsOn(s, w.q));
  }

  /** At the end of a wakeup made with spin-lock n held, by any code or interrupt handler on any CPU, no process at all
      is asleep on the channel with n. */
  lemma NoneMissed(run: seq<State>, steps: seq<Step>, i: nat, w: Waker, n: nat, p: nat)
    requires IsRun(run, steps) && i < |run| && p < |run[i].procs|
    requires var x := ScanOf(run[i], w); x.Some? && x.value.i >= |run[i].procs| && n in x.value.ns
    ensures !Asleep(run[i].procs[p], ScanOf(run[i], w).value.ch, n)
  {
    hide Inv, Next, ScanOf, Asleep, IsRun;
    RunSleepInv(run, steps, i);
    assert Passed(run[i], w);
    if SkipOf(w) == Some(p) {
      WakerAwake(run[i], w, ScanOf(run[i], w).value.ch, n);
    }
  }

  /** Inside sleep(ch, n) after the release of n and before n is taken again. */
  predicate InSleep(pc: Pc, ch: Chan, n: nat) {
    pc == SleepOwn(ch, n) || pc == Slept(ch, n) || pc == Relock(n)
  }

  /** The part of a run that is one call of wakeup on ch, made with spin-lock n held. */
  ghost predicate IsWakeup(run: seq<State>, a: nat, b: nat, w: Waker, ch: Chan, n: nat) {
    && a <= b < |run| && (forall k: nat :: a <= k <= b ==> WakesOn(run[k], w, ch, n))
    && ScanOf(run[b], w).value.i >= |run[b].procs|
  }

  ghost predicate WakesOn(s: State, w: Waker, ch: Chan, n: nat) {
    var x := ScanOf(s, w);
    x.Some? && x.value.ch == ch && n in x.value.ns
  }

  /** While spin-lock n is held, a process in sleep with n does not get out of it. */
  lemma StaysInSleep(s: State, st: Step, p: nat, ch: Chan, n: nat)
    requires Inv(s) && CanStep(s, st) && p < |s.procs| && Spin(n) in s.held && InSleep(s.procs[p].pc, ch, n)
    ensures var s' := Next(s, st); |s'.procs| == |s.procs| && InSleep(s'.procs[p].pc, ch, n)
  {
    hide Inv, Next, CanStep;
    var s' := Next(s, st);
    if st.Thread? {
      assert st.c < |s.cpus| && s.cpus[st.c].on.Some? by { ThreadOn(s, st); }
      var c, t := st.c, s.cpus[st.c].on.value;
      ThreadShapes(s, c, t, st.op, st.eff, st.pc', st.over', s');
      ShapeSize(s, c, t, st.op, st.eff, st.pc', st.over', s');
      MoveTarget(s, c, t, st.op, st.eff, st.pc', st.over');
      if t == p {
        ThreadStepped(s, c, t, st.op, st.eff, st.pc', st.over', s');
        SleeperSteps(s, c, t, st.op, st.eff, st.pc', ch, n);
      } else {
        SleeperKept(s, c, t, st.op, st.eff, st.pc', st.over', s', p, ch, n);
      }
    } else {
      QuietProcs(s, st);
      assert Unmoved(s.procs[p], s'.procs[p]);
    }
  }

  lemma ThreadOn(s: State, st: Step)
    requires CanStep(s, st) && st.Thread?
    ensures st.c < |s.cpus| && s.cpus[st.c].on.Some?
  {
  }

  lemma SleeperSteps(s: State, c: nat, p: nat, op: LockOp, eff: Effect, pc': Pc, ch: Chan, n: nat)
    requires c < |s.cpus| && p < |s.procs| && (pc' == s.procs[p].pc || SleepStep(s, p, s.procs[p].pc, op, eff, pc'))
    requires Enabled(s, c, op) && Spin(n) in s.held && InSleep(s.procs[p].pc, ch, n)
    ensures InSleep(pc', ch, n)
  {
    hide Enters;
  }

  lemma SleeperKept(s: State, c: nat, t: nat, op: LockOp, eff: Effect, pc': Pc, over': Over, s': State, p: nat,
                    ch: Chan, n: nat)
    requires Inv(s) && ThreadShape(s, c, t, op, eff, pc', over', s') && TargetFree(s, t, eff)
    requires p < |s.procs| && p != t && InSleep(s.procs[p].pc, ch, n)
    ensures s'.procs[p].pc == s.procs[p].pc
  {
    hide CpuOk, HoldsExactly, OnOne, ForksOk, OwnAfter;
    assert ProcessOk(p, s.procs[p], IsOn(s, p));
  }

  lemma {:induction false} SleepsThrough(run: seq<State>, steps: seq<Step>, a: nat, b: nat, w: Waker, p: nat,
                                         ch: Chan, n: nat, k: nat)
    requires IsRun(run, steps) && IsWakeup(run, a, b, w, ch, n) && a <= k <= b
    requires p < |run[a].procs| && InSleep(run[a].procs[p].pc, ch, n)
    ensures p < |run[k].procs| && InSleep(run[k].procs[p].pc, ch, n)
    decreases k
  {
    hide Inv, Next, InSleep, ScanOf;
    if k > a {
      SleepsThrough(run, steps, a, b, w, p, ch, n, k - 1);
      RunInv(run, steps, k - 1);
      assert WakesOn(run[k - 1], w, ch, n);
      var d := WakerHolds(run[k - 1], w);
      StaysInSleep(run[k - 1], steps[k - 1], p, ch, n);
    }
  }

  /** No lost wakeup: a process inside sleep(ch, n) when a wakeup(ch) starts with n held, in any thread's code or in an
      interrupt handler on any CPU, busy or idle, is RUNNABLE or already running at the end of that wakeup, and has not
      yet returned from sleep. */
  lemma NoLostWakeup(run: seq<State>, steps: seq<Step>, a: nat, b: nat, w: Waker, p: nat, ch: Chan, n: nat)
    requires IsRun(run, steps) && IsWakeup(run, a, b, w, ch, n)
    requires p < |run[a].procs| && Asleep(run[a].procs[p], ch, n)
    ensures p < |run[b].procs| && (run[b].procs[p].state == RUNNABLE || run[b].procs[p].state == RUNNING)
    ensures run[b].procs[p].pc == Slept(ch, n) || run[b].procs[p].pc == Relock(n)
  {
    hide Next, CpuOk, HoldsExactly, OnOne, ForksOk, ScanOf, IsRun;
    SleepsThrough(run, steps, a, b, w, p, ch, n, b);
    assert WakesOn(run[b], w, ch, n);
    NoneMissed(run, steps, b, w, n, p);
    RunInv(run, steps, b);
    assert ProcessOk(p, run[b].procs[p], IsOn(run[b], p));
  }
}
