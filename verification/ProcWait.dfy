/** exit and wait: parents are alive, no zombie's parent sleeps in wait, and each child is reaped once. */
module ProcWait {
  import opened Collections
  import opened Proc
  import opened ProcControl
  import opened ProcSleep

  predicate Alive(q: Process) {
    q.state == SLEEPING || q.state == RUNNABLE || q.state == RUNNING
  }

  /** How far exit has given its children away: those of lower slots are no longer its own. */
  function GivenAway(pc: Pc, size: nat): nat {
    match pc
    case ExitScan(j) => j
    case Wake(_, _, ToReparent(j)) => j
    case WakeAt(_, _, ToReparent(j)) => j
    case Wake(_, _, ToExit) => size
    case WakeAt(_, _, ToExit) => size
    case ExitWoke => size
    case ExitBoth => size
    case _ => 0
  }

  predicate InExit(pc: Pc) {
    pc.ExitScan? || pc.ExitWoke? || pc.ExitBoth? || pc.ExitOwn? || pc.Exited?
      || (Waking(pc) && (pc.after.ToReparent? || pc.after.ToExit?))
  }

  /** How far wait has scanned: children in lower slots are no zombies. */
  function Scanned(p: nat, pc: Pc, size: nat): nat {
    match pc
    case WaitScan(j, _) => j
    case WaitAt(j, _) => j
    case WaitCheck => size
    case WaitSleep => size
    case SleepBoth(ch, n) => if ch == OfProc(p) && n == WAIT then size else 0
    case _ => 0
  }

  /** Which code changes parents and makes and frees zombies. */
  predicate EffectStep(s: State, p: nat, pc: Pc, op: LockOp, eff: Effect, pc': Pc) {
    && (eff.Reparent? ==>
         eff.j < |s.procs| && s.procs[eff.j].parent == Some(p) && pc == ExitScan(eff.j)
           && pc' == Wake(0, OfProc(INIT), ToReparent(eff.j + 1)))
    && (eff.SetParent? ==> pc == ForkWait(eff.i) && eff.who == p && pc' == ForkParent(eff.i))
    && (eff.MakeZombie? ==> pc == ExitBoth && eff.i == p && pc' == ExitOwn)
    && (eff.Free? ==> pc.WaitAt? && pc.j == eff.j && eff.who == p && pc'.WaitDone?)
    && (op.Switch? ==>
         eff == Nothing && if pc == ExitOwn then op.state == ZOMBIE else op.state == RUNNABLE || op.state == SLEEPING)
    && (pc == ExitOwn ==> op.Switch?)
  }

  /** The way through exit. */
  predicate ExitStep(s: State, p: nat, pc: Pc, eff: Effect, pc': Pc)
    requires p < |s.procs|
  {
    && (InExit(pc') ==> InExit(pc) || p != INIT)
    && (GivenAway(pc', |s.procs|) > GivenAway(pc, |s.procs|) ==>
         || (pc.ExitScan? && pc.j < |s.procs| && GivenAway(pc', |s.procs|) == pc.j + 1
              && (eff == Reparent(pc.j) || s.procs[pc.j].parent != Some(p)))
         || GivenAway(pc, |s.procs|) >= |s.procs|)
    && (Waking(pc') && pc'.after.ToExit? ==>
         pc'.ch == ParentChan(s.procs[p].parent) || (Waking(pc) && pc.after == pc'.after && pc.ch == pc'.ch))
    && (Waking(pc') && pc'.after.ToReparent? ==>
         pc'.ch == OfProc(INIT) || (Waking(pc) && pc.after == pc'.after && pc.ch == pc'.ch))
    && (pc'.ExitWoke? ==> eff == Nothing && (pc.ExitWoke? || (pc.Wake? && pc.after == ToExit && pc.i >= |s.procs|)))
    && (pc'.ExitBoth? ==> pc.ExitWoke? && eff == Nothing)
  }

  /** The way through wait. */
  predicate WaitStep(s: State, p: nat, pc: Pc, eff: Effect, pc': Pc) {
    && (Scanned(p, pc', |s.procs|) > 0 || pc'.WaitAt? ==> eff == Nothing)
    && (pc'.WaitAt? ==> pc'.j < |s.procs| && s.procs[pc'.j].parent == Some(p))
    && (Scanned(p, pc', |s.procs|) > Scanned(p, pc, |s.procs|) ==>
         || Scanned(p, pc, |s.procs|) >= |s.procs|
         || (var j := Scanned(p, pc, |s.procs|);
             Scanned(p, pc', |s.procs|) == j + 1 && (s.procs[j].parent != Some(p) || s.procs[j].state != ZOMBIE)))
  }

  lemma ClientFamily(s: State, p: nat, op: LockOp, eff: Effect, pc': Pc)
    requires p < |s.procs| && ClientMove(s, p, op, eff, pc')
    ensures EffectStep(s, p, s.procs[p].pc, op, eff, pc') && ExitStep(s, p, s.procs[p].pc, eff, pc')
      && WaitStep(s, p, s.procs[p].pc, eff, pc')
  {
  }

  lemma SleepLockFamily(s: State, p: nat, op: LockOp, eff: Effect, pc': Pc)
    requires p < |s.procs| && SleepLockMove(s, p, op, eff, pc')
    ensures EffectStep(s, p, s.procs[p].pc, op, eff, pc') && ExitStep(s, p, s.procs[p].pc, eff, pc')
      && WaitStep(s, p, s.procs[p].pc, eff, pc')
  {
    hide MaySleep;
  }

  lemma SchedEffects(s: State, p: nat, op: LockOp, eff: Effect, pc': Pc)
    requires p < |s.procs| && SchedMove(s, p, op, eff, pc')
    ensures EffectStep(s, p, s.procs[p].pc, op, eff, pc') && WaitStep(s, p, s.procs[p].pc, eff, pc')
  {
  }

  lemma SchedFamily(s: State, p: nat, op: LockOp, eff: Effect, pc': Pc)
    requires p < |s.procs| && SchedMove(s, p, op, eff, pc')
    ensures ExitStep(s, p, s.procs[p].pc, eff, pc')
  {
  }

  lemma WakeFamily(s: State, p: nat, op: LockOp, eff: Effect, pc': Pc)
    requires p < |s.procs| && WakeMove(s, p, op, eff, pc')
    ensures EffectStep(s, p, s.procs[p].pc, op, eff, pc') && ExitStep(s, p, s.procs[p].pc, eff, pc')
      && WaitStep(s, p, s.procs[p].pc, eff, pc')
  {
    hide MaySleep;
  }

  lemma KillFamily(s: State, p: nat, op: LockOp, eff: Effect, pc': Pc)
    requires p < |s.procs| && KillMove(s, p, op, eff, pc')
    ensures EffectStep(s, p, s.procs[p].pc, op, eff, pc') && ExitStep(s, p, s.procs[p].pc, eff, pc')
      && WaitStep(s, p, s.procs[p].pc, eff, pc')
  {
    hide MaySleep;
  }

  lemma ForkFamily(s: State, p: nat, op: LockOp, eff: Effect, pc': Pc)
    requires p < |s.procs| && ForkMove(s, p, op, eff, pc')
    ensures EffectStep(s, p, s.procs[p].pc, op, eff, pc') && ExitStep(s, p, s.procs[p].pc, eff, pc')
      && WaitStep(s, p, s.procs[p].pc, eff, pc')
  {
    hide MaySleep;
  }

  lemma ExitFamily(s: State, p: nat, op: LockOp, eff: Effect, pc': Pc)
    requires p < |s.procs| && ExitMove(s, p, op, eff, pc')
    ensures EffectStep(s, p, s.procs[p].pc, op, eff, pc') && ExitStep(s, p, s.procs[p].pc, eff, pc')
      && WaitStep(s, p, s.procs[p].pc, eff, pc')
  {
    hide MaySleep;
  }

  lemma WaitEffects(s: State, p: nat, op: LockOp, eff: Effect, pc': Pc)
    requires p < |s.procs| && WaitMove(s, p, op, eff, pc')
    ensures EffectStep(s, p, s.procs[p].pc, op, eff, pc') && WaitStep(s, p, s.procs[p].pc, eff, pc')
  {
  }

  lemma WaitFamily(s: State, p: nat, op: LockOp, eff: Effect, pc': Pc)
    requires p < |s.procs| && WaitMove(s, p, op, eff, pc')
    ensures ExitStep(s, p, s.procs[p].pc, eff, pc')
  {
  }

  lemma CodeFamily(s: State, p: nat, op: LockOp, eff: Effect, pc': Pc)
    requires p < |s.procs| && CodeMove(s, p, op, eff, pc')
    ensures EffectStep(s, p, s.procs[p].pc, op, eff, pc') && ExitStep(s, p, s.procs[p].pc, eff, pc')
      && WaitStep(s, p, s.procs[p].pc, eff, pc')
  {
    hide EffectStep, ExitStep, WaitStep, ClientMove, SleepLockMove, SchedMove, WakeMove, KillMove, ForkMove, ExitMove,
      WaitMove;
    if ClientMove(s, p, op, eff, pc') {
      ClientFamily(s, p, op, eff, pc');
    } else if SleepLockMove(s, p, op, eff, pc') {
      SleepLockFamily(s, p, op, eff, pc');
    } else if SchedMove(s, p, op, eff, pc') {
      SchedEffects(s, p, op, eff, pc');
      SchedFamily(s, p, op, eff, pc');
    } else if WakeMove(s, p, op, eff, pc') {
      WakeFamily(s, p, op, eff, pc');
    } else if KillMove(s, p, op, eff, pc') {
      KillFamily(s, p, op, eff, pc');
    } else if ForkMove(s, p, op, eff, pc') {
      ForkFamily(s, p, op, eff, pc');
    } else if ExitMove(s, p, op, eff, pc') {
      ExitFamily(s, p, op, eff, pc');
    } else {
      WaitEffects(s, p, op, eff, pc');
      WaitFamily(s, p, op, eff, pc');
    }
  }

  /** What is on top of the code changes no parent and makes no zombie. */
  lemma OverFamily(s: State, p: nat, op: LockOp, eff: Effect, pc': Pc, over': Over)
    requires p < |s.procs| && OverStep(s, p, op, eff, pc', over')
    ensures EffectStep(s, p, s.procs[p].pc, op, eff, pc') && ExitStep(s, p, s.procs[p].pc, eff, pc')
      && WaitStep(s, p, s.procs[p].pc, eff, pc')
  {
    hide HandlerMove;
  }

  lemma MoveFamily(s: State, p: nat, op: LockOp, eff: Effect, pc': Pc, over': Over)
    requires p < |s.procs| && Move(s, p, op, eff, pc', over') && ProcessOk(p, s.procs[p], true)
    ensures EffectStep(s, p, s.procs[p].pc, op, eff, pc') && ExitStep(s, p, s.procs[p].pc, eff, pc')
      && WaitStep(s, p, s.procs[p].pc, eff, pc')
  {
    hide EffectStep, ExitStep, WaitStep, CodeMove, OverMove, OverStep, ProcessOk;
    if s.procs[p].over == Plain == over' && CodeMove(s, p, op, eff, pc') {
      CodeFamily(s, p, op, eff, pc');
    } else {
      OverSteps(s, p, op, eff, over');
      OverFamily(s, p, op, eff, pc', over');
    }
  }

  /** A parent is alive, and is the process's creator or init. */
  ghost predicate ParentOk(s: State, j: nat)
    requires j < |s.procs|
  {
    var q := s.procs[j];
    && (q.parent.Some? ==>
         q.parent.value < |s.procs| && Alive(s.procs[q.parent.value])
           && (q.parent.value == q.creator || q.parent.value == INIT))
    && (q.state == UNUSED ==> q.parent == None)
    && (Forking(q.pc) && q.pc.i < |s.procs| ==> s.procs[q.pc.i].creator == j)
  }

  ghost predicate ExitOk(s: State, p: nat)
    requires p < |s.procs|
  {
    var q := s.procs[p];
    && (forall j: nat | j < |s.procs| && j < GivenAway(q.pc, |s.procs|) :: s.procs[j].parent != Some(p))
    && (Waking(q.pc) && q.pc.after.ToExit? ==> q.pc.ch == ParentChan(q.parent))
    && (Waking(q.pc) && q.pc.after.ToReparent? ==> q.pc.ch == OfProc(INIT))
    && ((q.pc.ExitWoke? || q.pc.ExitBoth?) && q.parent.Some? && q.parent.value < |s.procs| ==>
         !Asleep(s.procs[q.parent.value], OfProc(q.parent.value), WAIT))
  }

  ghost predicate ScanOk(s: State, p: nat)
    requires p < |s.procs|
  {
    var pc := s.procs[p].pc;
    && (forall j: nat | j < |s.procs| && j < Scanned(p, pc, |s.procs|) && s.procs[j].parent == Some(p) ::
         s.procs[j].state != ZOMBIE)
    && (pc.WaitAt? ==> pc.j < |s.procs| && s.procs[pc.j].parent == Some(p))
  }

  /** A wakeup of init, made with wait_lock held, has still to come to init. */
  ghost predicate InitPending(s: State, w: Waker) {
    Pending(s, OfProc(INIT), WAIT, INIT, w)
  }

  /** A process asleep in wait has no zombie child, but for init with a wakeup on the way. */
  ghost predicate WaitOk(s: State, q: nat)
    requires q < |s.procs|
  {
    forall j: nat | j < |s.procs| && s.procs[j].parent == Some(q) && s.procs[j].state == ZOMBIE
      && Asleep(s.procs[q], OfProc(q), WAIT) ::
      q == INIT && exists w :: InitPending(s, w)
  }

  /** A life of a slot that has been reaped is over. */
  ghost predicate ReapedOk(s: State) {
    forall j, g :: (j, g) in s.reaped && j < |s.procs| ==>
      g < s.procs[j].gen || (g == s.procs[j].gen && s.procs[j].state == UNUSED)
  }

  ghost predicate InitOk(s: State) {
    |s.procs| > 0 && Alive(s.procs[INIT]) && !InExit(s.procs[INIT].pc)
  }

  ghost predicate FamilyInv(s: State) {
    && InitOk(s) && ReapedOk(s)
    && (forall p: nat :: p < |s.procs| ==> ParentOk(s, p))
    && (forall p: nat :: p < |s.procs| ==> ExitOk(s, p))
    && (forall p: nat :: p < |s.procs| ==> ScanOk(s, p))
    && (forall p: nat :: p < |s.procs| ==> WaitOk(s, p))
  }

  /** A thread's step, with what its code says of it. */
  ghost predicate FamilyStep(s: State, c: nat, p: nat, op: LockOp, eff: Effect, pc': Pc, over': Over, s': State) {
    && Stepped(s, c, p, op, eff, pc', over', s') && FamilyInv(s) && SlotStep(p, s.procs[p].pc, eff, pc')
    && EffectStep(s, p, s.procs[p].pc, op, eff, pc') && ExitStep(s, p, s.procs[p].pc, eff, pc')
    && WaitStep(s, p, s.procs[p].pc, eff, pc')
    && s'.reaped == Reaped(s, eff) && Move(s, p, op, eff, pc', over') && ProcessOk(p, s.procs[p], true)
    && ProcessOk(p, OwnAfter(s, p, op, eff, pc', over'), !op.Switch?)
  }

  lemma FamilySteps(s: State, c: nat, p: nat, op: LockOp, eff: Effect, pc': Pc, over': Over, s': State)
    requires Inv(s) && FamilyInv(s) && ThreadStep(s, c, p, op, eff, pc', over', s')
    ensures FamilyStep(s, c, p, op, eff, pc', over', s')
  {
    hide FamilyInv, Move, TargetFree, SlotStep, Stepped, ThreadShape, EffectStep, ExitStep, WaitStep, Affect, Moved,
      Locked, Inv, OwnAfter, ProcessOk;
    ThreadShapes(s, c, p, op, eff, pc', over', s');
    ThreadStepped(s, c, p, op, eff, pc', over', s');
    MoveTarget(s, c, p, op, eff, pc', over');
    OnCpu(s, c, p, op, eff, pc', over', s');
    MoveFamily(s, p, op, eff, pc', over');
    MoveStays(s, p, op, eff, pc', over');
    ShapeSize(s, c, p, op, eff, pc', over', s');
  }

  /** What a step leaves of a process: all of it, unless it is the mover or the target. */
  ghost predicate Keeps(q: Process, q': Process, eff: Effect) {
    && (!eff.Reparent? && !eff.SetParent? && !eff.Free? ==> q'.parent == q.parent)
    && (!eff.MakeZombie? && !eff.Free? ==> (q'.state == ZOMBIE <==> q.state == ZOMBIE))
    && (!eff.MakeZombie? && Alive(q) ==> Alive(q'))
    && (!eff.Create? ==>
         q'.creator == q.creator && q'.gen == q.gen && (q'.state == UNUSED ==> q.state == UNUSED || eff.Free?))
  }

  lemma TargetKeeps(s: State, p: nat, eff: Effect, j: nat)
    requires j < |s.procs| && j != p && TargetFree(s, p, eff) && Target(eff) == Some(j)
    ensures Keeps(s.procs[j], Affect(s.procs[j], eff), eff)
  {
  }

  lemma MoverKeeps(s: State, p: nat, op: LockOp, eff: Effect, pc': Pc, over': Over)
    requires p < |s.procs| && TargetFree(s, p, eff) && ProcessOk(p, s.procs[p], true)
      && EffectStep(s, p, s.procs[p].pc, op, eff, pc')
    ensures Keeps(s.procs[p], OwnAfter(s, p, op, eff, pc', over'), eff)
  {
  }

  lemma StepKeeps(s: State, c: nat, p: nat, op: LockOp, eff: Effect, pc': Pc, over': Over, s': State, j: nat)
    requires FamilyStep(s, c, p, op, eff, pc', over', s') && j < |s.procs|
    ensures |s'.procs| == |s.procs| && Keeps(s.procs[j], s'.procs[j], eff)
    ensures j == p ==> s'.procs[j].pc == pc'
    ensures j != p && Target(eff) != Some(j) ==> s'.procs[j] == s.procs[j]
    ensures j != p && !eff.Create? ==> s'.procs[j].pc == s.procs[j].pc
    ensures j != p ==>
      s'.procs[j].pc == s.procs[j].pc
        || (s'.procs[j].pc == Start && eff == Create(j, p) && s.procs[j].state == UNUSED && s'.procs[j].state == USED)
  {
    hide FamilyInv, Inv, WaitStep, ExitStep, EffectStep, ProcessOk, CodeStep, OverStep, Move;
    if j == p {
      MoverKeeps(s, p, op, eff, pc', over');
      assert Keeps(s.procs[p], s'.procs[p], eff);
    } else if Target(eff) == Some(j) {
      TargetKeeps(s, p, eff, j);
    }
  }

  /** The thread whose step changes a parent, or makes or frees a zombie, holds wait_lock: no other is in exit or
      wait. */
  lemma WaitLockOne(s: State, c: nat, p: nat, op: LockOp, eff: Effect, pc': Pc, over': Over, s': State, q: nat)
    requires FamilyStep(s, c, p, op, eff, pc', over', s') && q < |s.procs| && q != p
      && (eff.Reparent? || eff.SetParent? || eff.MakeZombie? || eff.Free?)
    ensures WAIT !in Spins(s.procs[q].pc)
  {
    hide FamilyInv, Inv, WaitStep, ExitStep, ThreadShape, TargetFree, SlotStep, CodeStep, OverStep, Move;
    assert p < |s.procs| by { ShapeSize(s, c, p, op, eff, pc', over', s'); }
    if WAIT in Spins(s.procs[q].pc) {
      SpinOne(s, p, q, WAIT);
    }
  }

  lemma InitStep(s: State, c: nat, p: nat, op: LockOp, eff: Effect, pc': Pc, over': Over, s': State)
    requires FamilyStep(s, c, p, op, eff, pc', over', s')
    ensures InitOk(s')
  {
    hide Inv, WaitStep, ThreadShape, TargetFree, SlotStep, ParentOk, ExitOk, ScanOk, WaitOk, ReapedOk, CodeStep,
      OverStep, Move;
    StepKeeps(s, c, p, op, eff, pc', over', s', INIT);
  }

  lemma ReapedStep(s: State, c: nat, p: nat, op: LockOp, eff: Effect, pc': Pc, over': Over, s': State)
    requires FamilyStep(s, c, p, op, eff, pc', over', s')
    ensures ReapedOk(s') && (eff.Free? ==> eff.j < |s.procs| && (eff.j, s.procs[eff.j].gen) !in s.reaped)
  {
    hide Inv, WaitStep, ExitStep, ParentOk, ExitOk, ScanOk, WaitOk, InitOk, CodeStep, OverStep, Move;
    forall j, g | (j, g) in s'.reaped && j < |s'.procs|
      ensures g < s'.procs[j].gen || (g == s'.procs[j].gen && s'.procs[j].state == UNUSED)
    {
      StepKeeps(s, c, p, op, eff, pc', over', s', j);
    }
  }

  /** A process that some process has as its parent does not become a zombie or a free slot. */
  lemma ParentStays(s: State, c: nat, p: nat, op: LockOp, eff: Effect, pc': Pc, over': Over, s': State, q: nat, j: nat)
    requires FamilyStep(s, c, p, op, eff, pc', over', s') && q < |s.procs| && j < |s.procs|
      && s.procs[j].parent == Some(q)
    ensures |s'.procs| == |s.procs| && Alive(s'.procs[q])
  {
    hide Inv, WaitStep, ExitStep, ScanOk, WaitOk, ReapedOk, Affect, OwnAfter, ThreadShape, TargetFree, CodeStep,
      OverStep, Move;
    SameSize(s, c, p, op, eff, pc', over', s');
    StepKeeps(s, c, p, op, eff, pc', over', s', q);
    assert ParentOk(s, j);
    if eff.MakeZombie? {
      assert ExitOk(s, p) && GivenAway(s.procs[p].pc, |s.procs|) == |s.procs|;
    }
  }

  lemma ParentLives(s: State, c: nat, p: nat, op: LockOp, eff: Effect, pc': Pc, over': Over, s': State, j: nat)
    requires FamilyStep(s, c, p, op, eff, pc', over', s') && j < |s.procs| == |s'.procs| && s'.procs[j].parent.Some?
    ensures var q := s'.procs[j].parent.value;
      q < |s.procs| && Alive(s'.procs[q]) && (q == s'.procs[j].creator || q == INIT)
  {
    hide Inv, WaitStep, ExitStep, EffectStep, ExitOk, ScanOk, WaitOk, ReapedOk, Affect, Target, OwnAfter, ThreadShape,
      TargetFree, InExit, CodeStep, OverStep, Move;
    NewParent(s, c, p, op, eff, pc', over', s', j);
    assert ParentOk(s, j);
    var q := s'.procs[j].parent.value;
    if s.procs[j].parent == Some(q) {
      ParentStays(s, c, p, op, eff, pc', over', s', q, j);
    } else {
      StepKeeps(s, c, p, op, eff, pc', over', s', q);
    }
  }

  /** A step changes a process's parent and creator by its effect alone. */
  lemma ParentEffect(s: State, c: nat, p: nat, op: LockOp, eff: Effect, pc': Pc, over': Over, s': State, j: nat)
    requires ThreadShape(s, c, p, op, eff, pc', over', s') && j < |s.procs|
    ensures |s'.procs| == |s.procs|
    ensures s'.procs[j].parent == AffectedBy(s.procs, eff, j).parent
    ensures s'.procs[j].creator == AffectedBy(s.procs, eff, j).creator
  {
    hide Affect;
  }

  /** The child whose parent fork sets is USED and was created by that fork's process. */
  lemma ForkedChild(s: State, c: nat, p: nat, op: LockOp, eff: Effect, pc': Pc, over': Over, s': State, i: nat)
    requires FamilyStep(s, c, p, op, eff, pc', over', s') && eff.SetParent? && eff.i == i
    ensures eff.who == p < |s.procs| && s.procs[p].state == RUNNING
    ensures i < |s.procs| && s.procs[i].creator == p && s.procs[i].state == USED
  {
    hide CpuOk, HoldsExactly, OnOne, WaitStep, ExitStep, ScanOk, WaitOk, ReapedOk, ExitOk, CodeStep, OverStep, Move,
      ThreadShape, OwnAfter;
    assert p < |s.procs| by { ShapeSize(s, c, p, op, eff, pc', over', s'); }
    assert ParentOk(s, p) && Forking(s.procs[p].pc);
  }

  /** Where a process's parent comes from. */
  lemma NewParent(s: State, c: nat, p: nat, op: LockOp, eff: Effect, pc': Pc, over': Over, s': State, j: nat)
    requires FamilyStep(s, c, p, op, eff, pc', over', s') && j < |s.procs| == |s'.procs| && s'.procs[j].parent.Some?
    ensures var q := s'.procs[j].parent.value;
      || (s.procs[j].parent == Some(q) && !(eff.Create? && eff.i == j) && s'.procs[j].creator == s.procs[j].creator)
      || (eff == Reparent(j) && q == INIT)
      || (eff == SetParent(j, p) && q == p && s'.procs[j].creator == s.procs[j].creator == p
           && s.procs[p].state == RUNNING
          && s.procs[j].state == USED)
    ensures s'.procs[j].parent.value < |s.procs|
    ensures var q := s'.procs[j].parent.value; q == INIT || q == p || s.procs[j].parent == s'.procs[j].parent
  {
    hide Inv, WaitStep, ExitStep, ScanOk, WaitOk, ReapedOk, ExitOk, CodeStep, OverStep, Move, ThreadShape, OwnAfter,
      EffectStep, SlotStep, ProcessOk;
    assert ParentOk(s, j);
    ParentEffect(s, c, p, op, eff, pc', over', s', j);
    if eff.SetParent? && eff.i == j {
      ForkedChild(s, c, p, op, eff, pc', over', s', j);
    }
  }

  lemma UnusedStep(s: State, c: nat, p: nat, op: LockOp, eff: Effect, pc': Pc, over': Over, s': State, j: nat)
    requires FamilyStep(s, c, p, op, eff, pc', over', s') && j < |s.procs| == |s'.procs| && s'.procs[j].state == UNUSED
    ensures s'.procs[j].parent == None
  {
    hide Inv, WaitStep, ExitStep, ScanOk, WaitOk, ReapedOk, ExitOk, CodeStep, OverStep, Move;
    StepKeeps(s, c, p, op, eff, pc', over', s', j);
    assert ParentOk(s, j);
    if s'.procs[j].parent.Some? {
      NewParent(s, c, p, op, eff, pc', over', s', j);
    }
  }

  lemma ParentStep(s: State, c: nat, p: nat, op: LockOp, eff: Effect, pc': Pc, over': Over, s': State, j: nat)
    requires FamilyStep(s, c, p, op, eff, pc', over', s') && j < |s.procs|
    ensures |s'.procs| == |s.procs| && ParentOk(s', j)
  {
    hide FamilyStep, Alive;
    SameSize(s, c, p, op, eff, pc', over', s');
    if s'.procs[j].parent.Some? {
      ParentLives(s, c, p, op, eff, pc', over', s', j);
    }
    if s'.procs[j].state == UNUSED {
      UnusedStep(s, c, p, op, eff, pc', over', s', j);
    }
    if Forking(s'.procs[j].pc) && s'.procs[j].pc.i < |s.procs| {
      ForkCreator(s, c, p, op, eff, pc', over', s', j);
    }
  }

  lemma SameSize(s: State, c: nat, p: nat, op: LockOp, eff: Effect, pc': Pc, over': Over, s': State)
    requires FamilyStep(s, c, p, op, eff, pc', over', s')
    ensures |s'.procs| == |s.procs| > p && s'.procs[p].pc == pc'
  {
    hide Inv, FamilyInv, WaitStep, ExitStep, EffectStep, CodeStep, OverStep, Move;
  }

  lemma ForkCreator(s: State, c: nat, p: nat, op: LockOp, eff: Effect, pc': Pc, over': Over, s': State, j: nat)
    requires FamilyStep(s, c, p, op, eff, pc', over', s') && j < |s.procs| == |s'.procs| && Forking(s'.procs[j].pc)
      && s'.procs[j].pc.i < |s.procs|
    ensures s'.procs[s'.procs[j].pc.i].creator == j
  {
    hide CpuOk, HoldsExactly, OnOne, WaitStep, ExitStep, EffectStep, ScanOk, WaitOk, ReapedOk, ExitOk, CodeStep,
      OverStep, Move;
    assert ParentOk(s, j);
    StepKeeps(s, c, p, op, eff, pc', over', s', j);
    StepKeeps(s, c, p, op, eff, pc', over', s', s'.procs[j].pc.i);
  }

  /** Which processes are asleep in wait that were not. */
  lemma NewWaiter(s: State, c: nat, p: nat, op: LockOp, eff: Effect, pc': Pc, over': Over, s': State, q: nat)
    requires FamilyStep(s, c, p, op, eff, pc', over', s') && q < |s.procs| == |s'.procs|
    requires Asleep(s'.procs[q], OfProc(q), WAIT) && !Asleep(s.procs[q], OfProc(q), WAIT)
    ensures q == p && s.procs[p].pc == SleepBoth(OfProc(q), WAIT) && eff == Nothing
  {
    hide Inv, FamilyInv, WaitStep, ExitStep, EffectStep, ThreadShape, TargetFree, SlotStep, Asleep, CodeStep,
      OverStep, Move;
    NewlyAsleep(s, c, p, op, eff, pc', over', s', q, OfProc(q), WAIT);
  }

  lemma ExitOther(s: State, c: nat, p: nat, op: LockOp, eff: Effect, pc': Pc, over': Over, s': State, q: nat)
    requires FamilyStep(s, c, p, op, eff, pc', over', s') && q < |s.procs| && q != p
    ensures |s'.procs| == |s.procs| && ExitOk(s', q)
  {
    hide FamilyStep, Asleep;
    SameSize(s, c, p, op, eff, pc', over', s');
    StepKeeps(s, c, p, op, eff, pc', over', s', q);
    ExitOkBefore(s, c, p, op, eff, pc', over', s', q);
    if WAIT in Spins(s'.procs[q].pc) {
      if eff.Reparent? || eff.SetParent? || eff.MakeZombie? || eff.Free? {
        WaitLockOne(s, c, p, op, eff, pc', over', s', q);
      } else {
        forall j: nat | j < |s.procs|
          ensures s'.procs[j].parent == s.procs[j].parent
        {
          StepKeeps(s, c, p, op, eff, pc', over', s', j);
        }
        var r := s'.procs[q].parent;
        if r.Some? && r.value < |s.procs| && Asleep(s'.procs[r.value], OfProc(r.value), WAIT)
          && !Asleep(s.procs[r.value], OfProc(r.value), WAIT) {
          NewWaiter(s, c, p, op, eff, pc', over', s', r.value);
          WaiterOne(s, c, p, op, eff, pc', over', s', q);
        }
      }
    }
  }

  lemma WaiterOne(s: State, c: nat, p: nat, op: LockOp, eff: Effect, pc': Pc, over': Over, s': State, q: nat)
    requires FamilyStep(s, c, p, op, eff, pc', over', s') && p < |s.procs| && q < |s.procs|
      && WAIT in Spins(s.procs[p].pc) && WAIT in Spins(s.procs[q].pc)
    ensures p == q
  {
    hide Inv, FamilyInv, WaitStep, ExitStep, EffectStep, ThreadShape, TargetFree, SlotStep, CodeStep, OverStep, Move;
    SpinOne(s, p, q, WAIT);
  }

  lemma ExitOkBefore(s: State, c: nat, p: nat, op: LockOp, eff: Effect, pc': Pc, over': Over, s': State, q: nat)
    requires FamilyStep(s, c, p, op, eff, pc', over', s') && q < |s.procs|
    ensures ExitOk(s, q) && ScanOk(s, q) && WaitOk(s, q) && ParentOk(s, q) && InitOk(s)
  {
    hide ExitOk, ScanOk, WaitOk, ParentOk, Inv, WaitStep, ExitStep, EffectStep, ThreadShape, TargetFree, SlotStep,
      CodeStep, OverStep, Move;
  }

  lemma ScanOther(s: State, c: nat, p: nat, op: LockOp, eff: Effect, pc': Pc, over': Over, s': State, q: nat)
    requires FamilyStep(s, c, p, op, eff, pc', over', s') && q < |s.procs| && q != p
    ensures |s'.procs| == |s.procs| && ScanOk(s', q)
  {
    hide FamilyStep;
    SameSize(s, c, p, op, eff, pc', over', s');
    StepKeeps(s, c, p, op, eff, pc', over', s', q);
    ExitOkBefore(s, c, p, op, eff, pc', over', s', q);
    if WAIT in Spins(s'.procs[q].pc) {
      if eff.Reparent? || eff.SetParent? || eff.MakeZombie? || eff.Free? {
        WaitLockOne(s, c, p, op, eff, pc', over', s', q);
      } else {
        forall j: nat | j < |s.procs|
          ensures s'.procs[j].parent == s.procs[j].parent
            && (s'.procs[j].state == ZOMBIE <==> s.procs[j].state == ZOMBIE)
        {
          StepKeeps(s, c, p, op, eff, pc', over', s', j);
        }
      }
    }
  }

  lemma ScanOwn(s: State, c: nat, p: nat, op: LockOp, eff: Effect, pc': Pc, over': Over, s': State)
    requires FamilyStep(s, c, p, op, eff, pc', over', s') && p < |s.procs|
    ensures |s'.procs| == |s.procs| && ScanOk(s', p)
  {
    hide Inv, FamilyInv, ExitStep, EffectStep, ThreadShape, TargetFree, SlotStep, Scanned, CodeStep, OverStep, Move;
    SameSize(s, c, p, op, eff, pc', over', s');
    ExitOkBefore(s, c, p, op, eff, pc', over', s', p);
    if Scanned(p, pc', |s.procs|) > 0 || pc'.WaitAt? {
      forall j: nat | j < |s.procs|
        ensures s'.procs[j].parent == s.procs[j].parent
          && (s'.procs[j].state == ZOMBIE <==> s.procs[j].state == ZOMBIE)
      {
        StepKeeps(s, c, p, op, eff, pc', over', s', j);
      }
    }
  }

  /** exit's children are no longer its own as far as it has come. */
  lemma ExitGives(s: State, c: nat, p: nat, op: LockOp, eff: Effect, pc': Pc, over': Over, s': State, j: nat)
    requires FamilyStep(s, c, p, op, eff, pc', over', s') && p < |s.procs| && j < |s.procs| == |s'.procs|
      && j < GivenAway(pc', |s.procs|)
    ensures s'.procs[j].parent != Some(p)
  {
    hide Inv, FamilyInv, WaitStep, TargetFree, SlotStep, ThreadShape, Affect, Target, ScanOk, WaitOk, ParentOk, Alive,
      Asleep, ParentChan, CodeStep, OverStep, Move;
    ExitOkBefore(s, c, p, op, eff, pc', over', s', p);
    if s'.procs[j].parent == Some(p) {
      NewParent(s, c, p, op, eff, pc', over', s', j);
      StaysGone(s, c, p, op, eff, pc', over', s', j);
    }
  }

  lemma StaysGone(s: State, c: nat, p: nat, op: LockOp, eff: Effect, pc': Pc, over': Over, s': State, j: nat)
    requires FamilyStep(s, c, p, op, eff, pc', over', s') && j < |s.procs| == |s'.procs|
    ensures eff == Reparent(j) ==> s'.procs[j].parent == Some(INIT)
  {
    hide Inv, FamilyInv, WaitStep, TargetFree, SlotStep, ExitStep, EffectStep, CodeStep, OverStep, Move;
  }

  lemma ParentWoken(s: State, p: nat, r: nat)
    requires p < |s.procs| && r < |s.procs| && Passed(s, ByCode(p))
    requires var pc := s.procs[p].pc; pc.Wake? && pc.after == ToExit && pc.ch == OfProc(r) && pc.i >= |s.procs|
    ensures !Asleep(s.procs[r], OfProc(r), WAIT)
  {
    assert WAIT in ScanOf(s, ByCode(p)).value.ns;
  }

  /** When exit has woken its parent, the parent is not asleep in wait. */
  lemma ExitWakes(s: State, c: nat, p: nat, op: LockOp, eff: Effect, pc': Pc, over': Over, s': State)
    requires FamilyStep(s, c, p, op, eff, pc', over', s') && p < |s.procs| == |s'.procs| && Passed(s, ByCode(p))
      && (pc'.ExitWoke? || pc'.ExitBoth?)
    ensures var r := s'.procs[p].parent; r.Some? && r.value < |s.procs| ==>
      !Asleep(s'.procs[r.value], OfProc(r.value), WAIT)
  {
    hide Inv, FamilyInv, WaitStep, TargetFree, SlotStep, ThreadShape, EffectStep, CodeStep, OverStep, Move;
    ExitOkBefore(s, c, p, op, eff, pc', over', s', p);
    StepKeeps(s, c, p, op, eff, pc', over', s', p);
    var r := s'.procs[p].parent;
    if r.Some? && r.value < |s.procs| {
      if s.procs[p].pc.Wake? {
        ParentWoken(s, p, r.value);
      }
      if Asleep(s'.procs[r.value], OfProc(r.value), WAIT) {
        NewWaiter(s, c, p, op, eff, pc', over', s', r.value);
      }
    }
  }

  lemma ExitMover(s: State, c: nat, p: nat, op: LockOp, eff: Effect, pc': Pc, over': Over, s': State)
    requires FamilyStep(s, c, p, op, eff, pc', over', s') && p < |s.procs| && Passed(s, ByCode(p))
    ensures |s'.procs| == |s.procs| && ExitOk(s', p)
  {
    hide Inv, FamilyInv, WaitStep, TargetFree, SlotStep, ThreadShape, Asleep, GivenAway, CodeStep, OverStep, Move;
    SameSize(s, c, p, op, eff, pc', over', s');
    ExitOkBefore(s, c, p, op, eff, pc', over', s', p);
    StepKeeps(s, c, p, op, eff, pc', over', s', p);
    forall j: nat | j < |s.procs| && j < GivenAway(pc', |s.procs|)
      ensures s'.procs[j].parent != Some(p)
    {
      ExitGives(s, c, p, op, eff, pc', over', s', j);
    }
    if pc'.ExitWoke? || pc'.ExitBoth? {
      ExitWakes(s, c, p, op, eff, pc', over', s');
    }
  }

  /** init's pending wakeup goes on, or has woken init. */
  lemma InitPendingStep(s: State, c: nat, p: nat, op: LockOp, eff: Effect, pc': Pc, over': Over, s': State, w: Waker)
    requires FamilyStep(s, c, p, op, eff, pc', over', s') && |s'.procs| == |s.procs| > 0 && InitPending(s, w)
    requires Asleep(s'.procs[INIT], OfProc(INIT), WAIT)
    ensures InitPending(s', w)
  {
    hide FamilyInv, Stepped, WaitStep, ExitStep, EffectStep, SlotStep, Asleep, Move, ScanMoves, Pending;
    AnyScans(s, c, p, op, eff, pc', over', s', w);
    assert Inv(s) by { SteppedInv(s, c, p, op, eff, pc', over', s'); }
    PendingMoves(s, w, s', INIT, OfProc(INIT), WAIT);
  }

  lemma SteppedInv(s: State, c: nat, p: nat, op: LockOp, eff: Effect, pc': Pc, over': Over, s': State)
    requires Stepped(s, c, p, op, eff, pc', over', s')
    ensures Inv(s)
  {
    hide Inv, ThreadShape, TargetFree, CodeStep, OverStep, ProcessOk;
  }

  lemma WaitOkStep(s: State, c: nat, p: nat, op: LockOp, eff: Effect, pc': Pc, over': Over, s': State, q: nat, j: nat)
    requires FamilyStep(s, c, p, op, eff, pc', over', s') && q < |s.procs| == |s'.procs| && j < |s.procs|
    requires s'.procs[j].parent == Some(q) && s'.procs[j].state == ZOMBIE && Asleep(s'.procs[q], OfProc(q), WAIT)
    ensures q == INIT && exists w :: InitPending(s', w)
  {
    hide Inv, FamilyInv, WaitStep, ExitStep, TargetFree, SlotStep, ThreadShape, CodeStep, OverStep, Move;
    SameSize(s, c, p, op, eff, pc', over', s');
    ExitOkBefore(s, c, p, op, eff, pc', over', s', q);
    ExitOkBefore(s, c, p, op, eff, pc', over', s', p);
    StepKeeps(s, c, p, op, eff, pc', over', s', j);
    NewParent(s, c, p, op, eff, pc', over', s', j);
    if !Asleep(s.procs[q], OfProc(q), WAIT) {
      NewWaiter(s, c, p, op, eff, pc', over', s', q);
    } else if s.procs[j].parent == Some(q) && s.procs[j].state == ZOMBIE {
      var w :| InitPending(s, w);
      InitPendingStep(s, c, p, op, eff, pc', over', s', w);
    } else if eff == Reparent(j) {
      assert InitPending(s', ByCode(p));
    } else {
      NewZombie(s, c, p, op, eff, pc', over', s', j);
    }
  }

  /** A process becomes a zombie by its own exit only. */
  lemma NewZombie(s: State, c: nat, p: nat, op: LockOp, eff: Effect, pc': Pc, over': Over, s': State, j: nat)
    requires FamilyStep(s, c, p, op, eff, pc', over', s') && j < |s.procs| == |s'.procs| && s'.procs[j].state == ZOMBIE
      && s.procs[j].state != ZOMBIE
    ensures j == p && eff == MakeZombie(p) && s.procs[p].pc == ExitBoth && s'.procs[j].parent == s.procs[j].parent
  {
    hide Inv, FamilyInv, WaitStep, ExitStep, SlotStep, CodeStep, OverStep, Move;
  }

  lemma ThreadFamilyInv(s: State, c: nat, p: nat, op: LockOp, eff: Effect, pc': Pc, over': Over, s': State)
    requires Inv(s) && SleepInv(s) && FamilyInv(s) && ThreadStep(s, c, p, op, eff, pc', over', s')
    ensures FamilyInv(s')
  {
    hide Inv, FamilyStep, ThreadStep, InitOk, ReapedOk, ParentOk, ExitOk, ScanOk, Passed, Asleep, InitPending;
    FamilySteps(s, c, p, op, eff, pc', over', s');
    SameSize(s, c, p, op, eff, pc', over', s');
    InitStep(s, c, p, op, eff, pc', over', s');
    ReapedStep(s, c, p, op, eff, pc', over', s');
    forall q: nat | q < |s'.procs|
      ensures ParentOk(s', q) && ExitOk(s', q) && ScanOk(s', q) && WaitOk(s', q)
    {
      ParentStep(s, c, p, op, eff, pc', over', s', q);
      if q == p {
        ExitMover(s, c, p, op, eff, pc', over', s');
        ScanOwn(s, c, p, op, eff, pc', over', s');
      } else {
        ExitOther(s, c, p, op, eff, pc', over', s', q);
        ScanOther(s, c, p, op, eff, pc', over', s', q);
      }
      forall j: nat | j < |s'.procs| && s'.procs[j].parent == Some(q) && s'.procs[j].state == ZOMBIE
        && Asleep(s'.procs[q], OfProc(q), WAIT)
        ensures q == INIT && exists w :: InitPending(s', w)
      {
        WaitOkStep(s, c, p, op, eff, pc', over', s', q, j);
      }
    }
  }

  lemma QuietFamilyInv(s: State, st: Step)
    requires Inv(s) && FamilyInv(s) && CanStep(s, st) && !st.Thread?
    ensures FamilyInv(Next(s, st))
  {
    hide Inv, Next, CanStep, GivenAway, Scanned, InExit, Pending, ScanMoves;
    QuietProcs(s, st);
    var s' := Next(s, st);
    assert forall p: nat | p < |s.procs| :: Unmoved(s.procs[p], s'.procs[p]);
    forall p: nat | p < |s'.procs|
      ensures ParentOk(s', p) && ExitOk(s', p) && ScanOk(s', p)
    {
      assert ParentOk(s, p) && ExitOk(s, p) && ScanOk(s, p);
    }
    forall q: nat, j: nat | q < |s'.procs| && j < |s'.procs| && s'.procs[j].parent == Some(q)
      && s'.procs[j].state == ZOMBIE && Asleep(s'.procs[q], OfProc(q), WAIT)
      ensures q == INIT && exists w :: InitPending(s', w)
    {
      assert WaitOk(s, q);
      var w :| InitPending(s, w);
      QuietScans(s, st, w);
      PendingMoves(s, w, s', INIT, OfProc(INIT), WAIT);
      assert InitPending(s', w);
    }
  }

  lemma InitialFamilyInv(s: State)
    requires Initial(s)
    ensures FamilyInv(s)
  {
    forall p: nat | p < |s.procs|
      ensures s.procs[p].parent == None && (s.procs[p].pc == Start || s.procs[p].pc == Exited)
    {
    }
  }

  lemma {:induction false} RunFamilyInv(run: seq<State>, steps: seq<Step>, i: nat)
    requires IsRun(run, steps) && i < |run|
    ensures Inv(run[i]) && SleepInv(run[i]) && FamilyInv(run[i])
  {
    hide Inv, Next, SleepInv, FamilyInv;
    RunSleepInv(run, steps, i);
    if i == 0 {
      InitialFamilyInv(run[0]);
    } else {
      RunFamilyInv(run, steps, i - 1);
      var s, st := run[i - 1], steps[i - 1];
      if st.Thread? {
        ThreadFamilyInv(s, st.c, s.cpus[st.c].on.value, st.op, st.eff, st.pc', st.over', run[i]);
      } else {
        QuietFamilyInv(s, st);
      }
    }
  }

  /** No process has a ZOMBIE or UNUSED parent, and a parent is the process's creator or init. */
  lemma ParentsAlive(run: seq<State>, steps: seq<Step>, i: nat, j: nat)
    requires IsRun(run, steps) && i < |run| && j < |run[i].procs| && run[i].procs[j].parent.Some?
    ensures var q := run[i].procs[j].parent.value;
      q < |run[i].procs| && run[i].procs[q].state != ZOMBIE && run[i].procs[q].state != UNUSED
        && (q == run[i].procs[j].creator || q == INIT)
  {
    hide Inv, Next, SleepInv, ExitOk, ScanOk, WaitOk, ReapedOk;
    RunFamilyInv(run, steps, i);
    assert ParentOk(run[i], j);
  }

  /** Whenever wait_lock is free, no process asleep in wait has a ZOMBIE child. */
  lemma NoForgottenZombie(run: seq<State>, steps: seq<Step>, i: nat, q: nat, j: nat)
    requires IsRun(run, steps) && i < |run| && Spin(WAIT) !in run[i].held && q < |run[i].procs| && j < |run[i].procs|
    requires Asleep(run[i].procs[q], OfProc(q), WAIT) && run[i].procs[j].parent == Some(q)
    ensures run[i].procs[j].state != ZOMBIE
  {
    hide Inv, Next, SleepInv, ExitOk, ScanOk, ParentOk, ReapedOk, Asleep, ScanOf;
    RunFamilyInv(run, steps, i);
    var s := run[i];
    assert WaitOk(s, q);
    if s.procs[j].state == ZOMBIE {
      var w :| InitPending(s, w);
      var d := WakerHolds(s, w);
    }
  }

  /** Each life of a slot is reaped at most once, after its exit, by the process that is then its parent. */
  lemma ReapedOnce(run: seq<State>, steps: seq<Step>, i: nat)
    requires IsRun(run, steps) && i < |steps| && steps[i].Thread? && steps[i].eff.Free?
    ensures var s, j := run[i], steps[i].eff.j;
      && j < |s.procs| && s.procs[j].state == ZOMBIE && (j, s.procs[j].gen) !in s.reaped
      && run[i + 1].reaped == s.reaped[(j, s.procs[j].gen) := steps[i].eff.who]
      && s.cpus[steps[i].c].on == Some(steps[i].eff.who) == s.procs[j].parent
  {
    hide Inv, SleepInv, FamilyInv, Move, ExitStep, WaitStep, ThreadShape, CodeStep, OverStep;
    RunFamilyInv(run, steps, i);
    var s, st := run[i], steps[i];
    var p := s.cpus[st.c].on.value;
    FamilySteps(s, st.c, p, st.op, st.eff, st.pc', st.over', run[i + 1]);
    ReapedStep(s, st.c, p, st.op, st.eff, st.pc', st.over', run[i + 1]);
    ExitOkBefore(s, st.c, p, st.op, st.eff, st.pc', st.over', run[i + 1], p);
  }
}
