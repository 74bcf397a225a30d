/** What wait returns, in every run: a child that it has freed, or -1 with a reason and no child freed. */
module ProcReap {
  import opened Collections
  import opened Proc
  import opened ProcControl
  import opened ProcSleep
  import opened ProcWait

  /** How far wait has scanned without finding a child. */
  function NoneTo(pc: Pc, size: nat): nat {
    match pc
    case WaitScan(j, kids) => if kids then 0 else j
    case WaitAt(j, kids) => if kids then 0 else j
    case WaitDone(NoChild) => size
    case _ => 0
  }

  /** The way to wait's result. */
  predicate ResultStep(s: State, p: nat, pc: Pc, eff: Effect, pc': Pc)
    requires p < |s.procs|
  {
    && (eff.WaitArg? ==> eff.p == p && pc == Run)
    && (eff.Free? ==> pc.WaitAt? && eff.j < |s.procs| && pc' == WaitDone(Pid(eff.j, s.procs[eff.j].gen)))
    && (NoneTo(pc', |s.procs|) > 0 ==> eff == Nothing)
    && (NoneTo(pc', |s.procs|) > NoneTo(pc, |s.procs|) ==>
         || NoneTo(pc, |s.procs|) >= |s.procs|
         || (var j := NoneTo(pc, |s.procs|); NoneTo(pc', |s.procs|) == j + 1 && s.procs[j].parent != Some(p)))
    && (pc'.WaitDone? ==> (pc' == pc && eff == Nothing) || Returns(s, p, pc, eff, pc'.r))
    && (pc.WaitDone? ==> pc' == pc || pc' == Run)
  }

  /** What each result is returned for. */
  predicate Returns(s: State, p: nat, pc: Pc, eff: Effect, r: WaitResult)
    requires p < |s.procs|
  {
    match r
    case Pid(j, gen) =>
      && pc.WaitAt? && pc.j == j < |s.procs| && s.procs[j].state == ZOMBIE && gen == s.procs[j].gen && eff == Free(j, p)
    case CopyFailed(j) =>
      && pc.WaitAt? && pc.j == j < |s.procs| && s.procs[j].state == ZOMBIE && p in s.copies && eff == Nothing
    case NoChild => pc.WaitScan? && !pc.kids && pc.j >= |s.procs| && eff == Nothing
    case WasKilled => s.procs[p].killed && eff == Nothing
  }

  lemma WaitResults(s: State, p: nat, op: LockOp, eff: Effect, pc': Pc)
    requires p < |s.procs| && WaitMove(s, p, op, eff, pc')
    ensures ResultStep(s, p, s.procs[p].pc, eff, pc')
  {
  }

  /** No other code frees a process or is at the end of wait. */
  predicate Elsewhere(pc: Pc, eff: Effect, pc': Pc, size: nat) {
    && !pc.WaitDone? && !pc.WaitAt? && !pc.WaitCheck? && !pc'.WaitDone?
    && NoneTo(pc', size) == 0 && !eff.Free? && !eff.WaitArg?
  }

  lemma ClientElse(s: State, p: nat, op: LockOp, eff: Effect, pc': Pc)
    requires p < |s.procs| && ClientMove(s, p, op, eff, pc')
    ensures Elsewhere(s.procs[p].pc, eff, pc', |s.procs|)
  {
    hide MaySleep, ParentChan;
  }

  lemma SleepLockElse(s: State, p: nat, op: LockOp, eff: Effect, pc': Pc)
    requires p < |s.procs| && SleepLockMove(s, p, op, eff, pc')
    ensures Elsewhere(s.procs[p].pc, eff, pc', |s.procs|)
  {
    hide MaySleep, ParentChan;
  }

  lemma SchedElse(s: State, p: nat, op: LockOp, eff: Effect, pc': Pc)
    requires p < |s.procs| && SchedMove(s, p, op, eff, pc')
    ensures Elsewhere(s.procs[p].pc, eff, pc', |s.procs|)
  {
    hide MaySleep, ParentChan;
  }

  lemma WakeElse(s: State, p: nat, op: LockOp, eff: Effect, pc': Pc)
    requires p < |s.procs| && WakeMove(s, p, op, eff, pc')
    ensures Elsewhere(s.procs[p].pc, eff, pc', |s.procs|)
  {
    hide MaySleep, ParentChan;
  }

  lemma KillElse(s: State, p: nat, op: LockOp, eff: Effect, pc': Pc)
    requires p < |s.procs| && KillMove(s, p, op, eff, pc')
    ensures Elsewhere(s.procs[p].pc, eff, pc', |s.procs|)
  {
    hide MaySleep, ParentChan;
  }

  lemma ForkElse(s: State, p: nat, op: LockOp, eff: Effect, pc': Pc)
    requires p < |s.procs| && ForkMove(s, p, op, eff, pc')
    ensures Elsewhere(s.procs[p].pc, eff, pc', |s.procs|)
  {
    hide MaySleep, ParentChan;
  }

  lemma ExitElse(s: State, p: nat, op: LockOp, eff: Effect, pc': Pc)
    requires p < |s.procs| && ExitMove(s, p, op, eff, pc')
    ensures Elsewhere(s.procs[p].pc, eff, pc', |s.procs|)
  {
    hide MaySleep, ParentChan;
  }

  lemma CodeElse(s: State, p: nat, op: LockOp, eff: Effect, pc': Pc)
    requires p < |s.procs| && CodeMove(s, p, op, eff, pc') && !WaitMove(s, p, op, eff, pc')
    ensures Elsewhere(s.procs[p].pc, eff, pc', |s.procs|)
  {
    hide Elsewhere, ClientMove, SleepLockMove, SchedMove, WakeMove, KillMove, ForkMove, ExitMove, WaitMove;
    if ClientMove(s, p, op, eff, pc') {
      ClientElse(s, p, op, eff, pc');
    } else if SleepLockMove(s, p, op, eff, pc') {
      SleepLockElse(s, p, op, eff, pc');
    } else if SchedMove(s, p, op, eff, pc') {
      SchedElse(s, p, op, eff, pc');
    } else if WakeMove(s, p, op, eff, pc') {
      WakeElse(s, p, op, eff, pc');
    } else if KillMove(s, p, op, eff, pc') {
      KillElse(s, p, op, eff, pc');
    } else if ForkMove(s, p, op, eff, pc') {
      ForkElse(s, p, op, eff, pc');
    } else {
      ExitElse(s, p, op, eff, pc');
    }
  }

  lemma ElseResults(s: State, p: nat, eff: Effect, pc': Pc)
    requires p < |s.procs| && Elsewhere(s.procs[p].pc, eff, pc', |s.procs|)
    ensures ResultStep(s, p, s.procs[p].pc, eff, pc')
  {
    hide NoneTo, Returns;
  }

  lemma CodeResults(s: State, p: nat, op: LockOp, eff: Effect, pc': Pc)
    requires p < |s.procs| && CodeMove(s, p, op, eff, pc')
    ensures ResultStep(s, p, s.procs[p].pc, eff, pc')
  {
    hide CodeMove, WaitMove, Elsewhere, ResultStep;
    if WaitMove(s, p, op, eff, pc') {
      WaitResults(s, p, op, eff, pc');
    } else {
      CodeElse(s, p, op, eff, pc');
      ElseResults(s, p, eff, pc');
    }
  }

  lemma OverResults(s: State, p: nat, op: LockOp, eff: Effect, pc': Pc, over': Over)
    requires p < |s.procs| && OverStep(s, p, op, eff, pc', over')
    ensures ResultStep(s, p, s.procs[p].pc, eff, pc')
  {
    hide HandlerMove;
  }

  lemma MoveResults(s: State, p: nat, op: LockOp, eff: Effect, pc': Pc, over': Over)
    requires p < |s.procs| && Move(s, p, op, eff, pc', over') && ProcessOk(p, s.procs[p], true)
    ensures ResultStep(s, p, s.procs[p].pc, eff, pc')
  {
    hide ResultStep, CodeMove, OverMove, OverStep, ProcessOk;
    if s.procs[p].over == Plain == over' && CodeMove(s, p, op, eff, pc') {
      CodeResults(s, p, op, eff, pc');
    } else {
      OverSteps(s, p, op, eff, over');
      OverResults(s, p, op, eff, pc', over');
    }
  }

  /** What a result still to be returned says of the children and of the process. */
  ghost predicate ResultOk(s: State, p: nat, r: WaitResult)
    requires p < |s.procs|
  {
    match r
    case Pid(j, gen) => (j, gen) in s.reaped && s.reaped[(j, gen)] == p
    case CopyFailed(j) =>
      j < |s.procs| && s.procs[j].state == ZOMBIE && s.procs[j].parent == Some(p) && p in s.copies
    case NoChild => true
    case WasKilled => s.procs[p].killed
  }

  ghost predicate WaitsOk(s: State, p: nat)
    requires p < |s.procs|
  {
    var pc := s.procs[p].pc;
    && (forall j: nat | j < |s.procs| && j < NoneTo(pc, |s.procs|) :: s.procs[j].parent != Some(p))
    && (pc.WaitDone? ==> ResultOk(s, p, pc.r))
  }

  ghost predicate ResultInv(s: State) {
    forall p: nat :: p < |s.procs| ==> WaitsOk(s, p)
  }

  /** A step sets killed flags and clears only that of a slot it frees. */
  lemma KilledStays(s: State, c: nat, p: nat, op: LockOp, eff: Effect, pc': Pc, over': Over, s': State, q: nat)
    requires ThreadShape(s, c, p, op, eff, pc', over', s') && q < |s.procs| && !eff.Free? && eff != Abandon(q)
    ensures |s'.procs| == |s.procs| && (s.procs[q].killed ==> s'.procs[q].killed)
  {
  }

  lemma ShapeOf(s: State, c: nat, p: nat, op: LockOp, eff: Effect, pc': Pc, over': Over, s': State)
    requires FamilyStep(s, c, p, op, eff, pc', over', s')
    ensures ThreadShape(s, c, p, op, eff, pc', over', s') && p < |s.procs| == |s'.procs|
    ensures Move(s, p, op, eff, pc', over') && ProcessOk(p, s.procs[p], true) && s'.reaped == Reaped(s, eff)
  {
    hide FamilyInv, Inv, EffectStep, ExitStep, WaitStep, SlotStep, TargetFree, CodeStep, OverStep, Move, ProcessOk;
  }

  /** Parents and zombies stay while a step changes neither. */
  lemma SameFamily(s: State, c: nat, p: nat, op: LockOp, eff: Effect, pc': Pc, over': Over, s': State, j: nat)
    requires FamilyStep(s, c, p, op, eff, pc', over', s') && j < |s.procs|
    requires !eff.Reparent? && !eff.SetParent? && !eff.MakeZombie? && !eff.Free?
    ensures |s'.procs| == |s.procs| && s'.procs[j].parent == s.procs[j].parent
    ensures s'.procs[j].state == ZOMBIE <==> s.procs[j].state == ZOMBIE
  {
    hide FamilyStep;
    StepKeeps(s, c, p, op, eff, pc', over', s', j);
  }

  lemma OwnResult(s: State, c: nat, p: nat, op: LockOp, eff: Effect, pc': Pc, over': Over, s': State)
    requires FamilyStep(s, c, p, op, eff, pc', over', s') && p < |s.procs| && WaitsOk(s, p)
      && s'.copies == Copies(s.copies, eff)
    ensures |s'.procs| == |s.procs| && WaitsOk(s', p)
  {
    hide FamilyStep, NoneTo, Move, ProcessOk, ThreadShape, ScanOk, WaitOk, ExitOk, ParentOk, InitOk;
    SameSize(s, c, p, op, eff, pc', over', s');
    ShapeOf(s, c, p, op, eff, pc', over', s');
    MoveResults(s, p, op, eff, pc', over');
    assert ScanOk(s, p) by { ExitOkBefore(s, c, p, op, eff, pc', over', s', p); }
    if eff == Nothing {
      KilledStays(s, c, p, op, eff, pc', over', s', p);
      forall j: nat | j < |s.procs|
        ensures s'.procs[j].parent == s.procs[j].parent && (s'.procs[j].state == ZOMBIE <==> s.procs[j].state == ZOMBIE)
      {
        SameFamily(s, c, p, op, eff, pc', over', s', j);
      }
      WaitAtChild(s, p);
    }
  }

  lemma WaitAtChild(s: State, p: nat)
    requires p < |s.procs| && ScanOk(s, p)
    ensures var pc := s.procs[p].pc; pc.WaitAt? ==> pc.j < |s.procs| && s.procs[pc.j].parent == Some(p)
  {
  }

  /** fork gives up only slots whose process is in no code. */
  lemma NotAbandoned(s: State, c: nat, p: nat, op: LockOp, eff: Effect, pc': Pc, over': Over, s': State, q: nat)
    requires FamilyStep(s, c, p, op, eff, pc', over', s') && q < |s.procs| && s.procs[q].pc != Exited
    ensures eff != Abandon(q)
  {
    hide FamilyInv, CpuOk, HoldsExactly, OnOne, ForksOk, EffectStep, ExitStep, WaitStep, SlotStep, CodeStep, OverStep,
      Move, ThreadShape, OverOk;
    assert ProcessOk(q, s.procs[q], IsOn(s, q));
  }

  lemma OtherResult(s: State, c: nat, p: nat, op: LockOp, eff: Effect, pc': Pc, over': Over, s': State, q: nat)
    requires FamilyStep(s, c, p, op, eff, pc', over', s') && q < |s.procs| && q != p && WaitsOk(s, q)
      && s'.copies == Copies(s.copies, eff)
    ensures |s'.procs| == |s.procs| && WaitsOk(s', q)
  {
    hide FamilyStep, Move, ProcessOk, ThreadShape;
    SameSize(s, c, p, op, eff, pc', over', s');
    ShapeOf(s, c, p, op, eff, pc', over', s');
    MoveResults(s, p, op, eff, pc', over');
    StepKeeps(s, c, p, op, eff, pc', over', s', q);
    if WAIT in Spins(s.procs[q].pc) {
      if eff.Reparent? || eff.SetParent? || eff.MakeZombie? || eff.Free? {
        WaitLockOne(s, c, p, op, eff, pc', over', s', q);
      }
      NotAbandoned(s, c, p, op, eff, pc', over', s', q);
      KilledStays(s, c, p, op, eff, pc', over', s', q);
      forall j: nat | j < |s.procs|
        ensures s'.procs[j].parent == s.procs[j].parent && (s'.procs[j].state == ZOMBIE <==> s.procs[j].state == ZOMBIE)
      {
        SameFamily(s, c, p, op, eff, pc', over', s', j);
      }
    }
  }

  lemma ThreadResultInv(s: State, c: nat, p: nat, op: LockOp, eff: Effect, pc': Pc, over': Over, s': State)
    requires Inv(s) && FamilyInv(s) && ResultInv(s) && ThreadStep(s, c, p, op, eff, pc', over', s')
    ensures ResultInv(s')
  {
    hide Inv, FamilyStep, FamilyInv, WaitsOk, Copies;
    FamilySteps(s, c, p, op, eff, pc', over', s');
    SameSize(s, c, p, op, eff, pc', over', s');
    forall q: nat | q < |s'.procs|
      ensures WaitsOk(s', q)
    {
      if q == p {
        OwnResult(s, c, p, op, eff, pc', over', s');
      } else {
        OtherResult(s, c, p, op, eff, pc', over', s', q);
      }
    }
  }

  lemma QuietResultInv(s: State, st: Step)
    requires ResultInv(s) && CanStep(s, st) && !st.Thread?
    ensures ResultInv(Next(s, st))
  {
    hide Next, CanStep, NoneTo;
    QuietProcs(s, st);
    var s' := Next(s, st);
    assert forall p: nat | p < |s.procs| :: Unmoved(s.procs[p], s'.procs[p]);
    forall p: nat | p < |s'.procs|
      ensures WaitsOk(s', p)
    {
      assert WaitsOk(s, p);
    }
  }

  lemma {:induction false} RunResultInv(run: seq<State>, steps: seq<Step>, i: nat)
    requires IsRun(run, steps) && i < |run|
    ensures ResultInv(run[i])
  {
    hide Inv, Next, SleepInv, FamilyInv, ResultInv;
    if i == 0 {
      InitialResultInv(run[0]);
    } else {
      RunResultInv(run, steps, i - 1);
      RunFamilyInv(run, steps, i - 1);
      var s, st := run[i - 1], steps[i - 1];
      if st.Thread? {
        ThreadResultInv(s, st.c, s.cpus[st.c].on.value, st.op, st.eff, st.pc', st.over', run[i]);
      } else {
        QuietResultInv(s, st);
      }
    }
  }

  lemma InitialResultInv(s: State)
    requires Initial(s)
    ensures ResultInv(s)
  {
    assert forall p: nat :: p < |s.procs| ==> s.procs[p].pc == Start || s.procs[p].pc == Exited;
  }

  /** A process about to return from wait: with a pid, it is the one that reaped that life of the slot; with -1, it has
      no child at all, or has been killed, or had an address for the status and its child is still there, a zombie. */
  lemma WaitReturns(run: seq<State>, steps: seq<Step>, i: nat, p: nat)
    requires IsRun(run, steps) && i < |run| && p < |run[i].procs| && run[i].procs[p].pc.WaitDone?
    ensures var s := run[i]; match s.procs[p].pc.r
      case Pid(j, gen) => (j, gen) in s.reaped && s.reaped[(j, gen)] == p
      case CopyFailed(j) =>
        j < |s.procs| && s.procs[j].state == ZOMBIE && s.procs[j].parent == Some(p) && p in s.copies
      case NoChild => forall j: nat | j < |s.procs| :: s.procs[j].parent != Some(p)
      case WasKilled => s.procs[p].killed
  {
    RunResultInv(run, steps, i);
    assert WaitsOk(run[i], p);
  }

  /** A step by thread p. */
  predicate IsBy(s: State, st: Step, p: nat) {
    st.Thread? && st.c < |s.cpus| && s.cpus[st.c].on == Some(p)
  }

  /** The step with which wait comes to a pid has found that child a zombie and leaves its slot free and its life
      reaped. */
  lemma PidFreed(run: seq<State>, steps: seq<Step>, i: nat, p: nat)
    requires IsRun(run, steps) && i < |steps| && IsBy(run[i], steps[i], p) && p < |run[i].procs|
    requires var pc' := steps[i].pc'; pc'.WaitDone? && pc'.r.Pid? && run[i].procs[p].pc != pc'
    ensures var s, s', r := run[i], run[i + 1], steps[i].pc'.r;
      && r.j < |s.procs| == |s'.procs| && s.procs[r.j].state == ZOMBIE && s.procs[r.j].parent == Some(p)
      && s'.procs[r.j].state == UNUSED && s'.procs[r.j].parent == None
      && s.procs[r.j].gen == r.gen == s'.procs[r.j].gen
      && (r.j, r.gen) !in s.reaped && s'.reaped == s.reaped[(r.j, r.gen) := p]
  {
    hide Inv, SleepInv, FamilyInv, Next;
    RunFamilyInv(run, steps, i);
    var s, st, s' := run[i], steps[i], run[i + 1];
    PidStep(s, st.c, p, st.op, st.eff, st.pc', st.over', s');
  }

  lemma PidStep(s: State, c: nat, p: nat, op: LockOp, eff: Effect, pc': Pc, over': Over, s': State)
    requires Inv(s) && FamilyInv(s) && ThreadStep(s, c, p, op, eff, pc', over', s') && p < |s.procs|
    requires pc'.WaitDone? && pc'.r.Pid? && s.procs[p].pc != pc'
    ensures var r := pc'.r;
      && r.j < |s.procs| == |s'.procs| && s.procs[r.j].state == ZOMBIE && s.procs[r.j].parent == Some(p)
      && s'.procs[r.j].state == UNUSED && s'.procs[r.j].parent == None
      && s.procs[r.j].gen == r.gen == s'.procs[r.j].gen
      && (r.j, r.gen) !in s.reaped && s'.reaped == s.reaped[(r.j, r.gen) := p]
  {
    hide Inv, FamilyInv, FamilyStep, Move, ProcessOk, ScanOk, WaitOk, ExitOk, ParentOk, InitOk, ThreadStep, NoneTo;
    FamilySteps(s, c, p, op, eff, pc', over', s');
    ShapeOf(s, c, p, op, eff, pc', over', s');
    MoveResults(s, p, op, eff, pc', over');
    ReapedStep(s, c, p, op, eff, pc', over', s');
    assert ScanOk(s, p) by { ExitOkBefore(s, c, p, op, eff, pc', over', s', p); }
    WaitAtChild(s, p);
    ZombieOther(s, c, p, op, eff, pc', over', s', pc'.r.j);
  }

  /** The child that wait frees is not the caller. */
  lemma ZombieOther(s: State, c: nat, p: nat, op: LockOp, eff: Effect, pc': Pc, over': Over, s': State, j: nat)
    requires FamilyStep(s, c, p, op, eff, pc', over', s') && j < |s.procs| && s.procs[j].state == ZOMBIE
      && p < |s.procs| && s.procs[p].pc.WaitAt?
    ensures j != p
  {
    hide FamilyInv, Inv, EffectStep, ExitStep, WaitStep, SlotStep, TargetFree, CodeStep, OverStep, Move, ThreadShape;
    assert ProcessOk(p, s.procs[p], true);
  }

  /** The slots, with their lives, that process p frees from step a up to step b. */
  function FreedBy(run: seq<State>, steps: seq<Step>, p: nat, a: nat, b: nat): seq<(nat, nat)>
    requires b <= |steps| && |run| == |steps| + 1
    decreases b
  {
    if b <= a then [] else
      var s, st := run[b - 1], steps[b - 1];
      FreedBy(run, steps, p, a, b - 1) + FreedNow(s, st, p)
  }

  function FreedNow(s: State, st: Step, p: nat): seq<(nat, nat)> {
    if IsBy(s, st, p) && st.eff.Free? && st.eff.j < |s.procs| then [(st.eff.j, s.procs[st.eff.j].gen)] else []
  }

  /** What a process in wait has freed by now. */
  function Got(pc: Pc): seq<(nat, nat)> {
    if pc.WaitDone? && pc.r.Pid? then [(pc.r.j, pc.r.gen)] else []
  }

  /** One call of wait by p: it enters at step a and is about to return at b. */
  ghost predicate IsWait(run: seq<State>, steps: seq<Step>, a: nat, b: nat, p: nat) {
    && a < b < |run| == |steps| + 1 && IsBy(run[a], steps[a], p) && steps[a].eff.WaitArg?
    && p < |run[b].procs| && run[b].procs[p].pc.WaitDone?
    && forall k: nat :: a < k < b && IsBy(run[k], steps[k], p) && p < |run[k].procs| && run[k].procs[p].pc.WaitDone? ==>
         steps[k].pc' != Run
  }

  /** Each step adds to what p has got exactly what it frees. */
  lemma GotStep(s: State, st: Step, s': State, p: nat)
    requires Inv(s) && FamilyInv(s) && CanStep(s, st) && s' == Next(s, st) && p < |s.procs|
    requires IsBy(s, st, p) && s.procs[p].pc.WaitDone? ==> st.pc' != Run
    ensures |s'.procs| == |s.procs|
    ensures Got(s'.procs[p].pc) == Got(s.procs[p].pc) + FreedNow(s, st, p)
    ensures IsBy(s, st, p) && st.eff.WaitArg? ==> Got(s'.procs[p].pc) == []
  {
    hide Inv, FamilyInv, Next, Move, ProcessOk, ThreadShape, NoneTo, FamilyStep;
    if st.Thread? {
      var t := s.cpus[st.c].on.value;
      FamilySteps(s, st.c, t, st.op, st.eff, st.pc', st.over', s');
      ShapeOf(s, st.c, t, st.op, st.eff, st.pc', st.over', s');
      MoveResults(s, t, st.op, st.eff, st.pc', st.over');
      StepKeeps(s, st.c, t, st.op, st.eff, st.pc', st.over', s', p);
      if s.procs[p].state == UNUSED {
        UnusedOut(s, p);
      }
    } else {
      QuietProcs(s, st);
      assert Unmoved(s.procs[p], s'.procs[p]);
    }
  }

  lemma UnusedOut(s: State, p: nat)
    requires Inv(s) && p < |s.procs| && s.procs[p].state == UNUSED
    ensures s.procs[p].pc == Exited
  {
    hide CpuOk, HoldsExactly, OnOne, ForksOk, OverOk;
    assert ProcessOk(p, s.procs[p], IsOn(s, p));
  }

  lemma {:induction false} GotSoFar(run: seq<State>, steps: seq<Step>, a: nat, b: nat, p: nat, k: nat)
    requires IsRun(run, steps) && IsWait(run, steps, a, b, p) && a < k <= b
    ensures p < |run[k].procs| && Got(run[k].procs[p].pc) == FreedBy(run, steps, p, a, k)
    decreases k
  {
    hide Inv, SleepInv, FamilyInv, Next, Got, CanStep, Initial, FreedBy, FreedNow;
    RunFamilyInv(run, steps, k - 1);
    RunSize(run, steps, k - 1, b);
    if k == a + 1 {
      EntryStep(run[a], steps[a], p);
      FreedNone(run, steps, p, a);
    } else {
      GotSoFar(run, steps, a, b, p, k - 1);
    }
    GotStep(run[k - 1], steps[k - 1], run[k], p);
    FreedNext(run, steps, p, a, k);
  }

  lemma FreedNone(run: seq<State>, steps: seq<Step>, p: nat, a: nat)
    requires a <= |steps| && |run| == |steps| + 1
    ensures FreedBy(run, steps, p, a, a) == []
  {
  }

  lemma FreedNext(run: seq<State>, steps: seq<Step>, p: nat, a: nat, b: nat)
    requires a < b <= |steps| && |run| == |steps| + 1
    ensures FreedBy(run, steps, p, a, b) == FreedBy(run, steps, p, a, b - 1)
      + FreedNow(run[b - 1], steps[b - 1], p)
  {
  }

  lemma EntryStep(s: State, st: Step, p: nat)
    requires Inv(s) && CanStep(s, st) && IsBy(s, st, p) && st.eff.WaitArg? && p < |s.procs|
    ensures s.procs[p].pc == Run && Got(s.procs[p].pc) == []
  {
    hide CpuOk, HoldsExactly, OnOne, ForksOk, Move, NoneTo;
    assert IsOn(s, p) && ProcessOk(p, s.procs[p], IsOn(s, p));
    MoveResults(s, p, st.op, st.eff, st.pc', st.over');
  }

  lemma {:induction false} RunSize(run: seq<State>, steps: seq<Step>, i: nat, k: nat)
    requires IsRun(run, steps) && i <= k < |run|
    ensures |run[i].procs| == |run[k].procs|
    decreases k
  {
    if i < k {
      RunSize(run, steps, i, k - 1);
    }
  }

  /** A whole call of wait: it frees the one child whose pid it returns, and none if it returns -1. */
  lemma WaitFrees(run: seq<State>, steps: seq<Step>, a: nat, b: nat, p: nat)
    requires IsRun(run, steps) && IsWait(run, steps, a, b, p)
    ensures match run[b].procs[p].pc.r
      case Pid(j, gen) => FreedBy(run, steps, p, a, b) == [(j, gen)]
      case _ => FreedBy(run, steps, p, a, b) == []
  {
    hide IsRun, FreedBy;
    GotSoFar(run, steps, a, b, p, b);
  }

  /** wait called without an address that has come to a zombie child does nothing but free it. */
  lemma MustReap(run: seq<State>, steps: seq<Step>, i: nat, p: nat)
    requires IsRun(run, steps) && i < |steps| && IsBy(run[i], steps[i], p) && p < |run[i].procs|
    requires var s := run[i]; var pc := s.procs[p].pc;
      pc.WaitAt? && pc.j < |s.procs| && s.procs[pc.j].state == ZOMBIE && p !in s.copies
    ensures var j := run[i].procs[p].pc.j;
      && steps[i].eff == Free(j, p) && steps[i].pc' == WaitDone(Pid(j, run[i].procs[j].gen))
      && steps[i].op == Release(OwnLock(j))
  {
    hide Inv, Next, CodeMove, OverMove;
    RunInv(run, steps, i);
    var s, st := run[i], steps[i];
    AtCode(s, st, p);
    WaitAtMove(s, p, st.op, st.eff, st.pc');
  }

  /** wait that has come to its look at the killed flag returns if and only if the process has been killed by then, and
      otherwise goes to sleep. */
  lemma KilledReturns(run: seq<State>, steps: seq<Step>, i: nat, p: nat)
    requires IsRun(run, steps) && i < |steps| && IsBy(run[i], steps[i], p) && p < |run[i].procs|
      && run[i].procs[p].pc == WaitCheck
    ensures steps[i].pc' == (if run[i].procs[p].killed then WaitDone(WasKilled) else WaitSleep)
      && run[i + 1].reaped == run[i].reaped
  {
    hide Inv, CodeMove, OverMove;
    RunInv(run, steps, i);
    var s, st := run[i], steps[i];
    AtCode(s, st, p);
    WaitAtMove(s, p, st.op, st.eff, st.pc');
  }

  /** A thread with a process's lock is not interrupted: its steps are those of its code. */
  lemma AtCode(s: State, st: Step, p: nat)
    requires Inv(s) && CanStep(s, st) && IsBy(s, st, p) && p < |s.procs|
      && (s.procs[p].pc.WaitAt? || s.procs[p].pc == WaitCheck)
    ensures CodeMove(s, p, st.op, st.eff, st.pc')
  {
    hide CpuOk, HoldsExactly, OnOne, ForksOk, CodeMove, HandlerMove;
    assert IsOn(s, p) && ProcessOk(p, s.procs[p], IsOn(s, p));
  }

  lemma WaitAtMove(s: State, p: nat, op: LockOp, eff: Effect, pc': Pc)
    requires p < |s.procs| && CodeMove(s, p, op, eff, pc') && (s.procs[p].pc.WaitAt? || s.procs[p].pc == WaitCheck)
    ensures WaitMove(s, p, op, eff, pc')
  {
    hide CodeMove, WaitMove;
    if !WaitMove(s, p, op, eff, pc') {
      CodeElse(s, p, op, eff, pc');
    }
  }
}
