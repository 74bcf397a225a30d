/** What fork has done when it returns the child's pid, in every run. */
module ProcFork {
  import opened Collections
  import opened Proc
  import opened ProcControl
  import opened ProcSleep
  import opened ProcWait
  import opened ProcReap

  /** No other part of the kernel is in fork's code after allocproc. */
  lemma FirstElse(s: State, p: nat, op: LockOp, eff: Effect, pc': Pc)
    requires p < |s.procs|
    requires ClientMove(s, p, op, eff, pc') || SleepLockMove(s, p, op, eff, pc') || SchedMove(s, p, op, eff, pc')
    ensures !Forking(s.procs[p].pc)
  {
    hide MaySleep;
  }

  lemma OtherElse(s: State, p: nat, op: LockOp, eff: Effect, pc': Pc)
    requires p < |s.procs|
    requires WakeMove(s, p, op, eff, pc') || KillMove(s, p, op, eff, pc')
    ensures !Forking(s.procs[p].pc)
  {
    hide HasPid;
  }

  lemma LastElse(s: State, p: nat, op: LockOp, eff: Effect, pc': Pc)
    requires p < |s.procs|
    requires ExitMove(s, p, op, eff, pc') || WaitMove(s, p, op, eff, pc')
    ensures !Forking(s.procs[p].pc)
  {
    hide ParentChan;
  }

  lemma ForkCode(s: State, p: nat, op: LockOp, eff: Effect, pc': Pc)
    requires p < |s.procs| && CodeMove(s, p, op, eff, pc') && Forking(s.procs[p].pc)
    ensures ForkMove(s, p, op, eff, pc')
  {
    hide ClientMove, SleepLockMove, SchedMove, WakeMove, KillMove, ForkMove, ExitMove, WaitMove, Forking;
    if ClientMove(s, p, op, eff, pc') || SleepLockMove(s, p, op, eff, pc') || SchedMove(s, p, op, eff, pc') {
      FirstElse(s, p, op, eff, pc');
    } else if WakeMove(s, p, op, eff, pc') || KillMove(s, p, op, eff, pc') {
      OtherElse(s, p, op, eff, pc');
    } else if ExitMove(s, p, op, eff, pc') || WaitMove(s, p, op, eff, pc') {
      LastElse(s, p, op, eff, pc');
    }
  }

  /** The parent is set. */
  predicate ParentSet(pc: Pc) {
    pc.ForkParent? || pc.ForkLast?
  }

  /** The way through the end of fork. */
  predicate ForkStep(p: nat, pc: Pc, eff: Effect, pc': Pc) {
    && (ParentSet(pc') ==> (ParentSet(pc) && pc.i == pc'.i) || (eff == SetParent(pc'.i, p)))
    && (ParentSet(pc) ==>
         pc' == pc || pc' == ForkLast(pc.i) || (pc.ForkLast? && eff == MakeRunnable(pc.i) && pc' == Run))
  }

  lemma ForkMoves(s: State, p: nat, op: LockOp, eff: Effect, pc': Pc)
    requires p < |s.procs| && ForkMove(s, p, op, eff, pc')
    ensures ForkStep(p, s.procs[p].pc, eff, pc')
  {
  }

  /** Outside fork, and in an interrupt. */
  lemma ElseSteps(p: nat, pc: Pc, eff: Effect, pc': Pc)
    requires SlotStep(p, pc, eff, pc') && (pc' == pc || !Forking(pc))
    ensures ForkStep(p, pc, eff, pc')
  {
  }

  lemma ForkSteps(s: State, p: nat, op: LockOp, eff: Effect, pc': Pc, over': Over)
    requires p < |s.procs| && Move(s, p, op, eff, pc', over') && SlotStep(p, s.procs[p].pc, eff, pc')
    ensures ForkStep(p, s.procs[p].pc, eff, pc')
  {
    hide CodeMove, OverMove, ForkMove, ForkStep, SlotStep, Forking;
    if s.procs[p].over == Plain == over' && CodeMove(s, p, op, eff, pc') && Forking(s.procs[p].pc) {
      ForkCode(s, p, op, eff, pc');
      ForkMoves(s, p, op, eff, pc');
    } else {
      ElseSteps(p, s.procs[p].pc, eff, pc');
    }
  }

  ghost predicate ForkOk(s: State, p: nat)
    requires p < |s.procs|
  {
    var pc := s.procs[p].pc;
    ParentSet(pc) ==> pc.i < |s.procs| && s.procs[pc.i].parent == Some(p)
  }

  ghost predicate ForkInv(s: State) {
    forall p: nat :: p < |s.procs| ==> ForkOk(s, p)
  }

  lemma FactsOf(s: State, c: nat, p: nat, op: LockOp, eff: Effect, pc': Pc, over': Over, s': State)
    requires FamilyStep(s, c, p, op, eff, pc', over', s')
    ensures ThreadShape(s, c, p, op, eff, pc', over', s') && p < |s.procs| == |s'.procs|
    ensures Move(s, p, op, eff, pc', over') && SlotStep(p, s.procs[p].pc, eff, pc') && TargetFree(s, p, eff)
    ensures EffectStep(s, p, s.procs[p].pc, op, eff, pc') && ForksOk(s) && s.procs[p].state != USED
  {
    hide FamilyInv, CpuOk, HoldsExactly, OnOne, ForksOk, EffectStep, ExitStep, WaitStep, SlotStep, TargetFree, CodeStep,
      OverStep, Move, OverOk;
  }

  /** No step takes a child from a thread that is still in fork. */
  lemma ParentStays(s: State, c: nat, p: nat, op: LockOp, eff: Effect, pc': Pc, over': Over, s': State, q: nat)
    requires FamilyStep(s, c, p, op, eff, pc', over', s') && q < |s.procs| && ParentSet(s.procs[q].pc) && ForkOk(s, q)
    ensures |s'.procs| == |s.procs| && s'.procs[s.procs[q].pc.i].parent == Some(q)
  {
    hide FamilyStep, Move, ThreadShape;
    var i := s.procs[q].pc.i;
    FactsOf(s, c, p, op, eff, pc', over', s');
    StepKeeps(s, c, p, op, eff, pc', over', s', i);
    assert s.procs[i].state == USED && i != p;
  }

  lemma ThreadForkInv(s: State, c: nat, p: nat, op: LockOp, eff: Effect, pc': Pc, over': Over, s': State)
    requires Inv(s) && FamilyInv(s) && ForkInv(s) && ThreadStep(s, c, p, op, eff, pc', over', s')
    ensures ForkInv(s')
  {
    hide Inv, FamilyInv, FamilyStep, Move, SlotStep, TargetFree, EffectStep, ForksOk;
    FamilySteps(s, c, p, op, eff, pc', over', s');
    FactsOf(s, c, p, op, eff, pc', over', s');
    ForkSteps(s, p, op, eff, pc', over');
    hide ThreadShape;
    forall q: nat | q < |s'.procs|
      ensures ForkOk(s', q)
    {
      StepKeeps(s, c, p, op, eff, pc', over', s', q);
      assert ForkOk(s, q);
      if ParentSet(s.procs[q].pc) {
        ParentStays(s, c, p, op, eff, pc', over', s', q);
      } else if q == p && ParentSet(pc') {
        NowSet(s, c, p, op, eff, pc', over', s');
      }
    }
  }

  lemma NowSet(s: State, c: nat, p: nat, op: LockOp, eff: Effect, pc': Pc, over': Over, s': State)
    requires FamilyStep(s, c, p, op, eff, pc', over', s') && eff.SetParent? && eff.who == p
    ensures eff.i < |s'.procs| && s'.procs[eff.i].parent == Some(p)
  {
    hide FamilyStep, Move;
    FactsOf(s, c, p, op, eff, pc', over', s');
  }

  lemma QuietForkInv(s: State, st: Step)
    requires ForkInv(s) && CanStep(s, st) && !st.Thread?
    ensures ForkInv(Next(s, st))
  {
    hide Next, CanStep;
    QuietProcs(s, st);
    var s' := Next(s, st);
    assert forall p: nat | p < |s.procs| :: Unmoved(s.procs[p], s'.procs[p]);
    forall p: nat | p < |s'.procs|
      ensures ForkOk(s', p)
    {
      assert ForkOk(s, p);
    }
  }

  lemma {:induction false} RunForkInv(run: seq<State>, steps: seq<Step>, i: nat)
    requires IsRun(run, steps) && i < |run|
    ensures ForkInv(run[i])
  {
    hide Inv, Next, SleepInv, FamilyInv;
    if i == 0 {
      assert forall p: nat :: p < |run[0].procs| ==> run[0].procs[p].pc == Start || run[0].procs[p].pc == Exited;
    } else {
      hide ForkInv;
      RunForkInv(run, steps, i - 1);
      RunFamilyInv(run, steps, i - 1);
      var s, st := run[i - 1], steps[i - 1];
      if st.Thread? {
        ThreadForkInv(s, st.c, s.cpus[st.c].on.value, st.op, st.eff, st.pc', st.over', run[i]);
      } else {
        QuietForkInv(s, st);
      }
    }
  }

  /** fork that returns the pid leaves the process it has created RUNNABLE at its start, as its own child. */
  lemma ForkChild(run: seq<State>, steps: seq<Step>, i: nat, p: nat)
    requires IsRun(run, steps) && i < |steps| && IsBy(run[i], steps[i], p) && p < |run[i].procs|
      && run[i].procs[p].pc.ForkLast? && steps[i].pc' != run[i].procs[p].pc
    ensures steps[i].pc' == Run
    ensures var s', j := run[i + 1], run[i].procs[p].pc.i;
      && j < |run[i].procs| == |s'.procs|
      && run[i].procs[j].state == USED && s'.procs[j].state == RUNNABLE && s'.procs[j].pc == Start
      && s'.procs[j].parent == Some(p) && s'.procs[j].creator == p
  {
    hide Inv, Next, SleepInv, FamilyInv, ForkInv;
    RunForkInv(run, steps, i);
    RunFamilyInv(run, steps, i);
    ChildReady(run[i], steps[i], run[i + 1], p);
  }

  lemma ChildReady(s: State, st: Step, s': State, p: nat)
    requires Inv(s) && FamilyInv(s) && ForkInv(s) && CanStep(s, st) && s' == Next(s, st) && IsBy(s, st, p)
    requires p < |s.procs| && s.procs[p].pc.ForkLast? && st.pc' != s.procs[p].pc
    ensures st.pc' == Run
    ensures var j := s.procs[p].pc.i;
      && j < |s.procs| == |s'.procs|
      && s.procs[j].state == USED && s'.procs[j].state == RUNNABLE && s'.procs[j].pc == Start
      && s'.procs[j].parent == Some(p) && s'.procs[j].creator == p
  {
    hide Inv, FamilyInv, FamilyStep, Move, SlotStep, TargetFree, EffectStep, Next;
    FamilySteps(s, st.c, p, st.op, st.eff, st.pc', st.over', s');
    FactsOf(s, st.c, p, st.op, st.eff, st.pc', st.over', s');
    ForkSteps(s, p, st.op, st.eff, st.pc', st.over');
    var j := s.procs[p].pc.i;
    UsedAtStart(s, j);
    ParentStays(s, st.c, p, st.op, st.eff, st.pc', st.over', s', p);
    CreatorOf(s, p);
  }

  lemma UsedAtStart(s: State, j: nat)
    requires Inv(s) && j < |s.procs| && s.procs[j].state == USED
    ensures s.procs[j].pc == Start
  {
    hide CpuOk, HoldsExactly, OnOne, ForksOk, OverOk;
    assert ProcessOk(j, s.procs[j], IsOn(s, j));
  }

  lemma CreatorOf(s: State, p: nat)
    requires FamilyInv(s) && p < |s.procs| && Forking(s.procs[p].pc) && s.procs[p].pc.i < |s.procs|
    ensures s.procs[s.procs[p].pc.i].creator == p
  {
    hide ReapedOk, ExitOk, ScanOk, WaitOk, InitOk;
    assert ParentOk(s, p);
  }
}
