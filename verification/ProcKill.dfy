/** What a call of kill does, in every run: it kills the process that has the pid, if one has it all the time, and no
    other. */
module ProcKill {
  import opened Collections
  import opened Proc
  import opened ProcControl
  import opened ProcSleep
  import opened ProcWait
  import opened ProcReap

  /** kill is at process i. */
  predicate InKill(pc: Pc) {
    pc.KillScan? || pc.KillAt?
  }

  /** One call of kill(pid) by p: it enters at step a and has returned at b. */
  ghost predicate IsKill(run: seq<State>, steps: seq<Step>, a: nat, b: nat, p: nat, pid: Option<(nat, nat)>) {
    && a + 1 < b < |run| == |steps| + 1 && (forall k: nat :: a < k <= b ==> p < |run[k].procs|)
    && run[a + 1].procs[p].pc == KillScan(0, pid) && run[b].procs[p].pc == Run
    && forall k: nat :: a < k < b ==> InKill(run[k].procs[p].pc)
  }

  /** In kill's code, a thread's step goes on to the next process unless this one has the pid, or is an interrupt. */
  predicate KillStep(s: State, pc: Pc, eff: Effect, pc': Pc) {
    InKill(pc) ==>
      || (pc' == pc && !eff.KillWake?)
      || (pc.KillScan? && eff == Nothing && pc' == if pc.i < |s.procs| then KillAt(pc.i, pc.pid) else Run)
      || (pc.KillAt? && pc.i < |s.procs|
           && if HasPid(pc.i, s.procs[pc.i], pc.pid) then eff == KillWake(pc.i) && pc' == Run
              else eff == Nothing && pc' == KillScan(pc.i + 1, pc.pid))
  }

  /** No other part of the kernel is in kill's code. */
  lemma FirstElse(s: State, p: nat, op: LockOp, eff: Effect, pc': Pc)
    requires p < |s.procs|
    requires ClientMove(s, p, op, eff, pc') || SleepLockMove(s, p, op, eff, pc') || SchedMove(s, p, op, eff, pc')
    ensures !InKill(s.procs[p].pc)
  {
    hide MaySleep;
  }

  lemma OtherElse(s: State, p: nat, op: LockOp, eff: Effect, pc': Pc)
    requires p < |s.procs|
    requires WakeMove(s, p, op, eff, pc') || ForkMove(s, p, op, eff, pc')
    ensures !InKill(s.procs[p].pc)
  {
  }

  lemma LastElse(s: State, p: nat, op: LockOp, eff: Effect, pc': Pc)
    requires p < |s.procs|
    requires ExitMove(s, p, op, eff, pc') || WaitMove(s, p, op, eff, pc')
    ensures !InKill(s.procs[p].pc)
  {
    hide ParentChan;
  }

  lemma KillCode(s: State, p: nat, op: LockOp, eff: Effect, pc': Pc)
    requires p < |s.procs| && CodeMove(s, p, op, eff, pc') && InKill(s.procs[p].pc)
    ensures KillMove(s, p, op, eff, pc')
  {
    hide ClientMove, SleepLockMove, SchedMove, WakeMove, KillMove, ForkMove, ExitMove, WaitMove, InKill;
    if ClientMove(s, p, op, eff, pc') || SleepLockMove(s, p, op, eff, pc') || SchedMove(s, p, op, eff, pc') {
      FirstElse(s, p, op, eff, pc');
    } else if WakeMove(s, p, op, eff, pc') || ForkMove(s, p, op, eff, pc') {
      OtherElse(s, p, op, eff, pc');
    } else if ExitMove(s, p, op, eff, pc') || WaitMove(s, p, op, eff, pc') {
      LastElse(s, p, op, eff, pc');
    }
  }

  lemma KillMoves(s: State, p: nat, op: LockOp, eff: Effect, pc': Pc)
    requires p < |s.procs| && KillMove(s, p, op, eff, pc')
    ensures KillStep(s, s.procs[p].pc, eff, pc')
  {
    hide HasPid;
  }

  lemma KillOver(s: State, p: nat, op: LockOp, eff: Effect, over': Over)
    requires p < |s.procs| && OverMove(s, p, op, eff, over')
    ensures !eff.KillWake?
  {
  }

  lemma KillSteps(s: State, p: nat, op: LockOp, eff: Effect, pc': Pc, over': Over)
    requires p < |s.procs| && Move(s, p, op, eff, pc', over')
    ensures KillStep(s, s.procs[p].pc, eff, pc')
  {
    hide CodeMove, OverMove, HasPid, KillMove;
    if InKill(s.procs[p].pc) {
      if s.procs[p].over == Plain == over' && CodeMove(s, p, op, eff, pc') {
        hide KillStep;
        KillCode(s, p, op, eff, pc');
        KillMoves(s, p, op, eff, pc');
      } else {
        KillOver(s, p, op, eff, over');
      }
    }
  }

  /** A step, for a thread in kill: another thread's leaves it where it is. */
  lemma KillNext(s: State, st: Step, s': State, p: nat)
    requires Inv(s) && FamilyInv(s) && CanStep(s, st) && s' == Next(s, st) && p < |s.procs| && InKill(s.procs[p].pc)
    ensures |s'.procs| == |s.procs|
    ensures if IsBy(s, st, p) then s'.procs[p].pc == st.pc' && KillStep(s, s.procs[p].pc, st.eff, st.pc')
            else s'.procs[p].pc == s.procs[p].pc
  {
    hide Inv, FamilyInv, Next, Move, ProcessOk, ThreadShape, FamilyStep, KillStep;
    if st.Thread? {
      var t := s.cpus[st.c].on.value;
      FamilySteps(s, st.c, t, st.op, st.eff, st.pc', st.over', s');
      ShapeOf(s, st.c, t, st.op, st.eff, st.pc', st.over', s');
      KillSteps(s, t, st.op, st.eff, st.pc', st.over');
      StepKeeps(s, st.c, t, st.op, st.eff, st.pc', st.over', s', p);
      if s.procs[p].state == UNUSED {
        UnusedOut(s, p);
      }
    } else {
      QuietProcs(s, st);
      assert Unmoved(s.procs[p], s'.procs[p]);
    }
  }

  /** The pid stays that of the call. */
  lemma {:induction false} SamePid(run: seq<State>, steps: seq<Step>, a: nat, b: nat, p: nat, pid: Option<(nat, nat)>,
                                   k: nat)
    requires IsRun(run, steps) && IsKill(run, steps, a, b, p, pid) && a < k < b
    ensures run[k].procs[p].pc.pid == pid
    decreases k
  {
    hide Inv, SleepInv, FamilyInv, Next, CanStep, Initial, HasPid;
    if k > a + 1 {
      SamePid(run, steps, a, b, p, pid, k - 1);
      RunFamilyInv(run, steps, k - 1);
      KillNext(run[k - 1], steps[k - 1], run[k], p);
    }
  }

  /** A call of kill kills only a process that has the pid. */
  lemma KillOnly(run: seq<State>, steps: seq<Step>, a: nat, b: nat, p: nat, pid: Option<(nat, nat)>, k: nat)
    requires IsRun(run, steps) && IsKill(run, steps, a, b, p, pid) && a < k < b
    requires IsBy(run[k], steps[k], p) && steps[k].eff.KillWake?
    ensures var i := steps[k].eff.i; i < |run[k].procs| && HasPid(i, run[k].procs[i], pid)
  {
    hide Inv, SleepInv, FamilyInv, Next, CanStep, Initial, HasPid;
    SamePid(run, steps, a, b, p, pid, k);
    RunFamilyInv(run, steps, k);
    KillNext(run[k], steps[k], run[k + 1], p);
  }

  /** While slot j has the pid, the scan is not past it. */
  lemma {:induction false} NotPast(run: seq<State>, steps: seq<Step>, a: nat, b: nat, p: nat, pid: Option<(nat, nat)>,
                                   j: nat, k: nat)
    requires IsRun(run, steps) && IsKill(run, steps, a, b, p, pid) && a < k < b
    requires forall m: nat :: a < m < b ==> j < |run[m].procs| && HasPid(j, run[m].procs[j], pid)
    ensures run[k].procs[p].pc.i <= j
    decreases k
  {
    hide Inv, SleepInv, FamilyInv, Next, CanStep, Initial, HasPid;
    if k > a + 1 {
      NotPast(run, steps, a, b, p, pid, j, k - 1);
      SamePid(run, steps, a, b, p, pid, k - 1);
      RunFamilyInv(run, steps, k - 1);
      KillNext(run[k - 1], steps[k - 1], run[k], p);
    }
  }

  /** A call of kill while slot j has the pid all the time returns with that process killed, and not asleep. */
  lemma KillFinds(run: seq<State>, steps: seq<Step>, a: nat, b: nat, p: nat, j: nat, gen: nat)
    requires IsRun(run, steps) && IsKill(run, steps, a, b, p, Some((j, gen)))
    requires forall m: nat :: a < m < b ==> j < |run[m].procs| && HasPid(j, run[m].procs[j], Some((j, gen)))
    ensures IsBy(run[b - 1], steps[b - 1], p) && steps[b - 1].eff == KillWake(j)
    ensures j < |run[b].procs| && run[b].procs[j].killed && run[b].procs[j].state != SLEEPING
  {
    hide Inv, SleepInv, FamilyInv, Next, CanStep, Initial;
    NotPast(run, steps, a, b, p, Some((j, gen)), j, b - 1);
    SamePid(run, steps, a, b, p, Some((j, gen)), b - 1);
    RunFamilyInv(run, steps, b - 1);
    KillNext(run[b - 1], steps[b - 1], run[b], p);
    Killed(run[b - 1], steps[b - 1], run[b], p, j);
  }

  lemma Killed(s: State, st: Step, s': State, p: nat, j: nat)
    requires CanStep(s, st) && s' == Next(s, st) && p < |s.procs| && IsBy(s, st, p) && j < |s.procs|
    requires st.eff == KillWake(j) && InKill(s.procs[p].pc) && st.pc' == Run
    ensures |s'.procs| == |s.procs| && s'.procs[j].killed && s'.procs[j].state != SLEEPING
  {
    if s.procs[p].over == Plain == st.over' && CodeMove(s, p, st.op, st.eff, st.pc') {
      hide CodeMove;
      KillCode(s, p, st.op, st.eff, st.pc');
    }
  }
}
