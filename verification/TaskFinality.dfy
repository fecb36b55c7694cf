/** When `completed` is final: exactly which step leaves it, over any run, with no assumption about time. */
module TaskFinality {
  import opened TaskTable
  import opened TaskSystem
  import opened TaskInvariants

  predicate IsCompleted(s: System, id: TaskId) {
    id in s.db.rows && s.db.rows[id].status.Completed?
  }

  /** A commit onto `id` of a result other than `Completed`. */
  predicate Overwrites(s: System, step: Step, id: TaskId) {
    && step.Commit? && HasDecided(s, step.w) && s.ctl[step.w].hold.task == id
    && s.ctl[step.w].hold.decision.value.result.newStatus != Known(Completed)
  }

  lemma CommitLeavesCompleted(s: System, v: WorkerId, id: TaskId)
    requires Inv(s) && Enabled(s, Commit(v)) && IsCompleted(s, id)
    ensures IsCompleted(Do(s, Commit(v)), id) <==> !Overwrites(s, Commit(v), id)
  {
    ProcessorHolds(s, v);
    var h := s.ctl[v].hold;
    var d := h.decision.value;
    CommitTouches(s.db, s.now, h.task, d.ops, d.result);
    assert Touched(s.db.rows[id], RunOps(s.db, s.now, d.ops).value.value.rows[id]);
  }

  /** Exactly one kind of step takes a task out of `completed`: a commit by someone who still has it in hand, with another result. */
  lemma CompletedLeaves(s: System, step: Step, id: TaskId)
    requires Inv(s) && Enabled(s, step) && IsCompleted(s, id)
    ensures IsCompleted(Do(s, step), id) <==> !Overwrites(s, step, id)
  {
    match step
    case Api(ops) =>
      OpsTouch(s.db, s.now, ops);
      assert Touched(s.db.rows[id], Do(s, step).db.rows[id]);
    case NoHandler(ok) => NoHandlerDisabled(s, ok);
    case Commit(v) => CommitLeavesCompleted(s, v, id);
    case _ =>
  }

  /** Over any run: a completed task stays completed for a stretch if and only if nobody in that stretch commits another result onto it. */
  lemma {:induction false} CompletedExact(states: seq<System>, steps: seq<Step>, i: nat, j: nat, id: TaskId)
    requires IsRun(states, steps) && i <= j < |states| && IsCompleted(states[i], id)
    ensures (forall k :: i <= k <= j ==> IsCompleted(states[k], id)) <==> (forall k :: i <= k < j ==> !Overwrites(states[k], steps[k], id))
    decreases j
  {
    if i < j {
      CompletedExact(states, steps, i, j - 1, id);
      RunInv(states, steps, j - 1);
      assert StepAt(states, steps, j - 1);
      if IsCompleted(states[j - 1], id) {
        CompletedLeaves(states[j - 1], steps[j - 1], id);
      }
    }
  }

  // ------------------------------------------------------------------- one worker

  /** The only worker; what it has in hand is not completed. */
  ghost predicate Alone(s: System, w: WorkerId) {
    && Inv(s) && s.ctl.Keys == {w}
    && (HoldOf(s, w).Some? ==> !IsCompleted(s, HoldOf(s, w).value.task))
  }

  lemma OnlyOneHolds(s: System, w: WorkerId, v: WorkerId)
    requires Alone(s, w) && HoldOf(s, v).Some?
    ensures v == w
  {
    assert TokenOk(s, v);
  }

  /** A row becomes completed only by a commit. */
  lemma BecomesCompleted(s: System, step: Step, id: TaskId)
    requires Inv(s) && Enabled(s, step) && !step.Commit? && id in s.db.rows && !IsCompleted(s, id)
    ensures !IsCompleted(Do(s, step), id)
  {
    match step
    case Api(ops) =>
      OpsTouch(s.db, s.now, ops);
      assert Touched(s.db.rows[id], Do(s, step).db.rows[id]);
    case NoHandler(ok) => NoHandlerDisabled(s, ok);
    case _ =>
  }

  lemma CommitFreesHands(s: System, w: WorkerId)
    requires TokensConserved(s) && Enabled(s, Commit(w))
    ensures HoldOf(Do(s, Commit(w)), w).None?
  {
    ProcessorHolds(s, w);
  }

  lemma StepKeepsAlone(s: System, step: Step, w: WorkerId)
    requires Alone(s, w) && Enabled(s, step)
    ensures Alone(Do(s, step), w)
  {
    StepKeepsInv(s, step);
    StepKeepsWorkers(s, step);
    var t := Do(s, step);
    if step.Commit? {
      ProcessorHolds(s, step.w);
      OnlyOneHolds(s, w, step.w);
      CommitFreesHands(s, w);
    } else if HoldOf(t, w).Some? {
      HoldSource(s, step, w);
      var id := HoldOf(t, w).value.task;
      assert step.Claim? && step.id == id ==> !IsCompleted(s, id);
      assert id in s.db.rows;
      BecomesCompleted(s, step, id);
    }
  }

  lemma {:induction false} AloneRun(states: seq<System>, steps: seq<Step>, i: nat, w: WorkerId)
    requires IsRun(states, steps) && i < |states| && states[0].ctl.Keys == {w}
    ensures Alone(states[i], w)
  {
    if i == 0 {
      InitInv(states[0]);
    } else {
      AloneRun(states, steps, i - 1, w);
      assert StepAt(states, steps, i - 1);
      StepKeepsAlone(states[i - 1], steps[i - 1], w);
    }
  }

  /** With one worker `completed` is final in every run, however late anything is. */
  lemma {:induction false} SoleCompletedIsFinal(states: seq<System>, steps: seq<Step>, i: nat, j: nat, id: TaskId, w: WorkerId)
    requires IsRun(states, steps) && i <= j < |states| && states[0].ctl.Keys == {w} && IsCompleted(states[i], id)
    ensures IsCompleted(states[j], id)
    decreases j
  {
    if i < j {
      SoleCompletedIsFinal(states, steps, i, j - 1, id, w);
      AloneRun(states, steps, j - 1, w);
      var s, step := states[j - 1], steps[j - 1];
      assert StepAt(states, steps, j - 1);
      CompletedLeaves(s, step, id);
      if step.Commit? {
        ProcessorHolds(s, step.w);
        OnlyOneHolds(s, w, step.w);
      }
    }
  }
}
