/** When an ingestion that was reported as done stays done, and what it says about the path. */
module MediaReports {
  import opened Results
  import opened Catalog
  import opened TaskTable
  import opened TaskSystem
  import opened TaskInvariants
  import opened TaskLeases
  import opened TaskOwnership
  import opened TaskFinality
  import MediaListing
  import opened MediaOps
  import opened MediaRuns

  /** The step of the queue inside an action, if it has one. */
  function QueueStep(w: World, a: Action): Option<Step> {
    match a
    case Post(_) => Some(Api([NewIngestion(w.db.nextMedia)]))
    case Work(step, _, _) => Some(step)
    case _ => None
  }

  lemma ActionIsQueueStep(w: World, a: Action)
    requires Can(w, a)
    ensures match QueueStep(w, a)
            case Some(step) => Enabled(w.sys, step) && Next(w, a).sys == Do(w.sys, step)
            case None => Next(w, a).sys == w.sys
  {
  }

  lemma ActionKeepsLeases(w: World, a: Action)
    requires LeaseInv(w.sys) && Punctual(w.sys) && Can(w, a)
    ensures LeaseInv(Next(w, a).sys)
  {
    ActionIsQueueStep(w, a);
    if QueueStep(w, a).Some? {
      PunctualNeverSplits(w.sys, QueueStep(w, a).value);
      StepKeepsLeaseInv(w.sys, QueueStep(w, a).value);
    }
  }

  lemma ActionKeepsCompleted(w: World, a: Action, t: TaskId)
    requires LeaseInv(w.sys) && Can(w, a) && t in TaskRows(w) && TaskRows(w)[t].status.Completed?
    ensures t in TaskRows(Next(w, a)) && TaskRows(Next(w, a))[t] == TaskRows(w)[t]
  {
    ActionIsQueueStep(w, a);
    if QueueStep(w, a).Some? {
      StepKeepsCompleted(w.sys, QueueStep(w, a).value, t);
    }
  }

  ghost predicate PunctualHistory(ws: seq<World>, acts: seq<Action>) {
    IsHistory(ws, acts) && forall i :: 0 <= i < |acts| ==> Punctual(ws[i].sys)
  }

  lemma {:induction false} LeasesHold(ws: seq<World>, acts: seq<Action>, i: nat)
    requires PunctualHistory(ws, acts) && i < |ws|
    ensures LeaseInv(ws[i].sys)
  {
    if i == 0 {
      InitInv(ws[0].sys);
    } else {
      LeasesHold(ws, acts, i - 1);
      assert NextAt(ws, acts, i - 1) && Punctual(ws[i - 1].sys);
      ActionKeepsLeases(ws[i - 1], acts[i - 1]);
    }
  }

  lemma {:induction false} CompletedStays(ws: seq<World>, acts: seq<Action>, i: nat, j: nat, t: TaskId)
    requires PunctualHistory(ws, acts) && i <= j < |ws|
    requires t in TaskRows(ws[i]) && TaskRows(ws[i])[t].status.Completed?
    ensures t in TaskRows(ws[j]) && TaskRows(ws[j])[t] == TaskRows(ws[i])[t]
    decreases j
  {
    if i < j {
      CompletedStays(ws, acts, i, j - 1, t);
      LeasesHold(ws, acts, j - 1);
      assert NextAt(ws, acts, j - 1);
      ActionKeepsCompleted(ws[j - 1], acts[j - 1], t);
    }
  }

  /** Once `getMedia` reports an ingestion as done, it reports it as done for as long as the media exists. */
  lemma DoneReportIsFinal(ws: seq<World>, acts: seq<Action>, i: nat, j: nat, m: Id)
    requires PunctualHistory(ws, acts) && i <= j < |ws| && m in ws[i].db.media && m in ws[j].db.media
    requires Reported(ws[i], m).Some? && Reported(ws[i], m).value.ingestion == IngestionDone
    ensures Reported(ws[j], m).Some? && Reported(ws[j], m).value.ingestion == IngestionDone
  {
    ErrorReportIsFinal(ws, acts, i, j, m);
    OneIngestionPerMedia(ws, acts, i, m);
    OneIngestionPerMedia(ws, acts, j, m);
    var t := TheOne(Joined(TaskRows(ws[i]), m));
    assert t in Joined(TaskRows(ws[i]), m);
    CompletedStays(ws, acts, i, j, t);
  }

  // ------------------------------------------------------------------ any history

  /** The action commits a result other than `Completed` onto task `t`. */
  predicate ActionOverwrites(w: World, a: Action, t: TaskId) {
    QueueStep(w, a).Some? && Overwrites(w.sys, QueueStep(w, a).value, t)
  }

  lemma ActionLeavesCompleted(w: World, a: Action, t: TaskId)
    requires Inv(w.sys) && Can(w, a) && IsCompleted(w.sys, t)
    ensures IsCompleted(Next(w, a).sys, t) <==> !ActionOverwrites(w, a, t)
  {
    ActionIsQueueStep(w, a);
    if QueueStep(w, a).Some? {
      CompletedLeaves(w.sys, QueueStep(w, a).value, t);
    }
  }

  ghost predicate OverwritesAt(ws: seq<World>, acts: seq<Action>, i: nat, t: TaskId)
    requires i < |ws| && i < |acts|
  {
    ActionOverwrites(ws[i], acts[i], t)
  }

  ghost predicate CompletedAt(ws: seq<World>, i: nat, t: TaskId)
    requires i < |ws|
  {
    IsCompleted(ws[i].sys, t)
  }

  lemma LeavesCompletedAt(ws: seq<World>, acts: seq<Action>, i: nat, t: TaskId)
    requires IsHistory(ws, acts) && i < |acts| && CompletedAt(ws, i, t)
    ensures CompletedAt(ws, i + 1, t) <==> !OverwritesAt(ws, acts, i, t)
  {
    HistoryInv(ws, acts, i);
    assert NextAt(ws, acts, i);
    ActionLeavesCompleted(ws[i], acts[i], t);
  }

  lemma {:induction false} CompletedThroughout(ws: seq<World>, acts: seq<Action>, i: nat, j: nat, t: TaskId)
    requires IsHistory(ws, acts) && i <= j < |ws| && CompletedAt(ws, i, t)
    ensures (forall k :: i <= k <= j ==> CompletedAt(ws, k, t)) <==> (forall k :: i <= k < j ==> !OverwritesAt(ws, acts, k, t))
    decreases j
  {
    if i < j {
      CompletedThroughout(ws, acts, i, j - 1, t);
      if CompletedAt(ws, j - 1, t) {
        LeavesCompletedAt(ws, acts, j - 1, t);
      }
    }
  }

  ghost predicate DoneAt(ws: seq<World>, i: nat, m: Id)
    requires i < |ws|
  {
    Reported(ws[i], m).Some? && Reported(ws[i], m).value.ingestion == IngestionDone
  }

  /** The task that a media has for life. */
  function TaskOf(w: World, m: Id): TaskId {
    if |Joined(TaskRows(w), m)| == 1 then TheOne(Joined(TaskRows(w), m)) else 0
  }

  lemma DoneIsCompleted(ws: seq<World>, acts: seq<Action>, i: nat, k: nat, m: Id)
    requires IsHistory(ws, acts) && i <= k < |ws| && m in ws[i].db.media && m in ws[k].db.media
    ensures DoneAt(ws, k, m) <==> CompletedAt(ws, k, TaskOf(ws[i], m))
  {
    ErrorReportIsFinal(ws, acts, i, k, m);
    OneIngestionPerMedia(ws, acts, k, m);
    assert TaskOf(ws[i], m) in Joined(TaskRows(ws[k]), m);
  }

  /** Over any history, with no assumption about time: done is reported throughout, if and only if nobody commits another result onto the media's task. */
  lemma DoneExact(ws: seq<World>, acts: seq<Action>, i: nat, j: nat, m: Id)
    requires IsHistory(ws, acts) && i <= j < |ws| && m in ws[i].db.media && m in ws[j].db.media && DoneAt(ws, i, m)
    ensures (forall k :: i <= k <= j ==> DoneAt(ws, k, m)) <==> (forall k :: i <= k < j ==> !OverwritesAt(ws, acts, k, TaskOf(ws[i], m)))
  {
    var t := TaskOf(ws[i], m);
    forall k | i <= k <= j ensures DoneAt(ws, k, m) <==> CompletedAt(ws, k, t) {
      MediaListing.StaysBetween(ws, acts, i, k, j, m);
      DoneIsCompleted(ws, acts, i, k, m);
    }
    CompletedThroughout(ws, acts, i, j, t);
  }

  // ------------------------------------------------------------------- one worker

  lemma ActionKeepsAlone(w: World, a: Action, v: WorkerId)
    requires Alone(w.sys, v) && Can(w, a)
    ensures Alone(Next(w, a).sys, v)
  {
    ActionIsQueueStep(w, a);
    if QueueStep(w, a).Some? {
      StepKeepsAlone(w.sys, QueueStep(w, a).value, v);
    }
  }

  lemma AloneAt(ws: seq<World>, acts: seq<Action>, i: nat, v: WorkerId)
    requires IsHistory(ws, acts) && i < |acts| && Alone(ws[i].sys, v)
    ensures Alone(ws[i + 1].sys, v)
  {
    assert NextAt(ws, acts, i);
    ActionKeepsAlone(ws[i], acts[i], v);
  }

  lemma {:induction false} AloneHistory(ws: seq<World>, acts: seq<Action>, i: nat, v: WorkerId)
    requires IsHistory(ws, acts) && i < |ws| && ws[0].sys.ctl.Keys == {v}
    ensures Alone(ws[i].sys, v)
  {
    if i == 0 {
      InitInv(ws[0].sys);
    } else {
      AloneHistory(ws, acts, i - 1, v);
      AloneAt(ws, acts, i - 1, v);
    }
  }

  lemma AloneNeverOverwrites(w: World, a: Action, v: WorkerId, t: TaskId)
    requires Alone(w.sys, v) && IsCompleted(w.sys, t)
    ensures !ActionOverwrites(w, a, t)
  {
    if ActionOverwrites(w, a, t) {
      var step := QueueStep(w, a).value;
      ProcessorHolds(w.sys, step.w);
      OnlyOneHolds(w.sys, v, step.w);
    }
  }

  lemma {:induction false} SoleCompletedStays(ws: seq<World>, acts: seq<Action>, i: nat, j: nat, t: TaskId, v: WorkerId)
    requires IsHistory(ws, acts) && i <= j < |ws| && ws[0].sys.ctl.Keys == {v} && CompletedAt(ws, i, t)
    ensures CompletedAt(ws, j, t)
    decreases j
  {
    if i < j {
      SoleCompletedStays(ws, acts, i, j - 1, t, v);
      AloneHistory(ws, acts, j - 1, v);
      AloneNeverOverwrites(ws[j - 1], acts[j - 1], v, t);
      LeavesCompletedAt(ws, acts, j - 1, t);
    }
  }

  /** With one worker, an ingestion once reported as done is reported as done for as long as the media exists, however late anything is. */
  lemma SoleDoneIsFinal(ws: seq<World>, acts: seq<Action>, i: nat, j: nat, m: Id, v: WorkerId)
    requires IsHistory(ws, acts) && i <= j < |ws| && m in ws[i].db.media && m in ws[j].db.media && DoneAt(ws, i, m)
    requires ws[0].sys.ctl.Keys == {v}
    ensures DoneAt(ws, j, m)
  {
    DoneIsCompleted(ws, acts, i, i, m);
    DoneIsCompleted(ws, acts, i, j, m);
    SoleCompletedStays(ws, acts, i, j, TaskOf(ws[i], m), v);
  }
}
